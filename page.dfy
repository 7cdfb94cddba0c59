/** The state of the receipt page and the event handlers that change it.
    Each React state variable is a field; each `setX` call is an assignment
    to that field. */
module Page {
  import opened Wrappers
  import opened NameList
  import opened ReceiptRow
  import opened ReceiptTable

  class ReceiptPage {
    /** The text typed into the names box. */
    var namesInput: string
    /** The participants saved from it. */
    var names: seq<string>
    /** The rows of the editable table. */
    var data: seq<Row>

    /** Every saved name is non-empty, comma-free and trimmed. */
    ghost predicate Valid()
      reads this
    {
      forall i :: 0 <= i < |names| ==> IsCleanName(names[i])
    }

    /** The initial state: every `useState` starts empty. */
    constructor ()
      ensures Valid()
      ensures namesInput == [] && names == [] && data == []
    {
      namesInput := [];
      names := [];
      data := [];
    }

    /** The names box's `onChange`: `setNamesInput(e.target.value)`. */
    method EditNamesInput(text: string)
      requires Valid()
      modifies this
      ensures Valid()
      ensures namesInput == text
      ensures names == old(names) && data == old(data)
    {
      namesInput := text;
    }

    /** `handleNamesSubmit`: the names become the parsed text box. The rows
        already in the table are not touched, so they carry no flag for a
        newly added name. */
    method SubmitNames()
      requires Valid()
      modifies this
      ensures Valid()
      ensures names == ParseNames(old(namesInput))
      ensures namesInput == old(namesInput) && data == old(data)
    {
      var text := namesInput;
      var parsedNames := ParseNames(text);
      names := parsedNames;
    }

    /** The state change of `handleUpload` once the receipt service has
        answered: `outcome` is the parsed row list, or `None` when the
        request failed and the `catch` branch empties the table. Otherwise
        every row is augmented with unchecked flags for `namesAtClick`: the
        `names` of the render whose button was clicked, which the
        asynchronous handler closed over. A "Save Names" pressed while the
        request is pending changes `names` but not `namesAtClick`. */
    method Upload(namesAtClick: seq<string>, outcome: Option<seq<Row>>)
      requires Valid()
      modifies this
      ensures Valid()
      ensures outcome.None? ==> data == []
      ensures outcome.Some? ==> |data| == |outcome.value|
      ensures outcome.Some? ==> forall i :: 0 <= i < |data| ==> IsAugmentation(outcome.value[i], namesAtClick, data[i])
      ensures namesInput == old(namesInput) && names == old(names)
    {
      match outcome
      case None =>
        data := [];
      case Some(parsedData) =>
        var augmented := AugmentRows(parsedData, namesAtClick);
        data := augmented;
    }

    /** `handleInputChange(index, field, value)`. */
    method InputChange(index: nat, field: string, value: string, parseFloat: string -> real)
      requires Valid()
      requires index < |data|
      modifies this
      ensures Valid()
      ensures data == WithField(old(data), index, field, EditedValue(field, value, parseFloat))
      ensures namesInput == old(namesInput) && names == old(names)
    {
      var updatedData := data;
      updatedData := updatedData[index := updatedData[index][field := EditedValue(field, value, parseFloat)]];
      data := updatedData;
    }

    /** `handleCheckboxChange(index, field)`. */
    method CheckboxChange(index: nat, field: string)
      requires Valid()
      requires index < |data|
      modifies this
      ensures Valid()
      ensures data == Toggled(old(data), index, field)
      ensures namesInput == old(namesInput) && names == old(names)
    {
      var updatedData := data;
      var flipped := Bool(!Truthy(Lookup(updatedData[index], field)));
      updatedData := updatedData[index := updatedData[index][field := flipped]];
      data := updatedData;
    }
  }

  /** A checkbox clicked twice in a row, through the page's own handler,
      shows the same tick as before: the field now holds, as a boolean, the
      truth value it was read as, and nothing else changes. */
  method CheckboxTwice(page: ReceiptPage, index: nat, field: string)
    requires page.Valid()
    requires index < |page.data|
    modifies page
    ensures page.Valid()
    ensures page.data == WithField(old(page.data), index, field, Bool(Truthy(Lookup(old(page.data)[index], field))))
    ensures Truthy(Lookup(page.data[index], field)) == Truthy(Lookup(old(page.data)[index], field))
    ensures page.names == old(page.names) && page.namesInput == old(page.namesInput)
  {
    ghost var before := page.data;
    page.CheckboxChange(index, field);
    page.CheckboxChange(index, field);
    ToggleTwice(before, index, field);
  }
}

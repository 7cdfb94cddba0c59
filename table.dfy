/** The two edits the receipt table makes to its rows. Each copies the row
    list, rebuilds the row at `index` with one field replaced, and stores the
    copy: the functions here give the resulting list. */
module ReceiptTable {
  import opened Wrappers
  import opened ReceiptRow

  /** What `handleInputChange` stores for typed text: `parseFloat(value)`
      in the `Quantity` and `price` columns, the raw text in any other.
      `parseFloat` is passed in and left uninterpreted. */
  function EditedValue(field: string, value: string, parseFloat: string -> real): (v: Value)
    ensures v.Num? <==> field == QuantityKey || field == PriceKey
    ensures v.Num? ==> v.x == parseFloat(value)
    ensures !v.Num? ==> v == Str(value)
  {
    if field == QuantityKey || field == PriceKey then Num(parseFloat(value)) else Str(value)
  }

  /** `updatedData[index] = { ...updatedData[index], [field]: v }` on a copy
      of `data`: same length, only row `index` differs, and in it only
      `field`, which now holds `v`. */
  function WithField(data: seq<Row>, index: nat, field: string, v: Value): (updated: seq<Row>)
    requires index < |data|
    ensures |updated| == |data|
    ensures forall j :: 0 <= j < |data| && j != index ==> updated[j] == data[j]
    ensures Get(updated[index], field) == Some(v)
    ensures forall k :: k != field ==> Get(updated[index], k) == Get(data[index], k)
  {
    data[index := data[index][field := v]]
  }

  /** `handleCheckboxChange`: `field` of row `index` becomes an own property
      holding the boolean negation of what `row[field]` reads as; every
      other row and field is unchanged. */
  function Toggled(data: seq<Row>, index: nat, field: string): (updated: seq<Row>)
    requires index < |data|
    ensures |updated| == |data|
    ensures forall j :: 0 <= j < |data| && j != index ==> updated[j] == data[j]
    ensures Get(updated[index], field) == Some(Bool(!Truthy(Lookup(data[index], field))))
    ensures forall k :: k != field ==> Get(updated[index], k) == Get(data[index], k)
  {
    WithField(data, index, field, Bool(!Truthy(Lookup(data[index], field))))
  }

  /** Ticking a box whose key the row lacks stores `true`, unless the key
      names an `Object.prototype` property: that reads as truthy, so the
      first tick stores `false`. */
  lemma ToggleMissingField(data: seq<Row>, index: nat, field: string)
    requires index < |data|
    requires field !in data[index]
    ensures field !in ObjectPrototypeKeys ==> Get(Toggled(data, index, field)[index], field) == Some(Bool(true))
    ensures field in ObjectPrototypeKeys ==> Get(Toggled(data, index, field)[index], field) == Some(Bool(false))
  {
  }

  /** Typing into a cell of a row with the declared `ParsedRow` shape keeps
      that shape: `Quantity` and `price` receive numbers, `Item` text. */
  lemma EditKeepsReceiptFields(data: seq<Row>, index: nat, field: string, value: string, parseFloat: string -> real)
    requires index < |data|
    requires HasReceiptFields(data[index])
    ensures HasReceiptFields(WithField(data, index, field, EditedValue(field, value, parseFloat))[index])
  {
  }

  /** Two list-level edits agree when they agree on every row's every field. */
  lemma RowsEqual(a: seq<Row>, b: seq<Row>)
    requires |a| == |b|
    requires forall j, k :: 0 <= j < |a| ==> Get(a[j], k) == Get(b[j], k)
    ensures a == b
  {
    forall j | 0 <= j < |a| ensures a[j] == b[j] {
      assert a[j].Keys == b[j].Keys by {
        forall k ensures k in a[j] <==> k in b[j] {
          assert Get(a[j], k) == Get(b[j], k);
        }
      }
      forall k | k in a[j] ensures a[j][k] == b[j][k] {
        assert Get(a[j], k) == Get(b[j], k);
      }
    }
  }

  /** Ticking a box twice leaves it holding the boolean it was read as
      before: the original field with its value made boolean. */
  lemma ToggleTwice(data: seq<Row>, index: nat, field: string)
    requires index < |data|
    ensures Toggled(Toggled(data, index, field), index, field)
         == WithField(data, index, field, Bool(Truthy(Lookup(data[index], field))))
    ensures Truthy(Lookup(Toggled(Toggled(data, index, field), index, field)[index], field))
         == Truthy(Lookup(data[index], field))
  {
    var twice := Toggled(Toggled(data, index, field), index, field);
    var once := WithField(data, index, field, Bool(Truthy(Lookup(data[index], field))));
    forall j, k | 0 <= j < |twice| ensures Get(twice[j], k) == Get(once[j], k) {
      if j == index && k == field {
        assert Get(twice[j], k) == Some(Bool(Truthy(Lookup(data[index], field))));
      }
    }
    RowsEqual(twice, once);
  }

  /** On a field that already holds a boolean, ticking twice is the identity. */
  lemma ToggleInvolution(data: seq<Row>, index: nat, field: string)
    requires index < |data|
    requires field in data[index] && data[index][field].Bool?
    ensures Toggled(Toggled(data, index, field), index, field) == data
  {
    ToggleTwice(data, index, field);
    var once := WithField(data, index, field, Bool(Truthy(Lookup(data[index], field))));
    forall j, k | 0 <= j < |data| ensures Get(once[j], k) == Get(data[j], k) {
    }
    RowsEqual(once, data);
  }

  /** Typing into the same cell again keeps only the last value. */
  lemma EditOverwrites(data: seq<Row>, index: nat, field: string, v: Value, w: Value)
    requires index < |data|
    ensures WithField(WithField(data, index, field, v), index, field, w) == WithField(data, index, field, w)
  {
    var a := WithField(WithField(data, index, field, v), index, field, w);
    var b := WithField(data, index, field, w);
    forall j, k | 0 <= j < |a| ensures Get(a[j], k) == Get(b[j], k) {
    }
    RowsEqual(a, b);
  }

  /** Edits of two different cells do not interfere: their order is immaterial. */
  lemma EditsCommute(data: seq<Row>, i: nat, f: string, v: Value, j: nat, g: string, w: Value)
    requires i < |data| && j < |data|
    requires i != j || f != g
    ensures WithField(WithField(data, i, f, v), j, g, w) == WithField(WithField(data, j, g, w), i, f, v)
  {
    var a := WithField(WithField(data, i, f, v), j, g, w);
    var b := WithField(WithField(data, j, g, w), i, f, v);
    forall r, k | 0 <= r < |a| ensures Get(a[r], k) == Get(b[r], k) {
    }
    RowsEqual(a, b);
  }
}

/** Receipt rows as the page holds them: one JavaScript object per line
    item, whose keys are the receipt's own fields (`Quantity`, `Item`,
    `price`) and, side by side with them in the same key space, one
    checkbox flag for `everyone` and one per participant name. */
module ReceiptRow {
  import opened Wrappers

  /** The values a row field can hold. Numbers are taken as reals; the
      floating-point format and NaN are not modelled. `Obj` is any object or
      function, such as a nested JSON value or a method inherited from
      `Object.prototype`. */
  datatype Value = Num(x: real) | Str(s: string) | Bool(b: bool) | Null | Obj

  /** A row: its own properties, from name to value. */
  type Row = map<string, Value>

  const QuantityKey: string := "Quantity"
  const ItemKey: string := "Item"
  const PriceKey: string := "price"
  const EveryoneKey: string := "everyone"

  /** The accessor through which `obj.__proto__ = v` changes an object's
      prototype rather than its own properties. */
  const ProtoKey: string := "__proto__"

  /** The properties every plain object inherits from `Object.prototype`.
      Each holds a function, except `__proto__`, which reads as the
      prototype object itself. */
  const ObjectPrototypeKeys: set<string> := {
    "constructor", "hasOwnProperty", "isPrototypeOf", "propertyIsEnumerable",
    "toLocaleString", "toString", "valueOf", ProtoKey,
    "__defineGetter__", "__defineSetter__", "__lookupGetter__", "__lookupSetter__"
  }

  /** The row's own property `key`, with `None` when it has none. */
  function Get(row: Row, key: string): Option<Value> {
    if key in row then Some(row[key]) else None
  }

  /** `row[key]` as JavaScript reads it: an own property first, then one
      inherited from `Object.prototype`, and `undefined` (`None`) only when
      neither exists. */
  function Lookup(row: Row, key: string): (v: Option<Value>)
    ensures key in row ==> v == Get(row, key)
    ensures key !in row ==> (v == None <==> key !in ObjectPrototypeKeys)
    ensures key !in row && key in ObjectPrototypeKeys ==> v == Some(Obj)
  {
    if key in row then Some(row[key])
    else if key in ObjectPrototypeKeys then Some(Obj)
    else None
  }

  /** JavaScript truthiness (`ToBoolean`) of a field read: exactly `undefined`,
      `null`, `false`, `0` and `""` are falsy. */
  function Truthy(v: Option<Value>): (t: bool)
    ensures !t <==> v in {None, Some(Null), Some(Bool(false)), Some(Num(0.0)), Some(Str([]))}
  {
    match v
    case None => false
    case Some(Null) => false
    case Some(Bool(b)) => b
    case Some(Num(x)) => x != 0.0
    case Some(Str(s)) => s != []
    case Some(Obj) => true
  }

  /** A read whose key is missing from the row is truthy exactly when the
      key names an `Object.prototype` property. */
  lemma MissingKeyTruthiness(row: Row, key: string)
    requires key !in row
    ensures Truthy(Lookup(row, key)) <==> key in ObjectPrototypeKeys
  {
  }

  /** The shape the `ParsedRow` interface declares for a parsed line item. */
  predicate HasReceiptFields(row: Row) {
    && QuantityKey in row && row[QuantityKey].Num?
    && ItemKey in row && row[ItemKey].Str?
    && PriceKey in row && row[PriceKey].Num?
  }

  /** The keys the augmentation writes a `false` flag under. */
  predicate IsFlagKey(key: string, names: seq<string>) {
    key == EveryoneKey || key in names
  }

  /** `newRow` is `{ ...row }` after `newRow[k] = false` for `everyone` and
      for every name. Each assignment creates or overwrites an own property,
      except one to `__proto__` on a row without an own `__proto__`: that
      goes to the prototype setter, which ignores a non-object. So the new
      row has the old keys plus the flag keys other than `__proto__`, each
      flag key it has holds `false`, and every other key keeps its value. */
  ghost predicate IsAugmentation(row: Row, names: seq<string>, newRow: Row) {
    && newRow.Keys == row.Keys + {EveryoneKey} + (set n | n in names && n != ProtoKey)
    && forall k :: k in newRow ==> newRow[k] == if IsFlagKey(k, names) then Bool(false) else row[k]
  }

  /** The callback of `parsedData.map` in `handleUpload`: copy the row, set
      `everyone` to `false`, then set one `false` flag per name in order. */
  method AugmentRow(row: Row, names: seq<string>) returns (newRow: Row)
    ensures IsAugmentation(row, names, newRow)
  {
    newRow := row;
    newRow := newRow[EveryoneKey := Bool(false)];
    var i := 0;
    while i < |names|
      invariant 0 <= i <= |names|
      invariant newRow.Keys == row.Keys + {EveryoneKey} + (set n | n in names[..i] && n != ProtoKey)
      invariant forall k :: k in newRow ==>
        newRow[k] == if k == EveryoneKey || k in names[..i] then Bool(false) else row[k]
    {
      assert names[..i + 1] == names[..i] + [names[i]];
      if names[i] != ProtoKey || ProtoKey in newRow {
        newRow := newRow[names[i] := Bool(false)];
      }
      i := i + 1;
    }
    assert names[..i] == names;
  }

  /** `parsedData.map(...)`: every row augmented, in order. */
  method AugmentRows(rows: seq<Row>, names: seq<string>) returns (result: seq<Row>)
    ensures |result| == |rows|
    ensures forall i :: 0 <= i < |rows| ==> IsAugmentation(rows[i], names, result[i])
  {
    result := [];
    var i := 0;
    while i < |rows|
      invariant 0 <= i <= |rows|
      invariant |result| == i
      invariant forall j :: 0 <= j < i ==> IsAugmentation(rows[j], names, result[j])
    {
      var newRow := AugmentRow(rows[i], names);
      result := result + [newRow];
      i := i + 1;
    }
  }

  /** The description of an augmentation fixes the row completely. */
  lemma AugmentationIsUnique(row: Row, names: seq<string>, r1: Row, r2: Row)
    requires IsAugmentation(row, names, r1) && IsAugmentation(row, names, r2)
    ensures r1 == r2
  {
  }

  /** Augmentation keeps a parsed line item's data when no participant is
      called `Quantity`, `Item` or `price`, and leaves every flag unchecked. */
  lemma AugmentationKeepsReceiptFields(row: Row, names: seq<string>, newRow: Row)
    requires IsAugmentation(row, names, newRow)
    requires HasReceiptFields(row)
    requires QuantityKey !in names && ItemKey !in names && PriceKey !in names
    ensures HasReceiptFields(newRow)
    ensures newRow[QuantityKey] == row[QuantityKey]
    ensures newRow[ItemKey] == row[ItemKey]
    ensures newRow[PriceKey] == row[PriceKey]
    ensures !Truthy(Lookup(newRow, EveryoneKey))
    ensures forall n :: n in names && n != ProtoKey ==> Lookup(newRow, n) == Some(Bool(false))
  {
  }

  /** A participant called `__proto__` gets no own flag on a row without an
      own `__proto__` property: the read falls through to the prototype
      object, which is truthy. On a row that has one, the flag is `false`. */
  lemma ProtoNameGetsNoFlag(row: Row, names: seq<string>, newRow: Row)
    requires IsAugmentation(row, names, newRow)
    requires ProtoKey in names
    ensures ProtoKey !in row ==> ProtoKey !in newRow && Truthy(Lookup(newRow, ProtoKey))
    ensures ProtoKey in row ==> Lookup(newRow, ProtoKey) == Some(Bool(false))
  {
  }

  /** A participant whose name equals a receipt field replaces that field
      with an unchecked flag: the flags share the rows' key space. */
  lemma NameCollisionOverwritesField(row: Row, names: seq<string>, newRow: Row, key: string)
    requires IsAugmentation(row, names, newRow)
    requires key in names
    requires key == QuantityKey || key == ItemKey || key == PriceKey
    ensures Get(newRow, key) == Some(Bool(false))
    ensures !HasReceiptFields(newRow)
  {
  }
}

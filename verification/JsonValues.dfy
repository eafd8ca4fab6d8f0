/** JavaScript values as the Case timeline and the native replies hold them.

    A string is the sequence of its UTF-16 code units. An object is the list of its own
    fields in insertion order. `Undefined` is a value of its own, because an own field may
    hold it while JSON text cannot. */
module JsonValues {
  type Unit = x: int | 0 <= x < 0x1_0000
  type Text = seq<Unit>

  datatype Field = Field(key: Text, value: Json)

  /** `Num` carries the decimal text that `String(value)` prints. */
  datatype Json =
    | Undefined
    | Null
    | Bool(b: bool)
    | Num(digits: Text)
    | Str(text: Text)
    | Arr(items: seq<Json>)
    | Obj(fields: seq<Field>)

  /** The code units of an ASCII literal. */
  function Ascii(s: string): Text {
    seq(|s|, i requires 0 <= i < |s| => if s[i] < 128 as char then s[i] as int else 0)
  }

  // ---- own fields

  predicate Has(fields: seq<Field>, key: Text) {
    fields != [] && (fields[0].key == key || Has(fields[1..], key))
  }

  /** The value read by `object[key]`; `Undefined` when there is no such field. */
  function Get(fields: seq<Field>, key: Text): (v: Json) {
    if fields == [] then Undefined
    else if fields[0].key == key then fields[0].value
    else Get(fields[1..], key)
  }

  predicate DistinctKeys(fields: seq<Field>) {
    fields == [] || (!Has(fields[1..], fields[0].key) && DistinctKeys(fields[1..]))
  }

  // ---- what JSON.stringify keeps

  /** Does `String(value)` print this for a finite number? `NaN` and the infinities end in a letter. */
  predicate Finite(digits: Text) {
    digits != [] && 48 <= digits[|digits| - 1] <= 57
  }

  /** The value whose JSON text is the JSON text of `v`: undefined fields vanish, undefined
      array elements and numbers that are not finite become null. */
  function Wire(v: Json): Json {
    match v
    case Num(digits) => if Finite(digits) then v else Null
    case Arr(items) => Arr(WireItems(items))
    case Obj(fields) => Obj(WireFields(fields))
    case _ => v
  }

  function WireItems(items: seq<Json>): (r: seq<Json>)
    ensures |r| == |items|
  {
    if items == [] then []
    else
      var head := Wire(items[0]);
      [if head == Undefined then Null else head] + WireItems(items[1..])
  }

  function WireFields(fields: seq<Field>): seq<Field> {
    if fields == [] then []
    else
      var value := Wire(fields[0].value);
      (if value == Undefined then [] else [Field(fields[0].key, value)]) + WireFields(fields[1..])
  }

  /** `JSON.stringify(a) === JSON.stringify(b)`. */
  predicate Equal(a: Json, b: Json) {
    Wire(a) == Wire(b)
  }

  lemma {:induction false} WireIdempotent(v: Json)
    ensures Wire(Wire(v)) == Wire(v)
    decreases v, 1
  {
    match v
    case Arr(items) => WireItemsIdempotent(items);
    case Obj(fields) => WireFieldsIdempotent(fields);
    case _ =>
  }

  lemma {:induction false} WireItemsIdempotent(items: seq<Json>)
    ensures WireItems(WireItems(items)) == WireItems(items)
    decreases items, 0
  {
    if items != [] {
      WireIdempotent(items[0]);
      WireItemsIdempotent(items[1..]);
      assert WireItems(items)[1..] == WireItems(items[1..]);
    }
  }

  lemma {:induction false} WireFieldsIdempotent(fields: seq<Field>)
    ensures WireFields(WireFields(fields)) == WireFields(fields)
    decreases fields, 0
  {
    if fields != [] {
      var f := fields[0];
      assert f in fields;
      WireIdempotent(f.value);
      WireFieldsIdempotent(fields[1..]);
      if Wire(f.value) != Undefined {
        assert WireFields(fields)[1..] == WireFields(fields[1..]);
      } else {
        assert WireFields(fields) == WireFields(fields[1..]);
      }
    }
  }

  /** Reading a field of the JSON text gives the JSON text of the field. */
  lemma {:induction false} WireGet(fields: seq<Field>, key: Text)
    requires DistinctKeys(fields)
    ensures Get(WireFields(fields), key) == Wire(Get(fields, key))
    ensures Has(WireFields(fields), key) <==> Get(fields, key) != Undefined
    decreases |fields|
  {
    if fields != [] {
      WireGet(fields[1..], key);
      if Wire(fields[0].value) != Undefined {
        assert WireFields(fields)[1..] == WireFields(fields[1..]);
      } else {
        assert WireFields(fields) == WireFields(fields[1..]);
        if fields[0].key == key {
          AbsentIsUndefined(fields[1..], key);
        }
      }
    }
  }

  lemma {:induction false} AbsentIsUndefined(fields: seq<Field>, key: Text)
    requires !Has(fields, key)
    ensures Get(fields, key) == Undefined
    decreases |fields|
  {
    if fields != [] {
      AbsentIsUndefined(fields[1..], key);
    }
  }

  // ---- size, the measure of every recursion over values

  function Size(v: Json): (n: nat)
    ensures n >= 1
  {
    match v
    case Arr(items) => 1 + ItemsSize(items)
    case Obj(fields) => 1 + FieldsSize(fields)
    case _ => 1
  }

  function ItemsSize(items: seq<Json>): nat {
    if items == [] then 0 else Size(items[0]) + ItemsSize(items[1..])
  }

  function FieldsSize(fields: seq<Field>): nat {
    if fields == [] then 0 else Size(fields[0].value) + FieldsSize(fields[1..])
  }

  lemma {:induction false} GetIsSmaller(fields: seq<Field>, key: Text)
    requires Has(fields, key)
    ensures Size(Get(fields, key)) <= FieldsSize(fields)
    decreases |fields|
  {
    if fields[0].key != key {
      GetIsSmaller(fields[1..], key);
    }
  }

  lemma {:induction false} ItemIsSmaller(items: seq<Json>, i: nat)
    requires i < |items|
    ensures Size(items[i]) <= ItemsSize(items)
    decreases |items|
  {
    if i > 0 {
      ItemIsSmaller(items[1..], i - 1);
    }
  }
}

/** The JSON text of a value as `JSON.stringify` writes it (section 25.5.2 of ECMA-262, section 7
    of RFC 8259), and how many UTF-8 bytes it takes. */
module WireText {
  import opened JsonValues
  import opened Utf8

  const DEPTH_LIMIT := 64

  // ---- the text

  function Hex(digit: int): Unit
    requires 0 <= digit < 16
  {
    if digit < 10 then 48 + digit else 87 + digit
  }

  /** `\uXXXX` */
  function Hexadecimal(c: Unit): (t: Text)
    ensures |t| == 6 && forall i :: 0 <= i < 6 ==> t[i] < 0x80
  {
    [92, 117, Hex(c / 0x1000), Hex(c / 0x100 % 16), Hex(c / 16 % 16), Hex(c % 16)]
  }

  predicate ShortEscape(c: Unit) {
    c == 34 || c == 92 || c == 8 || c == 9 || c == 10 || c == 12 || c == 13
  }

  /** One unit that is not part of a surrogate pair. */
  function EscapeUnit(c: Unit): (t: Text)
    ensures t != [] && !High(t[|t| - 1]) && !Low(t[0])
  {
    if ShortEscape(c) then
      [92, if c == 8 then 98 else if c == 9 then 116 else if c == 10 then 110
           else if c == 12 then 102 else if c == 13 then 114 else c]
    else if c < 32 || High(c) || Low(c) then Hexadecimal(c)
    else [c]
  }

  function Escape(text: Text): Text {
    if text == [] then []
    else if Paired(text) then text[..2] + Escape(text[2..])
    else EscapeUnit(text[0]) + Escape(text[1..])
  }

  function Quote(text: Text): Text {
    [34] + Escape(text) + [34]
  }

  function JsonText(v: Json): Text
    decreases v, 0
  {
    match v
    case Undefined => []
    case Null => Ascii("null")
    case Bool(b) => if b then Ascii("true") else Ascii("false")
    case Num(digits) => digits
    case Str(text) => Quote(text)
    case Arr(items) => [91] + ItemsText(items, |items|) + [93]
    case Obj(fields) => [123] + FieldsText(fields, |fields|) + [125]
  }

  /** The first `n` elements, separated by commas. */
  function ItemsText(items: seq<Json>, n: nat): Text
    requires n <= |items|
    decreases items, n
  {
    if n == 0 then []
    else ItemsText(items, n - 1) + (if n == 1 then [] else [44]) + JsonText(items[n - 1])
  }

  /** The first `n` fields without the undefined ones. */
  function FieldsText(fields: seq<Field>, n: nat): Text
    requires n <= |fields|
    decreases fields, n
  {
    if n == 0 then []
    else
      var before, field := FieldsText(fields, n - 1), fields[n - 1];
      if field.value == Undefined then before
      else before + (if Defined(fields, n - 1) == 0 then [] else [44]) + Quote(field.key) + [58] + JsonText(field.value)
  }

  /** How many of the first `n` fields are written. */
  function Defined(fields: seq<Field>, n: nat): nat
    requires n <= |fields|
  {
    if n == 0 then 0 else Defined(fields, n - 1) + if fields[n - 1].value == Undefined then 0 else 1
  }

  /** How deep a value nests: a scalar and an empty array not at all. */
  function Depth(v: Json): nat
    decreases v, 0
  {
    match v
    case Arr(items) => ItemsDepth(items, |items|)
    case Obj(fields) => FieldsDepth(fields, |fields|)
    case _ => 0
  }

  function Max(a: nat, b: nat): nat {
    if a < b then b else a
  }

  function ItemsDepth(items: seq<Json>, n: nat): nat
    requires n <= |items|
    decreases items, n
  {
    if n == 0 then 0 else Max(ItemsDepth(items, n - 1), 1 + Depth(items[n - 1]))
  }

  function FieldsDepth(fields: seq<Field>, n: nat): nat
    requires n <= |fields|
    decreases fields, n
  {
    if n == 0 then 0
    else if fields[n - 1].value == Undefined then FieldsDepth(fields, n - 1)
    else Max(FieldsDepth(fields, n - 1), 1 + Depth(fields[n - 1].value))
  }

  // ---- its size

  function UnitBytes(c: Unit): nat {
    if ShortEscape(c) then 2 else if c < 32 then 6 else if c < 128 then 1 else if c < 2048 then 2
    else if High(c) || Low(c) then 6 else 3
  }

  function StringBytes(text: Text): nat {
    if text == [] then 0
    else if Paired(text) then 4 + StringBytes(text[2..])
    else UnitBytes(text[0]) + StringBytes(text[1..])
  }

  function Bytes(v: Json): nat
    decreases v, 0
  {
    match v
    case Undefined => 9
    case Null => 4
    case Bool(b) => if b then 4 else 5
    case Num(digits) => |digits|
    case Str(text) => 2 + StringBytes(text)
    case Arr(items) => 2 + ItemsBytes(items, |items|)
    case Obj(fields) => 2 + FieldsBytes(fields, |fields|)
  }

  function ItemsBytes(items: seq<Json>, n: nat): nat
    requires n <= |items|
    decreases items, n
  {
    if n == 0 then 0 else ItemsBytes(items, n - 1) + (if n == 1 then 0 else 1) + Bytes(items[n - 1])
  }

  function FieldsBytes(fields: seq<Field>, n: nat): nat
    requires n <= |fields|
    decreases fields, n
  {
    if n == 0 then 0
    else
      var before, field := FieldsBytes(fields, n - 1), fields[n - 1];
      if field.value == Undefined then before
      else before + (if Defined(fields, n - 1) == 0 then 0 else 1) + 2 + StringBytes(field.key) + 1 + Bytes(field.value)
  }

  /** A value that JSON text stands for: undefined occurs in it at most as the value of a field,
      and its numbers are finite and printed in ASCII, as `String(number)` prints them. */
  predicate Writable(v: Json) {
    match v
    case Undefined => false
    case Num(digits) => Finite(digits) && forall i :: 0 <= i < |digits| ==> digits[i] < 0x80
    case Arr(items) => forall i :: 0 <= i < |items| ==> Writable(items[i])
    case Obj(fields) => forall i :: 0 <= i < |fields| ==> fields[i].value == Undefined || Writable(fields[i].value)
    case _ => true
  }

  lemma EscapeUnitSize(c: Unit)
    ensures Utf8Size(EscapeUnit(c)) == UnitBytes(c)
  {
    if ShortEscape(c) || c < 32 || High(c) || Low(c) {
      AsciiSize(EscapeUnit(c));
    } else {
      assert EscapeUnit(c) == [c] && [c][1..] == [];
      assert Encode([c]) == One(c) + [];
    }
  }

  lemma {:induction false} EscapeSize(text: Text)
    ensures Utf8Size(Escape(text)) == StringBytes(text)
    decreases |text|
  {
    if text != [] {
      if Paired(text) {
        EscapeSize(text[2..]);
        SizeAppend(text[..2], Escape(text[2..]));
        assert text[..2][2..] == [];
      } else {
        EscapeSize(text[1..]);
        EscapeUnitSize(text[0]);
        SizeAppend(EscapeUnit(text[0]), Escape(text[1..]));
      }
    }
  }

  lemma QuoteSize(text: Text)
    ensures Utf8Size(Quote(text)) == 2 + StringBytes(text)
  {
    EscapeSize(text);
    AsciiSize([34]);
    SizeAppend([34], Escape(text));
    SizeAppend([34] + Escape(text), [34]);
  }

  /** A JSON text begins and ends with an ASCII unit. */
  predicate AsciiEnds(text: Text) {
    text != [] && text[0] < 0x80 && text[|text| - 1] < 0x80
  }

  lemma JsonTextEnds(v: Json)
    requires Writable(v)
    ensures AsciiEnds(JsonText(v))
  {
  }

  /** The early-exit counter counts what the text takes: its size is the size of the bytes of
      the JSON text. */
  lemma {:induction false} WireSize(v: Json)
    requires Writable(v)
    ensures Utf8Size(JsonText(v)) == Bytes(v)
    decreases v, 0
  {
    match v
    case Str(text) => QuoteSize(text);
    case Arr(items) =>
      ItemsSize(items, |items|);
      AsciiSize([91]);
      AsciiSize([93]);
      SizeAppend([91], ItemsText(items, |items|));
      SizeAppend([91] + ItemsText(items, |items|), [93]);
    case Obj(fields) =>
      FieldsSize(fields, |fields|);
      AsciiSize([123]);
      AsciiSize([125]);
      SizeAppend([123], FieldsText(fields, |fields|));
      SizeAppend([123] + FieldsText(fields, |fields|), [125]);
    case _ => AsciiSize(JsonText(v));
  }

  lemma {:induction false} ItemsSize(items: seq<Json>, n: nat)
    requires n <= |items| && forall i :: 0 <= i < |items| ==> Writable(items[i])
    ensures Utf8Size(ItemsText(items, n)) == ItemsBytes(items, n)
    ensures n > 0 ==> AsciiEnds(ItemsText(items, n))
    decreases items, n
  {
    if n > 0 {
      ItemsSize(items, n - 1);
      WireSize(items[n - 1]);
      JsonTextEnds(items[n - 1]);
      var before, comma, last := ItemsText(items, n - 1), if n == 1 then [] else [44], JsonText(items[n - 1]);
      AsciiSize(comma);
      SizeAppend(before, comma);
      SizeAppend(before + comma, last);
    }
  }

  lemma {:induction false} FieldsSize(fields: seq<Field>, n: nat)
    requires n <= |fields| && forall i :: 0 <= i < |fields| ==>
               fields[i].value == Undefined || Writable(fields[i].value)
    ensures Utf8Size(FieldsText(fields, n)) == FieldsBytes(fields, n)
    ensures if Defined(fields, n) > 0 then AsciiEnds(FieldsText(fields, n)) else FieldsText(fields, n) == []
    decreases fields, n
  {
    if n > 0 {
      FieldsSize(fields, n - 1);
      var field := fields[n - 1];
      if field.value != Undefined {
        WireSize(field.value);
        JsonTextEnds(field.value);
        var before, comma := FieldsText(fields, n - 1), if Defined(fields, n - 1) == 0 then [] else [44];
        AsciiSize(comma);
        SizeAppend(before, comma);
        QuoteSize(field.key);
        SizeAppend(before + comma, Quote(field.key));
        AsciiSize([58]);
        SizeAppend(before + comma + Quote(field.key), [58]);
        SizeAppend(before + comma + Quote(field.key) + [58], JsonText(field.value));
      }
    }
  }
}

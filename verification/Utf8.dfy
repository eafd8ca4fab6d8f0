/** UTF-8 bytes of UTF-16 text (section 3 of RFC 3629); a lone surrogate becomes U+FFFD. */
module Utf8 {
  import opened JsonValues

  type Byte = x: int | 0 <= x < 256

  predicate High(c: Unit) {
    0xD800 <= c <= 0xDBFF
  }

  predicate Low(c: Unit) {
    0xDC00 <= c <= 0xDFFF
  }

  /** Does the text start with a surrogate pair? */
  predicate Paired(text: Text) {
    |text| > 1 && High(text[0]) && Low(text[1])
  }

  /** The bytes of a code point outside the basic plane. */
  function Four(high: Unit, low: Unit): seq<Byte>
    requires High(high) && Low(low)
  {
    var point := 0x1_0000 + (high - 0xD800) * 0x400 + (low - 0xDC00);
    [0xF0 + point / 0x4_0000, 0x80 + point / 0x1000 % 64, 0x80 + point / 64 % 64, 0x80 + point % 64]
  }

  /** The bytes of a single code unit. */
  function One(c: Unit): seq<Byte> {
    if c < 0x80 then [c]
    else if c < 0x800 then [0xC0 + c / 64, 0x80 + c % 64]
    else if High(c) || Low(c) then [0xEF, 0xBF, 0xBD]
    else [0xE0 + c / 0x1000, 0x80 + c / 64 % 64, 0x80 + c % 64]
  }

  function Encode(text: Text): seq<Byte> {
    if text == [] then []
    else if Paired(text) then Four(text[0], text[1]) + Encode(text[2..])
    else One(text[0]) + Encode(text[1..])
  }

  function Utf8Size(text: Text): nat {
    |Encode(text)|
  }

  /** Cutting between `a` and `b` cuts no surrogate pair. */
  predicate Separable(a: Text, b: Text) {
    a == [] || b == [] || !High(a[|a| - 1]) || !Low(b[0])
  }

  lemma {:induction false} EncodeAppend(a: Text, b: Text)
    requires Separable(a, b)
    ensures Encode(a + b) == Encode(a) + Encode(b)
    decreases |a|
  {
    if a == [] {
      assert a + b == b;
    } else if Paired(a) {
      assert (a + b)[2..] == a[2..] + b;
      EncodeAppend(a[2..], b);
    } else {
      assert (a + b)[1..] == a[1..] + b;
      EncodeAppend(a[1..], b);
      assert !Paired(a + b);
    }
  }

  lemma SizeAppend(a: Text, b: Text)
    requires Separable(a, b)
    ensures Utf8Size(a + b) == Utf8Size(a) + Utf8Size(b)
  {
    EncodeAppend(a, b);
  }

  /** Text of ASCII units has as many bytes as units. */
  lemma {:induction false} AsciiSize(text: Text)
    requires forall i :: 0 <= i < |text| ==> text[i] < 0x80
    ensures Utf8Size(text) == |text|
    decreases |text|
  {
    if text != [] {
      AsciiSize(text[1..]);
    }
  }

  // ---- the loop

  /** Decides the size of the encoding without building it, and stops as soon as it knows. */
  method Utf8Within(value: Text, maximum: nat) returns (within: bool)
    ensures within <==> Utf8Size(value) <= maximum
  {
    var bytes, index := 0, 0;
    while index < |value|
      invariant index <= |value| && bytes <= maximum
      invariant Utf8Size(value) == bytes + Utf8Size(value[index..])
      decreases |value| - index
    {
      var code := value[index];
      ghost var rest := value[index..];
      assert rest[1..] == value[index + 1..];
      if Paired(rest) {
        assert rest[2..] == value[index + 2..];
      }
      if code <= 0x7F {
        bytes := bytes + 1;
      } else if code <= 0x7FF {
        bytes := bytes + 2;
      } else if 0xD800 <= code <= 0xDBFF && index + 1 < |value| && 0xDC00 <= value[index + 1] <= 0xDFFF {
        bytes := bytes + 4;
        index := index + 1;
      } else {
        bytes := bytes + 3;
      }
      index := index + 1;
      if bytes > maximum {
        return false;
      }
    }
    within := true;
  }
}

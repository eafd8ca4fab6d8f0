/** Store revisions: 64-bit counters carried as decimal strings and never turned into
    numbers, accepted by shape and ordered by length and text. */
module EvidenceRevision {
  import opened JsonValues

  // ---- decimal numerals

  function Pow10(n: nat): (p: nat)
    ensures p >= 1
  {
    if n == 0 then 1 else 10 * Pow10(n - 1)
  }

  predicate AllDigits(s: Text) {
    forall i :: 0 <= i < |s| ==> 48 <= s[i] <= 57
  }

  function Digit(c: Unit): int {
    (c as int) - 48
  }

  /** The number that a string of digits names. */
  function Value(s: Text): nat
    requires AllDigits(s)
  {
    if s == [] then 0 else 10 * Value(s[..|s| - 1]) + Digit(s[|s| - 1])
  }

  /** The decimal numeral of a number, as the program prints it. */
  function Digits(n: nat): (s: Text)
    ensures s != [] && AllDigits(s)
  {
    if n < 10 then [48 + n] else Digits(n / 10) + [48 + n % 10]
  }

  /** No leading zero, except in zero itself. */
  predicate Canonical(s: Text) {
    s != [] && AllDigits(s) && (s[0] == 48 ==> |s| == 1)
  }

  lemma {:induction false} DigitsCanonical(n: nat)
    ensures Canonical(Digits(n)) && Value(Digits(n)) == n
    ensures n > 0 ==> Digits(n)[0] != 48
    decreases n
  {
    if n >= 10 {
      DigitsCanonical(n / 10);
      assert Digits(n)[..|Digits(n)| - 1] == Digits(n / 10);
      assert Digits(n)[0] == Digits(n / 10)[0];
    } else {
      assert [48 + n][..0] == [];
    }
  }

  /** One more digit behind a number that is not zero. */
  lemma DigitsStep(v: nat, d: int)
    requires 0 <= d < 10 && v > 0
    ensures Digits(10 * v + d) == Digits(v) + [48 + d]
  {
    assert (10 * v + d) / 10 == v && (10 * v + d) % 10 == d;
  }

  lemma MulStep(x: int, y: int, p: nat)
    requires x > y
    ensures x * p >= y * p + p
  {
    assert x * p == y * p + (x - y - 1) * p + p;
  }

  lemma {:induction false} CanonicalDigits(s: Text)
    requires Canonical(s)
    ensures Digits(Value(s)) == s
    ensures s[0] != 48 ==> Value(s) > 0
    decreases |s|
  {
    var front, last := s[..|s| - 1], s[|s| - 1];
    if front == [] {
      assert s == [last] && Value(front) == 0;
    } else {
      assert front[0] == s[0];
      CanonicalDigits(front);
      DigitsStep(Value(front), Digit(last));
      assert s == front + [last];
    }
  }

  // ---- the admission test

  /** `a > b` on strings: by code unit, a proper prefix being the smaller. */
  predicate Greater(a: Text, b: Text) {
    if a == [] then false
    else if b == [] then true
    else a[0] > b[0] || (a[0] == b[0] && Greater(a[1..], b[1..]))
  }

  const U64_MAX := Ascii("18446744073709551615")
  const TWO_TO_64 := 0x1_0000_0000_0000_0000

  /** `/^(0|[1-9]\d{0,19})$/` and not above the maximum. */
  predicate Accepted(s: Text) {
    && (s == Ascii("0") || (1 <= |s| <= 20 && 49 <= s[0] <= 57 && AllDigits(s)))
    && !(|s| == 20 && Greater(s, U64_MAX))
  }

  // ---- order

  function Sign(n: int): int {
    if n < 0 then -1 else if n == 0 then 0 else 1
  }

  function Compare(a: Text, b: Text): int {
    Sign(if |a| != |b| then |a| - |b| else if a == b then 0 else if Greater(a, b) then 1 else -1)
  }

  lemma {:induction false} ValueFront(s: Text)
    requires s != [] && AllDigits(s)
    ensures Value(s) == Digit(s[0]) * Pow10(|s| - 1) + Value(s[1..])
    decreases |s|
  {
    var last := Digit(s[|s| - 1]);
    if |s| == 1 {
      assert s[..0] == [] && s[1..] == [];
    } else {
      var front := s[..|s| - 1];
      ValueFront(front);
      assert front[0] == s[0];
      assert s[1..][..|s| - 2] == front[1..];
      assert Value(s[1..]) == 10 * Value(front[1..]) + last;
      TenTimes(Digit(s[0]), Pow10(|s| - 2), Value(front[1..]), last);
    }
  }

  lemma TenTimes(first: int, power: int, middle: int, last: int)
    ensures 10 * (first * power + middle) + last == first * (10 * power) + (10 * middle + last)
  {
  }

  lemma {:induction false} ValueBelow(s: Text)
    requires AllDigits(s)
    ensures Value(s) < Pow10(|s|)
    decreases |s|
  {
    if s != [] {
      ValueBelow(s[..|s| - 1]);
    }
  }

  lemma ValueAbove(s: Text)
    requires Canonical(s) && s[0] != 48
    ensures Value(s) >= Pow10(|s| - 1)
  {
    ValueFront(s);
    MulStep(Digit(s[0]), 0, Pow10(|s| - 1));
  }

  lemma {:induction false} Pow10Monotone(a: nat, b: nat)
    requires a <= b
    ensures Pow10(a) <= Pow10(b)
    decreases b
  {
    if a < b {
      Pow10Monotone(a, b - 1);
    }
  }

  /** Equal lengths compare like numbers. */
  lemma {:induction false} GreaterValue(a: Text, b: Text)
    requires |a| == |b| && AllDigits(a) && AllDigits(b)
    ensures Greater(a, b) <==> Value(a) > Value(b)
    ensures a == b <==> Value(a) == Value(b)
    decreases |a|
  {
    if a != [] {
      ValueFront(a);
      ValueFront(b);
      GreaterValue(a[1..], b[1..]);
      ValueBelow(a[1..]);
      ValueBelow(b[1..]);
      var p := Pow10(|a| - 1);
      if a[0] > b[0] {
        MulStep(Digit(a[0]), Digit(b[0]), p);
      } else if a[0] < b[0] {
        MulStep(Digit(b[0]), Digit(a[0]), p);
      } else {
        assert a == [a[0]] + a[1..] && b == [b[0]] + b[1..];
      }
    }
  }

  /** Ordering by length and then by text is the numeric order. */
  lemma CompareIsNumeric(a: Text, b: Text)
    requires Canonical(a) && Canonical(b)
    ensures Compare(a, b) == Sign(Value(a) - Value(b))
  {
    if |a| == |b| {
      GreaterValue(a, b);
    } else {
      var small, large := if |a| < |b| then a else b, if |a| < |b| then b else a;
      ValueBelow(small);
      ValueAbove(large);
      Pow10Monotone(|small|, |large| - 1);
    }
  }

  lemma ValueStep(s: Text, k: nat)
    requires k < |s| && AllDigits(s)
    ensures Value(s[..k + 1]) == 10 * Value(s[..k]) + Digit(s[k])
  {
    assert s[..k + 1][..k] == s[..k];
  }

  /** Reading the maximum ten digits at a time. */
  lemma ReadTen(s: Text, k: nat)
    requires k + 10 <= |s| && AllDigits(s)
    ensures Value(s[..k + 10]) ==
            10000000000 * Value(s[..k])
            + 1000000000 * Digit(s[k]) + 100000000 * Digit(s[k + 1]) + 10000000 * Digit(s[k + 2])
            + 1000000 * Digit(s[k + 3]) + 100000 * Digit(s[k + 4]) + 10000 * Digit(s[k + 5])
            + 1000 * Digit(s[k + 6]) + 100 * Digit(s[k + 7]) + 10 * Digit(s[k + 8]) + Digit(s[k + 9])
  {
    ValueStep(s, k);
    ValueStep(s, k + 1);
    ValueStep(s, k + 2);
    ValueStep(s, k + 3);
    ValueStep(s, k + 4);
    ValueStep(s, k + 5);
    ValueStep(s, k + 6);
    ValueStep(s, k + 7);
    ValueStep(s, k + 8);
    ValueStep(s, k + 9);
  }

  lemma MaxDigits()
    ensures U64_MAX == [49, 56, 52, 52, 54, 55, 52, 52, 48, 55, 51, 55, 48, 57, 53, 53, 49, 54, 49, 53]
  {
  }

  lemma FirstTen(s: Text)
    requires 10 <= |s| && AllDigits(s)
    requires s[0] == 49 && s[1] == 56 && s[2] == 52 && s[3] == 52 && s[4] == 54
    requires s[5] == 55 && s[6] == 52 && s[7] == 52 && s[8] == 48 && s[9] == 55
    ensures Value(s[..10]) == 1844674407
  {
    var empty: Text := s[..0];
    assert Value(empty) == 0;
    ReadTen(s, 0);
  }

  lemma MaxFirstTen()
    ensures |U64_MAX| == 20 && AllDigits(U64_MAX) && U64_MAX[0] == 49 && Value(U64_MAX[..10]) == 1844674407
  {
    MaxDigits();
    FirstTen(U64_MAX);
  }

  lemma MaxValue()
    ensures |U64_MAX| == 20 && Canonical(U64_MAX) && Value(U64_MAX) == TWO_TO_64 - 1
  {
    MaxFirstTen();
    var s := U64_MAX;
    assert Digit(s[10]) == 3 && Digit(s[11]) == 7 && Digit(s[12]) == 0 && Digit(s[13]) == 9 && Digit(s[14]) == 5
      && Digit(s[15]) == 5 && Digit(s[16]) == 1 && Digit(s[17]) == 6 && Digit(s[18]) == 1 && Digit(s[19]) == 5 by {
      MaxDigits();
    }
    ReadTen(s, 10);
    assert s[..20] == s;
  }

  /** The admission test accepts exactly the numerals of 0 to 2^64 - 1. */
  lemma AcceptedIsU64(s: Text)
    ensures Accepted(s) <==> Canonical(s) && Value(s) < TWO_TO_64
  {
    MaxValue();
    if Canonical(s) {
      if |s| == 1 {
        ValueBelow(s);
        assert Pow10(1) == 10 * Pow10(0);
        assert s[0] == 48 ==> s == Ascii("0");
      } else if |s| == 20 {
        GreaterValue(s, U64_MAX);
      } else {
        LongerOrShorter(s);
      }
    }
  }

  lemma LongerOrShorter(s: Text)
    requires Canonical(s) && s[0] != 48 && |s| != 20
    ensures Value(s) < TWO_TO_64 <==> |s| < 20
  {
    MaxValue();
    ValueAbove(s);
    ValueBelow(s);
    ValueAbove(U64_MAX);
    ValueBelow(U64_MAX);
    if |s| > 20 {
      Pow10Monotone(20, |s| - 1);
    } else {
      Pow10Monotone(|s|, 19);
    }
  }

  /** Every 64-bit number has one accepted spelling, and every accepted string is one. */
  lemma AcceptedRoundTrip(s: Text, n: nat)
    ensures n < TWO_TO_64 ==> Accepted(Digits(n)) && Value(Digits(n)) == n
    ensures Accepted(s) ==> Canonical(s) && Value(s) < TWO_TO_64 && Digits(Value(s)) == s
  {
    DigitsCanonical(n);
    AcceptedIsU64(Digits(n));
    AcceptedIsU64(s);
    if Accepted(s) {
      CanonicalDigits(s);
    }
  }
}

/** Decimal rendering and reading of non-negative integers, as Go's time
    package does it: `appendInt` writes a number zero-padded to a minimum
    width, and the layout parser reads fixed-width runs of ASCII digits. */
module Decimal {

  predicate IsDigit(c: char) { '0' <= c <= '9' }

  predicate AllDigits(s: string) { forall k :: 0 <= k < |s| ==> IsDigit(s[k]) }

  function DigitChar(n: nat): (c: char)
    requires n < 10
    ensures IsDigit(c) && c as int - '0' as int == n
  {
    (n + '0' as int) as char
  }

  function DigitValue(c: char): (n: nat)
    requires IsDigit(c)
    ensures n < 10 && DigitChar(n) == c
  {
    c as int - '0' as int
  }

  /** The number a run of digits denotes, read left to right (leading zeros
      allowed, the empty run denotes 0). */
  function Value(s: string): (v: nat)
    requires AllDigits(s)
    ensures v < Pow10(|s|)
  {
    if s == [] then 0 else 10 * Value(s[..|s| - 1]) + DigitValue(s[|s| - 1])
  }

  function Pow10(w: nat): (p: nat)
    ensures p >= 1
  {
    if w == 0 then 1 else 10 * Pow10(w - 1)
  }

  /** Go's `appendInt(b, u, width)` for u >= 0: the decimal digits of u,
      preceded by as many '0' as it takes to reach `width` characters. */
  function Padded(u: nat, width: nat): string
    decreases u, width
  {
    if u < 10 && width <= 1 then [DigitChar(u)]
    else Padded(u / 10, if width > 0 then width - 1 else 0) + [DigitChar(u % 10)]
  }

  /** `Padded` writes at least one character, and only digits. */
  lemma {:induction false} PaddedDigits(u: nat, width: nat)
    ensures AllDigits(Padded(u, width)) && |Padded(u, width)| >= 1
    decreases u, width
  {
    if !(u < 10 && width <= 1) {
      PaddedDigits(u / 10, if width > 0 then width - 1 else 0);
    }
  }

  /** Reading back what `Padded` wrote gives the number, at every width. */
  lemma {:induction false} ValueOfPadded(u: nat, width: nat)
    ensures AllDigits(Padded(u, width)) && Value(Padded(u, width)) == u
    decreases u, width
  {
    PaddedDigits(u, width);
    var r := Padded(u, width);
    if u < 10 && width <= 1 {
      assert r[..0] == [];
    } else {
      var w' := if width > 0 then width - 1 else 0;
      ValueOfPadded(u / 10, w');
      assert r[..|r| - 1] == Padded(u / 10, w');
    }
  }

  /** A number below 10^width is written in exactly `width` characters. */
  lemma {:induction false} PaddedLength(u: nat, width: nat)
    requires width >= 1 && u < Pow10(width)
    ensures |Padded(u, width)| == width
    decreases width
  {
    if width > 1 {
      PaddedLength(u / 10, width - 1);
    }
  }

  /** Any run of `width` digits is exactly what `Padded` writes for the
      number it denotes: fixed-width decimal text has one spelling. */
  lemma {:induction false} PaddedOfValue(s: string)
    requires AllDigits(s) && |s| >= 1
    ensures Padded(Value(s), |s|) == s
    decreases |s|
  {
    var t, c := s[..|s| - 1], s[|s| - 1];
    var u := Value(s);
    assert u == 10 * Value(t) + DigitValue(c);
    assert u / 10 == Value(t) && u % 10 == DigitValue(c);
    if |s| == 1 {
      assert t == [];
      assert s == [c];
    } else {
      PaddedOfValue(t);
      assert s == t + [c];
    }
  }

  /** Peeling off the last digit: u = 10q + r is written as q (with one
      less padding) followed by r. */
  lemma PaddedStep(u: nat, q: nat, r: nat, width: nat)
    requires u == 10 * q + r && r < 10 && (q >= 1 || width >= 2)
    ensures Padded(u, width) == Padded(q, if width > 0 then width - 1 else 0) + [DigitChar(r)]
  {
    assert u / 10 == q && u % 10 == r;
  }

  /** Written with width 0 (Go's unpadded `%d`-like field), a positive
      number never starts with '0'. */
  lemma {:induction false} UnpaddedHasNoLeadingZero(u: nat)
    requires u >= 1
    ensures Padded(u, 0)[0] != '0'
    decreases u
  {
    if u >= 10 {
      UnpaddedHasNoLeadingZero(u / 10);
    }
  }
}

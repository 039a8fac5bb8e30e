/**
 * The credit-card check: the Luhn mod-10 check-digit scheme of ISO/IEC 7812-1,
 * Annex B. Non-digits are stripped, fewer than seven digits fail, and from the
 * rightmost digit leftwards every second digit is doubled, the decimal digits
 * of every term are added, and the total must be a multiple of ten.
 */
module Luhn {
  import opened Values

  /** `src.replace(/[^0-9]+/g, '')`: the digits of `s`, in order. */
  function StripNonDigits(s: string): (r: string)
    ensures AllDigits(r)
    ensures |r| <= |s|
  {
    if s == [] then [] else (if IsDigit(s[0]) then [s[0]] else []) + StripNonDigits(s[1..])
  }

  /** The sum of the decimal digits of `n`: what the inner `while` loop adds. */
  function DigitSum(n: nat): nat
  {
    if n == 0 then 0 else n % 10 + DigitSum(n / 10)
  }

  /** The term a digit contributes before its digits are summed. */
  function Term(d: nat, doubled: bool): nat
  {
    if doubled then 2 * d else d
  }

  /** The checksum of `ds` read from its last digit leftwards, where the last
      digit is doubled iff `doubleLast`. */
  function Checksum(ds: string, doubleLast: bool): nat
    requires AllDigits(ds)
  {
    if ds == [] then 0
    else DigitSum(Term(DigitOf(ds[|ds| - 1]), doubleLast)) + Checksum(ds[..|ds| - 1], !doubleLast)
  }

  /** The value `isCreditCardValid` returns. */
  predicate LuhnValid(s: string)
  {
    var ds := StripNonDigits(s);
    |ds| >= 7 && Checksum(ds, false) % 10 == 0
  }

  /** `isCreditCardValid(src)`: a reverse `for` loop toggling `evenDigit`, with
      an inner loop that adds the digits of each term. */
  method IsCreditCardValid(src: string) returns (valid: bool)
    ensures valid == LuhnValid(src)
  {
    var s := StripNonDigits(src);
    if |s| < 7 {
      return false;
    }
    var checksum: nat := 0;
    var evenDigit := false;
    var i := |s| - 1;
    assert s[..i + 1] == s;
    while i >= 0
      invariant -1 <= i < |s|
      invariant checksum + Checksum(s[..i + 1], evenDigit) == Checksum(s, false)
    {
      assert s[..i + 1][..i] == s[..i];
      var digitValue := Term(DigitOf(s[i]), evenDigit);
      evenDigit := !evenDigit;
      ghost var term := digitValue;
      ghost var before := checksum;
      while digitValue > 0
        invariant checksum + DigitSum(digitValue) == before + DigitSum(term)
      {
        checksum := checksum + digitValue % 10;
        digitValue := digitValue / 10;
      }
      i := i - 1;
    }
    assert s[..0] == [];
    valid := checksum % 10 == 0;
  }

  /** A doubled digit d contributes 2d when that is below ten and 2d - 9
      otherwise; an undoubled digit contributes itself. */
  lemma DoubledDigitContribution(d: nat)
    requires d <= 9
    ensures DigitSum(Term(d, true)) == if 2 * d < 10 then 2 * d else 2 * d - 9
    ensures DigitSum(Term(d, false)) == d
  {
    if d > 0 {
      assert DigitSum(d / 10) == 0 by { assert d / 10 == 0; }
      var n := 2 * d;
      if n >= 10 {
        assert n / 10 == 1 && n % 10 == n - 10;
        assert DigitSum(1) == 1 by { assert DigitSum(0) == 0; }
      }
    }
  }

  /** Stripping distributes over concatenation. */
  lemma {:induction false} StripAppend(a: string, b: string)
    ensures StripNonDigits(a + b) == StripNonDigits(a) + StripNonDigits(b)
  {
    if a == [] {
      assert a + b == b;
    } else {
      var head := if IsDigit(a[0]) then [a[0]] else [];
      assert (a + b)[0] == a[0] && (a + b)[1..] == a[1..] + b;
      assert StripNonDigits(a + b) == head + StripNonDigits(a[1..] + b);
      StripAppend(a[1..], b);
      assert StripNonDigits(a) == head + StripNonDigits(a[1..]);
    }
  }

  /** Only the digit characters matter: inserting a non-digit anywhere leaves
      the verdict unchanged. */
  lemma NonDigitsIgnored(a: string, c: char, b: string)
    requires !IsDigit(c)
    ensures LuhnValid(a + [c] + b) == LuhnValid(a + b)
  {
    assert StripNonDigits([c]) == [] by { assert [c][1..] == []; }
    calc {
      StripNonDigits(a + [c] + b);
      { StripAppend(a + [c], b); }
      StripNonDigits(a + [c]) + StripNonDigits(b);
      { StripAppend(a, [c]); assert StripNonDigits(a) + [] == StripNonDigits(a); }
      StripNonDigits(a) + StripNonDigits(b);
      { StripAppend(a, b); }
      StripNonDigits(a + b);
    }
  }

  /** Fewer than seven digits after stripping always fail, whatever the checksum. */
  lemma ShortNumbersFail(s: string)
    requires |StripNonDigits(s)| < 7
    ensures !LuhnValid(s)
  {
  }

  /** The positional reading: the digit `k` places left of the rightmost one is
      doubled iff `k` is odd, or iff `k` is even when `doubleLast`. */
  function Positional(ds: string, doubleLast: bool): nat
    requires AllDigits(ds)
  {
    if ds == [] then 0
    else DigitSum(Term(DigitOf(ds[0]), ((|ds| - 1) % 2 == 1) != doubleLast)) + Positional(ds[1..], doubleLast)
  }

  /** The right-to-left toggling loop computes the positional checksum: the
      rightmost digit is not doubled, the one left of it is, and so on. */
  lemma {:induction false} ChecksumIsPositional(ds: string, doubleLast: bool)
    requires AllDigits(ds)
    ensures Checksum(ds, doubleLast) == Positional(ds, doubleLast)
    decreases |ds|
  {
    if ds != [] {
      ChecksumIsPositional(ds[..|ds| - 1], !doubleLast);
      PositionalLast(ds, doubleLast);
    }
  }

  /** Peeling the rightmost digit off the positional checksum. */
  lemma {:induction false} PositionalLast(ds: string, doubleLast: bool)
    requires AllDigits(ds) && |ds| > 0
    ensures Positional(ds, doubleLast) ==
            Positional(ds[..|ds| - 1], !doubleLast) + DigitSum(Term(DigitOf(ds[|ds| - 1]), doubleLast))
    decreases |ds|
  {
    if |ds| > 1 {
      var init := ds[..|ds| - 1];
      assert ds[1..][..|ds| - 2] == init[1..];
      assert init[0] == ds[0];
      assert (((|ds| - 1) % 2 == 1) != doubleLast) == (((|init| - 1) % 2 == 1) != !doubleLast);
      PositionalLast(ds[1..], doubleLast);
      assert Positional(init, !doubleLast) ==
             DigitSum(Term(DigitOf(ds[0]), ((|init| - 1) % 2 == 1) != !doubleLast)) + Positional(init[1..], !doubleLast);
    }
  }

  /** Splitting a digit string: the right part is summed as is, and the left
      part's doubling phase shifts with the right part's length. */
  lemma {:induction false} ChecksumAppend(p: string, q: string, doubleLast: bool)
    requires AllDigits(p) && AllDigits(q)
    ensures AllDigits(p + q)
    ensures Checksum(p + q, doubleLast) == Checksum(q, doubleLast) + Checksum(p, if |q| % 2 == 0 then doubleLast else !doubleLast)
    decreases |q|
  {
    if q == [] {
      assert p + q == p;
    } else {
      var n := |q| - 1;
      var init := q[..n];
      var last := DigitSum(Term(DigitOf(q[n]), doubleLast));
      assert (p + q)[..|p + q| - 1] == p + init;
      assert (p + q)[|p + q| - 1] == q[n];
      assert Checksum(p + q, doubleLast) == last + Checksum(p + init, !doubleLast);
      assert Checksum(q, doubleLast) == last + Checksum(init, !doubleLast);
      ParityStep(n);
      ChecksumAppend(p, init, !doubleLast);
    }
  }

  lemma ParityStep(n: nat)
    ensures (n % 2 == 0) == ((n + 1) % 2 != 0)
  {
  }
  /** For a string of digits, the verdict is read off its own checksum. */
  lemma LuhnValidOfDigits(ds: string)
    requires AllDigits(ds)
    ensures LuhnValid(ds) == (|ds| >= 7 && Checksum(ds, false) % 10 == 0)
  {
    StripDigitsOnly(ds);
  }

  /** Appending a digit on the right: it becomes the rightmost term. */
  lemma ChecksumStep(p: string, c: char, doubled: bool)
    requires AllDigits(p) && IsDigit(c)
    ensures AllDigits(p + [c])
    ensures Checksum(p + [c], doubled) == DigitSum(Term(DigitOf(c), doubled)) + Checksum(p, !doubled)
  {
    assert (p + [c])[..|p|] == p;
  }

  /** A string of digits strips to itself. */
  lemma {:induction false} StripDigitsOnly(s: string)
    requires AllDigits(s)
    ensures StripNonDigits(s) == s
  {
    if s != [] {
      StripDigitsOnly(s[1..]);
      assert [s[0]] + s[1..] == s;
    }
  }
}

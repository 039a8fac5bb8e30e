/**
 * `padZero` and `localDateAsValue` (src/control.ts): the text an `<input
 * type="date">` shows for a `Date`, `YYYY-MM-DD` as in the `full-date`
 * production of section 5.6 of RFC 3339. A number is printed in decimal (NaN
 * as `NaN`), the padding is put in front, and only the last `|padding|`
 * characters are kept.
 */
module DateFormat {
  import opened Wrappers
  import opened Values

  /** The decimal digits of `n`, without leading zeros (`0` for zero). */
  function NatToString(n: nat): (s: string)
    ensures |s| > 0 && AllDigits(s)
    ensures DigitsValue(s) == n
    decreases n
  {
    if n < 10 then [DigitChar(n)]
    else
      var init := NatToString(n / 10);
      var s := init + [DigitChar(n % 10)];
      assert s[..|s| - 1] == init;
      s
  }

  function DigitChar(d: nat): (c: char)
    requires d < 10
    ensures IsDigit(c) && DigitOf(c) == d
  {
    ('0' as int + d) as char
  }

  /** A numeral of `n` needs at most `k` digits when `n < 10^k`. */
  lemma {:induction false} NatToStringLength(n: nat, k: nat)
    requires 0 < k && n < Pow10(k)
    ensures |NatToString(n)| <= k
    decreases n
  {
    if n >= 10 {
      assert Pow10(1) == 10;
      assert k > 1;
      NatToStringLength(n / 10, k - 1);
    }
  }

  /** `${value}` for an integer or NaN (`None`). */
  function NumberText(value: Option<int>): (s: string)
    ensures |s| > 0
  {
    match value
    case None => "NaN"
    case Some(i) => if i < 0 then "-" + NatToString(-i) else NatToString(i)
  }

  /** `padZero(value, padding)`: `${padding}${value}`.slice(-padding.length).
      An empty padding makes the slice start at 0, keeping the whole string. */
  function PadZero(value: Option<int>, padding: string): (r: string)
    ensures |padding| > 0 ==> |r| == |padding|
    ensures |padding| > 0 ==> r == (padding + NumberText(value))[|NumberText(value)|..]
    ensures |padding| == 0 ==> r == NumberText(value)
  {
    var s := padding + NumberText(value);
    if |padding| == 0 then s else s[|s| - |padding|..]
  }

  /** `localDateAsValue(date)`: year padded to four places (`'0000'`), the
      one-based month and the day to two (`'00'`), joined by `-`. An invalid date prints every field as
      NaN. */
  function LocalDateAsValue(date: DateValue): (r: string)
    ensures |r| == 10 && r[4] == '-' && r[7] == '-'
  {
    var year := if date.ValidDate? then Some(date.fullYear) else None;
    var month := if date.ValidDate? then Some(date.month + 1) else None;
    var day := if date.ValidDate? then Some(date.date) else None;
    PadZero(year, Zeros(4)) + "-" + PadZero(month, Zeros(2)) + "-" + PadZero(day, Zeros(2))
  }

  /** An invalid date prints `0NaN-aN-aN`. */
  lemma InvalidDateText()
    ensures LocalDateAsValue(InvalidDate) == "0NaN-aN-aN"
  {
    assert PadZero(None, Zeros(4)) == "0NaN" by { assert Zeros(4) + "NaN" == "0000NaN"; }
    assert PadZero(None, Zeros(2)) == "aN" by { assert Zeros(2) + "NaN" == "00NaN"; }
  }

  /** Padding a small natural number: the result is all digits and reads back
      as the number. */
  lemma PadZeroReadsBack(n: nat, k: nat)
    requires 0 < k && n < Pow10(k)
    ensures AllDigits(PadZero(Some(n), Zeros(k)))
    ensures DigitsValue(PadZero(Some(n), Zeros(k))) == n
  {
    var t := NatToString(n);
    NatToStringLength(n, k);
    PadZeroNat(n, Zeros(k));
    DropFromZeros(k, |t|, t);
    var z := Zeros(k - |t|);
    assert PadZero(Some(n), Zeros(k)) == z + t;
    DigitsValueAppend(z, t);
    ZerosValue(k - |t|);
    var w := Pow10(|t|);
    assert DigitsValue(z + t) == 0 * w + DigitsValue(t);
  }

  /** Padding a natural number keeps the last characters of its numeral. */
  lemma PadZeroNat(n: nat, padding: string)
    requires |padding| > 0
    ensures PadZero(Some(n), padding) == (padding + NatToString(n))[|NatToString(n)|..]
  {
    assert NumberText(Some(n)) == NatToString(n);
  }

  /** `k` zeros. */
  function Zeros(k: nat): (z: string)
    ensures |z| == k && AllDigits(z)
  {
    seq(k, _ => '0')
  }

  lemma DropFromZeros(k: nat, j: nat, t: string)
    requires j <= k
    ensures (Zeros(k) + t)[j..] == Zeros(k - j) + t
  {
    assert (Zeros(k) + t)[j..] == Zeros(k)[j..] + t;
    assert Zeros(k)[j..] == Zeros(k - j);
  }

  lemma {:induction false} ZerosValue(k: nat)
    ensures DigitsValue(Zeros(k)) == 0
  {
    if k > 0 {
      assert Zeros(k)[..k - 1] == Zeros(k - 1);
      ZerosValue(k - 1);
    }
  }

  /** Reading digits left to right: the left part counts `10^|q|` times. */
  lemma {:induction false} DigitsValueAppend(p: string, q: string)
    requires AllDigits(p) && AllDigits(q)
    ensures AllDigits(p + q)
    ensures DigitsValue(p + q) == DigitsValue(p) * Pow10(|q|) + DigitsValue(q)
    decreases |q|
  {
    if q == [] {
      assert p + q == p;
    } else {
      var n := |q| - 1;
      var init := q[..n];
      assert (p + q)[..|p + q| - 1] == p + init;
      assert (p + q)[|p + q| - 1] == q[n];
      DigitsValueAppend(p, init);
      var a, b, c := DigitsValue(p), Pow10(n), DigitsValue(init);
      assert DigitsValue(p + q) == (a * b + c) * 10 + DigitOf(q[n]);
      assert DigitsValue(q) == c * 10 + DigitOf(q[n]);
      assert Pow10(|q|) == b * 10;
      ShiftByTen(a, b, c);
    }
  }

  lemma ShiftByTen(a: int, b: int, c: int)
    ensures (a * b + c) * 10 == a * (b * 10) + c * 10
  {
    calc {
      (a * b + c) * 10;
      a * b * 10 + c * 10;
      a * (b * 10) + c * 10;
    }
  }

  /** Round trip: for a date with year 0..9999 the text is `YYYY-MM-DD`, with
      digits elsewhere, and its three fields read back as the year, the
      one-based month and the day. */
  lemma DateRoundTrip(time: int, year: int, month: int, day: int)
    requires 0 <= year <= 9999 && 0 <= month <= 11 && 1 <= day <= 31
    ensures var r := LocalDateAsValue(ValidDate(time, year, month, day));
            AllDigits(r[..4]) && AllDigits(r[5..7]) && AllDigits(r[8..]) &&
            DigitsValue(r[..4]) == year && DigitsValue(r[5..7]) == month + 1 && DigitsValue(r[8..]) == day
  {
    var y := PadZero(Some(year), Zeros(4));
    var m := PadZero(Some(month + 1), Zeros(2));
    var d := PadZero(Some(day), Zeros(2));
    assert Pow10(2) == 100 && Pow10(4) == 10000;
    PadZeroReadsBack(year, 4);
    PadZeroReadsBack(month + 1, 2);
    PadZeroReadsBack(day, 2);
    FieldsOf(y, m, d);
  }

  /** Cutting `y-m-d` back into its fields. */
  lemma FieldsOf(y: string, m: string, d: string)
    requires |y| == 4 && |m| == 2 && |d| == 2
    ensures var r := y + "-" + m + "-" + d;
            r[..4] == y && r[5..7] == m && r[8..] == d
  {
  }

  /** A year past 9999 keeps only its last four digits. */
  lemma LongYearTruncated()
    ensures PadZero(Some(12345), "0000") == "2345"
  {
    assert NatToString(12345) == "12345" by {
      assert NatToString(1) == "1";
      assert NatToString(12) == NatToString(1) + "2";
      assert NatToString(123) == NatToString(12) + "3";
      assert NatToString(1234) == NatToString(123) + "4";
    }
  }
}

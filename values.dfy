/**
 * The values a form holds, and the few JavaScript coercions the validators
 * rely on: `+value` (number coercion), the `\s` whitespace class, `String(value)`
 * being blank, the UTF-16 `length` of a string, and `===` on primitives.
 */
module Values {
  import opened Wrappers

  /** A JavaScript number. */
  datatype Number = Finite(r: real) | NaN | Infinity(negative: bool)

  /** A JavaScript `Date`: invalid, or a valid instant (milliseconds since the
      epoch, `getTime()`) with its local calendar fields: `getFullYear()`,
      the zero-based `getMonth()` and `getDate()`. */
  datatype DateValue =
    | InvalidDate
    | ValidDate(time: int, fullYear: int, month: int, date: int)

  /** What a field, a group or an array of groups holds. */
  datatype Value =
    | Null
    | Undefined
    | Str(s: string)
    | Num(n: Number)
    | Bool(b: bool)
    | Date(d: DateValue)
    | Files(id: nat)                  // a FileList or File, known only by its identity
    | Arr(items: seq<Value>)          // an array (also an array of groups' value)
    | Obj(fields: seq<(string, Value)>) // a plain record (a group's value)
  {
    /** lodash `isNil`: `null` or `undefined`. */
    predicate IsNil() { Null? || Undefined? }
  }

  /** An error record such as `{required: true}`. */
  type Errors = map<string, bool>

  /** `a < b` on numbers, where `a` is finite. */
  predicate Below(a: real, b: Number)
  {
    match b
    case Finite(r) => a < r
    case NaN => false
    case Infinity(negative) => !negative
  }

  /** `a > b` on numbers, where `a` is finite. */
  predicate Above(a: real, b: Number)
  {
    match b
    case Finite(r) => a > r
    case NaN => false
    case Infinity(negative) => negative
  }

  /** A character of the JavaScript class `\s` (also what `trim` removes). */
  predicate IsWhitespaceChar(c: char)
  {
    c == '\t' || c == '\n' || c == '\U{000B}' || c == '\U{000C}' || c == '\r' || c == ' ' ||
    c == '\U{00A0}' || c == '\U{1680}' || ('\U{2000}' <= c <= '\U{200A}') ||
    c == '\U{2028}' || c == '\U{2029}' || c == '\U{202F}' || c == '\U{205F}' ||
    c == '\U{3000}' || c == '\U{FEFF}'
  }

  /** `isWhitespace`: the string matches `/^\s*$/`; the empty string does. */
  predicate IsWhitespace(s: string)
  {
    forall i :: 0 <= i < |s| ==> IsWhitespaceChar(s[i])
  }

  predicate IsDigit(c: char) { '0' <= c <= '9' }

  predicate AllDigits(s: string) { forall i :: 0 <= i < |s| ==> IsDigit(s[i]) }

  function DigitOf(c: char): (d: nat)
    requires IsDigit(c)
    ensures d <= 9
  {
    c as int - '0' as int
  }

  /** The number a string of decimal digits denotes, read left to right. */
  function DigitsValue(s: string): nat
    requires AllDigits(s)
  {
    if s == [] then 0 else DigitsValue(s[..|s| - 1]) * 10 + DigitOf(s[|s| - 1])
  }

  function Pow10(k: nat): (p: nat)
    ensures p >= 1
  {
    if k == 0 then 1 else 10 * Pow10(k - 1)
  }

  /** `s` without leading and trailing `\s` characters (`String.prototype.trim`). */
  function Trim(s: string): (t: string)
    ensures |t| <= |s|
    ensures t == [] <==> IsWhitespace(s)
  {
    if s == [] then []
    else if IsWhitespaceChar(s[0]) then Trim(s[1..])
    else if IsWhitespaceChar(s[|s| - 1]) then Trim(s[..|s| - 1])
    else s
  }

  /** An unsigned decimal literal without exponent: digits, optionally a point
      and more digits, with at least one digit in all (`12`, `12.`, `.5`, `1.5`). */
  function UnsignedDecimal(t: string): Option<real>
  {
    ScanDecimal(t, 0, false, 0.0, 1.0, false)
  }

  /** Reads `t[i..]` left to right: `value` so far, `scale` the place of the
      next fractional digit's unit, `afterPoint` once the point is read,
      `anyDigit` once a digit is read. */
  function ScanDecimal(t: string, i: nat, afterPoint: bool, value: real, scale: real, anyDigit: bool): Option<real>
    requires i <= |t|
    decreases |t| - i
  {
    if i == |t| then (if anyDigit then Some(value) else None)
    else if t[i] == '.' && !afterPoint then ScanDecimal(t, i + 1, true, value, scale, anyDigit)
    else if !IsDigit(t[i]) then None
    else if afterPoint then ScanDecimal(t, i + 1, true, value + DigitOf(t[i]) as real * (scale / 10.0), scale / 10.0, true)
    else ScanDecimal(t, i + 1, false, value * 10.0 + DigitOf(t[i]) as real, scale, true)
  }

  /** `t` is the word `Infinity`, compared character by character. */
  predicate IsInfinityWord(t: string)
  {
    |t| == 8 && t[0] == 'I' && t[1] == 'n' && t[2] == 'f' && t[3] == 'i' &&
    t[4] == 'n' && t[5] == 'i' && t[6] == 't' && t[7] == 'y'
  }

  /** `+s` for a string: blank is 0, a signed decimal or `Infinity` is that
      number, anything else NaN. */
  function StringToNumber(s: string): Number
  {
    var t := Trim(s);
    if t == [] then Finite(0.0)
    else
      var negative := t[0] == '-';
      var body := if t[0] == '-' || t[0] == '+' then t[1..] else t;
      if IsInfinityWord(body) then Infinity(negative)
      else match UnsignedDecimal(body)
        case Some(r) => Finite(if negative then -r else r)
        case None => NaN
  }

  /** `+value` for a value that is not nil. A one-element array coerces through
      its element's string form; two or more elements join with a comma, never
      a number. */
  function ToNumber(v: Value): Number
    requires !v.IsNil()
  {
    match v
    case Str(s) => StringToNumber(s)
    case Num(n) => n
    case Bool(b) => Finite(if b then 1.0 else 0.0)
    case Date(d) => if d.ValidDate? then Finite(d.time as real) else NaN
    case Files(_) => NaN
    case Obj(_) => NaN
    case Arr(items) =>
      if |items| == 0 then Finite(0.0)
      else if |items| == 1 then
        (match items[0]
         case Null => Finite(0.0)
         case Undefined => Finite(0.0)
         case Str(_) => ToNumber(items[0])
         case Num(_) => ToNumber(items[0])
         case Arr(_) => ToNumber(items[0])
         case _ => NaN)
      else NaN
  }

  /** `String(value)` is all whitespace. Only strings and arrays can print
      blank; inside an array, nil prints as the empty string. */
  predicate StringFormIsBlank(v: Value)
  {
    match v
    case Str(s) => IsWhitespace(s)
    case Arr(items) =>
      |items| == 0 || (|items| == 1 && (items[0].IsNil() || StringFormIsBlank(items[0])))
    case _ => false
  }

  /** `s.length`: UTF-16 code units, two for a character outside the BMP. */
  function Utf16Length(s: string): (n: nat)
    ensures |s| <= n <= 2 * |s|
  {
    if s == [] then 0 else (if s[0] as int > 0xFFFF then 2 else 1) + Utf16Length(s[1..])
  }

  /** `a === b`. Numbers compare by value with NaN unequal to itself. A file
      list is the same object exactly when it carries the same identity (an
      input returns the one it holds until the selection changes). Arrays,
      records and dates are never identical to a value read from an input:
      a date input builds a new `Date` on every read. */
  predicate StrictEquals(a: Value, b: Value)
  {
    match (a, b)
    case (Null, Null) => true
    case (Undefined, Undefined) => true
    case (Str(x), Str(y)) => x == y
    case (Bool(x), Bool(y)) => x == y
    case (Num(Finite(x)), Num(Finite(y))) => x == y
    case (Num(Infinity(x)), Num(Infinity(y))) => x == y
    case (Files(x), Files(y)) => x == y
    case _ => false
  }
}

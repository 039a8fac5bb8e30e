/**
 * The built-in leaf validators of `DefaultValidators` (src/validation.ts):
 * `required`, `numberRange`, `lengthRange`, `pattern`, and the string-predicate
 * validators `email`, `phone` and `creditCard`, together with the presentation
 * attributes an attributed validator carries.
 *
 * A validator maps a field value to an error record, or to nothing (`undefined`
 * or `false`, both written `None` here). Regular expressions are not modelled:
 * a pattern, the e-mail grammar and the phone grammar of src/validation.ts are
 * predicates the caller supplies.
 */
module Validation {
  import opened Wrappers
  import opened Values
  import Luhn

  /** The keys of `INativeValidationAttributes`. */
  datatype AttrKey = RequiredAttr | MinAttr | MaxAttr | MinLengthAttr | MaxLengthAttr | PatternAttr

  /** An attribute value. `UndefinedAttr` is a key that is present with the value
      `undefined`, as `{min, max}` builds when `min` is not given. */
  datatype AttrVal = UndefinedAttr | BoolAttr(b: bool) | NumAttr(n: Number) | StrAttr(s: string)

  type Attrs = map<AttrKey, AttrVal>

  /** JavaScript truthiness of an attribute value. */
  predicate Truthy(a: AttrVal)
  {
    match a
    case UndefinedAttr => false
    case BoolAttr(b) => b
    case NumAttr(n) => n != NaN && n != Finite(0.0)
    case StrAttr(s) => s != []
  }

  /** `!isNil(attrs[k])`: the key is present with a defined value. */
  predicate HasAttr(attrs: Attrs, k: AttrKey)
  {
    k in attrs && !attrs[k].UndefinedAttr?
  }

  /** A bound given as `number | undefined`, as an attribute value. */
  function BoundAttr(bound: Option<Number>): (a: AttrVal)
    ensures a.UndefinedAttr? <==> bound.None?
    ensures bound.Some? ==> a == NumAttr(bound.value)
  {
    match bound
    case None => UndefinedAttr
    case Some(n) => NumAttr(n)
  }

  /** `IFormControlValidator`: a plain function, or a function carrying the
      native attributes it enforces (`FormControlAttributedValidator`). */
  datatype Validator =
    | Plain(run: Value -> Option<Errors>)
    | Attributed(attributes: Attrs, run: Value -> Option<Errors>)

  /** A pattern given as a string, or as a regular expression with its source. */
  datatype PatternSpec = PatternString(text: string) | PatternRegex(source: string)

  /** The `pattern` attribute: the string itself, or the expression's source. */
  function PatternText(p: PatternSpec): (t: string)
    ensures p.PatternString? ==> t == p.text
    ensures p.PatternRegex? ==> t == p.source
  {
    match p
    case PatternString(text) => text
    case PatternRegex(source) => source
  }

  /** `isNilOrWhitespace(value)`: nil reads as the empty string. */
  predicate IsNilOrWhitespace(value: Option<string>)
  {
    IsWhitespace(value.GetOr([]))
  }

  /** A nil value and the empty string are both nil-or-whitespace; a string with a
      non-whitespace character is not. */
  lemma NilOrWhitespaceCases(s: string, i: nat)
    requires i < |s| && !IsWhitespaceChar(s[i])
    ensures IsNilOrWhitespace(None)
    ensures IsNilOrWhitespace(Some([]))
    ensures !IsNilOrWhitespace(Some(s))
  {
  }

  /** The record `{key: true}`. */
  function Flag(key: string): (e: Errors)
    ensures key in e && e[key] && |e| == 1
  {
    map[key := true]
  }

  /** The values `required` rejects: nil, an invalid date, NaN, an empty array
      and an all-whitespace string. */
  predicate IsMissing(v: Value)
  {
    v.IsNil() || v == Date(InvalidDate) || v == Num(NaN) || v == Arr([]) ||
    (v.Str? && IsWhitespace(v.s))
  }

  /** The check of `DefaultValidators.required`. */
  function RequiredCheck(v: Value): (r: Option<Errors>)
    ensures r.Some? <==> IsMissing(v)
    ensures r.Some? ==> r.value == Flag("required")
  {
    if v.IsNil() || (v.Date? && v.d.InvalidDate?) || (v.Num? && v.n.NaN?) ||
       (v.Arr? && |v.items| <= 0) || (v.Str? && IsWhitespace(v.s))
    then Some(Flag("required"))
    else None
  }

  /** `DefaultValidators.required`, with the attribute `{required: true}`. */
  function Required(): (v: Validator)
    ensures v.Attributed? && v.attributes == map[RequiredAttr := BoolAttr(true)]
    ensures forall x :: v.run(x) == RequiredCheck(x)
  {
    Attributed(map[RequiredAttr := BoolAttr(true)], RequiredCheck)
  }

  /** A string value fails `required` exactly when it is nil-or-whitespace. */
  lemma RequiredOnStrings(s: string)
    ensures RequiredCheck(Str(s)).Some? <==> IsNilOrWhitespace(Some(s))
  {
  }

  /** The check of `DefaultValidators.numberRange(min, max)`: nil and values
      whose coercion `+value` is not finite are skipped; otherwise the record
      holds `min` and `max` for the bounds broken, and is empty in range. */
  function NumberRangeCheck(min: Option<Number>, max: Option<Number>, v: Value): (r: Option<Errors>)
    ensures r.None? <==> v.IsNil() || !ToNumber(v).Finite?
    ensures r.Some? ==> !v.IsNil() && ToNumber(v).Finite? && OnlyFlags(r.value, {"min", "max"})
    ensures r.Some? ==> ("min" in r.value <==> min.Some? && Below(ToNumber(v).r, min.value))
    ensures r.Some? ==> ("max" in r.value <==> max.Some? && Above(ToNumber(v).r, max.value))
  {
    if v.IsNil() then None
    else
      var x := ToNumber(v);
      if !x.Finite? then None
      else
        var lower: Errors := if min.Some? && Below(x.r, min.value) then Flag("min") else map[];
        var upper: Errors := if max.Some? && Above(x.r, max.value) then Flag("max") else map[];
        Some(lower + upper)
  }

  /** Every key of `e` is one of `keys`, and every flag is `true`. */
  predicate OnlyFlags(e: Errors, keys: set<string>)
  {
    e.Keys <= keys && forall k :: k in e ==> e[k]
  }

  /** `DefaultValidators.numberRange(min, max)`, with the attributes `{min, max}`. */
  function NumberRange(min: Option<Number>, max: Option<Number>): (v: Validator)
    ensures v.Attributed? && v.attributes == map[MinAttr := BoundAttr(min), MaxAttr := BoundAttr(max)]
    ensures forall x :: v.run(x) == NumberRangeCheck(min, max, x)
  {
    Attributed(map[MinAttr := BoundAttr(min), MaxAttr := BoundAttr(max)], x => NumberRangeCheck(min, max, x))
  }

  /** A value within both bounds gets the empty record: present, but with no
      key, so it is not an error for a field. */
  lemma NumberRangeInRange(min: real, max: real, x: real)
    requires min <= x <= max
    ensures NumberRangeCheck(Some(Finite(min)), Some(Finite(max)), Num(Finite(x))) == Some(map[])
  {
  }

  /** The check of `DefaultValidators.lengthRange(minLength, maxLength)`: only
      strings are checked, by their UTF-16 length. */
  function LengthRangeCheck(minLength: Option<Number>, maxLength: Option<Number>, v: Value): (r: Option<Errors>)
    ensures r.None? <==> !v.Str?
    ensures r.Some? ==> v.Str? && OnlyFlags(r.value, {"minLength", "maxLength"})
    ensures r.Some? ==> ("minLength" in r.value <==> minLength.Some? && Below(Utf16Length(v.s) as real, minLength.value))
    ensures r.Some? ==> ("maxLength" in r.value <==> maxLength.Some? && Above(Utf16Length(v.s) as real, maxLength.value))
  {
    if !v.Str? then None
    else
      var length := Utf16Length(v.s) as real;
      var lower: Errors := if minLength.Some? && Below(length, minLength.value) then Flag("minLength") else map[];
      var upper: Errors := if maxLength.Some? && Above(length, maxLength.value) then Flag("maxLength") else map[];
      Some(lower + upper)
  }

  /** `DefaultValidators.lengthRange(minLength, maxLength)`, with the
      attributes `{minLength, maxLength}`. */
  function LengthRange(minLength: Option<Number>, maxLength: Option<Number>): (v: Validator)
    ensures v.Attributed?
    ensures v.attributes == map[MinLengthAttr := BoundAttr(minLength), MaxLengthAttr := BoundAttr(maxLength)]
    ensures forall x :: v.run(x) == LengthRangeCheck(minLength, maxLength, x)
  {
    Attributed(map[MinLengthAttr := BoundAttr(minLength), MaxLengthAttr := BoundAttr(maxLength)],
               x => LengthRangeCheck(minLength, maxLength, x))
  }

  /** The check of `DefaultValidators.pattern(pattern)`; `matches(p, v)` says
      whether the expression `p` matches `String(v)`. `null` and `undefined` are skipped. */
  function PatternCheck(matches: (PatternSpec, Value) -> bool, p: PatternSpec, v: Value): (r: Option<Errors>)
    ensures r.Some? <==> !v.IsNil() && !matches(p, v)
    ensures r.Some? ==> r.value == Flag("pattern")
  {
    if v.IsNil() then None
    else if matches(p, v) then None
    else Some(Flag("pattern"))
  }

  /** `DefaultValidators.pattern(pattern)`, with the attribute `{pattern}`. */
  function Pattern(matches: (PatternSpec, Value) -> bool, p: PatternSpec): (v: Validator)
    ensures v.Attributed? && v.attributes == map[PatternAttr := StrAttr(PatternText(p))]
    ensures forall x :: v.run(x) == PatternCheck(matches, p, x)
  {
    Attributed(map[PatternAttr := StrAttr(PatternText(p))], x => PatternCheck(matches, p, x))
  }

  /** `createStringToBoolValidator(test, error)`: nil and non-strings are
      skipped; a string, even an empty one, gets `error` when `test` fails. */
  function StringCheck(test: string -> bool, error: Errors, v: Value): (r: Option<Errors>)
    ensures r.Some? <==> v.Str? && !test(v.s)
    ensures r.Some? ==> r.value == error
  {
    if v.IsNil() || !v.Str? then None
    else if test(v.s) then None
    else Some(error)
  }

  /** `DefaultValidators.email`, over the caller's e-mail grammar. */
  function Email(isValidEmail: string -> bool): (v: Validator)
    ensures v.Plain?
    ensures forall x :: v.run(x) == StringCheck(isValidEmail, Flag("email"), x)
  {
    Plain(x => StringCheck(isValidEmail, Flag("email"), x))
  }

  /** `DefaultValidators.phone`, over the caller's phone grammar. */
  function Phone(isValidPhoneNumber: string -> bool): (v: Validator)
    ensures v.Plain?
    ensures forall x :: v.run(x) == StringCheck(isValidPhoneNumber, Flag("phone"), x)
  {
    Plain(x => StringCheck(isValidPhoneNumber, Flag("phone"), x))
  }

  /** The check of `DefaultValidators.creditCard`: `{creditCard: true}`
      exactly for a string that fails the Luhn check. */
  function CreditCardCheck(v: Value): (r: Option<Errors>)
    ensures r.Some? <==> v.Str? && !Luhn.LuhnValid(v.s)
    ensures r.Some? ==> r.value == Flag("creditCard")
  {
    StringCheck(Luhn.LuhnValid, Flag("creditCard"), v)
  }

  /** `DefaultValidators.creditCard`. */
  function CreditCard(): (v: Validator)
    ensures v.Plain?
    ensures forall x :: v.run(x) == CreditCardCheck(x)
  {
    Plain(CreditCardCheck)
  }

  /** The empty string and blank strings are checked, and fail the Luhn check. */
  lemma CreditCardRejectsBlank(s: string)
    requires IsWhitespace(s)
    ensures CreditCardCheck(Str(s)) == Some(Flag("creditCard"))
  {
    assert Luhn.StripNonDigits(s) == [] by { BlankHasNoDigits(s); }
  }

  lemma {:induction false} BlankHasNoDigits(s: string)
    requires IsWhitespace(s)
    ensures Luhn.StripNonDigits(s) == []
  {
    if s != [] {
      assert IsWhitespaceChar(s[0]);
      BlankHasNoDigits(s[1..]);
    }
  }
}

/**
 * The variant validator set of validation.ts at the repository root. `required`,
 * `numberRange` and `lengthRange` are those of module Validation. What differs:
 * `pattern` goes through `patternFunc`, which by default skips values whose
 * string form is blank (nil is stringified, not skipped); the string-predicate
 * validators also skip blank strings; and the phone grammar is `/^\+?\d+$/`,
 * recognised here by hand.
 */
module RootValidation {
  import opened Wrappers
  import opened Values
  import opened Validation
  import Luhn

  /** `patternFunc(pattern, errors, ignoreIfNilOrWhitespace)`: with the flag,
      a value whose `String(value)` is blank is skipped; otherwise the record
      `errors` is reported when the expression does not match. */
  function PatternFuncCheck(matches: (PatternSpec, Value) -> bool, p: PatternSpec, errors: Errors,
                            ignoreIfNilOrWhitespace: bool, v: Value): (r: Option<Errors>)
    ensures r.Some? <==> !(ignoreIfNilOrWhitespace && StringFormIsBlank(v)) && !matches(p, v)
    ensures r.Some? ==> r.value == errors
  {
    if ignoreIfNilOrWhitespace && StringFormIsBlank(v) then None
    else if matches(p, v) then None
    else Some(errors)
  }

  /** `DefaultValidators.pattern(pattern, ignoreIfNilOrWhitespace = true)`. */
  function Pattern(matches: (PatternSpec, Value) -> bool, p: PatternSpec, ignoreIfNilOrWhitespace: bool): (v: Validator)
    ensures v.Attributed? && v.attributes == map[PatternAttr := StrAttr(PatternText(p))]
    ensures forall x :: v.run(x) == PatternFuncCheck(matches, p, Flag("pattern"), ignoreIfNilOrWhitespace, x)
  {
    Attributed(map[PatternAttr := StrAttr(PatternText(p))],
               x => PatternFuncCheck(matches, p, Flag("pattern"), ignoreIfNilOrWhitespace, x))
  }

  /** Unlike the pattern validator of src/validation.ts, nil is not skipped:
      `String(null)` and `String(undefined)` are not blank, so nil is judged
      by the expression. Blank strings, which src/validation.ts does judge,
      are skipped. */
  lemma PatternVariantsDiffer(matches: (PatternSpec, Value) -> bool, p: PatternSpec, s: string, nil: Value)
    requires nil.IsNil() && !matches(p, nil) && !matches(p, Str(s)) && IsWhitespace(s)
    ensures PatternFuncCheck(matches, p, Flag("pattern"), true, nil) == Some(Flag("pattern"))
    ensures Validation.PatternCheck(matches, p, nil) == None
    ensures PatternFuncCheck(matches, p, Flag("pattern"), true, Str(s)) == None
    ensures Validation.PatternCheck(matches, p, Str(s)) == Some(Flag("pattern"))
  {
  }

  /** `createStringToBoolValidator(test, error)`: non-strings and blank strings
      are skipped. */
  function StringCheck(test: string -> bool, error: Errors, v: Value): (r: Option<Errors>)
    ensures r.Some? <==> v.Str? && !IsWhitespace(v.s) && !test(v.s)
    ensures r.Some? ==> r.value == error
  {
    if !v.Str? || IsWhitespace(v.s) then None
    else if test(v.s) then None
    else Some(error)
  }

  /** The root string check reports a subset of what the src/ one reports: the
      two agree except on blank strings, which only src/ judges. */
  lemma StringCheckNarrower(test: string -> bool, error: Errors, v: Value)
    ensures StringCheck(test, error, v).Some? ==> Validation.StringCheck(test, error, v) == StringCheck(test, error, v)
    ensures !(v.Str? && IsWhitespace(v.s)) ==> Validation.StringCheck(test, error, v) == StringCheck(test, error, v)
  {
  }

  /** `isValidPhoneNumber`: `value ?? ''` matches `/^\+?\d+$/`, an optional
      plus sign and then one or more decimal digits. */
  predicate IsValidPhoneNumber(value: Option<string>)
  {
    var s := value.GetOr([]);
    var digits := if |s| > 0 && s[0] == '+' then s[1..] else s;
    |digits| > 0 && AllDigits(digits)
  }

  /** The grammar, both ways: a phone number is exactly an optional `+`
      followed by a non-empty digit string. */
  lemma PhoneNumberGrammar(s: string)
    ensures IsValidPhoneNumber(Some(s)) <==>
            exists sign: string, digits: string {:trigger sign + digits} ::
              (sign == [] || sign == "+") && |digits| > 0 && AllDigits(digits) && s == sign + digits
  {
    if IsValidPhoneNumber(Some(s)) {
      if s[0] == '+' {
        assert s == "+" + s[1..];
      } else {
        assert s == [] + s;
      }
    }
    if exists sign: string, digits: string {:trigger sign + digits} ::
         (sign == [] || sign == "+") && |digits| > 0 && AllDigits(digits) && s == sign + digits {
      var sign: string, digits: string :| (sign == [] || sign == "+") && |digits| > 0 && AllDigits(digits) && s == sign + digits;
      if sign == [] {
        assert s == digits;
        assert s[0] != '+' by { assert IsDigit(digits[0]); }
      } else {
        assert s[1..] == digits;
      }
    }
  }

  /** A nil value reads as the empty string, which is not a phone number. */
  lemma NilIsNoPhoneNumber()
    ensures !IsValidPhoneNumber(None)
    ensures !IsValidPhoneNumber(Some("+"))
  {
  }

  /** `DefaultValidators.email`, over the caller's e-mail grammar. */
  function Email(isValidEmail: string -> bool): (v: Validator)
    ensures v.Plain?
    ensures forall x :: v.run(x) == StringCheck(isValidEmail, Flag("email"), x)
  {
    Plain(x => StringCheck(isValidEmail, Flag("email"), x))
  }

  /** The check of `DefaultValidators.phone`. */
  function PhoneCheck(v: Value): (r: Option<Errors>)
    ensures r.Some? <==> v.Str? && !IsWhitespace(v.s) && !IsValidPhoneNumber(Some(v.s))
    ensures r.Some? ==> r.value == Flag("phone")
  {
    StringCheck(s => IsValidPhoneNumber(Some(s)), Flag("phone"), v)
  }

  /** `DefaultValidators.phone`. */
  function Phone(): (v: Validator)
    ensures v.Plain?
    ensures forall x :: v.run(x) == PhoneCheck(x)
  {
    Plain(PhoneCheck)
  }

  /** The check of `DefaultValidators.creditCard`. */
  function CreditCardCheck(v: Value): (r: Option<Errors>)
    ensures r.Some? <==> v.Str? && !IsWhitespace(v.s) && !Luhn.LuhnValid(v.s)
    ensures r.Some? ==> r.value == Flag("creditCard")
  {
    StringCheck(Luhn.LuhnValid, Flag("creditCard"), v)
  }

  /** `DefaultValidators.creditCard`. */
  function CreditCard(): (v: Validator)
    ensures v.Plain?
    ensures forall x :: v.run(x) == CreditCardCheck(x)
  {
    Plain(CreditCardCheck)
  }
}

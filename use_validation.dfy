/**
 * useValidation.ts: the per-field check aggregator `useValueValidation`,
 * which runs the enabled built-in checks (of the root validation.ts) on one
 * value and collects the failed ones, the input attributes and the options;
 * and `useValidation`, which runs it for every field of a form and folds the
 * verdicts into one `isValid`. React's memoisation is left out: the result
 * is a function of the value and the options.
 */
module UseValidation {
  import opened Wrappers
  import opened Values
  import opened Validation
  import RootValidation
  import Luhn

  /** `IValidationOptions`: every check optional. A check flag is on only
      when it is `true`; a bound or pattern is on when present. */
  datatype ValidationOptions = ValidationOptions(
    required: Option<bool>,
    min: Option<Number>,
    max: Option<Number>,
    minLength: Option<Number>,
    maxLength: Option<Number>,
    pattern: Option<PatternSpec>,
    email: Option<bool>,
    phone: Option<bool>,
    creditCard: Option<bool>)

  /** `IExtendedDefaultErrors` as this aggregator fills it: a flag per key,
      `true` where the key was set. */
  datatype ErrorFlags = ErrorFlags(
    required: bool, min: bool, max: bool, minLength: bool, maxLength: bool,
    pattern: bool, email: bool, phone: bool, creditCard: bool)

  /** The empty record `{}`. */
  const NoErrors := ErrorFlags(false, false, false, false, false, false, false, false, false)

  /** The `React.InputHTMLAttributes` this aggregator sets. */
  datatype InputAttrs = InputAttrs(required: Option<bool>, min: Option<Number>, max: Option<Number>,
                                   minLength: Option<Number>, maxLength: Option<Number>)

  /** `IValidationResult`. */
  datatype ValidationResult = ValidationResult(errors: Option<ErrorFlags>, attrs: InputAttrs, success: bool,
                                               validation: ValidationOptions)

  /** `required` fails on a missing value when that check is on. */
  predicate RequiredFails(value: Value, o: ValidationOptions)
  {
    o.required == Some(true) && IsMissing(value)
  }

  /** A present lower bound fails when a finite non-nil value lies below it. */
  predicate MinFails(value: Value, o: ValidationOptions)
  {
    o.min.Some? && !value.IsNil() && ToNumber(value).Finite? && Below(ToNumber(value).r, o.min.value)
  }

  /** A present upper bound fails when a finite non-nil value lies above it. */
  predicate MaxFails(value: Value, o: ValidationOptions)
  {
    o.max.Some? && !value.IsNil() && ToNumber(value).Finite? && Above(ToNumber(value).r, o.max.value)
  }

  /** A present minimum length fails on a shorter string. */
  predicate MinLengthFails(value: Value, o: ValidationOptions)
  {
    o.minLength.Some? && value.Str? && Below(Utf16Length(value.s) as real, o.minLength.value)
  }

  /** A present maximum length fails on a longer string. */
  predicate MaxLengthFails(value: Value, o: ValidationOptions)
  {
    o.maxLength.Some? && value.Str? && Above(Utf16Length(value.s) as real, o.maxLength.value)
  }

  /** A present pattern fails on a value whose string form is not blank and
      does not match. */
  predicate PatternFails(value: Value, o: ValidationOptions, matches: (PatternSpec, Value) -> bool)
  {
    o.pattern.Some? && !StringFormIsBlank(value) && !matches(o.pattern.value, value)
  }

  /** The e-mail check, when on, fails on a non-blank string that is not an
      address. */
  predicate EmailFails(value: Value, o: ValidationOptions, isValidEmail: string -> bool)
  {
    o.email == Some(true) && value.Str? && !IsWhitespace(value.s) && !isValidEmail(value.s)
  }

  /** The phone check, when on, fails on a non-blank string that is not a
      phone number. */
  predicate PhoneFails(value: Value, o: ValidationOptions)
  {
    o.phone == Some(true) && value.Str? && !IsWhitespace(value.s) && !RootValidation.IsValidPhoneNumber(Some(value.s))
  }

  /** The card check, when on, fails on a non-blank string that fails the
      Luhn check. */
  predicate CreditCardFails(value: Value, o: ValidationOptions)
  {
    o.creditCard == Some(true) && value.Str? && !IsWhitespace(value.s) && !Luhn.LuhnValid(value.s)
  }

  /** The failed checks of `value` under the options `o`. */
  function FailedChecks(value: Value, o: ValidationOptions, matches: (PatternSpec, Value) -> bool,
                        isValidEmail: string -> bool): ErrorFlags
  {
    ErrorFlags(RequiredFails(value, o), MinFails(value, o), MaxFails(value, o),
               MinLengthFails(value, o), MaxLengthFails(value, o), PatternFails(value, o, matches),
               EmailFails(value, o, isValidEmail),
               PhoneFails(value, o),
               CreditCardFails(value, o))
  }

  /** The input attributes: `required` when that check is on, and each bound
      that is present; a pattern gives none. */
  function AttrsFor(o: ValidationOptions): InputAttrs
  {
    InputAttrs(if o.required == Some(true) then Some(true) else None, o.min, o.max, o.minLength, o.maxLength)
  }

  /** What a field's result must be: success exactly when no enabled check
      fails; otherwise an error record flagging exactly the failed checks;
      the attributes of the enabled checks; and the options echoed. */
  ghost predicate IsFieldResult(value: Value, o: ValidationOptions, matches: (PatternSpec, Value) -> bool,
                                isValidEmail: string -> bool, r: ValidationResult)
  {
    var failed := FailedChecks(value, o, matches, isValidEmail);
    && r.validation == o
    && (r.success <==> failed == NoErrors)
    && r.errors == (if r.success then None else Some(failed))
    && r.attrs == AttrsFor(o)
  }

  /** A check that is off never fails, and an unflagged result is a success:
      only enabled checks can make a field fail. */
  lemma OnlyEnabledChecksFail(value: Value, o: ValidationOptions, matches: (PatternSpec, Value) -> bool,
                              isValidEmail: string -> bool)
    requires o.required != Some(true) && o.min.None? && o.max.None? && o.minLength.None? && o.maxLength.None?
    requires o.pattern.None? && o.email != Some(true) && o.phone != Some(true) && o.creditCard != Some(true)
    ensures FailedChecks(value, o, matches, isValidEmail) == NoErrors
  {
  }

  /** Whether `r` reports a truthy `key`. */
  predicate Flagged(r: Option<Errors>, key: string)
  {
    r.Some? && key in r.value && r.value[key]
  }

  /** What the aggregator reads from each validator's record (`r.min`,
      `r.email`, ...) is the corresponding failure. */
  lemma RangeFlags(value: Value, o: ValidationOptions)
    ensures Flagged(NumberRangeCheck(o.min, o.max, value), "min") <==> MinFails(value, o)
    ensures Flagged(NumberRangeCheck(o.min, o.max, value), "max") <==> MaxFails(value, o)
  {
  }

  lemma LengthFlags(value: Value, o: ValidationOptions)
    ensures Flagged(LengthRangeCheck(o.minLength, o.maxLength, value), "minLength") <==> MinLengthFails(value, o)
    ensures Flagged(LengthRangeCheck(o.minLength, o.maxLength, value), "maxLength") <==> MaxLengthFails(value, o)
  {
  }

  lemma PatternFlag(value: Value, o: ValidationOptions, matches: (PatternSpec, Value) -> bool)
    requires o.pattern.Some?
    ensures Flagged(RootValidation.PatternFuncCheck(matches, o.pattern.value, Flag("pattern"), true, value), "pattern") <==>
            PatternFails(value, o, matches)
  {
  }

  lemma EmailFlag(value: Value, o: ValidationOptions, isValidEmail: string -> bool)
    requires o.email == Some(true)
    ensures Flagged(RootValidation.StringCheck(isValidEmail, Flag("email"), value), "email") <==>
            EmailFails(value, o, isValidEmail)
  {
  }

  lemma PhoneFlag(value: Value, o: ValidationOptions)
    requires o.phone == Some(true)
    ensures Flagged(RootValidation.PhoneCheck(value), "phone") <==> PhoneFails(value, o)
  {
  }

  lemma CreditCardFlag(value: Value, o: ValidationOptions)
    requires o.creditCard == Some(true)
    ensures Flagged(RootValidation.CreditCardCheck(value), "creditCard") <==> CreditCardFails(value, o)
  {
  }

  /** `useValueValidation(value, checks)`: absent for a field without options
      (`{none: true}`), otherwise the result `IsFieldResult` describes. The
      body's blocks, which share only `attrs`, `errors` and `success`, are the
      steps below, in the order they run. */
  method UseValueValidation(value: Value, checks: Option<ValidationOptions>,
                            matches: (PatternSpec, Value) -> bool, isValidEmail: string -> bool)
    returns (result: Option<ValidationResult>)
    ensures result.None? <==> checks.None?
    ensures result.Some? ==> IsFieldResult(value, checks.value, matches, isValidEmail, result.value)
  {
    if checks.None? {
      return None;
    }
    var o := checks.value;
    var attrs := InputAttrs(None, None, None, None, None);
    var errors := NoErrors;
    var success := true;
    attrs, errors, success := RequiredStep(value, o, attrs, errors, success);
    attrs, errors, success := NumberRangeStep(value, o, attrs, errors, success);
    attrs, errors, success := LengthRangeStep(value, o, attrs, errors, success);
    errors, success := PatternStep(value, o, matches, errors, success);
    errors, success := EmailStep(value, o, isValidEmail, errors, success);
    errors, success := PhoneStep(value, o, errors, success);
    errors, success := CreditCardStep(value, o, errors, success);
    assert errors == FailedChecks(value, o, matches, isValidEmail);
    result := Some(ValidationResult(if success then None else Some(errors), attrs, success, o));
  }

  /** The `required` block: the attribute when the check is on, and the flag
      when the value is missing (`required.validate(value)?.required`). */
  method RequiredStep(value: Value, o: ValidationOptions, attrs: InputAttrs, errors: ErrorFlags, success: bool)
    returns (attrs': InputAttrs, errors': ErrorFlags, success': bool)
    ensures attrs' == attrs.(required := if o.required == Some(true) then Some(true) else attrs.required)
    ensures errors' == errors.(required := errors.required || RequiredFails(value, o))
    ensures success' == (success && !RequiredFails(value, o))
  {
    attrs', errors', success' := attrs, errors, success;
    var isNilOrWhitespace := Flagged(RequiredCheck(value), "required");
    if o.required == Some(true) {
      attrs' := attrs'.(required := Some(true));
      if isNilOrWhitespace {
        errors' := errors'.(required := true);
        success' := false;
      }
    }
  }

  /** The `min`/`max` block: the attributes of the numeric bounds, and, when
      there is one, the flags `numberRange` reports. */
  method NumberRangeStep(value: Value, o: ValidationOptions, attrs: InputAttrs, errors: ErrorFlags, success: bool)
    returns (attrs': InputAttrs, errors': ErrorFlags, success': bool)
    ensures attrs' == attrs.(min := if o.min.Some? then o.min else attrs.min,
                             max := if o.max.Some? then o.max else attrs.max)
    ensures errors' == errors.(min := errors.min || MinFails(value, o), max := errors.max || MaxFails(value, o))
    ensures success' == (success && !MinFails(value, o) && !MaxFails(value, o))
  {
    var hasRange;
    attrs', hasRange := NumberRangeAttrs(o, attrs);
    errors', success' := NumberRangeFlags(value, o, hasRange, errors, success);
  }

  /** The first half of the `min`/`max` block: each bound present becomes an
      attribute and marks that there is a range. */
  method NumberRangeAttrs(o: ValidationOptions, attrs: InputAttrs) returns (attrs': InputAttrs, hasRange: bool)
    ensures attrs' == attrs.(min := if o.min.Some? then o.min else attrs.min,
                             max := if o.max.Some? then o.max else attrs.max)
    ensures hasRange <==> o.min.Some? || o.max.Some?
  {
    attrs' := attrs;
    hasRange := false;
    if o.min.Some? {
      hasRange := true;
      attrs' := attrs'.(min := o.min);
    }
    if o.max.Some? {
      hasRange := true;
      attrs' := attrs'.(max := o.max);
    }
  }

  /** The second half of the `min`/`max` block: with a range, the flags
      `numberRange` reports. */
  method NumberRangeFlags(value: Value, o: ValidationOptions, hasRange: bool, errors: ErrorFlags, success: bool)
    returns (errors': ErrorFlags, success': bool)
    requires hasRange <==> o.min.Some? || o.max.Some?
    ensures errors' == errors.(min := errors.min || MinFails(value, o), max := errors.max || MaxFails(value, o))
    ensures success' == (success && !MinFails(value, o) && !MaxFails(value, o))
  {
    errors', success' := errors, success;
    if hasRange {
      var minFailed, maxFailed := ReadRangeFlags(value, o);
      if minFailed {
        errors' := errors'.(min := true);
        success' := false;
      }
      if maxFailed {
        errors' := errors'.(max := true);
        success' := false;
      }
    }
  }

  /** Runs `numberRange` and reads its two flags. */
  method ReadRangeFlags(value: Value, o: ValidationOptions) returns (minFailed: bool, maxFailed: bool)
    ensures minFailed == MinFails(value, o)
    ensures maxFailed == MaxFails(value, o)
  {
    var r := NumberRangeCheck(o.min, o.max, value);
    RangeFlags(value, o);
    minFailed := Flagged(r, "min");
    maxFailed := Flagged(r, "max");
  }

  /** The `minLength`/`maxLength` block, the same way through `lengthRange`. */
  method LengthRangeStep(value: Value, o: ValidationOptions, attrs: InputAttrs, errors: ErrorFlags, success: bool)
    returns (attrs': InputAttrs, errors': ErrorFlags, success': bool)
    ensures attrs' == attrs.(minLength := if o.minLength.Some? then o.minLength else attrs.minLength,
                             maxLength := if o.maxLength.Some? then o.maxLength else attrs.maxLength)
    ensures errors' == errors.(minLength := errors.minLength || MinLengthFails(value, o),
                               maxLength := errors.maxLength || MaxLengthFails(value, o))
    ensures success' == (success && !MinLengthFails(value, o) && !MaxLengthFails(value, o))
  {
    var hasRange;
    attrs', hasRange := LengthRangeAttrs(o, attrs);
    errors', success' := LengthRangeFlags(value, o, hasRange, errors, success);
  }

  /** The first half of the length block: each length bound present becomes
      an attribute and marks that there is a range. */
  method LengthRangeAttrs(o: ValidationOptions, attrs: InputAttrs) returns (attrs': InputAttrs, hasRange: bool)
    ensures attrs' == attrs.(minLength := if o.minLength.Some? then o.minLength else attrs.minLength,
                             maxLength := if o.maxLength.Some? then o.maxLength else attrs.maxLength)
    ensures hasRange <==> o.minLength.Some? || o.maxLength.Some?
  {
    attrs' := attrs;
    hasRange := false;
    if o.minLength.Some? {
      hasRange := true;
      attrs' := attrs'.(minLength := o.minLength);
    }
    if o.maxLength.Some? {
      hasRange := true;
      attrs' := attrs'.(maxLength := o.maxLength);
    }
  }

  /** The second half of the length block: with a range, the flags
      `lengthRange` reports. */
  method LengthRangeFlags(value: Value, o: ValidationOptions, hasRange: bool, errors: ErrorFlags, success: bool)
    returns (errors': ErrorFlags, success': bool)
    requires hasRange <==> o.minLength.Some? || o.maxLength.Some?
    ensures errors' == errors.(minLength := errors.minLength || MinLengthFails(value, o),
                               maxLength := errors.maxLength || MaxLengthFails(value, o))
    ensures success' == (success && !MinLengthFails(value, o) && !MaxLengthFails(value, o))
  {
    errors', success' := errors, success;
    if hasRange {
      var minFailed, maxFailed := ReadLengthFlags(value, o);
      if minFailed {
        errors' := errors'.(minLength := true);
        success' := false;
      }
      if maxFailed {
        errors' := errors'.(maxLength := true);
        success' := false;
      }
    }
  }

  /** Runs `lengthRange` and reads its two flags. */
  method ReadLengthFlags(value: Value, o: ValidationOptions) returns (minFailed: bool, maxFailed: bool)
    ensures minFailed == MinLengthFails(value, o)
    ensures maxFailed == MaxLengthFails(value, o)
  {
    var r := LengthRangeCheck(o.minLength, o.maxLength, value);
    LengthFlags(value, o);
    minFailed := Flagged(r, "minLength");
    maxFailed := Flagged(r, "maxLength");
  }

  /** The `pattern` block: the root `pattern` validator, which skips values
      whose string form is blank. */
  method PatternStep(value: Value, o: ValidationOptions, matches: (PatternSpec, Value) -> bool,
                     errors: ErrorFlags, success: bool)
    returns (errors': ErrorFlags, success': bool)
    ensures errors' == errors.(pattern := errors.pattern || PatternFails(value, o, matches))
    ensures success' == (success && !PatternFails(value, o, matches))
  {
    errors', success' := errors, success;
    if o.pattern.Some? {
      var r := RootValidation.PatternFuncCheck(matches, o.pattern.value, Flag("pattern"), true, value);
      PatternFlag(value, o, matches);
      if Flagged(r, "pattern") {
        errors' := errors'.(pattern := true);
        success' := false;
      }
    }
  }

  /** The `email` block: the root e-mail validator. */
  method EmailStep(value: Value, o: ValidationOptions, isValidEmail: string -> bool, errors: ErrorFlags, success: bool)
    returns (errors': ErrorFlags, success': bool)
    ensures errors' == errors.(email := errors.email || EmailFails(value, o, isValidEmail))
    ensures success' == (success && !EmailFails(value, o, isValidEmail))
  {
    errors', success' := errors, success;
    if o.email == Some(true) {
      var r := RootValidation.StringCheck(isValidEmail, Flag("email"), value);
      EmailFlag(value, o, isValidEmail);
      if Flagged(r, "email") {
        errors' := errors'.(email := true);
        success' := false;
      }
    }
  }

  /** The `phone` block: the root phone validator. */
  method PhoneStep(value: Value, o: ValidationOptions, errors: ErrorFlags, success: bool)
    returns (errors': ErrorFlags, success': bool)
    ensures errors' == errors.(phone := errors.phone || PhoneFails(value, o))
    ensures success' == (success && !PhoneFails(value, o))
  {
    errors', success' := errors, success;
    if o.phone == Some(true) {
      var r := RootValidation.PhoneCheck(value);
      PhoneFlag(value, o);
      if Flagged(r, "phone") {
        errors' := errors'.(phone := true);
        success' := false;
      }
    }
  }

  /** The `creditCard` block: the root card validator. */
  method CreditCardStep(value: Value, o: ValidationOptions, errors: ErrorFlags, success: bool)
    returns (errors': ErrorFlags, success': bool)
    ensures errors' == errors.(creditCard := errors.creditCard || CreditCardFails(value, o))
    ensures success' == (success && !CreditCardFails(value, o))
  {
    errors', success' := errors, success;
    if o.creditCard == Some(true) {
      var r := RootValidation.CreditCardCheck(value);
      CreditCardFlag(value, o);
      if Flagged(r, "creditCard") {
        errors' := errors'.(creditCard := true);
        success' := false;
      }
    }
  }

  /** A field passes when it has no options or its result is a success. */
  ghost predicate FieldPasses(value: Value, checks: map<string, ValidationOptions>, key: string,
                              matches: (PatternSpec, Value) -> bool, isValidEmail: string -> bool)
  {
    key in checks ==> FailedChecks(value, checks[key], matches, isValidEmail) == NoErrors
  }

  /** `useValidation(form, checks)`: one result per field name, absent for a
      field without options, and `isValid` the conjunction of the fields'
      verdicts. The form is given by its field names and its `watch`. */
  method UseFormValidation(fieldNames: seq<string>, watch: string -> Value, checks: map<string, ValidationOptions>,
                           matches: (PatternSpec, Value) -> bool, isValidEmail: string -> bool)
    returns (validation: map<string, Option<ValidationResult>>, isValid: bool)
    ensures validation.Keys == set k | k in fieldNames
    ensures forall k :: k in validation ==>
              (validation[k].None? <==> k !in checks) &&
              (validation[k].Some? ==> IsFieldResult(watch(k), checks[k], matches, isValidEmail, validation[k].value))
    ensures isValid <==> forall k :: k in fieldNames ==> FieldPasses(watch(k), checks, k, matches, isValidEmail)
  {
    validation := map[];
    isValid := true;
    for i := 0 to |fieldNames|
      invariant validation.Keys == set k | k in fieldNames[..i]
      invariant forall k :: k in validation ==>
                  (validation[k].None? <==> k !in checks) &&
                  (validation[k].Some? ==> IsFieldResult(watch(k), checks[k], matches, isValidEmail, validation[k].value))
      invariant isValid <==> forall k :: k in fieldNames[..i] ==> FieldPasses(watch(k), checks, k, matches, isValidEmail)
    {
      var key := fieldNames[i];
      var options := if key in checks then Some(checks[key]) else None;
      var result := UseValueValidation(watch(key), options, matches, isValidEmail);
      validation := validation[key := result];
      isValid := isValid && (result.None? || result.value.success);
      assert fieldNames[..i + 1] == fieldNames[..i] + [key];
    }
    assert fieldNames[..|fieldNames|] == fieldNames;
  }
}

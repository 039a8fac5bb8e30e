/**
 * The leaf of the form tree, `FormControl` (src/control.ts, and its variant
 * control.ts at the repository root, whose leaf operations are the same). A
 * leaf is immutable: every operation builds a new one, usually through
 * `new FormControl(value, {...this, <changes>})`, which is `Rebuild` below.
 */
module FormControl {
  import opened Wrappers
  import opened Values
  import opened Records
  import opened Validation

  /** A leaf: its value, its validators (absent or a list), whether it must be
      validated again, its error record, and the `dirty` and `touched` flags. */
  datatype Control = Control(
    value: Value,
    validators: Option<seq<Validator>>,
    needsValidation: bool,
    errors: Option<Errors>,
    dirty: bool,
    touched: bool)

  /** `IFormControlConfig`: every field optional. */
  datatype Config = Config(
    validators: Option<seq<Validator>>,
    needsValidation: Option<bool>,
    errors: Option<Errors>,
    dirty: Option<bool>,
    touched: Option<bool>)

  /** The constructor's second argument: nothing, a validator list, or a
      configuration object. */
  datatype ConfigArg = NoConfig | ValidatorList(list: seq<Validator>) | ConfigObject(config: Config)

  /** `new FormControl(value, config)`. */
  function New(value: Value, arg: ConfigArg): (c: Control)
    ensures c.value == value
    ensures !arg.ConfigObject? ==>
              c.needsValidation && !c.dirty && !c.touched && c.errors.None? &&
              c.validators == (if arg.ValidatorList? then Some(arg.list) else None)
    ensures arg.ConfigObject? ==>
              c.validators == arg.config.validators && c.errors == arg.config.errors &&
              (c.needsValidation <==> arg.config.needsValidation == Some(true)) &&
              (c.dirty <==> arg.config.dirty == Some(true)) &&
              (c.touched <==> arg.config.touched == Some(true))
  {
    match arg
    case NoConfig => Control(value, None, true, None, false, false)
    case ValidatorList(list) => Control(value, Some(list), true, None, false, false)
    case ConfigObject(config) =>
      Control(value, config.validators, config.needsValidation.GetOr(false),
              config.errors, config.dirty.GetOr(false), config.touched.GetOr(false))
  }

  /** `{...this}` read as a configuration object. */
  function Spread(c: Control): Config
  {
    Config(c.validators, Some(c.needsValidation), c.errors, Some(c.dirty), Some(c.touched))
  }

  /** Spreading a leaf into the constructor gives the leaf back. */
  lemma RebuildIsIdentity(c: Control)
    ensures New(c.value, ConfigObject(Spread(c))) == c
  {
  }

  /** The result `validateWith` gives for one validator; `undefined` and
      `false` are both `None`, and spread nothing. */
  function ValidateWith(v: Validator, value: Value): Option<Errors>
  {
    match v
    case Attributed(_, run) => run(value)
    case Plain(run) => run(value)
  }

  /** What each validator contributes to the spread merge, in order. */
  function ErrorLayers(vs: seq<Validator>, value: Value): (layers: seq<Errors>)
    ensures |layers| == |vs|
    ensures forall i :: 0 <= i < |vs| ==> layers[i] == ValidateWith(vs[i], value).GetOr(map[])
  {
    seq(|vs|, i requires 0 <= i < |vs| => ValidateWith(vs[i], value).GetOr(map[]))
  }

  /** `getErrors()`: no validator list gives `undefined`; otherwise the records
      are merged by spread, later keys overwriting earlier ones, and an empty
      merge gives `undefined`. */
  function MergedErrors(validators: Option<seq<Validator>>, value: Value): (r: Option<Errors>)
    ensures r.Some? ==> |r.value| > 0
  {
    if validators.None? then None
    else
      var merged := Overlay(ErrorLayers(validators.value, value));
      if |merged| <= 0 then None else Some(merged)
  }

  /** The validator at `i` is the last one to report `key`. */
  ghost predicate LastReporter(vs: seq<Validator>, value: Value, key: string, i: int)
  {
    0 <= i < |vs| && Reports(vs[i], value, key) &&
    forall j :: i < j < |vs| ==> !Reports(vs[j], value, key)
  }

  predicate Reports(v: Validator, value: Value, key: string)
  {
    var r := ValidateWith(v, value);
    r.Some? && key in r.value
  }

  /** Last writer wins: a key is in the merged record iff some validator
      reports it, with the flag of the last validator that does; a validator
      returning `undefined` or `false` contributes nothing. */
  lemma MergedErrorsLastWins(vs: seq<Validator>, value: Value, key: string)
    ensures var r := MergedErrors(Some(vs), value);
            (r.Some? && key in r.value) <==> exists i :: 0 <= i < |vs| && Reports(vs[i], value, key)
    ensures var r := MergedErrors(Some(vs), value);
            forall i :: LastReporter(vs, value, key, i) ==>
              r.Some? && key in r.value && r.value[key] == ValidateWith(vs[i], value).value[key]
  {
    var layers := ErrorLayers(vs, value);
    OverlayLastWins(layers, key);
    forall i | 0 <= i < |vs| ensures (key in layers[i]) == Reports(vs[i], value, key) {
    }
    forall i | LastReporter(vs, value, key, i) ensures LastHolder(layers, key, i) {
    }
  }

  /** A merge is absent exactly when no validator reports any key. */
  lemma MergedErrorsAbsent(vs: seq<Validator>, value: Value)
    ensures MergedErrors(Some(vs), value).None? <==>
            forall i, key :: 0 <= i < |vs| ==> !Reports(vs[i], value, key)
  {
    var r := MergedErrors(Some(vs), value);
    if r.None? {
      forall i, key | 0 <= i < |vs| ensures !Reports(vs[i], value, key) {
        MergedErrorsLastWins(vs, value, key);
      }
    } else {
      var key :| key in r.value;
      MergedErrorsLastWins(vs, value, key);
    }
  }

  /** `getErrors()`, a loop that spreads each validator's result into the
      accumulated record. */
  method GetErrors(c: Control) returns (errors: Option<Errors>)
    ensures errors == MergedErrors(c.validators, c.value)
  {
    if c.validators.None? {
      return None;
    }
    var vs := c.validators.value;
    ghost var layers := ErrorLayers(vs, c.value);
    var acc: Errors := map[];
    for i := 0 to |vs|
      invariant acc == Overlay(layers[..i])
    {
      var validation := ValidateWith(vs[i], c.value);
      assert layers[..i + 1][..i] == layers[..i];
      acc := acc + validation.GetOr(map[]);
    }
    assert layers[..|vs|] == layers;
    if |acc| <= 0 {
      return None;
    }
    return Some(acc);
  }

  /** `validate()`: a leaf that needs no validation is returned as is;
      otherwise the new leaf no longer needs validation and carries the
      merged errors, keeping value, validators, `dirty` and `touched`. */
  function Validate(c: Control): (r: Control)
    ensures !c.needsValidation ==> r == c
    ensures c.needsValidation ==> r == c.(needsValidation := false, errors := MergedErrors(c.validators, c.value))
  {
    if !c.needsValidation then c
    else
      var errors := if c.validators.Some? then MergedErrors(c.validators, c.value) else None;
      if c.validators.Some? && HasErrorsIn(errors) then
        New(c.value, ConfigObject(Config(c.validators, None, errors, Some(c.dirty), Some(c.touched))))
      else
        New(c.value, ConfigObject(Config(c.validators, None, None, Some(c.dirty), Some(c.touched))))
  }

  /** `hasErrorsIn(errors)`: present with at least one key. */
  predicate HasErrorsIn(errors: Option<Errors>)
  {
    errors.Some? && |errors.value| > 0
  }

  /** `isValid`: validated, with no error key. */
  predicate IsValid(c: Control)
  {
    !c.needsValidation && !HasErrorsIn(c.errors)
  }

  /** `isInvalid`: validated, with an error record present (even an empty one). */
  predicate IsInvalid(c: Control)
  {
    !c.needsValidation && c.errors.Some?
  }

  /** Validating twice is validating once. */
  lemma ValidateIdempotent(c: Control)
    ensures Validate(Validate(c)) == Validate(c)
    ensures !Validate(c).needsValidation
  {
  }

  /** While a leaf needs validation it is neither valid nor invalid. */
  lemma PendingIsNeither(c: Control)
    requires c.needsValidation
    ensures !IsValid(c) && !IsInvalid(c)
  {
  }

  /** After validation exactly one of `isValid` and `isInvalid` holds, and a
      leaf that was pending is invalid exactly when some validator reported a
      key. (A leaf built with the empty record `{}` and no pending validation
      is returned as is, and is both; see `EmptyRecordIsBoth`.) */
  lemma ValidateDecides(c: Control)
    requires c.needsValidation || c.errors != Some(map[])
    ensures IsValid(Validate(c)) != IsInvalid(Validate(c))
    ensures c.needsValidation && c.validators.Some? ==>
              (IsInvalid(Validate(c)) <==>
               exists i, key :: 0 <= i < |c.validators.value| && Reports(c.validators.value[i], c.value, key))
  {
    if c.needsValidation && c.validators.Some? {
      MergedErrorsAbsent(c.validators.value, c.value);
    }
  }

  /** A validated leaf configured with the empty record `{}` is both valid
      and invalid. */
  lemma EmptyRecordIsBoth(value: Value)
    ensures var c := New(value, ConfigObject(Config(None, None, Some(map[]), None, None)));
            IsValid(c) && IsInvalid(c) && Validate(c) == c
  {
  }

  /** `patchValue(value)`: the new value, pending validation, no errors. */
  function PatchValue(c: Control, value: Value): (r: Control)
    ensures r == c.(value := value, needsValidation := true, errors := None)
  {
    New(value, ConfigObject(Spread(c).(needsValidation := Some(true), errors := None)))
  }

  /** `setTouched(touched)`: only `touched` changes. */
  function SetTouched(c: Control, touched: bool): (r: Control)
    ensures r == c.(touched := touched)
  {
    New(c.value, ConfigObject(Spread(c).(touched := Some(touched))))
  }

  /** `setDirty(dirty)`: only `dirty` changes. */
  function SetDirty(c: Control, dirty: bool): (r: Control)
    ensures r == c.(dirty := dirty)
  {
    New(c.value, ConfigObject(Spread(c).(dirty := Some(dirty))))
  }

  /** `setValidators(validators)`: the new list, pending validation, no errors. */
  function SetValidators(c: Control, validators: Option<seq<Validator>>): (r: Control)
    ensures r == c.(validators := validators, needsValidation := true, errors := None)
  {
    New(c.value, ConfigObject(Spread(c).(validators := validators, needsValidation := Some(true), errors := None)))
  }

  /** Patching, then validating, judges the new value. */
  lemma PatchThenValidate(c: Control, value: Value)
    ensures var r := Validate(PatchValue(c, value));
            r.value == value && !r.needsValidation && r.errors == MergedErrors(c.validators, value) &&
            r.validators == c.validators && r.dirty == c.dirty && r.touched == c.touched
  {
  }

  /** Re-setting the same validators is patching the same value. */
  lemma SetSameValidators(c: Control)
    ensures SetValidators(c, c.validators) == PatchValue(c, c.value)
  {
  }

  /** `dirty` and `touched` take no part in validation. */
  lemma FlagsCommuteWithValidate(c: Control, flag: bool)
    ensures Validate(SetDirty(c, flag)) == SetDirty(Validate(c), flag)
    ensures Validate(SetTouched(c, flag)) == SetTouched(Validate(c), flag)
    ensures IsValid(SetDirty(c, flag)) == IsValid(c) && IsInvalid(SetDirty(c, flag)) == IsInvalid(c)
  {
  }

  /** `required`: some attributed validator has a truthy `required` attribute. */
  function RequiredIn(vs: seq<Validator>): (r: bool)
    ensures r <==> exists i :: 0 <= i < |vs| && MarksRequired(vs[i])
  {
    if vs == [] then false
    else if MarksRequired(vs[0]) then true
    else
      var rest := RequiredIn(vs[1..]);
      assert forall i :: 1 <= i < |vs| ==> vs[i] == vs[1..][i - 1];
      rest
  }

  predicate MarksRequired(v: Validator)
  {
    v.Attributed? && RequiredAttr in v.attributes && Truthy(v.attributes[RequiredAttr])
  }

  /** The `required` getter: no validator list reads as `false`. */
  function IsRequired(c: Control): (r: bool)
    ensures r <==> c.validators.Some? && exists i :: 0 <= i < |c.validators.value| && MarksRequired(c.validators.value[i])
  {
    c.validators.Some? && RequiredIn(c.validators.value)
  }

  /** Adding `DefaultValidators.required` makes a leaf required. */
  lemma RequiredValidatorMarks(c: Control)
    ensures IsRequired(SetValidators(c, Some(c.validators.GetOr([]) + [Required()])))
  {
    var vs := c.validators.GetOr([]) + [Required()];
    assert MarksRequired(vs[|vs| - 1]);
  }

  /** An attributed validator with a defined value for one of `keys`. */
  predicate Bounds(v: Validator, keys: set<AttrKey>)
  {
    v.Attributed? && exists k :: k in keys && HasAttr(v.attributes, k)
  }

  /** `getAttributedValidator(predicate)`: the index of the first validator at
      or after `from` that is attributed and has a defined bound in `keys`. */
  function FirstBounded(vs: seq<Validator>, keys: set<AttrKey>, from: nat): (r: Option<nat>)
    requires from <= |vs|
    ensures r.Some? ==> from <= r.value < |vs| && Bounds(vs[r.value], keys) &&
                        forall j :: from <= j < r.value ==> !Bounds(vs[j], keys)
    ensures r.None? ==> forall j :: from <= j < |vs| ==> !Bounds(vs[j], keys)
    decreases |vs| - from
  {
    if from == |vs| then None
    else if Bounds(vs[from], keys) then Some(from)
    else FirstBounded(vs, keys, from + 1)
  }

  /** The attributes of the first attributed validator bounding `keys`. */
  function RangeAttrs(c: Control, keys: set<AttrKey>): (r: Option<Attrs>)
    ensures r.Some? <==> c.validators.Some? && exists i :: 0 <= i < |c.validators.value| && Bounds(c.validators.value[i], keys)
    ensures r.Some? ==> exists i :: 0 <= i < |c.validators.value| && Bounds(c.validators.value[i], keys) &&
                                    r.value == c.validators.value[i].attributes &&
                                    forall j :: 0 <= j < i ==> !Bounds(c.validators.value[j], keys)
  {
    if c.validators.None? then None
    else match FirstBounded(c.validators.value, keys, 0)
      case Some(i) => Some(c.validators.value[i].attributes)
      case None => None
  }

  /** `numberRange`: the attributes of the first validator with `min` or `max`. */
  function NumberRangeAttrs(c: Control): (r: Option<Attrs>)
    ensures r == RangeAttrs(c, {MinAttr, MaxAttr})
  {
    RangeAttrs(c, {MinAttr, MaxAttr})
  }

  /** `lengthRange`: the attributes of the first validator with `minLength` or
      `maxLength`. */
  function LengthRangeAttrs(c: Control): (r: Option<Attrs>)
    ensures r == RangeAttrs(c, {MinLengthAttr, MaxLengthAttr})
  {
    RangeAttrs(c, {MinLengthAttr, MaxLengthAttr})
  }

  /** A `numberRange(undefined, undefined)` validator bounds nothing and is
      passed over. */
  lemma UnboundedRangeSkipped(c: Control)
    requires c.validators == Some([NumberRange(None, None)])
    ensures NumberRangeAttrs(c).None?
  {
    var v := NumberRange(None, None);
    assert !Bounds(v, {MinAttr, MaxAttr}) by {
      assert v.attributes == map[MinAttr := UndefinedAttr, MaxAttr := UndefinedAttr];
    }
  }

  /** The attribute records of the validators, plain functions giving none. */
  function AttrLayers(vs: seq<Validator>): (layers: seq<Attrs>)
    ensures |layers| == |vs|
    ensures forall i :: 0 <= i < |vs| ==> layers[i] == (if vs[i].Attributed? then vs[i].attributes else map[])
  {
    seq(|vs|, i requires 0 <= i < |vs| => if vs[i].Attributed? then vs[i].attributes else map[])
  }

  /** `inputAttrs`: a loop spreading each attributed validator's attributes
      into the accumulated record. */
  method InputAttrs(c: Control) returns (attrs: Attrs)
    ensures attrs == Overlay(AttrLayers(c.validators.GetOr([])))
  {
    var vs := c.validators.GetOr([]);
    ghost var layers := AttrLayers(vs);
    attrs := map[];
    for i := 0 to |vs|
      invariant attrs == Overlay(layers[..i])
    {
      assert layers[..i + 1][..i] == layers[..i];
      if vs[i].Attributed? {
        attrs := attrs + vs[i].attributes;
      } else {
        assert layers[i] == map[];
        assert attrs + layers[i] == attrs;
      }
    }
    assert layers[..|vs|] == layers;
  }

  /** The merged attributes: a key is present iff some attributed validator
      has it, with the value of the last one that does. */
  lemma InputAttrsLastWins(vs: seq<Validator>, k: AttrKey)
    ensures var attrs := Overlay(AttrLayers(vs));
            k in attrs <==> exists i :: 0 <= i < |vs| && vs[i].Attributed? && k in vs[i].attributes
    ensures var attrs := Overlay(AttrLayers(vs));
            forall i :: 0 <= i < |vs| && vs[i].Attributed? && k in vs[i].attributes &&
                        (forall j :: i < j < |vs| ==> !(vs[j].Attributed? && k in vs[j].attributes)) ==>
                        k in attrs && attrs[k] == vs[i].attributes[k]
  {
    var layers := AttrLayers(vs);
    OverlayLastWins(layers, k);
    forall i | 0 <= i < |vs| && vs[i].Attributed? && k in vs[i].attributes &&
               (forall j :: i < j < |vs| ==> !(vs[j].Attributed? && k in vs[j].attributes))
      ensures LastHolder(layers, k, i)
    {
    }
  }

  /** The node the change hook builds (control.ts:231-241): the new value, the
      old validators only, pending validation, dirty and touched, no errors. */
  function OnChangeValue(c: Control, value: Value): (r: Control)
    ensures r == Control(value, c.validators, true, None, true, true)
  {
    New(value, ConfigObject(Config(c.validators, Some(true), None, Some(true), Some(true))))
  }

  /** A change is a patch that also marks the leaf dirty and touched. */
  lemma ChangeIsPatchDirtyTouched(c: Control, value: Value)
    ensures OnChangeValue(c, value) == SetTouched(SetDirty(PatchValue(c, value), true), true)
  {
  }

  /** `onBlur` returns at once for an unchecked radio button or an unchecked
      checkbox (the only input that reads a boolean). */
  predicate BlurIgnored(target: Element)
  {
    match target
    case RadioInput(_, checked, _) => !checked
    case OtherInput(_, read) => read == Bool(false)
  }

  /** The node the blur hook hands on, if it hands on one. The value read back
      is `getChangeValue(target, this.value)`: a radio button yields the
      current value itself, the very same reference, which is `===` to itself
      unless it is NaN; any other input reads its own value. The node is
      touched, and dirty when the value read is not `===` the current one or
      it was dirty already; value, validators, errors and pending validation
      are kept. */
  function OnBlur(c: Control, target: Element): (r: Option<Control>)
    ensures r.None? <==> BlurIgnored(target)
    ensures r.Some? ==>
              r.value == c.(dirty := (if target.RadioInput? then c.value == Num(NaN) else !StrictEquals(target.read, c.value)) || c.dirty,
                            touched := true)
  {
    if BlurIgnored(target) then None
    else
      var identical := if target.RadioInput? then SelfIdentical(c.value) else StrictEquals(ChangeValue(target, c.value), c.value);
      Some(New(c.value, ConfigObject(Spread(c).(dirty := Some(!identical || c.dirty), touched := Some(true)))))
  }

  /** `v === v` for one and the same reference: true of everything but NaN. */
  predicate SelfIdentical(v: Value)
  {
    match v
    case Num(n) => !n.NaN?
    case _ => true
  }

  /** Blurring never changes validity, and never clears `dirty`. */
  lemma BlurKeepsValidity(c: Control, target: Element)
    ensures OnBlur(c, target).Some? ==>
              IsValid(OnBlur(c, target).value) == IsValid(c) && IsInvalid(OnBlur(c, target).value) == IsInvalid(c)
    ensures c.dirty && OnBlur(c, target).Some? ==> OnBlur(c, target).value.dirty
  {
  }

  /** A checked radio button reads the current value back by reference and
      leaves `dirty` as it was, unless the value is NaN, which is never `===`
      itself; reading back the same string or the same file list does too. A
      date value (an object, never `===` a fresh one) is marked dirty by every
      blur of another input, and so is an `undefined` value when the input
      reads `null`, as an empty date input does. */
  lemma BlurDirtyCases(c: Control, target: Element)
    ensures target.RadioInput? && target.checked && c.value != Num(NaN) ==> OnBlur(c, target) == Some(c.(touched := true))
    ensures target.RadioInput? && target.checked && c.value == Num(NaN) ==> OnBlur(c, target) == Some(c.(dirty := true, touched := true))
    ensures target.OtherInput? && (c.value.Str? || c.value.Files?) && target.read == c.value ==> OnBlur(c, target) == Some(c.(touched := true))
    ensures target.OtherInput? && !BlurIgnored(target) && c.value.Date? ==> OnBlur(c, target).Some? && OnBlur(c, target).value.dirty
    ensures target == OtherInput(target.name, Null) && c.value.Undefined? ==> OnBlur(c, target).Some? && OnBlur(c, target).value.dirty
  {
  }

  /** `transformValue(t)`: `t` applied to the value. */
  function TransformValue(c: Control, t: Value -> Value): (r: Value)
    ensures r == t(c.value)
  {
    t(c.value)
  }

  /** A transform of a patched leaf sees the patched value. */
  lemma TransformAfterPatch(c: Control, t: Value -> Value, value: Value)
    ensures TransformValue(PatchValue(c, value), t) == t(value)
  {
  }

  /** `errorsTree`: the leaf's own error record. */
  function ErrorsTree(c: Control): (r: Option<Errors>)
    ensures r == c.errors
  {
    c.errors
  }

  /** After validation the error tree is present exactly when the leaf is
      invalid. */
  lemma ErrorsTreeAfterValidate(c: Control)
    ensures ErrorsTree(Validate(c)).Some? == IsInvalid(Validate(c))
  {
  }

  /** An input element, as far as patching goes: a radio button with its
      `checked` state and `value`, or any other input with the value it reads
      (`getChangeValue`). */
  datatype Element = RadioInput(name: string, checked: bool, radioValue: string) | OtherInput(name: string, read: Value)

  /** `getChangeValue(element, radioValue)`. */
  function ChangeValue(e: Element, radioValue: Value): Value
  {
    match e
    case RadioInput(_, _, _) => radioValue
    case OtherInput(_, read) => read
  }

  /** The error `patchFromElement` throws: `invalid element: <name>`. */
  datatype PatchError = InvalidElement(name: string)

  /** Every element before `i` is an unchecked radio button. */
  ghost predicate UncheckedRadiosBefore(elements: seq<Element>, i: int)
    requires i <= |elements|
  {
    forall j :: 0 <= j < i ==> elements[j].RadioInput? && !elements[j].checked
  }

  /** `patchFromElement(elements)`: no element leaves the leaf as it is; one
      element patches the value it reads (a radio button reads `undefined`);
      with more, only radio buttons are allowed: they are scanned in order, a
      non-radio before the first checked one throws, the first checked radio's
      value is patched, and if none is checked the empty string is. */
  method PatchFromElement(c: Control, elements: seq<Element>) returns (r: Result<Control, PatchError>)
    ensures |elements| == 0 ==> r == Ok(c)
    ensures |elements| == 1 ==> r == Ok(PatchValue(c, ChangeValue(elements[0], Undefined)))
    ensures |elements| >= 2 ==>
              (r.Err? <==> exists i :: 0 <= i < |elements| && !elements[i].RadioInput? && UncheckedRadiosBefore(elements, i))
    ensures |elements| >= 2 && r.Err? ==>
              exists i :: 0 <= i < |elements| && !elements[i].RadioInput? && UncheckedRadiosBefore(elements, i) &&
                          r.error == InvalidElement(elements[i].name)
    ensures |elements| >= 2 ==>
              forall i :: 0 <= i < |elements| && elements[i].RadioInput? && elements[i].checked && UncheckedRadiosBefore(elements, i) ==>
                r == Ok(PatchValue(c, Str(elements[i].radioValue)))
    ensures |elements| >= 2 && UncheckedRadiosBefore(elements, |elements|) ==> r == Ok(PatchValue(c, Str([])))
  {
    if |elements| == 0 {
      return Ok(c);
    }
    if |elements| == 1 {
      return Ok(PatchValue(c, ChangeValue(elements[0], Undefined)));
    }
    for i := 0 to |elements|
      invariant UncheckedRadiosBefore(elements, i)
    {
      var radio := elements[i];
      if !radio.RadioInput? {
        FirstStopUnique(elements, i);
        return Err(InvalidElement(radio.name));
      }
      if radio.checked {
        FirstStopUnique(elements, i);
        return Ok(PatchValue(c, ChangeValue(radio, Str(radio.radioValue))));
      }
    }
    return Ok(PatchValue(c, Str([])));
  }

  /** The first element that is not an unchecked radio button is the only
      element with unchecked radio buttons before it that is one. */
  lemma FirstStopUnique(elements: seq<Element>, i: int)
    requires 0 <= i < |elements| && UncheckedRadiosBefore(elements, i)
    requires !(elements[i].RadioInput? && !elements[i].checked)
    ensures forall j :: (0 <= j < |elements| && UncheckedRadiosBefore(elements, j) &&
                         !(elements[j].RadioInput? && !elements[j].checked)) ==> j == i
  {
  }

  /** A radio source: its `checked` state and its `value`. */
  datatype RadioSource = RadioSource(checked: bool, value: string)

  /** `patchFromRadio(sources)`: the patch from the first checked source, or
      `undefined` when none is checked. */
  method PatchFromRadio(c: Control, sources: seq<RadioSource>) returns (r: Option<Control>)
    ensures r.None? <==> forall j :: 0 <= j < |sources| ==> !sources[j].checked
    ensures r.Some? ==> exists i :: 0 <= i < |sources| && sources[i].checked &&
                                    (forall j :: 0 <= j < i ==> !sources[j].checked) &&
                                    r.value == PatchValue(c, Str(sources[i].value))
  {
    for i := 0 to |sources|
      invariant forall j :: 0 <= j < i ==> !sources[j].checked
    {
      if sources[i].checked {
        return Some(PatchValue(c, Str(sources[i].value)));
      }
    }
    return None;
  }
}

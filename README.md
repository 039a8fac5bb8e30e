# react-form-group, modelled in Dafny

react-form-group keeps the state of an HTML form as immutable values. The
leaves are form controls. Each control holds a value, its validators, a
"needs validation" flag, the errors of its last validation, and the
`dirty` and `touched` flags. Form groups hold named controls or groups.
Form group arrays hold a list of groups. Every operation (`validate`,
`patchValue`, `setDirty`, the change and blur hooks) returns a new value
and leaves the old one alone.

The library also ships its default validators:
- `required`;
- `numberRange` and `lengthRange`;
- `pattern`;
- `email` and `phone`;
- `creditCard`, built on a Luhn checksum.

Two more pieces are modelled:
- the `useValueValidation` and `useValidation` hooks, which run those checks
  directly from an options record;
- the date helpers `padZero` and `localDateAsValue`.

The model has these modules:

- `Wrappers`: `Option` and `Result`.
- `Records`: the object spread `{...a, ...b}`, modelled as a map overlay.
- `Values`: the JavaScript values a control can hold, the unary `+`
  coercion to a number, whitespace, and UTF-16 length.
- `Luhn`: `isCreditCardValid`.
- `Validation` (src/validation.ts) and `RootValidation` (validation.ts): the
  default validators of the two copies of the library.
- `DateFormat`: `padZero` and `localDateAsValue`.
- `FormControl`: the leaf control of src/control.ts and control.ts. The two
  files agree on every operation modelled here.
- `FormTree`: groups and arrays, their flags, their value, and validation.
- `TreeUpdate`: `patch`, `patchValue`, the child-change hook, and `setDirty`
  on groups and arrays.
- `ArrayFindings`: three behaviours of groups and arrays as they are written
  in the source, each beside its corrected reading (see "## Findings").
- `UseValidation`: the hooks of useValidation.ts.

Validators of a leaf are closures. Group and array validators, and the
custom `isValid` function of a group, are identifiers. A `Rules` value
passed by the caller interprets them. This keeps the tree of nodes an
inductive datatype.

The hooks return fresh controls, so everything is modelled as values.
`FormControl.GetErrors`, `FormControl.InputAttrs`,
`FormTree.MergeValidatorResults`, `Luhn.IsCreditCardValid`,
`FormControl.PatchFromElement`, `FormControl.PatchFromRadio`,
`UseValidation.UseValueValidation` and `UseValidation.UseFormValidation`
follow the source's loops. They are methods, and each is proved against
a specification function.

## Model

| member | source | states |
|---|---|---|
| Values.ToNumber | src/validation.ts:77-80 | `+value` for a value that is not nil: a string through its trimmed decimal or `Infinity` reading (blank is 0), a boolean as 0 or 1, a valid date as its time, an array through its single element's string form, anything else NaN |
| Values.StrictEquals | src/control.ts:314 | `===` against a value read from an input: `null` and `undefined` each equal only themselves, strings and booleans by content, numbers by value with NaN never equal, file lists by identity; dates, arrays and records are never equal, since a date input builds a new `Date` on every read and no input reads an array or a record |
| Values.IsWhitespace | src/validation.ts:10-12 | `/^\s*$/`: every character is in the `\s` class, so the empty string qualifies |
| Values.Utf16Length | src/validation.ts:102 | `value.length` counts UTF-16 code units: one per character, two outside the Basic Multilingual Plane, so between the number of characters and twice it |
| Values.StringFormIsBlank | validation.ts:132-135 | `String(value)` is blank only for a whitespace string, an empty array, or a one-element array whose element is nil or prints blank |
| Records.OverlayLastWins | src/control.ts:147-155 | a key is in the merged record iff some layer has it, with the value of the last layer that has it |
| Records.OverlayAppend | src/control.ts:151-154 | spreading one more record over the running result is a map override |
| Luhn.IsCreditCardValid | src/isCreditCardValid.ts:1-28 | the loop's verdict equals `LuhnValid`: at least 7 digits after stripping, and the right-to-left checksum with every second digit doubled is a multiple of 10 |
| Luhn.LuhnValid | src/isCreditCardValid.ts:1-28 | the verdict: the digits of the input, at least seven of them, whose checksum (every second digit from the right doubled, its digits summed) is a multiple of ten |
| Luhn.StripNonDigits | src/isCreditCardValid.ts:2 | the stripped string has only digits and is no longer than the input |
| Luhn.StripDigitsOnly | src/isCreditCardValid.ts:2 | stripping a string of digits returns it unchanged |
| Luhn.StripAppend | src/isCreditCardValid.ts:2 | stripping distributes over concatenation |
| Luhn.NonDigitsIgnored | src/isCreditCardValid.ts:2 | inserting a non-digit anywhere does not change the verdict |
| Luhn.ShortNumbersFail | src/isCreditCardValid.ts:3-4 | fewer than 7 digits is never valid |
| Luhn.LuhnValidOfDigits | src/isCreditCardValid.ts:3-27 | on a digit string, valid iff length at least 7 and checksum divisible by 10 |
| Luhn.DoubledDigitContribution | src/isCreditCardValid.ts:18-24 | the inner digit-sum loop adds `2d` or `2d - 9` for a doubled digit `d`, and `d` for an undoubled one |
| Luhn.ChecksumStep | src/isCreditCardValid.ts:11-25 | one iteration adds the rightmost digit's contribution and flips the doubling for the rest |
| Luhn.ChecksumIsPositional | src/isCreditCardValid.ts:11-25 | the toggling loop's checksum equals the positional reading: the digit `k` places left of the last is doubled iff `k` is odd |
| Luhn.PositionalLast | src/isCreditCardValid.ts:11-25 | the positional checksum splits into the rightmost digit's term plus the rest with the doubling flipped |
| Luhn.ChecksumAppend | src/isCreditCardValid.ts:11-25 | the checksum of `p + q` is that of `q`, plus that of `p` with the doubling flipped iff `q` has odd length |
| Validation.NilOrWhitespaceCases | src/validation.ts:6-12 | nil and the empty string count as blank; a string with a non-whitespace character does not |
| Validation.IsNilOrWhitespace | src/validation.ts:6-8 | `isWhitespace(value ?? '')`: nil counts as the empty string |
| Validation.IsMissing | src/validation.ts:60-64 | the values `required` flags: `null` or `undefined`, an invalid date, NaN, an empty array, a whitespace string |
| Validation.BoundAttr | src/validation.ts:70-73 | a bound becomes an attribute that is `undefined` exactly when the bound is absent, otherwise the number |
| Validation.PatternText | src/validation.ts:118 | the `pattern` attribute is the string itself, or the regular expression's source |
| Validation.RequiredCheck | src/validation.ts:57-67 | reports exactly `{required: true}` iff the value is nil, an invalid date, NaN, an empty list or a whitespace string |
| Validation.Required | src/validation.ts:57-67 | an attributed validator with `{required: true}` that runs `RequiredCheck` |
| Validation.RequiredOnStrings | src/validation.ts:57-67 | on strings, `required` fails iff the string is nil-or-whitespace |
| Validation.NumberRangeCheck | src/validation.ts:69-92 | nothing for nil or a value whose `+value` is not finite; otherwise a record with only `min` and `max`, with `min` iff below the lower bound and `max` iff above the upper |
| Validation.NumberRange | src/validation.ts:69-92 | attributes `{min, max}`, including the `undefined` ones, and runs `NumberRangeCheck` |
| Validation.NumberRangeInRange | src/validation.ts:69-92 | a finite number within both bounds yields the empty record `{}` |
| Validation.LengthRangeCheck | src/validation.ts:94-114 | nothing for a non-string; otherwise a record with only `minLength` and `maxLength`, each iff the UTF-16 length is out of that bound |
| Validation.LengthRange | src/validation.ts:94-114 | attributes `{minLength, maxLength}` and runs `LengthRangeCheck` |
| Validation.PatternCheck | src/validation.ts:116-133 | reports `{pattern: true}` iff the value is not nil and does not match |
| Validation.Pattern | src/validation.ts:116-133 | attribute `{pattern}` from `PatternText` and runs `PatternCheck` |
| Validation.StringCheck | src/validation.ts:135-150 | reports the given error iff the value is a string the test rejects; whitespace strings are tested too |
| Validation.Email | src/validation.ts:152-154 | a plain validator running `StringCheck` with `isValidEmail` and `{email: true}` |
| Validation.Phone | src/validation.ts:156-158 | a plain validator running `StringCheck` with `isValidPhoneNumber` and `{phone: true}` |
| Validation.CreditCardCheck | src/validation.ts:160-162 | reports `{creditCard: true}` iff the value is a string that fails the Luhn check |
| Validation.CreditCard | src/validation.ts:160-162 | a plain validator running `CreditCardCheck` |
| Validation.CreditCardRejectsBlank | src/validation.ts:139-148 | a whitespace-only string is reported by this copy's `creditCard` |
| Validation.BlankHasNoDigits | src/isCreditCardValid.ts:2 | a whitespace string strips to the empty string |
| RootValidation.PatternFuncCheck | validation.ts:126-144 | reports the given errors iff the value does not match and is not skipped; only a value whose `String(value)` is blank is skipped, and only when skipping is on |
| RootValidation.IsValidPhoneNumber | validation.ts:18-20 | `value ?? ''` is an optional `+` followed by one or more decimal digits |
| RootValidation.Pattern | validation.ts:116-124 | attribute `{pattern}` and runs `PatternFuncCheck` with `{pattern: true}` |
| RootValidation.PatternVariantsDiffer | validation.ts:126-144 | the two copies differ: the root one flags nil (`"undefined"`) and skips whitespace, and src/validation.ts does the opposite |
| RootValidation.StringCheck | validation.ts:146-161 | reports the error iff the value is a non-whitespace string the test rejects |
| RootValidation.StringCheckNarrower | validation.ts:146-161 | whatever the root check reports the src check reports too; they differ only on whitespace strings |
| RootValidation.PhoneNumberGrammar | validation.ts:18-20 | `isValidPhoneNumber` accepts exactly an optional `+` followed by one or more digits |
| RootValidation.NilIsNoPhoneNumber | validation.ts:18-20 | nil (read as `''`) and a lone `+` are rejected |
| RootValidation.Email | validation.ts:163-165 | a plain validator running the root `StringCheck` with `{email: true}` |
| RootValidation.PhoneCheck | validation.ts:167-169 | reports `{phone: true}` iff the value is a non-blank string that is not a phone number |
| RootValidation.Phone | validation.ts:167-169 | a plain validator running `PhoneCheck` |
| RootValidation.CreditCardCheck | validation.ts:171-173 | reports `{creditCard: true}` iff the value is a non-blank string failing the Luhn check |
| RootValidation.CreditCard | validation.ts:171-173 | a plain validator running `CreditCardCheck` |
| DateFormat.PadZero | src/control.ts:44-46 | with a non-empty padding, the result has the padding's length and is the tail of `padding + text`; an empty padding keeps the whole text |
| DateFormat.NumberText | src/control.ts:45 | `${value}` for an integer or NaN: a minus sign for a negative number, then its decimal digits without leading zeros, or `NaN` |
| DateFormat.PadZeroNat | src/control.ts:44-46 | for a natural number, the result is the tail of `padding + decimal digits` |
| DateFormat.PadZeroReadsBack | src/control.ts:44-46 | zero-padding `n < 10^k` to `k` places gives `k` digits that read back as `n` |
| DateFormat.LongYearTruncated | src/control.ts:44-46 | a value wider than the padding keeps only its last digits (`12345` becomes `2345`) |
| DateFormat.LocalDateAsValue | src/control.ts:48-50 | ten characters with `-` at positions 4 and 7 |
| DateFormat.DateRoundTrip | src/control.ts:48-50 | for years 0-9999, the three fields are digits that read back as the year, the one-based month and the day |
| DateFormat.InvalidDateText | src/control.ts:48-50 | an invalid date prints `0NaN-aN-aN` |
| FormControl.New | src/control.ts:71-88 | a validator list or nothing gives a pending, clean, untouched control without errors; a config object gives its fields, each missing flag false |
| FormControl.IsValid | src/control.ts:126-128 | validated, and the error record holds no key |
| FormControl.IsInvalid | src/control.ts:130-132 | validated, and an error record is present, even an empty one |
| FormControl.RebuildIsIdentity | src/control.ts:71-88 | `new FormControl(c.value, {...c})` rebuilds `c` |
| FormControl.ErrorLayers | src/control.ts:162-168 | one layer per validator: what it returns when run on the value, `{}` when it returns nothing |
| FormControl.MergedErrors | src/control.ts:141-160 | a merged record, when present, is never empty |
| FormControl.GetErrors | src/control.ts:141-160 | the loop's result equals `MergedErrors`: none without validators or when nothing is reported, else the spread of all results |
| FormControl.MergedErrorsLastWins | src/control.ts:141-160 | a key is in the merge iff some validator reports it, with the value from the last validator reporting it |
| FormControl.MergedErrorsAbsent | src/control.ts:156-157 | the merge is absent iff no validator reports any key |
| FormControl.Validate | src/control.ts:90-124 | a settled control is returned as is; otherwise the flag is cleared and the errors become the merged errors; value, validators and flags are kept |
| FormControl.ValidateIdempotent | src/control.ts:90-124 | validating twice is validating once, and the result is settled |
| FormControl.PendingIsNeither | src/control.ts:126-132 | a pending control is neither valid nor invalid |
| FormControl.ValidateDecides | src/control.ts:90-132 | after validation exactly one of valid and invalid holds; invalid iff some validator reported a key |
| FormControl.EmptyRecordIsBoth | src/control.ts:126-132 | a settled control built with the errors `{}` is both valid and invalid |
| FormControl.PatchValue | src/control.ts:347-356 | the new value, pending, with no errors; validators and flags kept |
| FormControl.SetTouched | src/control.ts:358-366 | only `touched` changes |
| FormControl.SetDirty | src/control.ts:368-376 | only `dirty` changes |
| FormControl.SetValidators | src/control.ts:426-436 | the new validators, pending, with no errors |
| FormControl.PatchThenValidate | src/control.ts:347-356 | patching then validating yields the new value with the errors its validators report |
| FormControl.SetSameValidators | src/control.ts:426-436 | resetting the same validators is a re-patch with the same value |
| FormControl.FlagsCommuteWithValidate | src/control.ts:358-376 | `setDirty` and `setTouched` commute with `validate` and keep validity |
| FormControl.RequiredIn | src/control.ts:170-174 | true iff some validator is attributed with a truthy `required` |
| FormControl.IsRequired | src/control.ts:170-174 | `required` is true iff the control has validators and one of them marks it required |
| FormControl.RequiredValidatorMarks | src/control.ts:170-174 | adding `DefaultValidators.required` makes the control required |
| FormControl.FirstBounded | src/control.ts:176-179 | the index of the first attributed validator with one of the keys defined, or none when no validator from there on has one |
| FormControl.RangeAttrs | src/control.ts:176-199 | present iff some validator defines one of the keys; then the attributes of the first one that does |
| FormControl.NumberRangeAttrs | src/control.ts:181-188 | `numberRange` looks up `min`/`max` |
| FormControl.LengthRangeAttrs | src/control.ts:190-199 | `lengthRange` looks up `minLength`/`maxLength` |
| FormControl.UnboundedRangeSkipped | src/control.ts:181-188 | `numberRange()` with neither bound is not found by the `numberRange` getter |
| FormControl.AttrLayers | src/control.ts:201-213 | one layer per validator: its attributes when attributed, `{}` otherwise |
| FormControl.InputAttrs | src/control.ts:201-213 | the loop's result equals the overlay of all attributed validators' attributes |
| FormControl.InputAttrsLastWins | src/control.ts:201-213 | an attribute is present iff some validator has it, with the value of the last one that does |
| FormControl.OnChangeValue | src/control.ts:232-243 | the changed control: new value, same validators, pending, dirty, touched, no errors |
| FormControl.ChangeIsPatchDirtyTouched | src/control.ts:232-243 | a change is `patchValue` followed by `setDirty(true)` and `setTouched(true)` |
| FormControl.OnBlur | src/control.ts:291-318 | nothing is handed on for an unchecked radio button or checkbox; otherwise touched, and dirty if it was, or if the value read is not strictly equal to the current one: a checked radio button reads the current value back by reference, which differs from itself only when it is NaN |
| FormControl.BlurKeepsValidity | src/control.ts:291-318 | a blur keeps validity and never clears `dirty` |
| FormControl.BlurDirtyCases | src/control.ts:291-318 | a checked radio button keeps `dirty` unless the value is NaN, which makes it dirty; re-reading an equal string or the same file list keeps `dirty`; a date value always becomes dirty, because a new Date object is never strictly equal to it; an `undefined` value read back as `null` becomes dirty |
| FormControl.TransformValue | control.ts:85-87 | the transform applied to the value |
| FormControl.TransformAfterPatch | control.ts:85-87 | after a patch the transform sees the patched value |
| FormControl.ErrorsTree | control.ts:442-444 | the control's own errors |
| FormControl.ErrorsTreeAfterValidate | control.ts:442-444 | once validated, an errors tree is present iff the control is invalid |
| FormControl.PatchFromElement | src/control.ts:378-403 | no element: unchanged; one: patched with what it reads; several: the first checked radio's value, an error naming the first non-radio met before it, or `''` when none is checked |
| FormControl.FirstStopUnique | src/control.ts:391-399 | only one element can end the scan: the first one that is not an unchecked radio |
| FormControl.PatchFromRadio | src/control.ts:417-424 | none iff no source is checked; otherwise patched with the first checked source's value |
| FormTree.Children | src/group.ts:193-195 | a group's children in order of their names; an array's items; no children for a leaf |
| FormTree.NeedsValidation | src/group.ts:181-183 | a group or array is pending when its own flag is set or any child is pending |
| FormTree.Dirty | src/group.ts:185-187 | a group or array is dirty when any child is |
| FormTree.Touched | src/group.ts:189-191 | a group or array is touched when any child is |
| FormTree.IsValid | src/group.ts:175-179 | a group: own flag clear, no errors, and its custom `isValid` if given, else every child valid; an array: nothing pending, no errors, and every child valid (the corrected reading of src/array.ts:30-32) |
| FormTree.IsInvalid | src/group.ts:156-158 | a group or array: nothing pending and not valid; a leaf: its own `isInvalid` |
| FormTree.Value | src/group.ts:220-228 | a leaf's value; a record with a group's names and one entry per child; a list with one entry per array item |
| FormTree.NewGroup | src/group.ts:69-84 | the validators from the list or the config (default none), the custom `isValid` from the config, and the own flag as given or else "has validators" |
| FormTree.NewArray | src/array.ts:20-28 | validators default to none; the own flag as given or else "has validators" |
| FormTree.MergeTruthy | src/group.ts:115-125 | present iff some validator returned a record |
| FormTree.TruthyLayers | src/group.ts:117-124 | one layer per validator result, `{}` for nothing |
| FormTree.MergeValidatorResults | src/group.ts:115-125 | the loop's result equals `MergeTruthy` |
| FormTree.MergeTruthyLastWins | src/group.ts:115-125 | a key is in the merged errors exactly when some validator reports it, and it has the value of the last one reporting it |
| FormTree.OwnErrors | src/group.ts:115-125 | none iff every validator of the node returns nothing |
| FormTree.Validate | src/group.ts:97-128 | a settled node is returned as is; otherwise children are validated first; with the gate on and a validated child not valid, no own errors and validators not run; else the truthy results merged; own flag cleared |
| FormTree.ValidateSettles | src/group.ts:97-128 | after validation nothing in the tree is pending |
| FormTree.ValidateIdempotent | src/group.ts:97-128 | validating a validated tree changes nothing |
| FormTree.ValidateKeepsValue | src/group.ts:97-128 | validation never changes the value |
| FormTree.GatedGroupIsInvalid | src/group.ts:110-113 | a group with an invalid child after validation has no own errors yet is invalid |
| FormTree.ValidMeansValidatorsPassed | src/group.ts:97-128 | a node valid after validation passed all of its own validators and has only valid children |
| FormTree.ValidOrInvalid | src/group.ts:156-179 | a settled node is exactly one of valid and invalid, excepting leaves holding `{}` |
| TreeUpdate.Lookup | src/group.ts:197-202 | none iff no entry has the name; a found child is the child of such an entry |
| TreeUpdate.LookupDistinct | src/group.ts:197-202 | with distinct names, looking up an entry's name finds that entry |
| TreeUpdate.NewEntries | src/group.ts:197-202 | exactly the overriding entries whose names the group lacks |
| TreeUpdate.Patch | src/group.ts:197-202 | same config, pending, no errors; each existing child replaced by its override if named, in place; new names appended |
| TreeUpdate.PatchExistingNames | src/group.ts:197-202 | a patch naming only existing children keeps the size and every unnamed child |
| TreeUpdate.ChildChange | src/group.ts:139-144 | the hook passes up a one-entry patch, of the same size when the name exists |
| TreeUpdate.ChildChangeFlags | src/group.ts:139-144 | after a field's change hook the group is dirty, touched and pending, the field holds the new value, and every sibling is kept with its flags |
| TreeUpdate.PatchValue | src/group.ts:204-218 | a leaf is patched; a group patches each child with a non-nil entry and keeps the others; an array likewise by position; both pending with no errors |
| TreeUpdate.ArrayEntries | src/array.ts:98-103 | the items of a list, none otherwise |
| TreeUpdate.Overrides | src/group.ts:204-218 | overrides only existing names, each patched with its entry |
| TreeUpdate.PatchValueIsPatch | src/group.ts:204-218 | with distinct names, `patchValue(v)` is `patch` of the patched children |
| TreeUpdate.PatchValueRoundTrip | src/group.ts:204-228 | patching a well-formed tree with its own value leaves the value unchanged |
| TreeUpdate.PatchValueNilEntries | src/group.ts:208-209 | nil entries leave every child as it is |
| TreeUpdate.PatchArray | src/array.ts:90-96 | same size and validators, pending, no errors; position `i` replaced iff an override exists there |
| TreeUpdate.ArrayPatchValueKeeps | src/array.ts:98-103 | an item with no entry or a nil one is kept |
| TreeUpdate.ReplaceItem | src/array.ts:84-87 | the item hook replaces only the item at `key`; pending, no errors |
| TreeUpdate.SetDirty | src/group.ts:230-241 | every leaf takes the flag; each group and array keeps its own flag, config and error record |
| TreeUpdate.SetDirtyEffect | src/group.ts:185-187 | afterwards dirty iff the flag is set and there is a leaf; pending state and value unchanged; validity unchanged without custom `isValid` |
| TreeUpdate.ValidMeansLeavesValid | src/group.ts:175-179 | without custom `isValid`, a valid node has only valid leaves |
| ArrayFindings.ArrayValidateAsWritten | src/array.ts:54-78 | as written: children validated, but the gate tests the children before validation |
| ArrayFindings.ArrayIsValidAsWritten | src/array.ts:30-32 | as written: nothing pending and no errors, the children's validity not consulted |
| ArrayFindings.ArrayIsInvalidAsWritten | src/array.ts:34-36 | as written: nothing pending and an error record present |
| ArrayFindings.PendingChildSkipsValidators | src/array.ts:60-63 | as written, a pending child always closes the gate: the array settles with no errors and is not invalid |
| ArrayFindings.NotValidWhilePending | src/group.ts:175-179 | without custom `isValid`, a pending node is not valid |
| ArrayFindings.GateOnStaleChildren | src/array.ts:60 | an array its validator rejects is valid and stable after the as-written `validate`; the corrected one makes it invalid |
| ArrayFindings.AsWrittenSettlesValid | src/array.ts:54-78 | as written, validating the rejected pending array yields a node valid by both readings of `isValid`, and validating it again changes nothing |
| ArrayFindings.CorrectedRejects | src/group.ts:97-128 | with the gate on the validated children, the rejecting validator runs and the array comes out invalid |
| ArrayFindings.PendingGroupValidates | src/group.ts:97-128 | the pending group inside the example validates to a valid group over a valid leaf |
| ArrayFindings.ValidOverInvalidChild | src/array.ts:30-36 | as written, a settled array with no errors over an invalid child is valid and not invalid; corrected, it is not valid and is invalid |
| ArrayFindings.SetDirtyAsWritten | src/group.ts:230-241 | as written: as `SetDirty`, but groups and arrays are rebuilt without their errors |
| ArrayFindings.SetDirtyForgetsErrors | src/group.ts:240 | as written, `setDirty` makes a rejected, settled group valid; the corrected one keeps it not valid |
| UseValidation.OnlyEnabledChecksFail | useValidation.ts:38-139 | with no check enabled nothing fails |
| UseValidation.RangeFlags | useValidation.ts:49-73 | the `min`/`max` flags are exactly what `numberRange` reports |
| UseValidation.LengthFlags | useValidation.ts:75-99 | the `minLength`/`maxLength` flags are exactly what `lengthRange` reports |
| UseValidation.PatternFlag | useValidation.ts:101-109 | the `pattern` flag is exactly what the root `pattern` reports |
| UseValidation.EmailFlag | useValidation.ts:111-119 | the `email` flag is exactly what the root `email` reports |
| UseValidation.PhoneFlag | useValidation.ts:121-129 | the `phone` flag is exactly what the root `phone` reports |
| UseValidation.CreditCardFlag | useValidation.ts:131-139 | the `creditCard` flag is exactly what the root `creditCard` reports |
| UseValidation.RequiredStep | useValidation.ts:38-47 | marks `required` in the attributes when asked, flags a value `required` reports as missing, and clears success on failure |
| UseValidation.NumberRangeStep | useValidation.ts:49-73 | sets the given bounds as attributes and flags values out of range |
| UseValidation.LengthRangeStep | useValidation.ts:75-99 | sets the given length bounds as attributes and flags strings out of range |
| UseValidation.NumberRangeAttrs | useValidation.ts:49-59 | each numeric bound present becomes the attribute of that name, the others stay, and there is a range exactly when a bound is present |
| UseValidation.NumberRangeFlags | useValidation.ts:61-73 | with a range, `min` and `max` are flagged, and success cleared, exactly when the value lies below or above its bound; without one nothing changes |
| UseValidation.ReadRangeFlags | useValidation.ts:62-70 | the two flags read off `numberRange` are exactly the below-minimum and above-maximum conditions |
| UseValidation.LengthRangeAttrs | useValidation.ts:75-85 | each length bound present becomes the attribute of that name, the others stay, and there is a range exactly when a bound is present |
| UseValidation.LengthRangeFlags | useValidation.ts:87-99 | with a range, `minLength` and `maxLength` are flagged, and success cleared, exactly when the string is shorter or longer than allowed in UTF-16 units |
| UseValidation.ReadLengthFlags | useValidation.ts:88-96 | the two flags read off `lengthRange` are exactly the too-short and too-long conditions |
| UseValidation.PatternStep | useValidation.ts:101-109 | flags a pattern mismatch |
| UseValidation.EmailStep | useValidation.ts:111-119 | flags an invalid e-mail |
| UseValidation.PhoneStep | useValidation.ts:121-129 | flags an invalid phone number |
| UseValidation.CreditCardStep | useValidation.ts:131-139 | flags an invalid card number |
| UseValidation.UseValueValidation | useValidation.ts:30-156 | none iff the options are `none`; else the failed checks, success iff none failed, errors only on failure, attributes of the options and the options echoed |
| UseValidation.UseFormValidation | useValidation.ts:172-193 | one result per field name, none for a field without options; valid iff every field with options succeeds |

## Left out

- The React and DOM glue is not modelled: `getInputProps`, its props objects, controlled and uncontrolled inputs, `querySelectorAll`, the wrappers, `useForm`, `genKey`, nesting helpers and dist.py. Their effect on state is covered by `FormControl.OnChangeValue`, `FormControl.OnBlur`, `TreeUpdate.ChildChange` and `TreeUpdate.ReplaceItem`.
- `getChangeValue` reads a DOM element. The value it reads is carried by an `Element` record, given to `FormControl.OnBlur` and `FormControl.PatchFromElement`; a radio button carries its `checked` state and `value`, a checkbox reads a boolean.
- The early return of `onBlur` for a target that is not an input, textarea or select, and the early returns of `onFocus`, are left out. The autofill path of `onFocus` is `FormControl.OnChangeValue` with the value read.
- Regular expressions are caller-supplied predicates: `matches` for `pattern`, and `isValidEmail`. The src copy's `isValidPhoneNumber` is one too. The root phone grammar is written out.
- `match` and `test` differ only for stateful (global) regular expressions, which the predicate does not capture.
- Values.ToNumber: reads decimal strings, `Infinity` and signs. Exponent, hexadecimal, binary and octal forms become NaN. Floating-point rounding is not modelled.
- Values.StrictEquals: arrays, records and dates are compared as never identical and file lists by an identity token; object identity is not otherwise modelled. An input yields an existing array, record or date only when a radio button reads the current value back, and `FormControl.OnBlur` decides that case by the element kind.
- Object key order follows insertion. The integer-like keys that `Object.getOwnPropertyNames` lists first are not modelled.
- TreeUpdate.PatchValue: requires a non-nil value for a group or array. In the source, `patchValue(undefined)` on a group throws, and the parent skips nil entries. A value that is neither a record nor a list (`"abc"` has a `length`) has no entries here.
- TreeUpdate.Patch: an override entry holding `undefined` is not modelled. Overrides always hold a node.
- Groups and arrays have no `setTouched` in the source, so none is modelled.
- Validators run synchronously. There is no asynchronous validation in the core.
- Luhn.IsCreditCardValid: the `isNaN(parsedDigit)` branch is unreachable after stripping and is not modelled. No lemma evaluates a sixteen-digit card number, because such literals are too large for the solver.
- FormTree.Node: array items may be any node. The source's types allow only groups.
- UseValidation.UseValueValidation: its checks are split into step methods. The errors object is a record of nine flags and the attributes a record of five optional fields, instead of string-keyed objects. `useMemo` memoisation is not modelled.
- The `time` field of a date is carried but never read. Time zones are not modelled. `getFullYear`, `getMonth` and `getDate` are fields of the date.
- DateFormat.PadZero: the value is an integer or NaN. Fractional numbers are not modelled.

## Findings

| source | as written | input that shows it | evidently intended | confidence | as-written member | corrected member |
|---|---|---|---|---|---|---|
| src/array.ts:60 | the gate tests `this.controls`, the children before validation | a pending array, with a validator that rejects it, over one pending group with a fresh leaf | gate on the validated children (`newState`), as src/group.ts:110 does | not executed | ArrayFindings.GateOnStaleChildren | FormTree.ValidMeansValidatorsPassed |
| src/array.ts:30-36 | `isValid` and `isInvalid` ignore the children: the array is valid and not invalid | a settled array with no errors over a group holding a leaf with `{required: true}` | an array is valid only if its items are, as a group is, and a settled array that is not valid is invalid (`FormTree.ValidOrInvalid`) | not executed | ArrayFindings.ValidOverInvalidChild | TreeUpdate.ValidMeansLeavesValid |
| src/group.ts:240, src/array.ts:106 | `setDirty` rebuilds the node without its `errors` | a settled group whose validator reported `{x: true}`, over a valid leaf, marked dirty | the flags change and the verdict stays | not executed | ArrayFindings.SetDirtyForgetsErrors | TreeUpdate.SetDirtyEffect |

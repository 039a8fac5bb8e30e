/**
 * The form tree: `FormGroup` (src/group.ts) maps names to children in key
 * order, `FormGroupArray` (src/array.ts) lists groups by position, and
 * `FormControl` leaves hold the values. Nodes are immutable; every operation
 * builds new ones.
 *
 * Group and array validators, and a group's custom `isValid` function, are
 * functions of the node itself. A node cannot hold functions of its own type,
 * so it holds rule identifiers instead, and a `Rules` value supplied by the
 * caller interprets them.
 */
module FormTree {
  import opened Wrappers
  import opened Values
  import opened Records
  import FC = FormControl

  /** Names a group or array validator, or a custom `isValid` function. */
  type RuleId = nat

  datatype Node =
    | Leaf(control: FC.Control)
    /** A `FormGroup`: its children in `getOwnPropertyNames` order, its
        validators, its custom `isValid` function, its own `_needsValidation`
        flag and its error record. */
    | Group(fields: seq<(string, Node)>, validators: seq<RuleId>, isValidFunc: Option<RuleId>,
            ownNeeds: bool, errors: Option<Errors>)
    /** A `FormGroupArray`: its children, validators, own flag and errors. */
    | GroupArray(items: seq<Node>, validators: seq<RuleId>, ownNeeds: bool, errors: Option<Errors>)

  /** What the rule identifiers mean: `check(v, node)` is what validator `v`
      returns for `node` (`None` for `undefined` or `false`), and
      `isValid(f, node)` is what the custom function `f` answers. */
  datatype Rules = Rules(check: (RuleId, Node) -> Option<Errors>, isValid: (RuleId, Node) -> bool)

  /** The children of a group or array, in order. */
  function Children(n: Node): (cs: seq<Node>)
    ensures n.Leaf? ==> cs == []
    ensures n.Group? ==> |cs| == |n.fields| && forall i :: 0 <= i < |cs| ==> cs[i] == n.fields[i].1
    ensures n.GroupArray? ==> cs == n.items
  {
    match n
    case Leaf(_) => []
    case Group(fields, _, _, _, _) => seq(|fields|, i requires 0 <= i < |fields| => fields[i].1)
    case GroupArray(items, _, _, _) => items
  }

  /** `needsValidation`: a leaf's flag; for a group or array, its own flag or
      any child's. */
  predicate NeedsValidation(n: Node)
  {
    match n
    case Leaf(c) => c.needsValidation
    case Group(fields, _, _, own, _) => own || exists i :: 0 <= i < |fields| && NeedsValidation(fields[i].1)
    case GroupArray(items, _, own, _) => own || exists i :: 0 <= i < |items| && NeedsValidation(items[i])
  }

  /** `dirty`: a leaf's flag; for a group or array, any child's. */
  predicate Dirty(n: Node)
  {
    match n
    case Leaf(c) => c.dirty
    case Group(fields, _, _, _, _) => exists i :: 0 <= i < |fields| && Dirty(fields[i].1)
    case GroupArray(items, _, _, _) => exists i :: 0 <= i < |items| && Dirty(items[i])
  }

  /** `touched`: a leaf's flag; for a group or array, any child's. */
  predicate Touched(n: Node)
  {
    match n
    case Leaf(c) => c.touched
    case Group(fields, _, _, _, _) => exists i :: 0 <= i < |fields| && Touched(fields[i].1)
    case GroupArray(items, _, _, _) => exists i :: 0 <= i < |items| && Touched(items[i])
  }

  /** `isValid`. A group: own flag clear, no own errors, and its custom
      function if it has one, otherwise every child valid. An array: nothing
      pending, no own errors, and every child valid (the corrected reading;
      src/array.ts as written does not look at the children, see module
      ArrayFindings). */
  predicate IsValid(n: Node, rules: Rules)
  {
    match n
    case Leaf(c) => FC.IsValid(c)
    case Group(fields, _, f, own, errors) =>
      !own && errors.None? &&
      (if f.Some? then rules.isValid(f.value, n) else forall i :: 0 <= i < |fields| ==> IsValid(fields[i].1, rules))
    case GroupArray(items, _, _, errors) =>
      !NeedsValidation(n) && errors.None? && forall i :: 0 <= i < |items| ==> IsValid(items[i], rules)
  }

  /** `isInvalid`: a leaf's; for a group or array, nothing pending and not
      valid. */
  predicate IsInvalid(n: Node, rules: Rules)
  {
    match n
    case Leaf(c) => FC.IsInvalid(c)
    case Group(_, _, _, _, _) => !NeedsValidation(n) && !IsValid(n, rules)
    case GroupArray(_, _, _, _) => !NeedsValidation(n) && !IsValid(n, rules)
  }

  /** `value`: a leaf's value; a group's record of its children's values under
      their names, in order; an array's list of its children's values. */
  function Value(n: Node): (v: Values.Value)
    ensures n.Leaf? ==> v == n.control.value
    ensures n.Group? ==> v.Obj? && |v.fields| == |n.fields| &&
                         forall i :: 0 <= i < |n.fields| ==> v.fields[i].0 == n.fields[i].0
    ensures n.GroupArray? ==> v.Arr? && |v.items| == |n.items|
  {
    match n
    case Leaf(c) => c.value
    case Group(fields, _, _, _, _) =>
      Obj(seq(|fields|, i requires 0 <= i < |fields| => (fields[i].0, Value(fields[i].1))))
    case GroupArray(items, _, _, _) =>
      Arr(seq(|items|, i requires 0 <= i < |items| => Value(items[i])))
  }

  /** The second argument of `new FormGroup(...)`: nothing, a validator list,
      or `{validators, isValid}`. */
  datatype GroupArg = GroupNoConfig | GroupValidatorList(list: seq<RuleId>) |
                      GroupConfig(validators: Option<seq<RuleId>>, isValid: Option<RuleId>)

  /** `new FormGroup(controls, validatorsOrConfig, needsValidation, errors)`:
      validators default to none, and the own flag defaults to "has at least
      one validator". */
  function NewGroup(fields: seq<(string, Node)>, arg: GroupArg, needsValidation: Option<bool>,
                    errors: Option<Errors>): (g: Node)
    ensures g.Group? && g.fields == fields && g.errors == errors
    ensures g.validators == (match arg
                             case GroupNoConfig => []
                             case GroupValidatorList(list) => list
                             case GroupConfig(vs, _) => vs.GetOr([]))
    ensures g.isValidFunc == (if arg.GroupConfig? then arg.isValid else None)
    ensures needsValidation.None? ==> (g.ownNeeds <==> |g.validators| > 0)
    ensures needsValidation.Some? ==> g.ownNeeds == needsValidation.value
  {
    var validators := match arg
                      case GroupNoConfig => []
                      case GroupValidatorList(list) => list
                      case GroupConfig(vs, _) => vs.GetOr([]);
    var f := if arg.GroupConfig? then arg.isValid else None;
    Group(fields, validators, f, needsValidation.GetOr(|validators| > 0), errors)
  }

  /** A group's `config`: `{validators, isValid}`. */
  function ConfigOf(g: Node): GroupArg
    requires g.Group?
  {
    GroupConfig(Some(g.validators), g.isValidFunc)
  }

  /** `new FormGroupArray(controls, validators, needsValidation, errors)`:
      validators default to `[]`, and the own flag defaults to "validators
      given and non-empty". */
  function NewArray(items: seq<Node>, validators: Option<seq<RuleId>>, needsValidation: Option<bool>,
                    errors: Option<Errors>): (a: Node)
    ensures a.GroupArray? && a.items == items && a.errors == errors
    ensures a.validators == validators.GetOr([])
    ensures needsValidation.None? ==> (a.ownNeeds <==> validators.Some? && |validators.value| > 0)
    ensures needsValidation.Some? ==> a.ownNeeds == needsValidation.value
  {
    var own := needsValidation.GetOr(validators.Some? && |validators.value| > 0);
    GroupArray(items, validators.GetOr([]), own, errors)
  }

  /** The truthy validator results merged by spread into an initially
      `undefined` record: absent when every result is falsy, otherwise the
      overlay of the truthy ones (even `{}` makes the record present). */
  function MergeTruthy(results: seq<Option<Errors>>): (r: Option<Errors>)
    ensures r.Some? <==> exists i :: 0 <= i < |results| && results[i].Some?
  {
    if exists i :: 0 <= i < |results| && results[i].Some? then Some(Overlay(TruthyLayers(results))) else None
  }

  function TruthyLayers(results: seq<Option<Errors>>): (layers: seq<Errors>)
    ensures |layers| == |results|
    ensures forall i :: 0 <= i < |results| ==> layers[i] == results[i].GetOr(map[])
  {
    seq(|results|, i requires 0 <= i < |results| => results[i].GetOr(map[]))
  }

  /** The loop at src/group.ts:115-125 (and src/array.ts:65-75): a truthy
      result is spread over the record so far. */
  method MergeValidatorResults(results: seq<Option<Errors>>) returns (errors: Option<Errors>)
    ensures errors == MergeTruthy(results)
  {
    ghost var layers := TruthyLayers(results);
    errors := None;
    for i := 0 to |results|
      invariant errors.Some? <==> exists j :: 0 <= j < i && results[j].Some?
      invariant errors.GetOr(map[]) == Overlay(layers[..i])
    {
      assert layers[..i + 1][..i] == layers[..i];
      var validation := results[i];
      if validation.Some? {
        errors := Some(errors.GetOr(map[]) + validation.value);
      } else {
        assert layers[i] == map[];
        assert Overlay(layers[..i]) + layers[i] == Overlay(layers[..i]);
      }
    }
    assert layers[..|results|] == layers;
  }

  /** Result `i` is the last truthy result that reports `key`. */
  predicate LastReport(results: seq<Option<Errors>>, key: string, i: int)
  {
    0 <= i < |results| && results[i].Some? && key in results[i].value &&
    forall j :: i < j < |results| ==> !(results[j].Some? && key in results[j].value)
  }

  /** The merged record holds exactly the keys some truthy result reports,
      each with the value of the last result that reports it. */
  lemma MergeTruthyLastWins(results: seq<Option<Errors>>, key: string)
    ensures var r := MergeTruthy(results);
            (r.Some? && key in r.value) <==> exists i :: 0 <= i < |results| && results[i].Some? && key in results[i].value
    ensures var r := MergeTruthy(results);
            forall i :: LastReport(results, key, i) ==> r.Some? && key in r.value && r.value[key] == results[i].value[key]
  {
    var layers := TruthyLayers(results);
    OverlayLastWins(layers, key);
    forall i | 0 <= i < |results| ensures (key in layers[i]) == (results[i].Some? && key in results[i].value) {
    }
    forall i | LastReport(results, key, i) ensures LastHolder(layers, key, i) {
    }
  }

  /** The errors a group or array gets from its validators, each called with
      the node as it was before validation (`validator(this)`). */
  function OwnErrors(n: Node, rules: Rules): (r: Option<Errors>)
    requires !n.Leaf?
    ensures r.None? <==> forall i :: 0 <= i < |n.validators| ==> rules.check(n.validators[i], n).None?
  {
    var results := seq(|n.validators|, i requires 0 <= i < |n.validators| => rules.check(n.validators[i], n));
    assert forall i :: 0 <= i < |n.validators| ==> results[i] == rules.check(n.validators[i], n);
    MergeTruthy(results)
  }

  /** Some child is not valid. */
  predicate SomeInvalid(cs: seq<Node>, rules: Rules)
  {
    exists i :: 0 <= i < |cs| && !IsValid(cs[i], rules)
  }

  /** `validate(skipValidationIfChildrenAreInvalid)`. A leaf validates itself.
      A group or array with nothing pending is returned as is. Otherwise every
      child is validated first (with the default gate); if gating is on and a
      validated child is not valid, the node is rebuilt from the validated
      children with its own flag clear and no errors, and its validators are
      not called; otherwise its validators' truthy results become its errors.
      For arrays this is the corrected gate; module ArrayFindings has the one
      src/array.ts writes. */
  function Validate(n: Node, rules: Rules, gate: bool): (r: Node)
    ensures !NeedsValidation(n) ==> r == n
    ensures n.Leaf? ==> r == Leaf(FC.Validate(n.control))
    ensures n.Group? && NeedsValidation(n) ==>
              r.Group? && |r.fields| == |n.fields| &&
              (forall i :: 0 <= i < |n.fields| ==> r.fields[i] == (n.fields[i].0, Validate(n.fields[i].1, rules, true))) &&
              r.validators == n.validators && r.isValidFunc == n.isValidFunc && !r.ownNeeds &&
              r.errors == (if gate && SomeInvalid(Children(r), rules) then None else OwnErrors(n, rules))
    ensures n.GroupArray? && NeedsValidation(n) ==>
              r.GroupArray? && |r.items| == |n.items| &&
              (forall i :: 0 <= i < |n.items| ==> r.items[i] == Validate(n.items[i], rules, true)) &&
              r.validators == n.validators && !r.ownNeeds &&
              r.errors == (if gate && SomeInvalid(r.items, rules) then None else OwnErrors(n, rules))
  {
    match n
    case Leaf(c) => Leaf(FC.Validate(c))
    case Group(fields, validators, f, own, errors) =>
      if !NeedsValidation(n) then n
      else
        var newState := seq(|fields|, i requires 0 <= i < |fields| => (fields[i].0, Validate(fields[i].1, rules, true)));
        var validated := seq(|newState|, i requires 0 <= i < |newState| => newState[i].1);
        assert validated == Children(Group(newState, validators, f, false, None));
        if gate && SomeInvalid(validated, rules) then
          NewGroup(newState, ConfigOf(n), Some(false), None)
        else
          NewGroup(newState, ConfigOf(n), Some(false), OwnErrors(n, rules))
    case GroupArray(items, validators, own, errors) =>
      if !NeedsValidation(n) then n
      else
        var newState := seq(|items|, i requires 0 <= i < |items| => Validate(items[i], rules, true));
        if gate && SomeInvalid(newState, rules) then
          NewArray(newState, Some(validators), Some(false), None)
        else
          NewArray(newState, Some(validators), Some(false), OwnErrors(n, rules))
  }

  /** Children before parent: after validation nothing below is pending. */
  lemma {:induction false} ValidateSettles(n: Node, rules: Rules, gate: bool)
    ensures !NeedsValidation(Validate(n, rules, gate))
    decreases n
  {
    var r := Validate(n, rules, gate);
    match n
    case Leaf(c) =>
    case Group(fields, _, _, _, _) =>
      if NeedsValidation(n) {
        forall i | 0 <= i < |fields| ensures !NeedsValidation(r.fields[i].1) {
          ValidateSettles(fields[i].1, rules, true);
        }
      }
    case GroupArray(items, _, _, _) =>
      if NeedsValidation(n) {
        forall i | 0 <= i < |items| ensures !NeedsValidation(r.items[i]) {
          ValidateSettles(items[i], rules, true);
        }
      }
  }

  /** `validate(validate(n)) == validate(n)`, whatever the gates. */
  lemma ValidateIdempotent(n: Node, rules: Rules, gate: bool, gate2: bool)
    ensures Validate(Validate(n, rules, gate), rules, gate2) == Validate(n, rules, gate)
  {
    ValidateSettles(n, rules, gate);
  }

  /** Validation never changes a value. */
  lemma {:induction false} ValidateKeepsValue(n: Node, rules: Rules, gate: bool)
    ensures Value(Validate(n, rules, gate)) == Value(n)
    decreases n
  {
    var r := Validate(n, rules, gate);
    match n
    case Leaf(c) =>
    case Group(fields, _, _, _, _) =>
      if NeedsValidation(n) {
        forall i | 0 <= i < |fields| ensures Value(r).fields[i] == Value(n).fields[i] {
          ValidateKeepsValue(fields[i].1, rules, true);
        }
      }
    case GroupArray(items, _, _, _) =>
      if NeedsValidation(n) {
        forall i | 0 <= i < |items| ensures Value(r).items[i] == Value(n).items[i] {
          ValidateKeepsValue(items[i], rules, true);
        }
      }
  }

  /** Gating: when a validated child of a group is not valid, the group gets
      no errors of its own, and without a custom `isValid` it is invalid. */
  lemma GatedGroupIsInvalid(n: Node, rules: Rules)
    requires n.Group? && NeedsValidation(n) && n.isValidFunc.None?
    requires SomeInvalid(Children(Validate(n, rules, true)), rules)
    ensures Validate(n, rules, true).errors.None?
    ensures IsInvalid(Validate(n, rules, true), rules)
  {
    var r := Validate(n, rules, true);
    ValidateSettles(n, rules, true);
    var i :| 0 <= i < |Children(r)| && !IsValid(Children(r)[i], rules);
    assert !IsValid(r.fields[i].1, rules);
  }

  /** Validators run when a node is pending and all its children come out
      valid: a valid result then means every validator passed on the node
      (for a group, when it has no custom `isValid`). This is what gating on
      the validated children guarantees; src/array.ts, gating on the children
      as they were, does not (module ArrayFindings). */
  lemma ValidMeansValidatorsPassed(n: Node, rules: Rules, gate: bool)
    requires !n.Leaf? && NeedsValidation(n)
    requires n.Group? ==> n.isValidFunc.None?
    requires IsValid(Validate(n, rules, gate), rules)
    ensures forall i :: 0 <= i < |n.validators| ==> rules.check(n.validators[i], n).None?
    ensures forall c :: c in Children(Validate(n, rules, gate)) ==> IsValid(c, rules)
  {
    var r := Validate(n, rules, gate);
    if r.Group? {
      assert forall i :: 0 <= i < |r.fields| ==> IsValid(r.fields[i].1, rules);
    }
    assert !SomeInvalid(Children(r), rules);
  }

  /** Validity and validation are opposite ends: a valid node is not invalid,
      and a node with nothing pending is one or the other. */
  lemma {:induction false} ValidOrInvalid(n: Node, rules: Rules)
    requires !n.Leaf? || n.control.errors != Some(map[])
    requires !NeedsValidation(n)
    ensures IsValid(n, rules) != IsInvalid(n, rules)
  {
    match n
    case Leaf(c) =>
    case Group(_, _, _, _, _) =>
    case GroupArray(_, _, _, _) =>
  }
}

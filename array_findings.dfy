/**
 * `FormGroupArray.validate`, `isValid` and `isInvalid` as src/array.ts writes
 * them, and `setDirty` as src/group.ts and src/array.ts write it, beside the
 * corrected readings the rest of the model uses (FormTree.Validate,
 * FormTree.IsValid, TreeUpdate.SetDirty). Each as-written member comes with
 * an input on which it breaks the property its corrected partner keeps.
 */
module ArrayFindings {
  import opened Wrappers
  import opened Values
  import FC = FormControl
  import opened FormTree
  import TU = TreeUpdate

  /** `validate` of src/array.ts:54-78: the gate asks whether a child was
      invalid BEFORE validation (`this.controls.some(c => !c.isValid)`), so any
      pending child skips the array's validators. */
  function ArrayValidateAsWritten(n: Node, rules: Rules, gate: bool): (r: Node)
    requires n.GroupArray?
    ensures !NeedsValidation(n) ==> r == n
    ensures NeedsValidation(n) ==>
              r.GroupArray? && |r.items| == |n.items| && !r.ownNeeds && r.validators == n.validators &&
              (forall i :: 0 <= i < |n.items| ==> r.items[i] == Validate(n.items[i], rules, true)) &&
              r.errors == (if gate && SomeInvalid(n.items, rules) then None else OwnErrors(n, rules))
  {
    if !NeedsValidation(n) then n
    else
      var newState := seq(|n.items|, i requires 0 <= i < |n.items| => Validate(n.items[i], rules, true));
      if gate && SomeInvalid(n.items, rules) then NewArray(newState, Some(n.validators), Some(false), None)
      else NewArray(newState, Some(n.validators), Some(false), OwnErrors(n, rules))
  }

  /** `isValid` of src/array.ts:30-32: nothing pending and no own errors; the
      children's validity is not consulted. */
  predicate ArrayIsValidAsWritten(n: Node)
    requires n.GroupArray?
  {
    !NeedsValidation(n) && n.errors.None?
  }

  /** `isInvalid` of src/array.ts:34-36: nothing pending and an error record. */
  predicate ArrayIsInvalidAsWritten(n: Node)
    requires n.GroupArray?
  {
    !NeedsValidation(n) && n.errors.Some?
  }

  /** As written, a child still pending is never valid, so the gate closes
      and the array's own validators are skipped: it settles with no errors,
      and as-written `isValid` then depends only on the children settling. */
  lemma PendingChildSkipsValidators(n: Node, rules: Rules, i: nat)
    requires n.GroupArray? && i < |n.items| && NeedsValidation(n.items[i]) && TU.NoCustomValid(n.items[i])
    ensures ArrayValidateAsWritten(n, rules, true).errors.None?
    ensures !ArrayIsInvalidAsWritten(ArrayValidateAsWritten(n, rules, true))
  {
    NotValidWhilePending(n.items[i], rules);
    ValidateSettles(n, rules, true);
    var r := ArrayValidateAsWritten(n, rules, true);
    forall j | 0 <= j < |r.items| ensures !NeedsValidation(r.items[j]) {
      ValidateSettles(n.items[j], rules, true);
    }
  }

  /** A node with validation pending is not valid, unless a custom `isValid`
      function below decides otherwise. */
  lemma {:induction false} NotValidWhilePending(n: Node, rules: Rules)
    requires NeedsValidation(n) && TU.NoCustomValid(n)
    ensures !IsValid(n, rules)
  {
    match n
    case Leaf(_) =>
    case Group(fields, _, f, own, _) =>
      if !own {
        var i :| 0 <= i < |fields| && NeedsValidation(fields[i].1);
        NotValidWhilePending(fields[i].1, rules);
      }
    case GroupArray(_, _, _, _) =>
  }

  /** Every validator of this example rejects the array with `tooFew`. */
  function RejectAll(): Rules
  {
    Rules((id, node) => Some(map["tooFew" := true]), (f, node) => true)
  }

  lemma RejectAllRejects(n: Node)
    ensures RejectAll().check(0, n).Some?
  {
    var e := map["tooFew" := true];
    assert RejectAll().check(0, n) == Some(e);
  }

  /** A fresh leaf with no validators: it validates to a valid leaf. */
  function FreshLeaf(): Node
  {
    Leaf(FC.Control(Undefined, None, true, None, false, false))
  }

  /** A pending array with one validator over one group holding a fresh leaf. */
  function PendingArray(): Node
  {
    GroupArray([Group([("x", FreshLeaf())], [], None, false, None)], [0], true, None)
  }

  /** The group inside `PendingArray` validates to a valid group over a
      valid leaf. */
  lemma PendingGroupValidates()
    ensures Validate(PendingArray().items[0], RejectAll(), true) == Group([("x", ValidLeaf())], [], None, false, None)
    ensures IsValid(Validate(PendingArray().items[0], RejectAll(), true), RejectAll())
  {
    var rules := RejectAll();
    assert Validate(FreshLeaf(), rules, true) == ValidLeaf();
    var g2 := Validate(PendingArray().items[0], rules, true);
    assert g2.fields[0].1 == ValidLeaf();
    assert !SomeInvalid(Children(g2), rules);
  }

  /** F1 (src/array.ts:60): the array's validator rejects it, yet as written
      the array validates to a node that is valid, both as written and by the
      corrected `isValid`, and validating it again changes nothing. The
      corrected `Validate` gates on the validated children, runs the
      validator and yields an invalid array. */
  lemma GateOnStaleChildren()
    ensures RejectAll().check(0, PendingArray()).Some?
    ensures ArrayIsValidAsWritten(ArrayValidateAsWritten(PendingArray(), RejectAll(), true))
    ensures IsValid(ArrayValidateAsWritten(PendingArray(), RejectAll(), true), RejectAll())
    ensures ArrayValidateAsWritten(ArrayValidateAsWritten(PendingArray(), RejectAll(), true), RejectAll(), true) ==
            ArrayValidateAsWritten(PendingArray(), RejectAll(), true)
    ensures IsInvalid(Validate(PendingArray(), RejectAll(), true), RejectAll())
  {
    AsWrittenSettlesValid();
    CorrectedRejects();
  }

  /** The as-written half of F1. */
  lemma AsWrittenSettlesValid()
    ensures ArrayIsValidAsWritten(ArrayValidateAsWritten(PendingArray(), RejectAll(), true))
    ensures IsValid(ArrayValidateAsWritten(PendingArray(), RejectAll(), true), RejectAll())
    ensures ArrayValidateAsWritten(ArrayValidateAsWritten(PendingArray(), RejectAll(), true), RejectAll(), true) ==
            ArrayValidateAsWritten(PendingArray(), RejectAll(), true)
  {
    var a := PendingArray();
    var rules := RejectAll();
    PendingGroupValidates();
    PendingChildSkipsValidators(a, rules, 0);
    var w := ArrayValidateAsWritten(a, rules, true);
    assert w.items[0] == Validate(a.items[0], rules, true);
  }

  /** The corrected half of F1: the validated children are valid, so the
      rejecting validator runs. */
  lemma CorrectedRejects()
    ensures RejectAll().check(0, PendingArray()).Some?
    ensures IsInvalid(Validate(PendingArray(), RejectAll(), true), RejectAll())
  {
    var a := PendingArray();
    var rules := RejectAll();
    RejectAllRejects(a);
    PendingGroupValidates();
    var c := Validate(a, rules, true);
    assert c.items[0] == Validate(a.items[0], rules, true);
    assert !SomeInvalid(c.items, rules);
    assert OwnErrors(a, rules).Some? by {
      RejectAllRejects(a);
      assert rules.check(a.validators[0], a).Some?;
    }
    assert c.errors.Some?;
    ValidateSettles(a, rules, true);
    assert !IsValid(c, rules);
  }

  /** A leaf validated with errors. */
  function FailedLeaf(): Node
  {
    Leaf(FC.Control(Undefined, None, false, Some(map["required" := true]), false, false))
  }

  /** A settled array with no errors of its own over a group holding a failed
      leaf. */
  function ArrayOverFailedLeaf(): Node
  {
    GroupArray([Group([("x", FailedLeaf())], [], None, false, None)], [], false, None)
  }

  /** F2 (src/array.ts:30-36): as written the array is valid and not invalid
      while its only child is not valid; the corrected `isValid` says it is not
      valid, and the corrected `isInvalid` says it is invalid. */
  lemma ValidOverInvalidChild()
    ensures ArrayIsValidAsWritten(ArrayOverFailedLeaf())
    ensures !ArrayIsInvalidAsWritten(ArrayOverFailedLeaf())
    ensures !IsValid(ArrayOverFailedLeaf().items[0], RejectAll())
    ensures !IsValid(ArrayOverFailedLeaf(), RejectAll())
    ensures IsInvalid(ArrayOverFailedLeaf(), RejectAll())
  {
    assert !IsValid(ArrayOverFailedLeaf().items[0].fields[0].1, RejectAll());
  }

  /** `setDirty(dirty)` as src/group.ts:230-241 and src/array.ts:105-107 write
      it: the flags and children as in TreeUpdate.SetDirty, but the new node
      is built without the error record. */
  function SetDirtyAsWritten(n: Node, dirty: bool): (r: Node)
    ensures n.Leaf? ==> r == Leaf(FC.SetDirty(n.control, dirty))
    ensures n.Group? ==> r.Group? && r.errors.None? && r.ownNeeds == n.ownNeeds && |r.fields| == |n.fields| &&
                         forall i :: 0 <= i < |n.fields| ==> r.fields[i] == (n.fields[i].0, SetDirtyAsWritten(n.fields[i].1, dirty))
    ensures n.GroupArray? ==> r.GroupArray? && r.errors.None? && r.ownNeeds == n.ownNeeds && |r.items| == |n.items| &&
                              forall i :: 0 <= i < |n.items| ==> r.items[i] == SetDirtyAsWritten(n.items[i], dirty)
  {
    match n
    case Leaf(c) => Leaf(FC.SetDirty(c, dirty))
    case Group(fields, _, _, own, _) =>
      NewGroup(seq(|fields|, i requires 0 <= i < |fields| => (fields[i].0, SetDirtyAsWritten(fields[i].1, dirty))),
               ConfigOf(n), Some(own), None)
    case GroupArray(items, validators, own, _) =>
      NewArray(seq(|items|, i requires 0 <= i < |items| => SetDirtyAsWritten(items[i], dirty)), Some(validators), Some(own), None)
  }

  /** A valid leaf. */
  function ValidLeaf(): Node
  {
    Leaf(FC.Control(Undefined, None, false, None, false, false))
  }

  /** A settled group whose own validator reported `x`, over a valid leaf. */
  function RejectedGroup(): Node
  {
    Group([("x", ValidLeaf())], [0], None, false, Some(map["x" := true]))
  }

  /** F3 (src/group.ts:240): marking a rejected group dirty makes it valid
      without running its validator again. The corrected `SetDirty` keeps the
      error record, and with it the verdict. */
  lemma SetDirtyForgetsErrors()
    ensures !IsValid(RejectedGroup(), RejectAll())
    ensures IsValid(SetDirtyAsWritten(RejectedGroup(), true), RejectAll())
    ensures !NeedsValidation(SetDirtyAsWritten(RejectedGroup(), true))
    ensures !IsValid(TU.SetDirty(RejectedGroup(), true), RejectAll())
  {
    var r := SetDirtyAsWritten(RejectedGroup(), true);
    assert r.fields[0].1 == Leaf(FC.Control(Undefined, None, false, None, true, false));
    TU.SetDirtyEffect(RejectedGroup(), true, RejectAll());
  }
}

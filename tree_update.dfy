/**
 * The updates of the form tree: `patch`, `patchValue` and `setDirty` of
 * `FormGroup` (src/group.ts) and `FormGroupArray` (src/array.ts), the node a
 * group builds when one child changes, and the index replacement an array
 * does when one of its groups changes.
 */
module TreeUpdate {
  import opened Wrappers
  import opened Values
  import FC = FormControl
  import opened FormTree

  /** The first entry named `k`: a record's `value[k]`, absent when there is
      none. */
  function Lookup<X>(entries: seq<(string, X)>, k: string): (r: Option<X>)
    ensures r.None? <==> forall i :: 0 <= i < |entries| ==> entries[i].0 != k
    ensures r.Some? ==> exists i :: 0 <= i < |entries| && entries[i].0 == k && entries[i].1 == r.value
  {
    if entries == [] then None
    else if entries[0].0 == k then Some(entries[0].1)
    else
      var r := Lookup(entries[1..], k);
      assert forall i :: 1 <= i < |entries| ==> entries[i] == entries[1..][i - 1];
      r
  }

  /** Object keys are unique. */
  ghost predicate DistinctNames<X>(entries: seq<(string, X)>)
  {
    forall i, j :: 0 <= i < j < |entries| ==> entries[i].0 != entries[j].0
  }

  /** With unique names, looking a name up finds its own entry. */
  lemma {:induction false} LookupDistinct<X>(entries: seq<(string, X)>, i: nat)
    requires DistinctNames(entries) && i < |entries|
    ensures Lookup(entries, entries[i].0) == Some(entries[i].1)
  {
    if i > 0 {
      assert entries[1..][i - 1] == entries[i];
      LookupDistinct(entries[1..], i - 1);
    }
  }

  /** Every group below has unique child names, as an object's keys are. */
  ghost predicate WellFormed(n: Node)
  {
    match n
    case Leaf(_) => true
    case Group(fields, _, _, _, _) =>
      DistinctNames(fields) && forall i :: 0 <= i < |fields| ==> WellFormed(fields[i].1)
    case GroupArray(items, _, _, _) => forall i :: 0 <= i < |items| ==> WellFormed(items[i])
  }

  /** Whether `name` is one of the names in `fields`. */
  predicate HasName<X>(fields: seq<(string, X)>, name: string)
  {
    exists i :: 0 <= i < |fields| && fields[i].0 == name
  }

  /** The entries of `overrides` whose names `fields` lacks, in order: the
      keys a spread appends. */
  function NewEntries(overrides: seq<(string, Node)>, fields: seq<(string, Node)>): (r: seq<(string, Node)>)
    ensures |r| <= |overrides|
    ensures forall e :: e in r ==> e in overrides && !HasName(fields, e.0)
    ensures forall e :: e in overrides && !HasName(fields, e.0) ==> e in r
    ensures (forall e :: e in overrides ==> HasName(fields, e.0)) ==> r == []
  {
    if overrides == [] then []
    else
      var rest := NewEntries(overrides[1..], fields);
      assert forall e :: e in overrides ==> e == overrides[0] || e in overrides[1..];
      if HasName(fields, overrides[0].0) then rest else [overrides[0]] + rest
  }

  /** `patch(controls)`: `{...this.controls, ...controls}` with the same
      config, own flag set and no errors. A named child is replaced, the others
      are kept in place, and names the group lacks are appended. */
  function Patch(g: Node, overrides: seq<(string, Node)>): (r: Node)
    requires g.Group?
    ensures r.Group? && r.validators == g.validators && r.isValidFunc == g.isValidFunc
    ensures r.ownNeeds && r.errors.None?
    ensures |g.fields| <= |r.fields|
    ensures forall i :: 0 <= i < |g.fields| ==>
              r.fields[i].0 == g.fields[i].0 &&
              r.fields[i].1 == Lookup(overrides, g.fields[i].0).GetOr(g.fields[i].1)
    ensures forall i :: |g.fields| <= i < |r.fields| ==> r.fields[i] in overrides && !HasName(g.fields, r.fields[i].0)
    ensures forall e :: e in overrides && !HasName(g.fields, e.0) ==> e in r.fields
  {
    var kept := seq(|g.fields|, i requires 0 <= i < |g.fields| =>
                      (g.fields[i].0, Lookup(overrides, g.fields[i].0).GetOr(g.fields[i].1)));
    NewGroup(kept + NewEntries(overrides, g.fields), ConfigOf(g), Some(true), None)
  }

  /** A patch whose names the group has keeps the names and the order, and
      changes no child it does not name. */
  lemma PatchExistingNames(g: Node, overrides: seq<(string, Node)>)
    requires g.Group?
    requires forall e :: e in overrides ==> HasName(g.fields, e.0)
    ensures |Patch(g, overrides).fields| == |g.fields|
    ensures forall i :: 0 <= i < |g.fields| && Lookup(overrides, g.fields[i].0).None? ==>
              Patch(g, overrides).fields[i] == g.fields[i]
  {
    assert NewEntries(overrides, g.fields) == [];
  }

  /** The node a group passes up when its child `name` changes
      (src/group.ts:139-144): a one-entry patch. */
  function ChildChange(g: Node, name: string, child: Node): (r: Node)
    requires g.Group?
    ensures r == Patch(g, [(name, child)])
    ensures HasName(g.fields, name) ==> |r.fields| == |g.fields|
  {
    var r := Patch(g, [(name, child)]);
    if HasName(g.fields, name) then PatchExistingNames(g, [(name, child)]); r else r
  }

  /** A field's change hook seen from its group: the leaf built by the change
      replaces the field in place, and the group is then dirty, touched and
      pending validation, while every sibling keeps its node and so its
      flags. */
  lemma ChildChangeFlags(g: Node, i: nat, value: Values.Value)
    requires g.Group? && i < |g.fields| && g.fields[i].1.Leaf? && DistinctNames(g.fields)
    ensures var r := ChildChange(g, g.fields[i].0, Leaf(FC.OnChangeValue(g.fields[i].1.control, value)));
            |r.fields| == |g.fields| && r.fields[i].0 == g.fields[i].0 &&
            FormTree.Value(r.fields[i].1) == value &&
            Dirty(r) && Touched(r) && NeedsValidation(r) &&
            forall j :: 0 <= j < |g.fields| && j != i ==> r.fields[j] == g.fields[j]
  {
    var name := g.fields[i].0;
    var child := Leaf(FC.OnChangeValue(g.fields[i].1.control, value));
    var r := ChildChange(g, name, child);
    assert HasName(g.fields, name);
    assert Lookup([(name, child)], name) == Some(child);
    assert r.fields[i].1 == child;
    assert Dirty(r.fields[i].1) && Touched(r.fields[i].1);
    forall j | 0 <= j < |g.fields| && j != i ensures r.fields[j] == g.fields[j] {
      assert g.fields[j].0 != name;
      assert Lookup([(name, child)], g.fields[j].0).None?;
    }
  }

  /** `patchValue(value)` for any node; a group or array is never patched
      with nil (its parent skips nil entries). A leaf takes the value. A group
      patches each child whose name has a non-nil entry in the record; an
      array patches each position with a non-nil entry in the list; both then
      set their own flag and drop their errors. A value that is not a record
      (for a group) or a list (for an array) has no entries here. */
  function PatchValue(n: Node, v: Values.Value): (r: Node)
    requires n.Leaf? || !v.IsNil()
    ensures n.Leaf? ==> r == Leaf(FC.PatchValue(n.control, v))
    ensures n.Group? ==> r.Group? && |r.fields| == |n.fields| && r.ownNeeds && r.errors.None? &&
                         r.validators == n.validators && r.isValidFunc == n.isValidFunc &&
                         forall i :: 0 <= i < |n.fields| ==> r.fields[i].0 == n.fields[i].0
    ensures n.GroupArray? ==> r.GroupArray? && |r.items| == |n.items| && r.ownNeeds && r.errors.None? &&
                              r.validators == n.validators
    ensures n.Group? ==> forall i :: 0 <= i < |n.fields| ==>
              r.fields[i].1 == GroupEntryPatch(n.fields[i].1, Lookup(if v.Obj? then v.fields else [], n.fields[i].0))
    ensures n.GroupArray? ==> forall i :: 0 <= i < |n.items| ==>
              r.items[i] == if i < |ArrayEntries(v)| && !ArrayEntries(v)[i].IsNil() then PatchValue(n.items[i], ArrayEntries(v)[i]) else n.items[i]
    ensures NeedsValidation(r)
    decreases n, 0
  {
    match n
    case Leaf(c) => Leaf(FC.PatchValue(c, v))
    case Group(fields, _, _, _, _) =>
      var entries := if v.Obj? then v.fields else [];
      var patched := seq(|fields|, i requires 0 <= i < |fields| =>
                           (fields[i].0, GroupEntryPatch(fields[i].1, Lookup(entries, fields[i].0))));
      NewGroup(patched, ConfigOf(n), Some(true), None)
    case GroupArray(items, validators, _, _) =>
      var entries := ArrayEntries(v);
      var patched := seq(|items|, i requires 0 <= i < |items| =>
                           if i < |entries| && !entries[i].IsNil() then PatchValue(items[i], entries[i]) else items[i]);
      NewArray(patched, Some(validators), Some(true), None)
  }

  /** The entries of a list value; any other value has none. */
  function ArrayEntries(v: Values.Value): (entries: seq<Values.Value>)
    ensures v.Arr? ==> entries == v.items
    ensures !v.Arr? ==> entries == []
  {
    if v.Arr? then v.items else []
  }

  /** One child of a group under `patchValue`: patched with a non-nil entry,
      kept otherwise. */
  function GroupEntryPatch(child: Node, entry: Option<Values.Value>): (r: Node)
    decreases child, 1
  {
    if entry.Some? && !entry.value.IsNil() then PatchValue(child, entry.value) else child
  }

  /** The record has a non-nil entry under `name`. */
  predicate HasEntry(entries: seq<(string, Values.Value)>, name: string)
  {
    Lookup(entries, name).Some? && !Lookup(entries, name).value.IsNil()
  }

  /** `child` patched with the record's entry under `name`. */
  function EntryPatch(child: Node, entries: seq<(string, Values.Value)>, name: string): Node
    requires HasEntry(entries, name)
  {
    PatchValue(child, Lookup(entries, name).value)
  }

  /** The `controls` record `patchValue` builds: one entry per name with a
      non-nil value, in order. */
  function Overrides(fields: seq<(string, Node)>, entries: seq<(string, Values.Value)>): (r: seq<(string, Node)>)
    ensures forall i :: 0 <= i < |fields| && HasEntry(entries, fields[i].0) ==>
              (fields[i].0, EntryPatch(fields[i].1, entries, fields[i].0)) in r
    ensures forall e :: e in r ==>
              HasEntry(entries, e.0) && exists i :: 0 <= i < |fields| && fields[i].0 == e.0 && e.1 == EntryPatch(fields[i].1, entries, e.0)
  {
    if fields == [] then []
    else
      var rest := Overrides(fields[1..], entries);
      assert forall i :: 1 <= i < |fields| ==> fields[i] == fields[1..][i - 1];
      if HasEntry(entries, fields[0].0) then [(fields[0].0, EntryPatch(fields[0].1, entries, fields[0].0))] + rest else rest
  }

  /** `patchValue` is `patch` of the record it builds (src/group.ts:204-218). */
  lemma PatchValueIsPatch(g: Node, v: Values.Value)
    requires g.Group? && v.Obj? && DistinctNames(g.fields)
    ensures PatchValue(g, v) == Patch(g, Overrides(g.fields, v.fields))
  {
    var overrides := Overrides(g.fields, v.fields);
    var r := Patch(g, overrides);
    var p := PatchValue(g, v);
    PatchExistingNames(g, overrides);
    forall i | 0 <= i < |g.fields| ensures r.fields[i] == p.fields[i] {
      var name := g.fields[i].0;
      var found := Lookup(v.fields, name);
      var o := Lookup(overrides, name);
      if o.Some? {
        assert (name, o.value) in overrides;
        var j :| 0 <= j < |g.fields| && g.fields[j].0 == name && HasEntry(v.fields, name) &&
                 o.value == EntryPatch(g.fields[j].1, v.fields, name);
        assert j == i;
      }
    }
  }

  /** Round trip: patching a well-formed node with its own value leaves its
      value unchanged. */
  lemma {:induction false} PatchValueRoundTrip(n: Node)
    requires WellFormed(n)
    ensures n.Leaf? || !FormTree.Value(n).IsNil()
    ensures FormTree.Value(PatchValue(n, FormTree.Value(n))) == FormTree.Value(n)
    decreases n
  {
    var v := FormTree.Value(n);
    var r := PatchValue(n, v);
    match n
    case Leaf(c) =>
    case Group(fields, _, _, _, _) =>
      forall i | 0 <= i < |fields| ensures FormTree.Value(r).fields[i] == v.fields[i] {
        LookupDistinct(v.fields, i);
        assert v.fields[i] == (fields[i].0, FormTree.Value(fields[i].1));
        if !FormTree.Value(fields[i].1).IsNil() {
          PatchValueRoundTrip(fields[i].1);
        }
      }
    case GroupArray(items, _, _, _) =>
      forall i | 0 <= i < |items| ensures FormTree.Value(r).items[i] == v.items[i] {
        if !v.items[i].IsNil() {
          PatchValueRoundTrip(items[i]);
        }
      }
  }

  /** A group ignores nil entries and names it lacks: a record whose entries
      are all nil changes no child. */
  lemma PatchValueNilEntries(g: Node, entries: seq<(string, Values.Value)>)
    requires g.Group?
    requires forall i :: 0 <= i < |entries| ==> entries[i].1.IsNil()
    ensures forall i :: 0 <= i < |g.fields| ==> PatchValue(g, Obj(entries)).fields[i] == g.fields[i]
  {
    forall i | 0 <= i < |g.fields| ensures PatchValue(g, Obj(entries)).fields[i] == g.fields[i] {
      var found := Lookup(entries, g.fields[i].0);
      if found.Some? {
        var j :| 0 <= j < |entries| && entries[j].0 == g.fields[i].0 && entries[j].1 == found.value;
      }
    }
  }

  /** `patch(controls)` of an array: position `i` takes `controls.get(i)`
      when the list has one, and keeps its child otherwise; the length never
      changes. */
  function PatchArray(a: Node, overrides: seq<Node>): (r: Node)
    requires a.GroupArray?
    ensures r.GroupArray? && |r.items| == |a.items| && r.ownNeeds && r.errors.None? && r.validators == a.validators
    ensures forall i :: 0 <= i < |a.items| ==> r.items[i] == (if i < |overrides| then overrides[i] else a.items[i])
  {
    NewArray(seq(|a.items|, i requires 0 <= i < |a.items| => if i < |overrides| then overrides[i] else a.items[i]),
             Some(a.validators), Some(true), None)
  }

  /** An array patch keeps its untouched positions: those past the override
      list, or whose entry in the value list is nil. */
  lemma ArrayPatchValueKeeps(a: Node, entries: seq<Values.Value>, i: nat)
    requires a.GroupArray? && i < |a.items|
    requires i >= |entries| || entries[i].IsNil()
    ensures PatchValue(a, Arr(entries)).items[i] == a.items[i]
  {
  }

  /** The node an array passes up when its group at `key` changes
      (src/array.ts:84-87): that position replaced, own flag set, no errors. */
  function ReplaceItem(a: Node, key: nat, group: Node): (r: Node)
    requires a.GroupArray? && key < |a.items|
    ensures r.GroupArray? && |r.items| == |a.items| && r.items[key] == group
    ensures forall i :: 0 <= i < |a.items| && i != key ==> r.items[i] == a.items[i]
    ensures r.ownNeeds && r.errors.None? && r.validators == a.validators
  {
    NewArray(a.items[key := group], Some(a.validators), Some(true), None)
  }

  /** `setDirty(dirty)`: every leaf below takes the flag; each group and array
      keeps its own flag. The error records are kept too: this is the
      corrected reading (src/group.ts:240 and src/array.ts:106 drop them, see
      module ArrayFindings). */
  function SetDirty(n: Node, dirty: bool): (r: Node)
    ensures n.Leaf? ==> r == Leaf(FC.SetDirty(n.control, dirty))
    ensures n.Group? ==> r.Group? && |r.fields| == |n.fields| && r.ownNeeds == n.ownNeeds && r.errors == n.errors &&
                         r.validators == n.validators && r.isValidFunc == n.isValidFunc &&
                         forall i :: 0 <= i < |n.fields| ==> r.fields[i] == (n.fields[i].0, SetDirty(n.fields[i].1, dirty))
    ensures n.GroupArray? ==> r.GroupArray? && |r.items| == |n.items| && r.ownNeeds == n.ownNeeds &&
                              r.errors == n.errors && r.validators == n.validators &&
                              forall i :: 0 <= i < |n.items| ==> r.items[i] == SetDirty(n.items[i], dirty)
  {
    match n
    case Leaf(c) => Leaf(FC.SetDirty(c, dirty))
    case Group(fields, _, _, own, errors) =>
      NewGroup(seq(|fields|, i requires 0 <= i < |fields| => (fields[i].0, SetDirty(fields[i].1, dirty))),
               ConfigOf(n), Some(own), errors)
    case GroupArray(items, validators, own, errors) =>
      NewArray(seq(|items|, i requires 0 <= i < |items| => SetDirty(items[i], dirty)), Some(validators), Some(own), errors)
  }

  /** Some leaf lies below. */
  predicate HasLeaf(n: Node)
  {
    match n
    case Leaf(_) => true
    case Group(fields, _, _, _, _) => exists i :: 0 <= i < |fields| && HasLeaf(fields[i].1)
    case GroupArray(items, _, _, _) => exists i :: 0 <= i < |items| && HasLeaf(items[i])
  }

  /** No group below has a custom `isValid` function. */
  predicate NoCustomValid(n: Node)
  {
    match n
    case Leaf(_) => true
    case Group(fields, _, f, _, _) => f.None? && forall i :: 0 <= i < |fields| ==> NoCustomValid(fields[i].1)
    case GroupArray(items, _, _, _) => forall i :: 0 <= i < |items| ==> NoCustomValid(items[i])
  }

  /** After `setDirty(d)` the node is dirty iff `d` and it has a leaf;
      pending validation and value are unchanged; and without custom `isValid`
      functions, so is validity. */
  lemma {:induction false} SetDirtyEffect(n: Node, dirty: bool, rules: Rules)
    ensures Dirty(SetDirty(n, dirty)) <==> dirty && HasLeaf(n)
    ensures NeedsValidation(SetDirty(n, dirty)) == NeedsValidation(n)
    ensures FormTree.Value(SetDirty(n, dirty)) == FormTree.Value(n)
    ensures NoCustomValid(n) ==> IsValid(SetDirty(n, dirty), rules) == IsValid(n, rules)
    decreases n
  {
    var r := SetDirty(n, dirty);
    match n
    case Leaf(c) =>
    case Group(fields, _, _, _, _) =>
      forall i | 0 <= i < |fields|
        ensures Dirty(r.fields[i].1) <==> dirty && HasLeaf(fields[i].1)
        ensures NeedsValidation(r.fields[i].1) == NeedsValidation(fields[i].1)
        ensures FormTree.Value(r).fields[i] == FormTree.Value(n).fields[i]
        ensures NoCustomValid(fields[i].1) ==> IsValid(r.fields[i].1, rules) == IsValid(fields[i].1, rules)
      {
        SetDirtyEffect(fields[i].1, dirty, rules);
      }
    case GroupArray(items, _, _, _) =>
      forall i | 0 <= i < |items|
        ensures Dirty(r.items[i]) <==> dirty && HasLeaf(items[i])
        ensures NeedsValidation(r.items[i]) == NeedsValidation(items[i])
        ensures FormTree.Value(r).items[i] == FormTree.Value(n).items[i]
        ensures NoCustomValid(items[i]) ==> IsValid(r.items[i], rules) == IsValid(items[i], rules)
      {
        SetDirtyEffect(items[i], dirty, rules);
      }
  }

  /** Every leaf below is valid. */
  predicate LeavesValid(n: Node)
  {
    match n
    case Leaf(c) => FC.IsValid(c)
    case Group(fields, _, _, _, _) => forall i :: 0 <= i < |fields| ==> LeavesValid(fields[i].1)
    case GroupArray(items, _, _, _) => forall i :: 0 <= i < |items| ==> LeavesValid(items[i])
  }

  /** Without custom `isValid` functions, a valid node has only valid leaves:
      what an array's `isValid` promises once it consults its children. */
  lemma {:induction false} ValidMeansLeavesValid(n: Node, rules: Rules)
    requires NoCustomValid(n) && IsValid(n, rules)
    ensures LeavesValid(n)
    decreases n
  {
    match n
    case Leaf(_) =>
    case Group(fields, _, _, _, _) =>
      forall i | 0 <= i < |fields| ensures LeavesValid(fields[i].1) {
        ValidMeansLeavesValid(fields[i].1, rules);
      }
    case GroupArray(items, _, _, _) =>
      forall i | 0 <= i < |items| ensures LeavesValid(items[i]) {
        ValidMeansLeavesValid(items[i], rules);
      }
  }
}

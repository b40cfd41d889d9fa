/** A document changed in place: the operations of `basic_json` that assign to `*this`. */
module JsonDocument {
  import opened Json
  import opened JsonPatch
  import opened JsonMerge

  class Document {
    var root: Json

    constructor (j: Json)
      ensures root == j
    {
      root := j;
    }

    /** Applies the operations one after the other, stopping at the first that fails. */
    method PatchInPlace(patch: Json) returns (end: Outcome)
      modifies this
      ensures end == PatchOutcome(old(root), patch)
      ensures root == end.doc
    {
      hide ApplyOp;
      if !patch.Arr? { return Threw(root); }
      var ops := patch.items;
      end := Done(root);
      var i := 0;
      while i < |ops| && end.Done?
        invariant 0 <= i <= |ops|
        invariant end == Run(old(root), ops[..i]) && root == end.doc
        invariant end.Done? || Run(old(root), ops) == end
      {
        RunPrefix(old(root), ops, i);
        end := ApplyOp(root, ops[i]);
        root := end.doc;
        i := i + 1;
      }
      assert i == |ops| ==> ops[..i] == ops;
    }

    /** `patch`: the same on a copy; the document keeps its value whatever happens. */
    method Patch(patch: Json) returns (end: Outcome)
      ensures end == PatchOutcome(root, patch)
    {
      var copy := new Document(root);
      end := copy.PatchInPlace(patch);
    }

    /** The members of the patch may come in any order. */
    method MergePatch(patch: Json)
      modifies this
      ensures root == MergePatched(old(root), patch)
      decreases patch
    {
      if !patch.Obj? {
        root := patch;
        return;
      }
      var p := patch.members;
      var start := MembersOrNone(root);
      var m, todo := start, p.Keys;
      while todo != {}
        invariant todo <= p.Keys
        invariant m == MergedMembers(start, p, p.Keys - todo)
        decreases todo
      {
        var k :| k in todo;
        MergeStep(start, p, p.Keys - todo, k);
        assert p.Keys - (todo - {k}) == p.Keys - todo + {k};
        if p[k].Null? {
          m := m - {k};
        } else {
          var child := new Document(MemberOrNull(m, k));
          child.MergePatch(p[k]);
          m := m[k := child.root];
        }
        todo := todo - {k};
      }
      root := Obj(m);
      MergeAll(old(root), patch);
    }

    /** `update`. False stands for a type error. */
    method Update(j: Json, mergeObjects: bool) returns (ok: bool)
      modifies this
      ensures UpdateOutcome(old(root), j, mergeObjects) == if ok then Updated(root) else TypeError(root)
      decreases j, 0
    {
      hide UpdateOutcome, UpdateMembers, Updating, SortedKeys;
      ghost var goal := UpdateOutcome(root, j, mergeObjects);
      UpdateBegins(root, j, mergeObjects);
      if root.Null? { root := Obj(map[]); }
      if !root.Obj? || !j.Obj? { return false; }
      var ks, i := SortedKeys(j.members.Keys), 0;
      while i < |ks|
        invariant 0 <= i <= |ks| && root.Obj? && Updating(root.members, j, ks, i, mergeObjects, goal)
      {
        UpdateRound(root.members, j, ks, i, mergeObjects, goal);
        var k := ks[i];
        var v := j.members[k];
        if mergeObjects && v.Obj? && k in root.members {
          var member;
          ok, member := UpdateMember(root.members[k], v);
          root := Obj(root.members[k := member]);
          if !ok { return; }
        } else {
          root := Obj(root.members[k := v]);
        }
        i := i + 1;
      }
      UpdateEnds(root.members, j, ks, mergeObjects, goal);
      ok := true;
    }

    /** The recursive call for a member that is there already. */
    static method UpdateMember(member: Json, j: Json) returns (ok: bool, updated: Json)
      ensures UpdateOutcome(member, j, true) == if ok then Updated(updated) else TypeError(updated)
      decreases j, 1
    {
      hide UpdateOutcome;
      var nested := new Document(member);
      ok := nested.Update(j, true);
      updated := nested.root;
    }
  }

  lemma RunPrefix(doc: Json, ops: seq<Json>, i: nat)
    requires i < |ops|
    ensures Run(doc, ops[..i + 1])
            == if Run(doc, ops[..i]).Done? then ApplyOp(Run(doc, ops[..i]).doc, ops[i]) else Run(doc, ops[..i])
    ensures !Run(doc, ops[..i + 1]).Done? ==> Run(doc, ops) == Run(doc, ops[..i + 1])
  {
    hide ApplyOp;
    assert ops[..i + 1] == ops[..i] + [ops[i]];
    assert ops == ops[..i + 1] + ops[i + 1..];
    RunSnoc(doc, ops[..i], ops[i]);
    RunAppend(doc, ops[..i + 1], ops[i + 1..]);
  }

  /** The members after the merge has treated the keys in `done`. */
  function MergedMembers(m: map<string, Json>, p: map<string, Json>, done: set<string>): map<string, Json>
    requires done <= p.Keys
  {
    map k | k in m.Keys + done && (k in done ==> !p[k].Null?) ::
      if k in done then MergePatched(MemberOrNull(m, k), p[k]) else m[k]
  }

  lemma MergeStep(m: map<string, Json>, p: map<string, Json>, done: set<string>, k: string)
    requires done <= p.Keys && k in p && k !in done
    ensures var before := MergedMembers(m, p, done);
            && MemberOrNull(before, k) == MemberOrNull(m, k)
            && MergedMembers(m, p, done + {k})
               == if p[k].Null? then before - {k} else before[k := MergePatched(MemberOrNull(before, k), p[k])]
  {
  }

  lemma MergeAll(target: Json, patch: Json)
    requires patch.Obj?
    ensures MergePatched(target, patch) == Obj(MergedMembers(MembersOrNone(target), patch.members, patch.members.Keys))
  {
    assert MergePatched(target, patch).members
           == MergedMembers(MembersOrNone(target), patch.members, patch.members.Keys);
  }

  /** The members from the i-th key on are still to be updated. */
  ghost predicate Updating(m: map<string, Json>, j: Json, ks: seq<string>, i: nat, mergeObjects: bool, goal: UpdateEnd)
    requires j.Obj? && i <= |ks|
  {
    (forall k | k in ks :: k in j.members) && UpdateMembers(m, j, ks[i..], mergeObjects) == goal
  }

  lemma UpdateBegins(target: Json, j: Json, mergeObjects: bool)
    ensures var t := if target.Null? then Obj(map[]) else target;
            if t.Obj? && j.Obj? then
              Updating(t.members, j, SortedKeys(j.members.Keys), 0, mergeObjects, UpdateOutcome(target, j, mergeObjects))
            else UpdateOutcome(target, j, mergeObjects) == TypeError(t)
  {
    hide UpdateMembers;
    if j.Obj? {
      var ks := SortedKeys(j.members.Keys);
      assert ks[0..] == ks;
    }
  }

  lemma UpdateRound(m: map<string, Json>, j: Json, ks: seq<string>, i: nat, mergeObjects: bool, goal: UpdateEnd)
    requires j.Obj? && i < |ks| && Updating(m, j, ks, i, mergeObjects, goal)
    ensures ks[i] in j.members && j.members[ks[i]] < j
    ensures var k := ks[i];
            var v := j.members[k];
            if mergeObjects && v.Obj? && k in m then
              match UpdateOutcome(m[k], v, true)
              case Updated(c) => Updating(m[k := c], j, ks, i + 1, mergeObjects, goal)
              case TypeError(c) => goal == TypeError(Obj(m[k := c]))
            else Updating(m[k := v], j, ks, i + 1, mergeObjects, goal)
  {
    assert ks[i..][0] == ks[i] && ks[i..][1..] == ks[i + 1..];
  }

  lemma UpdateEnds(m: map<string, Json>, j: Json, ks: seq<string>, mergeObjects: bool, goal: UpdateEnd)
    requires j.Obj? && Updating(m, j, ks, |ks|, mergeObjects, goal)
    ensures goal == Updated(Obj(m))
  {
    assert ks[|ks|..] == [];
  }
}

/** JSON Merge Patch (RFC 7396) and the recursive `update`, and how the two relate. */
module JsonMerge {
  import opened Json

  // ---------- merge patch ----------

  function MembersOrNone(j: Json): map<string, Json> {
    if j.Obj? then j.members else map[]
  }

  /** `operator[]` of an object as a value: a missing member starts as null. */
  function MemberOrNull(m: map<string, Json>, k: string): Json {
    if k in m then m[k] else Null
  }

  /** MergePatch of section 2 of RFC 7396. */
  function MergePatched(target: Json, patch: Json): Json
    decreases patch
  {
    if !patch.Obj? then patch
    else
      var m, p := MembersOrNone(target), patch.members;
      Obj(map k | k in m.Keys + p.Keys && (k in p ==> !p[k].Null?) ::
            if k in p then MergePatched(MemberOrNull(m, k), p[k]) else m[k])
  }

  /** The patch without its null members, looking through objects only. */
  function Stripped(p: Json): Json
    decreases p
  {
    match p
    case Obj(m) => Obj(map k | k in m && !m[k].Null? :: Stripped(m[k]))
    case _ => p
  }

  lemma {:induction false} MergeIntoNonObject(target: Json, patch: Json)
    requires !target.Obj?
    ensures MergePatched(target, patch) == Stripped(patch)
    decreases patch
  {
    if patch.Obj? {
      var p, r := patch.members, MergePatched(target, patch).members;
      forall k | k in r ensures r[k] == Stripped(p[k]) { MergeIntoNonObject(Null, p[k]); }
      assert r == Stripped(patch).members;
    }
  }

  lemma {:induction false} MergeIsIdempotent(target: Json, patch: Json)
    ensures MergePatched(MergePatched(target, patch), patch) == MergePatched(target, patch)
    decreases patch
  {
    if patch.Obj? {
      var m, p := MembersOrNone(target), patch.members;
      var once := MergePatched(target, patch).members;
      var twice := MergePatched(Obj(once), patch).members;
      assert twice.Keys == once.Keys;
      forall k | k in once ensures twice[k] == once[k] {
        if k in p { MergeIsIdempotent(MemberOrNull(m, k), p[k]); }
      }
    }
  }

  // ---------- update ----------

  datatype UpdateEnd = Updated(doc: Json) | TypeError(doc: Json)

  /** `update(j, mergeObjects)`: null becomes an object; otherwise both values must be objects. On an
      error the value keeps what was done so far. */
  function UpdateOutcome(target: Json, j: Json, mergeObjects: bool): UpdateEnd
    decreases j
  {
    var t := if target.Null? then Obj(map[]) else target;
    if !t.Obj? || !j.Obj? then TypeError(t)
    else UpdateMembers(t.members, j, SortedKeys(j.members.Keys), mergeObjects)
  }

  function UpdateMembers(m: map<string, Json>, j: Json, ks: seq<string>, mergeObjects: bool): UpdateEnd
    requires j.Obj? && forall k | k in ks :: k in j.members
    decreases j, |ks|
  {
    if ks == [] then Updated(Obj(m))
    else
      var k := ks[0];
      var v := j.members[k];
      if mergeObjects && v.Obj? && k in m then
        match UpdateOutcome(m[k], v, true)
        case Updated(c) => UpdateMembers(m[k := c], j, ks[1..], mergeObjects)
        case TypeError(c) => TypeError(Obj(m[k := c]))
      else UpdateMembers(m[k := v], j, ks[1..], mergeObjects)
  }

  /** Where an object meets an existing member, that member must be null or an object. */
  predicate UpdateFits(target: Json, j: Json)
    decreases j
  {
    && (target.Null? || target.Obj?) && j.Obj?
    && forall k | k in j.members.Keys ::
         j.members[k].Obj? && k in MembersOrNone(target) ==> UpdateFits(MembersOrNone(target)[k], j.members[k])
  }

  /** The value after a recursive update that meets no type error. */
  function UpdatedValue(target: Json, j: Json): Json
    decreases j
  {
    if !j.Obj? then target
    else
      var m, n := MembersOrNone(target), j.members;
      Obj(map k | k in m.Keys + n.Keys :: NewMember(m, j, k))
  }

  function NewMember(m: map<string, Json>, j: Json, k: string): Json
    requires j.Obj? && (k in m || k in j.members)
    decreases j, 0
  {
    if k !in j.members then m[k]
    else if j.members[k].Obj? && k in m then UpdatedValue(m[k], j.members[k])
    else j.members[k]
  }

  /** The members `ks` of the update meet no type error. */
  predicate MembersFit(m: map<string, Json>, j: Json, ks: seq<string>)
    requires j.Obj? && forall k | k in ks :: k in j.members
  {
    forall k | k in ks :: j.members[k].Obj? && k in m ==> UpdateFits(m[k], j.members[k])
  }

  /** `r` is `m` with the members `ks` updated. */
  ghost predicate IsUpdated(r: map<string, Json>, m: map<string, Json>, j: Json, ks: seq<string>)
    requires j.Obj? && forall k | k in ks :: k in j.members
  {
    && (forall k :: k in r <==> k in m || k in ks)
    && (forall k | k in r :: r[k] == if k in ks then NewMember(m, j, k) else m[k])
  }

  lemma TailKeys(ks: seq<string>)
    requires ks != [] && Distinct(ks)
    ensures Distinct(ks[1..]) && ks[0] !in ks[1..] && forall k :: k in ks <==> k == ks[0] || k in ks[1..]
  {
  }

  /** One round of the loop that updates the member `k`. */
  lemma UpdateStep(r: map<string, Json>, m: map<string, Json>, j: Json, ks: seq<string>)
    requires j.Obj? && ks != [] && Distinct(ks) && forall k | k in ks :: k in j.members
    requires IsUpdated(r, m[ks[0] := NewMember(m, j, ks[0])], j, ks[1..])
    ensures IsUpdated(r, m, j, ks)
  {
    TailKeys(ks);
  }

  lemma FitStep(m: map<string, Json>, j: Json, ks: seq<string>, v: Json)
    requires j.Obj? && ks != [] && Distinct(ks) && forall k | k in ks :: k in j.members
    ensures MembersFit(m, j, ks) <==>
            (j.members[ks[0]].Obj? && ks[0] in m ==> UpdateFits(m[ks[0]], j.members[ks[0]]))
            && MembersFit(m[ks[0] := v], j, ks[1..])
  {
    TailKeys(ks);
  }

  lemma {:induction false} UpdateMembersMeaning(m: map<string, Json>, j: Json, ks: seq<string>)
    requires j.Obj? && Distinct(ks) && forall k | k in ks :: k in j.members
    ensures var end := UpdateMembers(m, j, ks, true);
            if MembersFit(m, j, ks) then end.Updated? && end.doc.Obj? && IsUpdated(end.doc.members, m, j, ks)
            else end.TypeError?
    decreases j, 0, |ks|
  {
    if ks != [] {
      hide IsUpdated, MembersFit;
      var k, v := ks[0], NewMember(m, j, ks[0]);
      TailKeys(ks);
      FitStep(m, j, ks, v);
      if j.members[k].Obj? && k in m { UpdateMeaning(m[k], j.members[k]); }
      if j.members[k].Obj? && k in m ==> UpdateFits(m[k], j.members[k]) {
        UpdateMembersMeaning(m[k := v], j, ks[1..]);
        var end := UpdateMembers(m[k := v], j, ks[1..], true);
        if end.Updated? { UpdateStep(end.doc.members, m, j, ks); }
      }
    }
  }

  /** The update of the key `ks[i]` is the first that meets a type error. */
  ghost predicate StopsAt(m: map<string, Json>, j: Json, ks: seq<string>, i: nat)
    requires j.Obj? && (forall k | k in ks :: k in j.members) && i < |ks|
  {
    && MembersFit(m, j, ks[..i])
    && ks[i] in m && j.members[ks[i]].Obj? && !UpdateFits(m[ks[i]], j.members[ks[i]])
  }

  lemma StopsLater(m: map<string, Json>, j: Json, ks: seq<string>, v: Json, i: nat)
    requires j.Obj? && Distinct(ks) && (forall k | k in ks :: k in j.members) && i + 1 < |ks|
    requires j.members[ks[0]].Obj? && ks[0] in m ==> UpdateFits(m[ks[0]], j.members[ks[0]])
    requires StopsAt(m[ks[0] := v], j, ks[1..], i)
    ensures StopsAt(m, j, ks, i + 1) && ks[1..][i] == ks[i + 1]
    ensures m[ks[0] := v][ks[i + 1]] == m[ks[i + 1]]
  {
    TailKeys(ks);
    assert ks[..i + 1] == [ks[0]] + ks[1..][..i];
    forall k | k in ks[..i + 1] ensures j.members[k].Obj? && k in m ==> UpdateFits(m[k], j.members[k]) {
      if k != ks[0] { assert k in ks[1..][..i]; }
    }
  }

  ghost predicate LeftAt(end: UpdateEnd, m: map<string, Json>, j: Json, ks: seq<string>, i: nat)
    requires j.Obj? && (forall k | k in ks :: k in j.members) && i < |ks| && StopsAt(m, j, ks, i)
  {
    var k := ks[i];
    && end.TypeError? && end.doc.Obj? && k in end.doc.members
    && end.doc.members[k] == UpdateOutcome(m[k], j.members[k], true).doc
    && IsUpdated(end.doc.members[k := m[k]], m, j, ks[..i])
  }

  lemma FirstKeyFails(m: map<string, Json>, j: Json, ks: seq<string>)
    requires j.Obj? && (forall k | k in ks :: k in j.members) && ks != []
    requires ks[0] in m && j.members[ks[0]].Obj? && !UpdateFits(m[ks[0]], j.members[ks[0]])
    ensures StopsAt(m, j, ks, 0) && LeftAt(UpdateMembers(m, j, ks, true), m, j, ks, 0)
  {
    var k := ks[0];
    assert ks[..0] == [];
    UpdateMeaning(m[k], j.members[k]);
    hide UpdateFits;
    var c := UpdateOutcome(m[k], j.members[k], true).doc;
    assert m[k := c][k := m[k]] == m;
  }

  /** A type error leaves the members before the failing key updated, the failing member as far as its own
      update came, and the rest as they were. */
  lemma {:induction false} TypeErrorLeaves(m: map<string, Json>, j: Json, ks: seq<string>) returns (i: nat)
    requires j.Obj? && Distinct(ks) && (forall k | k in ks :: k in j.members) && !MembersFit(m, j, ks)
    ensures i < |ks| && StopsAt(m, j, ks, i) && LeftAt(UpdateMembers(m, j, ks, true), m, j, ks, i)
    decreases |ks|
  {
    TailKeys(ks);
    FitStep(m, j, ks, NewMember(m, j, ks[0]));
    hide UpdateMembers, MembersFit, UpdateFits, NewMember, StopsAt, LeftAt;
    if j.members[ks[0]].Obj? && ks[0] in m && !UpdateFits(m[ks[0]], j.members[ks[0]]) {
      i := 0;
      FirstKeyFails(m, j, ks);
    } else {
      var later := TypeErrorLeaves(m[ks[0] := NewMember(m, j, ks[0])], j, ks[1..]);
      i := later + 1;
      LeftLater(m, j, ks, later);
    }
  }

  lemma LeftLater(m: map<string, Json>, j: Json, ks: seq<string>, later: nat)
    requires j.Obj? && Distinct(ks) && (forall k | k in ks :: k in j.members) && later + 1 < |ks|
    requires j.members[ks[0]].Obj? && ks[0] in m ==> UpdateFits(m[ks[0]], j.members[ks[0]])
    requires var longer := m[ks[0] := NewMember(m, j, ks[0])];
             StopsAt(longer, j, ks[1..], later) && LeftAt(UpdateMembers(longer, j, ks[1..], true), longer, j, ks[1..], later)
    ensures StopsAt(m, j, ks, later + 1) && LeftAt(UpdateMembers(m, j, ks, true), m, j, ks, later + 1)
  {
    hide UpdateMembers, MembersFit, UpdateFits, NewMember, IsUpdated, UpdateOutcome;
    StopsLater(m, j, ks, NewMember(m, j, ks[0]), later);
    TypeErrorStep(m, j, ks, later);
  }

  lemma TypeErrorStep(m: map<string, Json>, j: Json, ks: seq<string>, later: nat)
    requires j.Obj? && Distinct(ks) && (forall k | k in ks :: k in j.members) && later + 1 < |ks|
    requires j.members[ks[0]].Obj? && ks[0] in m ==> UpdateFits(m[ks[0]], j.members[ks[0]])
    requires var longer := m[ks[0] := NewMember(m, j, ks[0])];
             var end, k := UpdateMembers(longer, j, ks[1..], true), ks[later + 1];
             && k in m && longer[k] == m[k] && end.TypeError? && end.doc.Obj?
             && IsUpdated(end.doc.members[k := m[k]], longer, j, ks[1..][..later])
    ensures var end, k := UpdateMembers(m, j, ks, true), ks[later + 1];
            && end == UpdateMembers(m[ks[0] := NewMember(m, j, ks[0])], j, ks[1..], true)
            && IsUpdated(end.doc.members[k := m[k]], m, j, ks[..later + 1])
  {
    var k0, front := ks[0], ks[..later + 1];
    assert front[0] == k0 && front[1..] == ks[1..][..later];
    if j.members[k0].Obj? && k0 in m { UpdateMeaning(m[k0], j.members[k0]); }
    var end := UpdateMembers(m, j, ks, true);
    assert end == UpdateMembers(m[k0 := NewMember(m, j, k0)], j, ks[1..], true);
    hide UpdateMembers, IsUpdated, NewMember;
    UpdateStep(end.doc.members[ks[later + 1] := m[ks[later + 1]]], m, j, front);
  }

  lemma KeysOfUpdate(j: Json)
    requires j.Obj?
    ensures var ks := SortedKeys(j.members.Keys); Distinct(ks) && forall k :: k in ks <==> k in j.members
  {
    SortedKeysDistinct(j.members.Keys);
  }

  lemma WholeUpdate(r: map<string, Json>, target: Json, j: Json, ks: seq<string>)
    requires j.Obj? && (forall k :: k in ks <==> k in j.members) && IsUpdated(r, MembersOrNone(target), j, ks)
    ensures UpdatedValue(target, j) == Obj(r)
  {
    assert UpdatedValue(target, j).members == r;
  }

  /** The recursive update completes exactly when objects meet only objects and nulls, and then has
      the value that the order of the keys does not show in. */
  lemma {:induction false} UpdateMeaning(target: Json, j: Json)
    ensures UpdateOutcome(target, j, true)
            == if UpdateFits(target, j) then Updated(UpdatedValue(target, j))
               else TypeError(UpdateOutcome(target, j, true).doc)
    decreases j, 1
  {
    if (target.Null? || target.Obj?) && j.Obj? {
      hide UpdateMembers, IsUpdated, UpdatedValue, SortedKeys;
      var m, ks := MembersOrNone(target), SortedKeys(j.members.Keys);
      KeysOfUpdate(j);
      UpdateMembersMeaning(m, j, ks);
      assert MembersFit(m, j, ks) <==> UpdateFits(target, j);
      var end := UpdateMembers(m, j, ks, true);
      if end.Updated? { WholeUpdate(end.doc.members, target, j, ks); }
    }
  }

  ghost predicate IsUnion(r: map<string, Json>, m: map<string, Json>, n: map<string, Json>, ks: seq<string>)
    requires forall k | k in ks :: k in n
  {
    && (forall k :: k in r <==> k in m || k in ks)
    && (forall k | k in r :: r[k] == if k in ks then n[k] else m[k])
  }

  lemma UnionStep(r: map<string, Json>, m: map<string, Json>, n: map<string, Json>, ks: seq<string>)
    requires ks != [] && (forall k | k in ks :: k in n) && IsUnion(r, m[ks[0] := n[ks[0]]], n, ks[1..])
    ensures IsUnion(r, m, n, ks)
  {
    assert forall k :: k in ks <==> k == ks[0] || k in ks[1..];
  }

  lemma {:induction false} ShallowMembers(m: map<string, Json>, j: Json, ks: seq<string>)
    requires j.Obj? && forall k | k in ks :: k in j.members
    ensures var end := UpdateMembers(m, j, ks, false);
            end.Updated? && end.doc.Obj? && IsUnion(end.doc.members, m, j.members, ks)
    decreases |ks|
  {
    if ks != [] {
      var longer := m[ks[0] := j.members[ks[0]]];
      ShallowMembers(longer, j, ks[1..]);
      UnionStep(UpdateMembers(longer, j, ks[1..], false).doc.members, m, j.members, ks);
    }
  }

  lemma UnionIsPlus(r: map<string, Json>, m: map<string, Json>, n: map<string, Json>, ks: seq<string>)
    requires (forall k :: k in ks <==> k in n) && IsUnion(r, m, n, ks)
    ensures r == m + n
  {
    assert r.Keys == (m + n).Keys;
  }

  /** Without the recursive flag, update is the union of the members in which those of `j` win, whatever
      they are. */
  lemma ShallowUpdate(target: Json, j: Json)
    ensures UpdateOutcome(target, j, false)
            == if (target.Null? || target.Obj?) && j.Obj? then Updated(Obj(MembersOrNone(target) + j.members))
               else TypeError(if target.Null? then Obj(map[]) else target)
  {
    if (target.Null? || target.Obj?) && j.Obj? {
      var m, ks := MembersOrNone(target), SortedKeys(j.members.Keys);
      ShallowMembers(m, j, ks);
      hide UpdateMembers, SortedKeys, IsUnion;
      UnionIsPlus(UpdateMembers(m, j, ks, false).doc.members, m, j.members, ks);
    }
  }

  // ---------- update against merge patch ----------

  predicate NoNullMember(j: Json)
    decreases j
  {
    j.Obj? ==> forall k | k in j.members.Keys :: !j.members[k].Null? && NoNullMember(j.members[k])
  }

  lemma {:induction false} StrippedIsSame(j: Json)
    ensures Stripped(j) == j <==> NoNullMember(j)
    decreases j
  {
    if j.Obj? {
      var m, r := j.members, Stripped(j).members;
      forall k | k in m ensures !m[k].Null? ==> (r[k] == m[k] <==> NoNullMember(m[k])) { StrippedIsSame(m[k]); }
      if NoNullMember(j) { assert r == m; }
      if r == m { forall k | k in m.Keys ensures !m[k].Null? && NoNullMember(m[k]) { assert k in r; } }
    }
  }

  /** Whenever the recursive update completes, its result is that of the merge patch exactly when the
      update holds no null member reachable through objects. */
  lemma UpdateIsMergeExactlyWithoutNulls(target: Json, j: Json)
    requires UpdateOutcome(target, j, true).Updated?
    ensures UpdateOutcome(target, j, true).doc == MergePatched(target, j) <==> NoNullMember(j)
  {
    UpdateMeaning(target, j);
    ValuesAgree(target, j);
  }

  lemma {:induction false} ValuesAgree(target: Json, j: Json)
    requires UpdateFits(target, j)
    ensures UpdatedValue(target, j) == MergePatched(target, j) <==> NoNullMember(j)
    decreases j
  {
    var m, n := MembersOrNone(target), j.members;
    var u, r := UpdatedValue(target, j).members, MergePatched(target, j).members;
    forall k | k in n && !n[k].Null? ensures k in r && (u[k] == r[k] <==> NoNullMember(n[k])) {
      assert u[k] == NewMember(m, j, k) && r[k] == MergePatched(MemberOrNull(m, k), n[k]);
      if n[k].Obj? && k in m {
        ValuesAgree(m[k], n[k]);
      } else if n[k].Obj? {
        MergeIntoNonObject(Null, n[k]);
        StrippedIsSame(n[k]);
      }
    }
    if NoNullMember(j) {
      assert u.Keys == r.Keys;
      forall k | k in u ensures u[k] == r[k] {
        assert u[k] == NewMember(m, j, k);
        if k in n { assert !n[k].Null? && NoNullMember(n[k]); }
      }
      assert u == r;
    }
    if u == r {
      forall k | k in n.Keys ensures !n[k].Null? && NoNullMember(n[k]) { assert k in u && k in r; }
    }
  }
}

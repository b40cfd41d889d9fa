/** The patch made by `diff` turns the source into the target, whatever document holds the source. */
module JsonDiffCorrect {
  import opened Wrappers
  import opened Json
  import opened JsonPointer
  import opened JsonOrder
  import opened JsonPatch
  import opened JsonDiff

  /** What the patch makes of the source: the target, except that a part of the source that compares
      equal to its counterpart stays as it is. */
  function Merged(s: Json, t: Json): Json
    decreases s
  {
    if Eq(s, t) then s
    else
      match (s, t)
      case (Arr(xs), Arr(ys)) =>
        Arr(seq(|ys|, i requires 0 <= i < |ys| => if i < |xs| then Merged(xs[i], ys[i]) else ys[i]))
      case (Obj(m), Obj(n)) => Obj(map k | k in n :: if k in m then Merged(m[k], n[k]) else n[k])
      case _ => t
  }

  // ---------- single operations below a location ----------

  /** `p` is the location that the text `path` denotes, and it exists. */
  predicate Locates(doc: Json, path: string, p: seq<string>) {
    ParsePointer(path) == Some(p) && At(doc, p).Some?
  }

  lemma IndexPathIsKeyPath(path: string, i: nat)
    ensures IndexPath(path, i) == KeyPath(path, ToString(i))
  {
    ToStringDigits(i);
    EscapeOfDigits(ToString(i));
  }

  lemma DecodeRemove(path: string, p: seq<string>)
    requires ParsePointer(path) == Some(p)
    ensures Decode(RemoveOp(path)) == Remove(p)
  {
    hide ParsePointer;
    assert StringMember(RemoveOp(path), "op") == Some("remove");
    assert PointerMember(RemoveOp(path), "path") == Some(p);
  }

  lemma DecodeAdd(path: string, p: seq<string>, v: Json)
    requires ParsePointer(path) == Some(p)
    ensures Decode(AddOp(path, v)) == Add(p, v)
  {
    hide ParsePointer;
    assert StringMember(AddOp(path, v), "op") == Some("add");
    assert PointerMember(AddOp(path, v), "path") == Some(p);
  }

  lemma DecodeReplace(path: string, p: seq<string>, v: Json)
    requires ParsePointer(path) == Some(p)
    ensures Decode(ReplaceOp(path, v)) == Replace(p, v)
  {
    hide ParsePointer;
    assert StringMember(ReplaceOp(path, v), "op") == Some("replace");
    assert PointerMember(ReplaceOp(path, v), "path") == Some(p);
  }

  lemma ChildPath(doc: Json, path: string, p: seq<string>, parent: Json, token: string)
    requires Locates(doc, path, p)
    ensures ParsePointer(KeyPath(path, token)) == Some(p + [token])
    ensures Front(p + [token]) == p && Back(p + [token]) == token
    ensures At(Put(doc, p, parent), p) == Some(parent)
  {
    ParseChild(path, token);
    AtPut(doc, p, parent);
    assert (p + [token])[..|p|] == p;
  }

  lemma RemoveBelow(doc: Json, path: string, p: seq<string>, parent: Json, token: string)
    requires Locates(doc, path, p) && RemoveChild(parent, token).Done?
    ensures ApplyOp(Put(doc, p, parent), RemoveOp(KeyPath(path, token)))
            == Done(Put(doc, p, RemoveChild(parent, token).doc))
  {
    ChildPath(doc, path, p, parent, token);
    hide Decode, ParsePointer, KeyPath, RemoveOp, Front, Back;
    DecodeRemove(KeyPath(path, token), p + [token]);
    PutTwice(doc, p, parent, RemoveChild(parent, token).doc);
  }

  lemma AddBelow(doc: Json, path: string, p: seq<string>, parent: Json, token: string, v: Json)
    requires Locates(doc, path, p) && AddChild(parent, token, v).Done?
    ensures ApplyOp(Put(doc, p, parent), AddOp(KeyPath(path, token), v))
            == Done(Put(doc, p, AddChild(parent, token, v).doc))
  {
    ChildPath(doc, path, p, parent, token);
    hide Decode, ParsePointer, KeyPath, AddOp, OpAdd, Front, Back;
    DecodeAdd(KeyPath(path, token), p + [token], v);
    OpAddWithin(Put(doc, p, parent), p + [token], v);
    PutTwice(doc, p, parent, AddChild(parent, token, v).doc);
  }

  lemma ReplaceAt(doc: Json, path: string, p: seq<string>, v: Json)
    requires Locates(doc, path, p)
    ensures Run(doc, [ReplaceOp(path, v)]) == Done(Put(doc, p, v))
  {
    hide Decode, ParsePointer, ReplaceOp;
    DecodeReplace(path, p, v);
    assert [ReplaceOp(path, v)][1..] == [];
  }

  // ---------- the theorem ----------

  /** Run on any document whose value at `p` is the source, the patch made for `p` succeeds and
      changes the value at `p` only. */
  lemma {:induction false} DiffApplies(doc: Json, path: string, p: seq<string>, s: Json, t: Json)
    requires Locates(doc, path, p) && At(doc, p) == Some(s)
    ensures Run(doc, DiffOps(s, t, path)) == Done(Put(doc, p, Merged(s, t)))
    decreases s, 2
  {
    hide ApplyOp;
    if Eq(s, t) {
      PutSame(doc, p);
    } else {
      match (s, t)
      case (Arr(xs), Arr(ys)) => ArrayDiffApplies(doc, path, p, xs, ys);
      case (Obj(_), Obj(_)) => ObjectDiffApplies(doc, path, p, s, t);
      case _ => ReplaceAt(doc, path, p, t);
    }
  }

  /** One step of a first pass: the recursive patch for the child `token` of the value at `p`. */
  lemma {:induction false} ChildDiffApplies(doc: Json, path: string, p: seq<string>, parent: Json, token: string,
                                            s: Json, t: Json)
    requires Locates(doc, path, p) && Child(parent, token) == Some(s)
    ensures Run(Put(doc, p, parent), DiffOps(s, t, KeyPath(path, token)))
            == Done(Put(doc, p, SetChild(parent, token, Merged(s, t))))
    decreases s, 3
  {
    ParseChild(path, token);
    PutChild(doc, p, parent, token, Merged(s, t));
    DiffApplies(Put(doc, p, parent), KeyPath(path, token), p + [token], s, t);
  }

  // ---------- arrays ----------

  /** The array after the first `n` rounds of the first pass. */
  function HalfMerged(xs: seq<Json>, ys: seq<Json>, n: nat): seq<Json>
    requires n <= |xs| && n <= |ys|
  {
    seq(|xs|, i requires 0 <= i < |xs| => if i < n then Merged(xs[i], ys[i]) else xs[i])
  }

  lemma IndexChild(xs: seq<Json>, i: nat, v: Json)
    requires i < |xs|
    ensures Child(Arr(xs), ToString(i)) == Some(xs[i]) && SetChild(Arr(xs), ToString(i), v) == Arr(xs[i := v])
  {
    IndexOfToString(i);
  }

  lemma {:induction false} CommonItemsApply(doc: Json, path: string, p: seq<string>, xs: seq<Json>, ys: seq<Json>, n: nat)
    requires Locates(doc, path, p) && At(doc, p) == Some(Arr(xs)) && n <= |xs| && n <= |ys|
    ensures Run(doc, CommonItems(xs, ys, n, path)) == Done(Put(doc, p, Arr(HalfMerged(xs, ys, n))))
    decreases xs, n
  {
    hide ApplyOp, Merged, DiffOps, Locates, Child, SetChild, ToString, IndexPath, KeyPath;
    if n == 0 {
      assert HalfMerged(xs, ys, 0) == xs;
      PutSame(doc, p);
    } else {
      CommonItemsApply(doc, path, p, xs, ys, n - 1);
      var before := HalfMerged(xs, ys, n - 1);
      IndexPathIsKeyPath(path, n - 1);
      IndexChild(before, n - 1, Merged(xs[n - 1], ys[n - 1]));
      ChildDiffApplies(doc, path, p, Arr(before), ToString(n - 1), xs[n - 1], ys[n - 1]);
      var after := before[n - 1 := Merged(xs[n - 1], ys[n - 1])];
      assert after == HalfMerged(xs, ys, n);
      RunBoth(doc, CommonItems(xs, ys, n - 1, path), Put(doc, p, Arr(before)),
              DiffOps(xs[n - 1], ys[n - 1], IndexPath(path, n - 1)), Done(Put(doc, p, Arr(after))));
    }
  }

  lemma {:induction false} RemovalsApply(doc: Json, path: string, p: seq<string>, zs: seq<Json>, lo: nat)
    requires Locates(doc, path, p) && lo <= |zs|
    ensures Run(Put(doc, p, Arr(zs)), Removals(lo, |zs|, path)) == Done(Put(doc, p, Arr(zs[..lo])))
    decreases |zs|
  {
    hide ApplyOp;
    if lo == |zs| {
      assert zs[..lo] == zs;
    } else {
      var last := |zs| - 1;
      IndexOfToString(last);
      IndexPathIsKeyPath(path, last);
      assert EraseAt(zs, last) == zs[..last];
      RemoveBelow(doc, path, p, Arr(zs), ToString(last));
      RemovalsApply(doc, path, p, zs[..last], lo);
      assert zs[..last][..lo] == zs[..lo];
      assert Removals(lo, |zs|, path)[1..] == Removals(lo, last, path);
    }
  }

  lemma DashPath(path: string)
    ensures AppendPath(path) == KeyPath(path, "-")
  {
    assert Escape("-") == ['-'] + Escape("") == "-";
    assert path + "/" + "-" == path + "/-";
  }

  lemma AppendsLast(ys: seq<Json>, path: string)
    ensures ys == [] ==> Appends(ys, path) == []
    ensures ys != [] ==>
            Appends(ys, path) == Appends(ys[..|ys| - 1], path) + [AddOp(AppendPath(path), ys[|ys| - 1])]
  {
  }

  lemma {:induction false} AppendsApply(doc: Json, path: string, p: seq<string>, zs: seq<Json>, ys: seq<Json>)
    requires Locates(doc, path, p)
    ensures Run(Put(doc, p, Arr(zs)), Appends(ys, path)) == Done(Put(doc, p, Arr(zs + ys)))
    decreases |ys|
  {
    hide ApplyOp, AppendPath, KeyPath, AddOp, Appends, Put, At;
    AppendsLast(ys, path);
    if ys == [] {
      assert zs + ys == zs;
    } else {
      var front, last := ys[..|ys| - 1], ys[|ys| - 1];
      var op := AddOp(AppendPath(path), last);
      AppendsApply(doc, path, p, zs, front);
      DashPath(path);
      AddBelow(doc, path, p, Arr(zs + front), "-", last);
      RunSnoc(Put(doc, p, Arr(zs)), Appends(front, path), op);
      assert zs + front + [last] == zs + ys;
    }
  }

  lemma ArrayIsMerged(xs: seq<Json>, ys: seq<Json>, n: nat)
    requires !Eq(Arr(xs), Arr(ys)) && n == if |xs| < |ys| then |xs| else |ys|
    ensures Arr(HalfMerged(xs, ys, n)[..n] + ys[n..]) == Merged(Arr(xs), Arr(ys))
  {
    var zs := HalfMerged(xs, ys, n)[..n] + ys[n..];
    assert forall i | 0 <= i < |ys| :: zs[i] == if i < |xs| then Merged(xs[i], ys[i]) else ys[i];
  }

  lemma {:induction false} ArrayDiffApplies(doc: Json, path: string, p: seq<string>, xs: seq<Json>, ys: seq<Json>)
    requires Locates(doc, path, p) && At(doc, p) == Some(Arr(xs)) && !Eq(Arr(xs), Arr(ys))
    ensures Run(doc, DiffOps(Arr(xs), Arr(ys), path)) == Done(Put(doc, p, Merged(Arr(xs), Arr(ys))))
    decreases xs, |xs| + 1
  {
    hide ApplyOp;
    var n := if |xs| < |ys| then |xs| else |ys|;
    var common, gone, added := CommonItems(xs, ys, n, path), Removals(n, |xs|, path), Appends(ys[n..], path);
    var half := HalfMerged(xs, ys, n);
    assert DiffOps(Arr(xs), Arr(ys), path) == common + gone + added;
    CommonItemsApply(doc, path, p, xs, ys, n);
    RemovalsApply(doc, path, p, half, n);
    AppendsApply(doc, path, p, half[..n], ys[n..]);
    RunAppend(doc, common, gone);
    RunAppend(doc, common + gone, added);
    ArrayIsMerged(xs, ys, n);
  }

  // ---------- objects ----------

  /** The members after the first `i` rounds of the first pass. */
  function SourceStage(m: map<string, Json>, n: map<string, Json>, ks: seq<string>, i: nat): map<string, Json>
    requires i <= |ks| && KeysIn(ks, m)
  {
    if i == 0 then m
    else
      var before, k := SourceStage(m, n, ks, i - 1), ks[i - 1];
      if k in n then before[k := Merged(m[k], n[k])] else before - {k}
  }

  /** The members after the first `i` rounds of the second pass, which starts from `base`. */
  function NewStage(base: map<string, Json>, m: map<string, Json>, n: map<string, Json>, ls: seq<string>, i: nat)
    : map<string, Json>
    requires i <= |ls| && KeysIn(ls, n)
  {
    if i == 0 then base
    else
      var before, k := NewStage(base, m, n, ls, i - 1), ls[i - 1];
      if k in m then before else before[k := n[k]]
  }

  predicate Among(ks: seq<string>, i: nat, k: string)
    requires i <= |ks|
  {
    exists j :: 0 <= j < i && ks[j] == k
  }

  lemma {:induction false} SourceStageMembers(m: map<string, Json>, n: map<string, Json>, ks: seq<string>, i: nat)
    requires i <= |ks| && KeysIn(ks, m) && Distinct(ks)
    ensures var r := SourceStage(m, n, ks, i);
            && (forall k :: k in r <==> k in m && (Among(ks, i, k) ==> k in n))
            && (forall k | k in r :: r[k] == if Among(ks, i, k) then Merged(m[k], n[k]) else m[k])
  {
    if i > 0 {
      SourceStageMembers(m, n, ks, i - 1);
      forall k ensures Among(ks, i, k) <==> Among(ks, i - 1, k) || k == ks[i - 1] {
        if k == ks[i - 1] { assert ks[i - 1] == k; }
      }
    }
  }

  lemma {:induction false} NewStageMembers(base: map<string, Json>, m: map<string, Json>, n: map<string, Json>,
                                           ls: seq<string>, i: nat)
    requires i <= |ls| && KeysIn(ls, n)
    ensures var r := NewStage(base, m, n, ls, i);
            && (forall k :: k in r <==> k in base || (Among(ls, i, k) && k !in m))
            && (forall k | k in r :: r[k] == if Among(ls, i, k) && k !in m then n[k] else base[k])
  {
    if i > 0 {
      NewStageMembers(base, m, n, ls, i - 1);
      forall k ensures Among(ls, i, k) <==> Among(ls, i - 1, k) || k == ls[i - 1] {
        if k == ls[i - 1] { assert ls[i - 1] == k; }
      }
    }
  }

  lemma {:induction false} SourceMemberApplies(doc: Json, path: string, p: seq<string>, s: Json, t: Json,
                                               before: map<string, Json>, k: string)
    requires s.Obj? && t.Obj? && k in s.members && Locates(doc, path, p)
    requires k in before && before[k] == s.members[k]
    ensures Run(Put(doc, p, Obj(before)), SourceMember(s, t, k, path))
            == Done(Put(doc, p, Obj(if k in t.members then before[k := Merged(s.members[k], t.members[k])]
                                    else before - {k})))
    decreases s, 0, 0
  {
    hide ApplyOp;
    if k in t.members {
      ChildDiffApplies(doc, path, p, Obj(before), k, s.members[k], t.members[k]);
    } else {
      RemoveBelow(doc, path, p, Obj(before), k);
      RunOne(Put(doc, p, Obj(before)), RemoveOp(KeyPath(path, k)));
    }
  }

  lemma {:induction false} SourceMembersApply(doc: Json, path: string, p: seq<string>, s: Json, t: Json,
                                              ks: seq<string>, n: nat)
    requires s.Obj? && t.Obj? && n <= |ks| && Distinct(ks) && KeysIn(ks, s.members)
    requires Locates(doc, path, p) && At(doc, p) == Some(s)
    ensures Run(doc, SourceMembers(s, t, ks, n, path))
            == Done(Put(doc, p, Obj(SourceStage(s.members, t.members, ks, n))))
    decreases s, 0, n
  {
    hide ApplyOp, SourceMember, Locates;
    if n == 0 {
      PutSame(doc, p);
    } else {
      var before := SourceStage(s.members, t.members, ks, n - 1);
      SourceMembersApply(doc, path, p, s, t, ks, n - 1);
      SourceStageMembers(s.members, t.members, ks, n - 1);
      SourceMemberApplies(doc, path, p, s, t, before, ks[n - 1]);
      RunBoth(doc, SourceMembers(s, t, ks, n - 1, path), Put(doc, p, Obj(before)),
              SourceMember(s, t, ks[n - 1], path), Done(Put(doc, p, Obj(SourceStage(s.members, t.members, ks, n)))));
    }
  }

  lemma NewMemberApplies(doc: Json, path: string, p: seq<string>, s: Json, t: Json, before: map<string, Json>, k: string)
    requires s.Obj? && t.Obj? && k in t.members && Locates(doc, path, p)
    ensures Run(Put(doc, p, Obj(before)), NewMember(s, t, k, path))
            == Done(Put(doc, p, Obj(if k in s.members then before else before[k := t.members[k]])))
  {
    hide ApplyOp, ParsePointer, At, KeyPath, AddOp, Put;
    if k !in s.members {
      AddBelow(doc, path, p, Obj(before), k, t.members[k]);
      RunOne(Put(doc, p, Obj(before)), AddOp(KeyPath(path, k), t.members[k]));
    }
  }

  lemma {:induction false} NewMembersApply(doc: Json, path: string, p: seq<string>, base: map<string, Json>,
                                           s: Json, t: Json, ls: seq<string>, n: nat)
    requires s.Obj? && t.Obj? && n <= |ls| && KeysIn(ls, t.members) && Locates(doc, path, p)
    ensures Run(Put(doc, p, Obj(base)), NewMembers(s, t, ls, n, path))
            == Done(Put(doc, p, Obj(NewStage(base, s.members, t.members, ls, n))))
    decreases n
  {
    hide ApplyOp;
    if n > 0 {
      var before, k := NewStage(base, s.members, t.members, ls, n - 1), ls[n - 1];
      NewMembersApply(doc, path, p, base, s, t, ls, n - 1);
      NewMemberApplies(doc, path, p, s, t, before, k);
      RunBoth(Put(doc, p, Obj(base)), NewMembers(s, t, ls, n - 1, path), Put(doc, p, Obj(before)),
              NewMember(s, t, k, path), Done(Put(doc, p, Obj(NewStage(base, s.members, t.members, ls, n)))));
    }
  }

  /** The keys list every member of the object once. */
  predicate Lists(ks: seq<string>, m: map<string, Json>) {
    Distinct(ks) && KeysIn(ks, m) && forall k | k in m :: Among(ks, |ks|, k)
  }

  lemma SortedKeysList(m: map<string, Json>)
    ensures Lists(SortedKeys(m.Keys), m)
  {
    var ks := SortedKeys(m.Keys);
    SortedKeysDistinct(m.Keys);
    forall i | 0 <= i < |ks| ensures ks[i] in m { assert ks[i] in ks; }
    forall k | k in m ensures Among(ks, |ks|, k) { assert k in ks; }
  }

  ghost predicate HasMergedMembers(r: map<string, Json>, m: map<string, Json>, n: map<string, Json>) {
    && r.Keys == n.Keys
    && (forall k | k in n :: r[k] == if k in m then Merged(m[k], n[k]) else n[k])
  }

  lemma StagesMeet(m: map<string, Json>, n: map<string, Json>, ks: seq<string>, ls: seq<string>)
    requires Lists(ks, m) && Lists(ls, n)
    ensures HasMergedMembers(NewStage(SourceStage(m, n, ks, |ks|), m, n, ls, |ls|), m, n)
  {
    var base := SourceStage(m, n, ks, |ks|);
    SourceStageMembers(m, n, ks, |ks|);
    NewStageMembers(base, m, n, ls, |ls|);
    var r := NewStage(base, m, n, ls, |ls|);
    forall k ensures k in r <==> k in n {
      if Among(ls, |ls|, k) { assert k in n; }
    }
    forall k | k in n ensures r[k] == if k in m then Merged(m[k], n[k]) else n[k] {
      if k in m { assert Among(ks, |ks|, k); }
    }
  }

  lemma MergedObjects(s: Json, t: Json, r: map<string, Json>)
    requires s.Obj? && t.Obj? && !Eq(s, t) && HasMergedMembers(r, s.members, t.members)
    ensures Merged(s, t) == Obj(r)
  {
    assert Merged(s, t).members == r;
  }

  lemma ObjectDiffOps(s: Json, t: Json, path: string)
    requires s.Obj? && t.Obj? && !Eq(s, t)
    requires Lists(SortedKeys(s.members.Keys), s.members) && Lists(SortedKeys(t.members.Keys), t.members)
    ensures var ks, ls := SortedKeys(s.members.Keys), SortedKeys(t.members.Keys);
            DiffOps(s, t, path) == SourceMembers(s, t, ks, |ks|, path) + NewMembers(s, t, ls, |ls|, path)
  {
    hide SourceMembers, NewMembers, Lists;
  }

  lemma {:induction false} ObjectDiffApplies(doc: Json, path: string, p: seq<string>, s: Json, t: Json)
    requires s.Obj? && t.Obj? && !Eq(s, t) && Locates(doc, path, p) && At(doc, p) == Some(s)
    ensures Run(doc, DiffOps(s, t, path)) == Done(Put(doc, p, Merged(s, t)))
    decreases s, 1
  {
    SortedKeysList(s.members);
    SortedKeysList(t.members);
    var ks, ls := SortedKeys(s.members.Keys), SortedKeys(t.members.Keys);
    hide *;
    ObjectDiffOps(s, t, path);
    MembersDiffApplies(doc, path, p, s, t, ks, ls);
    StagesMeet(s.members, t.members, ks, ls);
    MergedObjects(s, t, NewStage(SourceStage(s.members, t.members, ks, |ks|), s.members, t.members, ls, |ls|));
  }

  lemma {:induction false} MembersDiffApplies(doc: Json, path: string, p: seq<string>, s: Json, t: Json,
                                              ks: seq<string>, ls: seq<string>)
    requires s.Obj? && t.Obj? && Lists(ks, s.members) && Lists(ls, t.members)
    requires Locates(doc, path, p) && At(doc, p) == Some(s)
    ensures Run(doc, SourceMembers(s, t, ks, |ks|, path) + NewMembers(s, t, ls, |ls|, path))
            == Done(Put(doc, p, Obj(NewStage(SourceStage(s.members, t.members, ks, |ks|),
                                             s.members, t.members, ls, |ls|))))
    decreases s, 0, |ks| + 1
  {
    hide ApplyOp;
    var base := SourceStage(s.members, t.members, ks, |ks|);
    SourceMembersApply(doc, path, p, s, t, ks, |ks|);
    NewMembersApply(doc, path, p, base, s, t, ls, |ls|);
    RunBoth(doc, SourceMembers(s, t, ks, |ks|, path), Put(doc, p, Obj(base)),
            NewMembers(s, t, ls, |ls|, path), Done(Put(doc, p, Obj(NewStage(base, s.members, t.members, ls, |ls|)))));
  }

  // ---------- what the result is ----------

  lemma {:induction false} MergedEqualsTarget(s: Json, t: Json)
    ensures Eq(Merged(s, t), t)
    decreases s
  {
    if !Eq(s, t) {
      EqReflexive(t);
      match (s, t)
      case (Arr(xs), Arr(ys)) =>
        forall i | 0 <= i < |ys| ensures Eq(Merged(s, t).items[i], ys[i]) {
          if i < |xs| { MergedEqualsTarget(xs[i], ys[i]); } else { EqReflexive(ys[i]); }
        }
      case (Obj(m), Obj(n)) =>
        forall k | k in n.Keys ensures Eq(Merged(s, t).members[k], n[k]) {
          if k in m { MergedEqualsTarget(m[k], n[k]); } else { EqReflexive(n[k]); }
        }
      case _ =>
    }
  }

  /** At no common location do the documents hold integers of different kinds that compare equal. */
  predicate NoKindClash(s: Json, t: Json)
    decreases s
  {
    match (s, t)
    case (Int(i), UInt(u)) => i != ToSigned(u)
    case (UInt(u), Int(i)) => ToSigned(u) != i
    case (Arr(xs), Arr(ys)) => forall i | 0 <= i < |xs| && i < |ys| :: NoKindClash(xs[i], ys[i])
    case (Obj(m), Obj(n)) => forall k | k in m.Keys && k in n.Keys :: NoKindClash(m[k], n[k])
    case _ => true
  }

  lemma {:induction false} EqualWithoutClash(s: Json, t: Json)
    requires Eq(s, t)
    ensures s == t <==> NoKindClash(s, t)
    decreases s
  {
    match (s, t)
    case (Arr(xs), Arr(ys)) =>
      forall i | 0 <= i < |xs| ensures xs[i] == ys[i] <==> NoKindClash(xs[i], ys[i]) { EqualWithoutClash(xs[i], ys[i]); }
      assert NoKindClash(s, t) ==> xs == ys;
    case (Obj(m), Obj(n)) =>
      forall k | k in m.Keys ensures m[k] == n[k] <==> NoKindClash(m[k], n[k]) { EqualWithoutClash(m[k], n[k]); }
      assert NoKindClash(s, t) ==> m == n;
    case _ =>
  }

  lemma {:induction false} MergedIsTarget(s: Json, t: Json)
    ensures Merged(s, t) == t <==> NoKindClash(s, t)
    decreases s
  {
    if Eq(s, t) {
      EqualWithoutClash(s, t);
    } else {
      match (s, t)
      case (Arr(xs), Arr(ys)) =>
        var zs := Merged(s, t).items;
        forall i | 0 <= i < |xs| && i < |ys| ensures zs[i] == ys[i] <==> NoKindClash(xs[i], ys[i]) {
          MergedIsTarget(xs[i], ys[i]);
        }
        assert NoKindClash(s, t) ==> zs == ys;
      case (Obj(m), Obj(n)) =>
        var o := Merged(s, t).members;
        forall k | k in m.Keys && k in n.Keys ensures o[k] == n[k] <==> NoKindClash(m[k], n[k]) {
          MergedIsTarget(m[k], n[k]);
        }
        assert NoKindClash(s, t) ==> o == n;
      case _ =>
    }
  }

  // ---------- main results ----------

  /** For all documents, patching the source with the difference succeeds and gives a document equal
      to the target; it is the target itself exactly when no common location clashes in kind. */
  lemma PatchOfDiff(s: Json, t: Json)
    ensures PatchOutcome(s, Arr(DiffOps(s, t, ""))).Done?
    ensures Eq(PatchOutcome(s, Arr(DiffOps(s, t, ""))).doc, t)
    ensures PatchOutcome(s, Arr(DiffOps(s, t, ""))) == Done(t) <==> NoKindClash(s, t)
  {
    DiffApplies(s, "", [], s, t);
    MergedEqualsTarget(s, t);
    MergedIsTarget(s, t);
  }

  /** The patch made for a location changes nothing apart from it. */
  lemma DiffIsLocal(doc: Json, p: seq<string>, s: Json, t: Json, q: seq<string>)
    requires At(doc, p) == Some(s)
    ensures var end := Run(doc, DiffOps(s, t, PrintPointer(p)));
            && end.Done?
            && At(end.doc, p).Some? && Eq(At(end.doc, p).value, t)
            && (Apart(p, q) ==> At(end.doc, q) == At(doc, q))
  {
    ParseAfterPrint(p);
    DiffApplies(doc, PrintPointer(p), p, s, t);
    MergedEqualsTarget(s, t);
    AtPut(doc, p, Merged(s, t));
    if Apart(p, q) { PutElsewhere(doc, p, q, Merged(s, t)); }
  }

  /** Documents made by the parser hold signed integers only when they are negative. */
  predicate Parsed(j: Json)
    decreases j
  {
    match j
    case Int(i) => i < 0
    case Arr(xs) => forall i | 0 <= i < |xs| :: Parsed(xs[i])
    case Obj(m) => forall k | k in m.Keys :: Parsed(m[k])
    case _ => true
  }

  lemma {:induction false} ParsedSmallDoNotClash(s: Json, t: Json)
    requires Parsed(s) && Parsed(t) && Small(s) && Small(t)
    ensures NoKindClash(s, t)
    decreases s
  {
    match (s, t)
    case (Arr(xs), Arr(ys)) =>
      forall i | 0 <= i < |xs| && i < |ys| ensures NoKindClash(xs[i], ys[i]) { ParsedSmallDoNotClash(xs[i], ys[i]); }
    case (Obj(m), Obj(n)) =>
      forall k | k in m.Keys && k in n.Keys ensures NoKindClash(m[k], n[k]) { ParsedSmallDoNotClash(m[k], n[k]); }
    case _ =>
  }

  /** Two different parsed documents with an empty difference: -1 and 2^64 - 1. */
  lemma DiffMissesWrapAround()
    ensures DiffOps(Int(-1), UInt(TWO_64 - 1), "") == [] && !NoKindClash(Int(-1), UInt(TWO_64 - 1))
    ensures Parsed(Int(-1)) && Parsed(UInt(TWO_64 - 1))
  {
    assert ToSigned(TWO_64 - 1) == -1;
  }
}

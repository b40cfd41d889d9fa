/** Where the operations of a difference point: at or below the location it was made for. */
module JsonDiffLocality {
  import opened Wrappers
  import opened Json
  import opened JsonPointer
  import opened JsonOrder
  import opened JsonPatch
  import opened JsonDiff
  import opened JsonDiffCorrect

  /** Where an operation that adds, removes or replaces points. */
  function Target(op: Json): Option<seq<string>> {
    match Decode(op)
    case Add(q, _) => Some(q)
    case Remove(q) => Some(q)
    case Replace(q, _) => Some(q)
    case _ => None
  }

  predicate Below(op: Json, p: seq<string>) { Target(op).Some? && p <= Target(op).value }

  predicate AllBelow(ops: seq<Json>, p: seq<string>) { forall i | 0 <= i < |ops| :: Below(ops[i], p) }

  lemma AllBelowBoth(a: seq<Json>, b: seq<Json>, p: seq<string>)
    requires AllBelow(a, p) && AllBelow(b, p)
    ensures AllBelow(a + b, p)
  {
    hide Below;
  }

  lemma AllBelowParent(ops: seq<Json>, p: seq<string>, token: string)
    requires AllBelow(ops, p + [token])
    ensures AllBelow(ops, p)
  {
    hide Target;
    forall i | 0 <= i < |ops| ensures Below(ops[i], p) {
      assert Below(ops[i], p + [token]);
      assert Target(ops[i]).value[..|p|] == (p + [token])[..|p|] == p;
    }
  }

  lemma OneBelow(path: string, p: seq<string>, token: string, v: Json)
    requires ParsePointer(path) == Some(p)
    ensures Below(RemoveOp(KeyPath(path, token)), p) && Below(AddOp(KeyPath(path, token), v), p)
  {
    ParseChild(path, token);
    hide Decode, ParsePointer, KeyPath, AddOp, RemoveOp;
    DecodeRemove(KeyPath(path, token), p + [token]);
    DecodeAdd(KeyPath(path, token), p + [token], v);
  }

  lemma {:induction false} RemovalsBelow(path: string, p: seq<string>, lo: nat, hi: nat)
    requires ParsePointer(path) == Some(p)
    ensures AllBelow(Removals(lo, hi, path), p)
    decreases hi
  {
    hide Below, ParsePointer;
    if hi > lo {
      RemovalsBelow(path, p, lo, hi - 1);
      IndexPathIsKeyPath(path, hi - 1);
      OneBelow(path, p, ToString(hi - 1), Null);
    }
  }

  lemma AppendsBelow(path: string, p: seq<string>, ys: seq<Json>)
    requires ParsePointer(path) == Some(p)
    ensures AllBelow(Appends(ys, path), p)
  {
    hide Below, ParsePointer, AddOp, AppendPath;
    DashPath(path);
    forall i | 0 <= i < |ys| ensures Below(AddOp(AppendPath(path), ys[i]), p) { OneBelow(path, p, "-", ys[i]); }
  }

  /** Every operation of the difference made for a location points at that location or below it. */
  lemma {:induction false} DiffTargetsBelow(s: Json, t: Json, path: string, p: seq<string>)
    requires ParsePointer(path) == Some(p)
    ensures AllBelow(DiffOps(s, t, path), p)
    decreases s, 2
  {
    hide Below, ParsePointer, SourceMembers, NewMembers, CommonItems, Removals, Appends, SortedKeys;
    if !Eq(s, t) {
      match (s, t)
      case (Arr(xs), Arr(ys)) =>
        var n := if |xs| < |ys| then |xs| else |ys|;
        CommonItemsBelow(xs, ys, n, path, p);
        RemovalsBelow(path, p, n, |xs|);
        AppendsBelow(path, p, ys[n..]);
        AllBelowBoth(CommonItems(xs, ys, n, path), Removals(n, |xs|, path), p);
        AllBelowBoth(CommonItems(xs, ys, n, path) + Removals(n, |xs|, path), Appends(ys[n..], path), p);
      case (Obj(_), Obj(_)) => ObjectDiffBelow(s, t, path, p);
      case _ => ReplaceBelow(path, p, t);
    }
  }

  lemma {:induction false} ObjectDiffBelow(s: Json, t: Json, path: string, p: seq<string>)
    requires s.Obj? && t.Obj? && !Eq(s, t) && ParsePointer(path) == Some(p)
    ensures AllBelow(DiffOps(s, t, path), p)
    decreases s, 1
  {
    SortedKeysList(s.members);
    SortedKeysList(t.members);
    var ks, ls := SortedKeys(s.members.Keys), SortedKeys(t.members.Keys);
    assert KeysIn(ks, s.members) && KeysIn(ls, t.members);
    ObjectDiffOps(s, t, path);
    hide *;
    SourceMembersBelow(s, t, ks, |ks|, path, p);
    NewMembersBelow(s, t, ls, |ls|, path, p);
    AllBelowBoth(SourceMembers(s, t, ks, |ks|, path), NewMembers(s, t, ls, |ls|, path), p);
  }

  lemma ReplaceBelow(path: string, p: seq<string>, v: Json)
    requires ParsePointer(path) == Some(p)
    ensures Below(ReplaceOp(path, v), p)
  {
    hide Decode, ParsePointer, ReplaceOp;
    DecodeReplace(path, p, v);
  }

  lemma {:induction false} ChildDiffBelow(s: Json, t: Json, path: string, p: seq<string>, token: string)
    requires ParsePointer(path) == Some(p)
    ensures AllBelow(DiffOps(s, t, KeyPath(path, token)), p)
    decreases s, 3
  {
    ParseChild(path, token);
    hide Below, ParsePointer, KeyPath, DiffOps;
    DiffTargetsBelow(s, t, KeyPath(path, token), p + [token]);
    AllBelowParent(DiffOps(s, t, KeyPath(path, token)), p, token);
  }

  lemma {:induction false} CommonItemsBelow(xs: seq<Json>, ys: seq<Json>, n: nat, path: string, p: seq<string>)
    requires ParsePointer(path) == Some(p) && n <= |xs| && n <= |ys|
    ensures AllBelow(CommonItems(xs, ys, n, path), p)
    decreases xs, n
  {
    hide Below, ParsePointer, DiffOps;
    if n > 0 {
      CommonItemsBelow(xs, ys, n - 1, path, p);
      IndexPathIsKeyPath(path, n - 1);
      ChildDiffBelow(xs[n - 1], ys[n - 1], path, p, ToString(n - 1));
      AllBelowBoth(CommonItems(xs, ys, n - 1, path), DiffOps(xs[n - 1], ys[n - 1], IndexPath(path, n - 1)), p);
    }
  }

  lemma {:induction false} SourceMembersBelow(s: Json, t: Json, ks: seq<string>, n: nat, path: string, p: seq<string>)
    requires s.Obj? && t.Obj? && n <= |ks| && KeysIn(ks, s.members) && ParsePointer(path) == Some(p)
    ensures AllBelow(SourceMembers(s, t, ks, n, path), p)
    decreases s, 0, n
  {
    hide Below, ParsePointer, DiffOps;
    if n > 0 {
      var k := ks[n - 1];
      SourceMembersBelow(s, t, ks, n - 1, path, p);
      if k in t.members {
        ChildDiffBelow(s.members[k], t.members[k], path, p, k);
      } else {
        OneBelow(path, p, k, Null);
      }
      AllBelowBoth(SourceMembers(s, t, ks, n - 1, path), SourceMember(s, t, k, path), p);
    }
  }

  lemma {:induction false} NewMembersBelow(s: Json, t: Json, ls: seq<string>, n: nat, path: string, p: seq<string>)
    requires s.Obj? && t.Obj? && n <= |ls| && KeysIn(ls, t.members) && ParsePointer(path) == Some(p)
    ensures AllBelow(NewMembers(s, t, ls, n, path), p)
    decreases n
  {
    hide Below, ParsePointer;
    if n > 0 {
      var k := ls[n - 1];
      NewMembersBelow(s, t, ls, n - 1, path, p);
      OneBelow(path, p, k, t.members[k]);
      AllBelowBoth(NewMembers(s, t, ls, n - 1, path), NewMember(s, t, k, path), p);
    }
  }
}

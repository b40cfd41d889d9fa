/** `basic_json::diff`: the patch it emits as a value, and the loops that build it. */
module JsonDiff {
  import opened Json
  import opened JsonPointer
  import opened JsonOrder
  import opened JsonPatch

  // ---------- the patch as a value ----------

  function ReplaceOp(path: string, v: Json): Json {
    Obj(map["op" := Str("replace"), "path" := Str(path), "value" := v])
  }

  function AddOp(path: string, v: Json): Json {
    Obj(map["op" := Str("add"), "path" := Str(path), "value" := v])
  }

  function RemoveOp(path: string): Json {
    Obj(map["op" := Str("remove"), "path" := Str(path)])
  }

  function KeyPath(path: string, key: string): string { path + "/" + Escape(key) }

  function IndexPath(path: string, i: nat): string { path + "/" + ToString(i) }

  function AppendPath(path: string): string { path + "/-" }

  function DiffOps(s: Json, t: Json, path: string): seq<Json>
    decreases s
  {
    if Eq(s, t) then []
    else
      match (s, t)
      case (Arr(xs), Arr(ys)) =>
        var n := if |xs| < |ys| then |xs| else |ys|;
        CommonItems(xs, ys, n, path) + Removals(n, |xs|, path) + Appends(ys[n..], path)
      case (Obj(_), Obj(_)) =>
        var ks, ls := SortedKeys(s.members.Keys), SortedKeys(t.members.Keys);
        SourceMembers(s, t, ks, |ks|, path) + NewMembers(s, t, ls, |ls|, path)
      case _ => [ReplaceOp(path, t)]
  }

  /** First pass over arrays: the elements at the first `n` indices. */
  function CommonItems(xs: seq<Json>, ys: seq<Json>, n: nat, path: string): seq<Json>
    requires n <= |xs| && n <= |ys|
    decreases xs, n
  {
    if n == 0 then []
    else CommonItems(xs, ys, n - 1, path) + DiffOps(xs[n - 1], ys[n - 1], IndexPath(path, n - 1))
  }

  /** The elements `lo` to `hi - 1` are removed from the last to the first. */
  function Removals(lo: nat, hi: nat, path: string): seq<Json>
    decreases hi
  {
    if hi <= lo then [] else [RemoveOp(IndexPath(path, hi - 1))] + Removals(lo, hi - 1, path)
  }

  function Appends(ys: seq<Json>, path: string): seq<Json> {
    seq(|ys|, i requires 0 <= i < |ys| => AddOp(AppendPath(path), ys[i]))
  }

  predicate KeysIn(ks: seq<string>, m: map<string, Json>) { forall i | 0 <= i < |ks| :: ks[i] in m }

  /** First pass over objects: the first `n` members of the source. */
  function SourceMembers(s: Json, t: Json, ks: seq<string>, n: nat, path: string): seq<Json>
    requires s.Obj? && t.Obj? && n <= |ks| && KeysIn(ks, s.members)
    decreases s, n
  {
    if n == 0 then [] else SourceMembers(s, t, ks, n - 1, path) + SourceMember(s, t, ks[n - 1], path)
  }

  function SourceMember(s: Json, t: Json, k: string, path: string): seq<Json>
    requires s.Obj? && t.Obj? && k in s.members
    decreases s, 0
  {
    if k in t.members then DiffOps(s.members[k], t.members[k], KeyPath(path, k)) else [RemoveOp(KeyPath(path, k))]
  }

  /** Second pass over objects: those of the first `n` members of the target that the source lacks. */
  function NewMembers(s: Json, t: Json, ls: seq<string>, n: nat, path: string): seq<Json>
    requires s.Obj? && t.Obj? && n <= |ls| && KeysIn(ls, t.members)
    decreases n
  {
    if n == 0 then [] else NewMembers(s, t, ls, n - 1, path) + NewMember(s, t, ls[n - 1], path)
  }

  function NewMember(s: Json, t: Json, k: string, path: string): seq<Json>
    requires s.Obj? && t.Obj? && k in t.members
  {
    if k in s.members then [] else [AddOp(KeyPath(path, k), t.members[k])]
  }

  /** `diff` with its loops. The removals are inserted at a fixed position, so that the last index
      comes first. */
  method Diff(s: Json, t: Json, path: string) returns (result: seq<Json>)
    ensures result == DiffOps(s, t, path)
    decreases s
  {
    result := [];
    if Eq(s, t) { return; }
    if !SameType(s, t) { return [ReplaceOp(path, t)]; }
    match s {
      case Arr(xs) => result := DiffArrays(xs, t.items, path);
      case Obj(_) => result := DiffObjects(s, t, path);
      case _ => result := [ReplaceOp(path, t)];
    }
  }

  method DiffArrays(xs: seq<Json>, ys: seq<Json>, path: string) returns (result: seq<Json>)
    ensures var n := if |xs| < |ys| then |xs| else |ys|;
            result == CommonItems(xs, ys, n, path) + Removals(n, |xs|, path) + Appends(ys[n..], path)
    decreases xs, |xs| + |ys| + 1
  {
    var common, i := DiffCommonItems(xs, ys, path);
    result := InsertRemovals(common, i, |xs|, path);
    i := if i < |xs| then |xs| else i;
    ghost var shrunk, n := result, if |xs| < |ys| then |xs| else |ys|;
    assert Appends(ys[n..n], path) == [];
    while i < |ys|
      invariant n <= i
      invariant result == shrunk + Appends(ys[n..if i < |ys| then i else |ys|], path)
    {
      AppendsSnoc(ys, n, i, path);
      Associative(shrunk, Appends(ys[n..i], path), [AddOp(AppendPath(path), ys[i])]);
      result := result + [AddOp(AppendPath(path), ys[i])];
      i := i + 1;
    }
    assert ys[n..|ys|] == ys[n..];
  }

  method DiffCommonItems(xs: seq<Json>, ys: seq<Json>, path: string) returns (result: seq<Json>, i: nat)
    ensures i == if |xs| < |ys| then |xs| else |ys|
    ensures result == CommonItems(xs, ys, i, path)
    decreases xs, |xs| + |ys|
  {
    result, i := [], 0;
    while i < |xs| && i < |ys|
      invariant i <= |xs| && i <= |ys|
      invariant result == CommonItems(xs, ys, i, path)
    {
      var inner := Diff(xs[i], ys[i], IndexPath(path, i));
      result := result + inner;
      i := i + 1;
    }
  }

  method InsertRemovals(common: seq<Json>, lo: nat, hi: nat, path: string) returns (result: seq<Json>)
    requires lo <= hi
    ensures result == common + Removals(lo, hi, path)
  {
    result := common;
    var endIndex, i := |result|, lo;
    while i < hi
      invariant lo <= i <= hi
      invariant result == common + Removals(lo, i, path)
    {
      InsertInMiddle(common, RemoveOp(IndexPath(path, i)), Removals(lo, i, path));
      result := result[..endIndex] + [RemoveOp(IndexPath(path, i))] + result[endIndex..];
      i := i + 1;
    }
  }

  lemma Associative(a: seq<Json>, b: seq<Json>, c: seq<Json>)
    ensures a + b + c == a + (b + c)
  {
  }

  lemma InsertInMiddle(a: seq<Json>, x: Json, b: seq<Json>)
    ensures (a + b)[..|a|] + [x] + (a + b)[|a|..] == a + ([x] + b)
  {
  }

  lemma AppendsSnoc(ys: seq<Json>, n: nat, i: nat, path: string)
    requires n <= i < |ys|
    ensures Appends(ys[n..i + 1], path) == Appends(ys[n..i], path) + [AddOp(AppendPath(path), ys[i])]
  {
  }

  method DiffObjects(s: Json, t: Json, path: string) returns (result: seq<Json>)
    requires s.Obj? && t.Obj?
    ensures var ks, ls := SortedKeys(s.members.Keys), SortedKeys(t.members.Keys);
            result == SourceMembers(s, t, ks, |ks|, path) + NewMembers(s, t, ls, |ls|, path)
    decreases s, 1
  {
    var first := DiffSourceMembers(s, t, SortedKeys(s.members.Keys), path);
    var second := DiffNewMembers(s, t, SortedKeys(t.members.Keys), path);
    result := first + second;
  }

  method DiffSourceMembers(s: Json, t: Json, ks: seq<string>, path: string) returns (result: seq<Json>)
    requires s.Obj? && t.Obj? && KeysIn(ks, s.members)
    ensures result == SourceMembers(s, t, ks, |ks|, path)
    decreases s, 0
  {
    result := [];
    for i := 0 to |ks|
      invariant result == SourceMembers(s, t, ks, i, path)
    {
      var k := ks[i];
      if k in t.members {
        var inner := Diff(s.members[k], t.members[k], KeyPath(path, k));
        result := result + inner;
      } else {
        result := result + [RemoveOp(KeyPath(path, k))];
      }
    }
  }

  method DiffNewMembers(s: Json, t: Json, ls: seq<string>, path: string) returns (result: seq<Json>)
    requires s.Obj? && t.Obj? && KeysIn(ls, t.members)
    ensures result == NewMembers(s, t, ls, |ls|, path)
  {
    result := [];
    for i := 0 to |ls|
      invariant result == NewMembers(s, t, ls, i, path)
    {
      var k := ls[i];
      if k !in s.members {
        result := result + [AddOp(KeyPath(path, k), t.members[k])];
      }
    }
  }
}

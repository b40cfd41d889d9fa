/** The comparison operators of `basic_json`: the two expansions of the comparison macro and the
    operators derived from them. */
module JsonOrder {
  import opened Json

  /** Order of the kinds of value; both integer kinds share a rank. */
  function Rank(j: Json): nat {
    match j
    case Null => 0
    case Bool(_) => 1
    case Int(_) => 2
    case UInt(_) => 2
    case Obj(_) => 3
    case Arr(_) => 4
    case Str(_) => 5
  }

  predicate Eq(a: Json, b: Json)
    decreases a
  {
    match (a, b)
    case (Arr(xs), Arr(ys)) => |xs| == |ys| && forall i | 0 <= i < |xs| :: Eq(xs[i], ys[i])
    case (Obj(m), Obj(n)) => m.Keys == n.Keys && forall k | k in m.Keys :: Eq(m[k], n[k])
    case (Null, Null) => true
    case (Str(s), Str(t)) => s == t
    case (Bool(p), Bool(q)) => p == q
    case (Int(i), Int(j)) => i == j
    case (UInt(u), UInt(v)) => u == v
    case (UInt(u), Int(j)) => ToSigned(u) == j
    case (Int(i), UInt(v)) => i == ToSigned(v)
    case _ => false
  }

  predicate Less(a: Json, b: Json)
    decreases Size(a) + Size(b), 0
  {
    match (a, b)
    case (Arr(xs), Arr(ys)) => ItemsLess(xs, ys)
    case (Obj(m), Obj(n)) =>
      SizeIsOneMoreThanChildren(a);
      SizeIsOneMoreThanChildren(b);
      MembersLess(SortedKeys(m.Keys), Children(a), SortedKeys(n.Keys), Children(b))
    case (Null, Null) => false
    case (Str(s), Str(t)) => StrLess(s, t)
    case (Bool(p), Bool(q)) => !p && q
    case (Int(i), Int(j)) => i < j
    case (UInt(u), UInt(v)) => u < v
    case (UInt(u), Int(j)) => ToSigned(u) < j
    case (Int(i), UInt(v)) => i < ToSigned(v)
    case _ => Rank(a) < Rank(b)
  }

  /** `operator<` of vectors. */
  predicate ItemsLess(xs: seq<Json>, ys: seq<Json>)
    decreases SizeAll(xs) + SizeAll(ys), 1
  {
    if ys == [] then false
    else if xs == [] then true
    else if Less(xs[0], ys[0]) then true
    else if Less(ys[0], xs[0]) then false
    else ItemsLess(xs[1..], ys[1..])
  }

  /** `operator<` of ordered maps: lexicographic over the pairs of a key and a value. */
  predicate MembersLess(ks: seq<string>, xs: seq<Json>, ls: seq<string>, ys: seq<Json>)
    requires |ks| == |xs| && |ls| == |ys|
    decreases SizeAll(xs) + SizeAll(ys), 1
  {
    if ys == [] then false
    else if xs == [] then true
    else if StrLess(ks[0], ls[0]) || (!StrLess(ls[0], ks[0]) && Less(xs[0], ys[0])) then true
    else if StrLess(ls[0], ks[0]) || (!StrLess(ks[0], ls[0]) && Less(ys[0], xs[0])) then false
    else MembersLess(ks[1..], xs[1..], ls[1..], ys[1..])
  }

  predicate LessOrEqual(a: Json, b: Json) { !Less(b, a) }

  predicate Greater(a: Json, b: Json) { !LessOrEqual(a, b) }

  predicate GreaterOrEqual(a: Json, b: Json) { !Less(a, b) }

  // ---------- equality ----------

  predicate EqAll(xs: seq<Json>, ys: seq<Json>) {
    |xs| == |ys| && forall i | 0 <= i < |xs| :: Eq(xs[i], ys[i])
  }

  lemma {:induction false} EqReflexive(a: Json)
    ensures Eq(a, a)
    decreases a
  {
    match a
    case Arr(xs) => forall i | 0 <= i < |xs| ensures Eq(xs[i], xs[i]) { EqReflexive(xs[i]); }
    case Obj(m) => forall k | k in m.Keys ensures Eq(m[k], m[k]) { EqReflexive(m[k]); }
    case _ =>
  }

  lemma {:induction false} EqSymmetric(a: Json, b: Json)
    requires Eq(a, b)
    ensures Eq(b, a)
    decreases a
  {
    match (a, b)
    case (Arr(xs), Arr(ys)) => forall i | 0 <= i < |xs| ensures Eq(ys[i], xs[i]) { EqSymmetric(xs[i], ys[i]); }
    case (Obj(m), Obj(n)) => forall k | k in n.Keys ensures Eq(n[k], m[k]) { EqSymmetric(m[k], n[k]); }
    case _ =>
  }

  lemma {:induction false} EqTransitive(a: Json, b: Json, c: Json)
    requires Eq(a, b) && Eq(b, c)
    ensures Eq(a, c)
    decreases a
  {
    match (a, b, c)
    case (Arr(xs), Arr(ys), Arr(zs)) =>
      forall i | 0 <= i < |xs| ensures Eq(xs[i], zs[i]) { EqTransitive(xs[i], ys[i], zs[i]); }
    case (Obj(m), Obj(n), Obj(o)) =>
      forall k | k in m.Keys ensures Eq(m[k], o[k]) { EqTransitive(m[k], n[k], o[k]); }
    case _ =>
  }

  lemma SameKeySequence(ks: set<string>, ls: set<string>)
    ensures ks == ls <==> SortedKeys(ks) == SortedKeys(ls)
  {
    if SortedKeys(ks) == SortedKeys(ls) {
      forall k ensures k in ks <==> k in ls {
        assert k in ks <==> k in SortedKeys(ks);
        assert k in ls <==> k in SortedKeys(ls);
      }
    }
  }

  lemma EqMembersByPosition(m: map<string, Json>, n: map<string, Json>, ks: seq<string>)
    requires m.Keys == n.Keys && forall k :: k in ks <==> k in m.Keys
    ensures (forall k | k in m.Keys :: Eq(m[k], n[k])) <==> EqAll(Values(m, ks), Values(n, ks))
  {
    if EqAll(Values(m, ks), Values(n, ks)) {
      forall k | k in m.Keys ensures Eq(m[k], n[k]) {
        var i :| 0 <= i < |ks| && ks[i] == k;
        assert Eq(Values(m, ks)[i], Values(n, ks)[i]);
      }
    }
  }

  /** Equal objects are those with the same key sequence and equal values in order. */
  lemma EqObjects(m: map<string, Json>, n: map<string, Json>)
    ensures Eq(Obj(m), Obj(n)) <==>
            SortedKeys(m.Keys) == SortedKeys(n.Keys) && EqAll(Children(Obj(m)), Children(Obj(n)))
  {
    SameKeySequence(m.Keys, n.Keys);
    if m.Keys == n.Keys { EqMembersByPosition(m, n, SortedKeys(m.Keys)); }
  }

  // ---------- exactly one of a < b, a == b, b < a ----------

  predicate ExactlyOne(p: bool, q: bool, r: bool) {
    (p && !q && !r) || (!p && q && !r) || (!p && !q && r)
  }

  lemma {:induction false} Trichotomy(a: Json, b: Json)
    ensures ExactlyOne(Less(a, b), Eq(a, b), Less(b, a))
    decreases Size(a), 0
  {
    match (a, b)
    case (Arr(xs), Arr(ys)) => ItemsTrichotomy(xs, ys);
    case (Obj(m), Obj(n)) =>
      SizeIsOneMoreThanChildren(a);
      EqObjects(m, n);
      MembersTrichotomy(SortedKeys(m.Keys), Children(a), SortedKeys(n.Keys), Children(b));
    case (Str(s), Str(t)) => StrTrichotomy(s, t);
    case _ =>
  }

  lemma {:induction false} ItemsTrichotomy(xs: seq<Json>, ys: seq<Json>)
    ensures ExactlyOne(ItemsLess(xs, ys), EqAll(xs, ys), ItemsLess(ys, xs))
    decreases SizeAll(xs), 1
  {
    if xs != [] && ys != [] {
      Trichotomy(xs[0], ys[0]);
      ItemsTrichotomy(xs[1..], ys[1..]);
      EqAllCons(xs, ys);
    }
  }

  lemma {:induction false} MembersTrichotomy(ks: seq<string>, xs: seq<Json>, ls: seq<string>, ys: seq<Json>)
    requires |ks| == |xs| && |ls| == |ys|
    ensures ExactlyOne(MembersLess(ks, xs, ls, ys), ks == ls && EqAll(xs, ys), MembersLess(ls, ys, ks, xs))
    decreases SizeAll(xs), 1
  {
    if xs != [] && ys != [] {
      StrTrichotomy(ks[0], ls[0]);
      Trichotomy(xs[0], ys[0]);
      MembersTrichotomy(ks[1..], xs[1..], ls[1..], ys[1..]);
      EqAllCons(xs, ys);
      assert ks == [ks[0]] + ks[1..] && ls == [ls[0]] + ls[1..];
    }
  }

  lemma EqAllCons(xs: seq<Json>, ys: seq<Json>)
    requires xs != [] && ys != []
    ensures EqAll(xs, ys) <==> Eq(xs[0], ys[0]) && EqAll(xs[1..], ys[1..])
  {
    if Eq(xs[0], ys[0]) && EqAll(xs[1..], ys[1..]) {
      forall i | 0 <= i < |xs| ensures Eq(xs[i], ys[i]) {
        if i > 0 { assert Eq(xs[1..][i - 1], ys[1..][i - 1]); }
      }
    }
  }

  /** `<=`, `>` and `>=` are the relations their names promise. */
  lemma DerivedOperators(a: Json, b: Json)
    ensures LessOrEqual(a, b) <==> Less(a, b) || Eq(a, b)
    ensures Greater(a, b) <==> Less(b, a)
    ensures GreaterOrEqual(a, b) <==> Less(b, a) || Eq(a, b)
  {
    Trichotomy(a, b);
  }

  // ---------- the direction of the order ----------

  /** `a` ends where `b` goes on, or has the smaller character at the first difference. */
  ghost predicate StrBelowAt(a: string, b: string, n: nat) {
    && n <= |a| && n < |b| && (forall i | 0 <= i < n :: a[i] == b[i])
    && (n == |a| || a[n] < b[n])
  }

  lemma StrBelowNext(a: string, b: string, n: nat)
    requires a != "" && b != ""
    ensures StrBelowAt(a, b, n + 1) <==> a[0] == b[0] && StrBelowAt(a[1..], b[1..], n)
  {
    if StrBelowAt(a, b, n + 1) {
      assert forall i | 0 <= i < n :: a[1..][i] == a[i + 1] == b[i + 1] == b[1..][i];
    }
    if a[0] == b[0] && StrBelowAt(a[1..], b[1..], n) {
      forall i | 0 <= i < n + 1 ensures a[i] == b[i] {
        if i > 0 { assert a[1..][i - 1] == b[1..][i - 1]; }
      }
    }
  }

  /** Strings compare lexicographically, the smaller character first. */
  lemma {:induction false} StrLessExactly(a: string, b: string)
    ensures StrLess(a, b) <==> exists n: nat :: StrBelowAt(a, b, n)
  {
    hide StrBelowAt;
    StrBelowFirst(a, b);
    if a != "" && b != "" {
      if a[0] == b[0] { StrLessExactly(a[1..], b[1..]); }
      if n: nat :| StrBelowAt(a[1..], b[1..], n) { StrBelowNext(a, b, n); }
      if n: nat :| StrBelowAt(a, b, n) && n > 0 { StrBelowNext(a, b, n - 1); }
    }
  }

  lemma StrBelowFirst(a: string, b: string)
    ensures StrBelowAt(a, b, 0) <==> b != "" && (a == "" || a[0] < b[0])
    ensures a == "" || b == "" ==> forall n: nat | n > 0 :: !StrBelowAt(a, b, n)
  {
  }

  ghost predicate ItemsBelowAt(xs: seq<Json>, ys: seq<Json>, n: nat) {
    && n <= |xs| && n < |ys| && (forall i | 0 <= i < n :: Eq(xs[i], ys[i]))
    && (n == |xs| || Less(xs[n], ys[n]))
  }

  lemma ItemsBelowNext(xs: seq<Json>, ys: seq<Json>, n: nat)
    requires xs != [] && ys != []
    ensures ItemsBelowAt(xs, ys, n + 1) <==> Eq(xs[0], ys[0]) && ItemsBelowAt(xs[1..], ys[1..], n)
  {
    hide Eq, Less;
    if ItemsBelowAt(xs, ys, n + 1) {
      forall i | 0 <= i < n ensures Eq(xs[1..][i], ys[1..][i]) { assert Eq(xs[i + 1], ys[i + 1]); }
    }
    if Eq(xs[0], ys[0]) && ItemsBelowAt(xs[1..], ys[1..], n) {
      forall i | 0 <= i < n + 1 ensures Eq(xs[i], ys[i]) {
        if i > 0 { assert Eq(xs[1..][i - 1], ys[1..][i - 1]); }
      }
    }
  }

  lemma ItemsBelowFirst(xs: seq<Json>, ys: seq<Json>)
    ensures ItemsBelowAt(xs, ys, 0) <==> ys != [] && (xs == [] || Less(xs[0], ys[0]))
    ensures xs == [] || ys == [] ==> forall n: nat | n > 0 :: !ItemsBelowAt(xs, ys, n)
  {
    hide Eq, Less;
  }

  /** Arrays compare lexicographically: by the first elements that are not equal. */
  lemma {:induction false} ItemsLessExactly(xs: seq<Json>, ys: seq<Json>)
    ensures ItemsLess(xs, ys) <==> exists n: nat :: ItemsBelowAt(xs, ys, n)
    decreases |xs|
  {
    hide ItemsBelowAt, Eq, Less;
    ItemsBelowFirst(xs, ys);
    if xs != [] && ys != [] {
      Trichotomy(xs[0], ys[0]);
      ItemsLessExactly(xs[1..], ys[1..]);
      if n: nat :| ItemsBelowAt(xs[1..], ys[1..], n) { ItemsBelowNext(xs, ys, n); }
      if n: nat :| ItemsBelowAt(xs, ys, n) && n > 0 { ItemsBelowNext(xs, ys, n - 1); }
    }
  }

  ghost predicate MembersBelowAt(ks: seq<string>, xs: seq<Json>, ls: seq<string>, ys: seq<Json>, n: nat)
    requires |ks| == |xs| && |ls| == |ys|
  {
    && n <= |xs| && n < |ys| && (forall i | 0 <= i < n :: ks[i] == ls[i] && Eq(xs[i], ys[i]))
    && (n == |xs| || StrLess(ks[n], ls[n]) || (ks[n] == ls[n] && Less(xs[n], ys[n])))
  }

  lemma MembersBelowNext(ks: seq<string>, xs: seq<Json>, ls: seq<string>, ys: seq<Json>, n: nat)
    requires |ks| == |xs| && |ls| == |ys| && xs != [] && ys != []
    ensures MembersBelowAt(ks, xs, ls, ys, n + 1) <==>
            ks[0] == ls[0] && Eq(xs[0], ys[0]) && MembersBelowAt(ks[1..], xs[1..], ls[1..], ys[1..], n)
  {
    hide Eq, Less, StrLess;
    if MembersBelowAt(ks, xs, ls, ys, n + 1) {
      forall i | 0 <= i < n ensures ks[1..][i] == ls[1..][i] && Eq(xs[1..][i], ys[1..][i]) {
        assert ks[i + 1] == ls[i + 1] && Eq(xs[i + 1], ys[i + 1]);
      }
    }
    if ks[0] == ls[0] && Eq(xs[0], ys[0]) && MembersBelowAt(ks[1..], xs[1..], ls[1..], ys[1..], n) {
      forall i | 0 <= i < n + 1 ensures ks[i] == ls[i] && Eq(xs[i], ys[i]) {
        if i > 0 { assert ks[1..][i - 1] == ls[1..][i - 1] && Eq(xs[1..][i - 1], ys[1..][i - 1]); }
      }
    }
  }

  lemma MembersBelowFirst(ks: seq<string>, xs: seq<Json>, ls: seq<string>, ys: seq<Json>)
    requires |ks| == |xs| && |ls| == |ys|
    ensures MembersBelowAt(ks, xs, ls, ys, 0) <==>
            ys != [] && (xs == [] || StrLess(ks[0], ls[0]) || (ks[0] == ls[0] && Less(xs[0], ys[0])))
    ensures xs == [] || ys == [] ==> forall n: nat | n > 0 :: !MembersBelowAt(ks, xs, ls, ys, n)
  {
    hide Eq, Less, StrLess;
  }

  /** Objects compare lexicographically over their members in key order, first by key and then by value. */
  lemma {:induction false} MembersLessExactly(ks: seq<string>, xs: seq<Json>, ls: seq<string>, ys: seq<Json>)
    requires |ks| == |xs| && |ls| == |ys|
    ensures MembersLess(ks, xs, ls, ys) <==> exists n: nat :: MembersBelowAt(ks, xs, ls, ys, n)
    decreases |xs|
  {
    hide MembersBelowAt, Eq, Less, StrLess;
    MembersBelowFirst(ks, xs, ls, ys);
    if xs != [] && ys != [] {
      Trichotomy(xs[0], ys[0]);
      StrTrichotomy(ks[0], ls[0]);
      MembersLessExactly(ks[1..], xs[1..], ls[1..], ys[1..]);
      if n: nat :| MembersBelowAt(ks[1..], xs[1..], ls[1..], ys[1..], n) { MembersBelowNext(ks, xs, ls, ys, n); }
      if n: nat :| MembersBelowAt(ks, xs, ls, ys, n) && n > 0 { MembersBelowNext(ks, xs, ls, ys, n - 1); }
    }
  }

  /** The order of all scalars: null, false, true, the numbers upwards, and strings after everything. */
  lemma ScalarsAscend(i: Int64, j: Int64, u: UInt64, v: UInt64, s: string)
    ensures Less(Null, Bool(false)) && Less(Bool(false), Bool(true)) && Less(Bool(true), Int(i)) && Less(Int(i), Str(s))
    ensures i < j ==> Less(Int(i), Int(j))
    ensures u < v ==> Less(UInt(u), UInt(v))
    ensures i < u < TWO_63 ==> Less(Int(i), UInt(u))
  {
  }

  // ---------- transitivity ----------

  /** No unsigned integer in the tree needs the 64th bit. */
  predicate Small(j: Json)
    decreases j
  {
    match j
    case UInt(u) => u < TWO_63
    case Arr(xs) => forall i | 0 <= i < |xs| :: Small(xs[i])
    case Obj(m) => forall k | k in m.Keys :: Small(m[k])
    case _ => true
  }

  predicate SmallAll(xs: seq<Json>) { forall i | 0 <= i < |xs| :: Small(xs[i]) }

  lemma SmallChildren(j: Json)
    ensures j.Arr? || j.Obj? ==> (Small(j) <==> SmallAll(Children(j)))
  {
    if j.Obj? && SmallAll(Children(j)) {
      var ks := SortedKeys(j.members.Keys);
      forall k | k in j.members.Keys ensures Small(j.members[k]) {
        var i :| 0 <= i < |ks| && ks[i] == k;
        assert Small(Children(j)[i]);
      }
    }
  }

  /** How two comparisons compose, for any relation pair "less" and "equal". */
  predicate Composes(lessAB: bool, eqAB: bool, lessBC: bool, eqBC: bool, lessAC: bool, eqAC: bool) {
    && (lessAB && (lessBC || eqBC) ==> lessAC)
    && (eqAB && lessBC ==> lessAC)
    && (eqAB && eqBC ==> eqAC)
  }

  lemma {:induction false} Transitivity(a: Json, b: Json, c: Json)
    requires Small(a) && Small(b) && Small(c)
    ensures Composes(Less(a, b), Eq(a, b), Less(b, c), Eq(b, c), Less(a, c), Eq(a, c))
    decreases Size(a), 0
  {
    hide ItemsLess, MembersLess, SortedKeys;
    match (a, b, c)
    case (Arr(xs), Arr(ys), Arr(zs)) => ItemsTransitivity(xs, ys, zs);
    case (Obj(m), Obj(n), Obj(o)) =>
      SizeIsOneMoreThanChildren(a);
      SmallChildren(a);
      SmallChildren(b);
      SmallChildren(c);
      EqObjects(m, n);
      EqObjects(n, o);
      EqObjects(m, o);
      MembersTransitivity(SortedKeys(m.Keys), Children(a), SortedKeys(n.Keys), Children(b),
                          SortedKeys(o.Keys), Children(c));
    case (Str(s), Str(t), Str(u)) => if StrLess(s, t) && StrLess(t, u) { StrTransitive(s, t, u); }
    case _ =>
  }

  lemma {:induction false} ItemsTransitivity(xs: seq<Json>, ys: seq<Json>, zs: seq<Json>)
    requires SmallAll(xs) && SmallAll(ys) && SmallAll(zs)
    ensures Composes(ItemsLess(xs, ys), EqAll(xs, ys), ItemsLess(ys, zs), EqAll(ys, zs),
                     ItemsLess(xs, zs), EqAll(xs, zs))
    decreases SizeAll(xs), 1
  {
    if xs != [] && ys != [] && zs != [] {
      Trichotomy(xs[0], ys[0]);
      Trichotomy(ys[0], zs[0]);
      Trichotomy(xs[0], zs[0]);
      Transitivity(xs[0], ys[0], zs[0]);
      ItemsTransitivity(xs[1..], ys[1..], zs[1..]);
      EqAllCons(xs, ys);
      EqAllCons(ys, zs);
      EqAllCons(xs, zs);
    }
  }

  lemma {:induction false} MembersTransitivity(ks: seq<string>, xs: seq<Json>, ls: seq<string>, ys: seq<Json>,
                                               ms: seq<string>, zs: seq<Json>)
    requires |ks| == |xs| && |ls| == |ys| && |ms| == |zs|
    requires SmallAll(xs) && SmallAll(ys) && SmallAll(zs)
    ensures Composes(MembersLess(ks, xs, ls, ys), ks == ls && EqAll(xs, ys),
                     MembersLess(ls, ys, ms, zs), ls == ms && EqAll(ys, zs),
                     MembersLess(ks, xs, ms, zs), ks == ms && EqAll(xs, zs))
    decreases SizeAll(xs), 1
  {
    if xs != [] && ys != [] && zs != [] {
      Trichotomy(xs[0], ys[0]);
      Trichotomy(ys[0], zs[0]);
      Trichotomy(xs[0], zs[0]);
      Transitivity(xs[0], ys[0], zs[0]);
      KeysCompose(ks[0], ls[0], ms[0]);
      MembersTransitivity(ks[1..], xs[1..], ls[1..], ys[1..], ms[1..], zs[1..]);
      EqAllCons(xs, ys);
      EqAllCons(ys, zs);
      EqAllCons(xs, zs);
    }
  }

  lemma KeysCompose(k: string, l: string, m: string)
    ensures ExactlyOne(StrLess(k, l), k == l, StrLess(l, k))
    ensures ExactlyOne(StrLess(l, m), l == m, StrLess(m, l))
    ensures ExactlyOne(StrLess(k, m), k == m, StrLess(m, k))
    ensures StrLess(k, l) && StrLess(l, m) ==> StrLess(k, m)
  {
    StrTrichotomy(k, l);
    StrTrichotomy(l, m);
    StrTrichotomy(k, m);
    if StrLess(k, l) && StrLess(l, m) { StrTransitive(k, l, m); }
  }

  // ---------- transitivity needs the bound ----------

  /** The tree with every unsigned integer that needs the 64th bit replaced by `v`. */
  function Cap(j: Json, v: Json): Json
    decreases j
  {
    match j
    case UInt(u) => if u < TWO_63 then j else v
    case Arr(xs) => Arr(CapAll(xs, v))
    case Obj(m) => Obj(map k | k in m :: Cap(m[k], v))
    case _ => j
  }

  function CapAll(xs: seq<Json>, v: Json): seq<Json>
    decreases xs
  {
    seq(|xs|, i requires 0 <= i < |xs| => Cap(xs[i], v))
  }

  lemma CapChildren(j: Json, v: Json)
    requires j.Obj?
    ensures Children(Cap(j, v)) == CapAll(Children(j), v)
  {
    assert Cap(j, v).members.Keys == j.members.Keys;
  }

  lemma {:induction false} CapIsSmall(j: Json, v: Json)
    requires Small(v)
    ensures Small(Cap(j, v))
    decreases j
  {
    match j
    case Arr(xs) => forall i | 0 <= i < |xs| ensures Small(Cap(xs[i], v)) { CapIsSmall(xs[i], v); }
    case Obj(m) => forall k | k in m.Keys ensures Small(Cap(m[k], v)) { CapIsSmall(m[k], v); }
    case _ =>
  }

  lemma {:induction false} CapKeepsSmall(j: Json, v: Json)
    requires Small(j)
    ensures Cap(j, v) == j
    decreases j
  {
    match j
    case Arr(xs) => forall i | 0 <= i < |xs| ensures Cap(xs[i], v) == xs[i] { CapKeepsSmall(xs[i], v); }
    case Obj(m) =>
      forall k | k in m.Keys ensures Cap(m[k], v) == m[k] { CapKeepsSmall(m[k], v); }
      assert Cap(j, v).members == m;
    case _ =>
  }

  const ZERO := Int(0)
  const ONE := UInt(1)

  /** A tree with an unsigned integer of 64 bits is below its copy with zeros, which is below its
      copy with ones, which is below the tree. */
  lemma {:induction false} CapCycle(a: Json)
    requires !Small(a)
    ensures Less(a, Cap(a, ZERO)) && Less(Cap(a, ZERO), Cap(a, ONE)) && Less(Cap(a, ONE), a)
    decreases Size(a), 0
  {
    hide ItemsLess, MembersLess;
    match a
    case Arr(xs) => ItemsCycle(xs);
    case Obj(m) =>
      SizeIsOneMoreThanChildren(a);
      SmallChildren(a);
      CapChildren(a, ZERO);
      CapChildren(a, ONE);
      assert Cap(a, ZERO).members.Keys == m.Keys == Cap(a, ONE).members.Keys;
      MembersCycle(SortedKeys(m.Keys), Children(a));
    case _ =>
  }

  lemma {:induction false} HeadCycle(x: Json)
    requires Small(x)
    ensures Cap(x, ZERO) == x == Cap(x, ONE) && !Less(x, x)
  {
    CapKeepsSmall(x, ZERO);
    CapKeepsSmall(x, ONE);
    EqReflexive(x);
    Trichotomy(x, x);
  }

  lemma {:induction false} ItemsCycle(xs: seq<Json>)
    requires !SmallAll(xs)
    ensures ItemsLess(xs, CapAll(xs, ZERO)) && ItemsLess(CapAll(xs, ZERO), CapAll(xs, ONE))
    ensures ItemsLess(CapAll(xs, ONE), xs)
    decreases SizeAll(xs), 1
  {
    assert CapAll(xs, ZERO)[1..] == CapAll(xs[1..], ZERO);
    assert CapAll(xs, ONE)[1..] == CapAll(xs[1..], ONE);
    if Small(xs[0]) {
      HeadCycle(xs[0]);
      ItemsCycle(xs[1..]);
    } else {
      CapCycle(xs[0]);
    }
  }

  lemma {:induction false} MembersCycle(ks: seq<string>, xs: seq<Json>)
    requires |ks| == |xs| && !SmallAll(xs)
    ensures MembersLess(ks, xs, ks, CapAll(xs, ZERO)) && MembersLess(ks, CapAll(xs, ZERO), ks, CapAll(xs, ONE))
    ensures MembersLess(ks, CapAll(xs, ONE), ks, xs)
    decreases SizeAll(xs), 1
  {
    assert CapAll(xs, ZERO)[1..] == CapAll(xs[1..], ZERO);
    assert CapAll(xs, ONE)[1..] == CapAll(xs[1..], ONE);
    StrTrichotomy(ks[0], ks[0]);
    if Small(xs[0]) {
      HeadCycle(xs[0]);
      MembersCycle(ks[1..], xs[1..]);
    } else {
      CapCycle(xs[0]);
    }
  }

  predicate SmallChain(a: Json, b: Json, c: Json) {
    Small(b) && Small(c) && Less(a, b) && Less(b, c)
  }

  /** Every chain a < b < c with b and c small gives a < c exactly when a holds no unsigned integer
      of 64 bits. */
  lemma TransitiveExactlyWhenSmall(a: Json)
    ensures Small(a) <==> forall b, c | SmallChain(a, b, c) :: Less(a, c)
  {
    if Small(a) {
      forall b, c | SmallChain(a, b, c) ensures Less(a, c) { Transitivity(a, b, c); }
    } else {
      CapCycle(a);
      CapIsSmall(a, ZERO);
      CapIsSmall(a, ONE);
      Trichotomy(Cap(a, ONE), a);
      assert SmallChain(a, Cap(a, ZERO), Cap(a, ONE)) && !Less(a, Cap(a, ONE));
    }
  }
}

/** The values of `basic_json` without floats, binary data and discarded values. */
module Json {
  const TWO_63: int := 0x8000_0000_0000_0000
  const TWO_64: int := 0x1_0000_0000_0000_0000

  type Int64 = x: int | -TWO_63 <= x < TWO_63
  type UInt64 = x: int | 0 <= x < TWO_64

  /** An object is a `std::map`: the members have distinct keys and are visited in key order,
      which `SortedKeys` makes explicit. The two integer kinds are the `number_integer` and
      `number_unsigned` types, which compare with each other but are not the same type. */
  datatype Json =
    | Null
    | Bool(b: bool)
    | Int(i: Int64)
    | UInt(u: UInt64)
    | Str(s: string)
    | Arr(items: seq<Json>)
    | Obj(members: map<string, Json>)

  predicate SameType(a: Json, b: Json) {
    match a
    case Null => b.Null?
    case Bool(_) => b.Bool?
    case Int(_) => b.Int?
    case UInt(_) => b.UInt?
    case Str(_) => b.Str?
    case Arr(_) => b.Arr?
    case Obj(_) => b.Obj?
  }

  /** `static_cast<number_integer_t>` of an unsigned integer: two's complement wrap-around. */
  function ToSigned(u: UInt64): Int64 {
    if u < TWO_63 then u else u - TWO_64
  }

  // Strings compare as std::string does: lexicographically.

  predicate StrLess(a: string, b: string) {
    if b == "" then false
    else if a == "" then true
    else if a[0] < b[0] then true
    else if b[0] < a[0] then false
    else StrLess(a[1..], b[1..])
  }

  lemma {:induction false} StrTrichotomy(a: string, b: string)
    ensures a == b ==> !StrLess(a, b) && !StrLess(b, a)
    ensures a != b ==> StrLess(a, b) != StrLess(b, a)
  {
    if a != "" && b != "" && a[0] == b[0] {
      StrTrichotomy(a[1..], b[1..]);
      assert a == [a[0]] + a[1..] && b == [b[0]] + b[1..];
    }
  }

  lemma {:induction false} StrTransitive(a: string, b: string, c: string)
    requires StrLess(a, b) && StrLess(b, c)
    ensures StrLess(a, c)
  {
    if a != "" && a[0] == b[0] == c[0] {
      StrTransitive(a[1..], b[1..], c[1..]);
    }
  }

  predicate IsLeast(k: string, ks: set<string>) {
    k in ks && forall x | x in ks :: x == k || StrLess(k, x)
  }

  lemma {:induction false} LeastExists(ks: set<string>)
    requires ks != {}
    ensures exists k :: IsLeast(k, ks)
    decreases |ks|
  {
    var k :| k in ks;
    if ks == {k} {
      assert IsLeast(k, ks);
    } else {
      LeastExists(ks - {k});
      var m :| IsLeast(m, ks - {k});
      StrTrichotomy(k, m);
      if StrLess(k, m) {
        forall x | x in ks ensures x == k || StrLess(k, x) {
          if x != k && x != m { StrTransitive(k, m, x); }
        }
        assert IsLeast(k, ks);
      } else {
        assert IsLeast(m, ks);
      }
    }
  }

  lemma LeastIsUnique(ks: set<string>)
    ensures forall x, y | IsLeast(x, ks) && IsLeast(y, ks) :: x == y
  {
    forall x, y | IsLeast(x, ks) && IsLeast(y, ks) ensures x == y { StrTrichotomy(x, y); }
  }

  /** The keys of an object in iteration order. */
  function SortedKeys(ks: set<string>): (r: seq<string>)
    ensures |r| == |ks|
    ensures forall k :: k in r <==> k in ks
    decreases |ks|
  {
    if ks == {} then [] else
      LeastExists(ks);
      LeastIsUnique(ks);
      var k :| k in ks && IsLeast(k, ks);
      [k] + SortedKeys(ks - {k})
  }

  lemma {:induction false} SortedKeysSorted(ks: set<string>)
    ensures forall i, j | 0 <= i < j < |SortedKeys(ks)| :: StrLess(SortedKeys(ks)[i], SortedKeys(ks)[j])
    decreases |ks|
  {
    if ks != {} {
      var r := SortedKeys(ks);
      var k, rest := r[0], r[1..];
      assert IsLeast(k, ks) && rest == SortedKeys(ks - {k});
      SortedKeysSorted(ks - {k});
      forall i, j | 0 <= i < j < |r| ensures StrLess(r[i], r[j]) {
        assert r[j] == rest[j - 1];
        if i == 0 {
          assert rest[j - 1] in rest;
          assert r[j] in ks && r[j] != k;
        } else {
          assert r[i] == rest[i - 1];
        }
      }
    }
  }

  /** No key occurs twice. */
  predicate Distinct(ks: seq<string>) { forall i, j | 0 <= i < j < |ks| :: ks[i] != ks[j] }

  lemma SortedKeysDistinct(ks: set<string>)
    ensures Distinct(SortedKeys(ks))
  {
    SortedKeysSorted(ks);
    forall i, j | 0 <= i < j < |SortedKeys(ks)| ensures SortedKeys(ks)[i] != SortedKeys(ks)[j] {
      StrTrichotomy(SortedKeys(ks)[i], SortedKeys(ks)[j]);
    }
  }

  // ---------- the tree of values ----------

  predicate IsContainer(j: Json) { j.Arr? || j.Obj? }

  /** The member values of an object, in the order of the given keys. */
  function Values(m: map<string, Json>, ks: seq<string>): (r: seq<Json>)
    requires forall k | k in ks :: k in m
  {
    seq(|ks|, i requires 0 <= i < |ks| => m[ks[i]])
  }

  /** The values nested directly in a value, in iteration order. */
  function Children(j: Json): (r: seq<Json>)
    ensures forall c | c in r :: c < j
  {
    match j
    case Arr(xs) => xs
    case Obj(m) => Values(m, SortedKeys(m.Keys))
    case _ => []
  }

  /** Number of values in a tree, the root included. */
  function Size(j: Json): (n: nat)
    ensures n > 0
    decreases j
  {
    match j
    case Arr(xs) => 1 + SizeAll(xs)
    case Obj(m) => 1 + SizeMembers(j, SortedKeys(m.Keys))
    case _ => 1
  }

  function SizeAll(xs: seq<Json>): nat
    decreases xs
  {
    if xs == [] then 0 else Size(xs[0]) + SizeAll(xs[1..])
  }

  function SizeMembers(j: Json, ks: seq<string>): nat
    requires j.Obj? && forall k | k in ks :: k in j.members
    decreases j, |ks|
  {
    if ks == [] then 0 else Size(j.members[ks[0]]) + SizeMembers(j, ks[1..])
  }

  lemma {:induction false} SizeMembersIsSizeAll(j: Json, ks: seq<string>)
    requires j.Obj? && forall k | k in ks :: k in j.members
    ensures SizeMembers(j, ks) == SizeAll(Values(j.members, ks))
  {
    if ks != [] {
      SizeMembersIsSizeAll(j, ks[1..]);
      assert Values(j.members, ks)[1..] == Values(j.members, ks[1..]);
    }
  }

  lemma SizeIsOneMoreThanChildren(j: Json)
    ensures Size(j) == 1 + SizeAll(Children(j))
  {
    if j.Obj? { SizeMembersIsSizeAll(j, SortedKeys(j.members.Keys)); }
  }

  lemma {:induction false} SizeAllAppend(xs: seq<Json>, ys: seq<Json>)
    ensures SizeAll(xs + ys) == SizeAll(xs) + SizeAll(ys)
  {
    if xs == [] {
      assert xs + ys == ys;
    } else {
      SizeAllAppend(xs[1..], ys);
      assert (xs + ys)[1..] == xs[1..] + ys;
    }
  }
}

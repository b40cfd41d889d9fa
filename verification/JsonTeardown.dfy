/** The explicit-stack destruction of nested values, `json_value::destroy`. */
module JsonTeardown {
  import opened Json

  /** Every value nested in `j`, as often as it occurs. */
  function Descendants(j: Json): multiset<Json>
    decreases Size(j), 0
  {
    SizeIsOneMoreThanChildren(j);
    AllOf(Children(j))
  }

  function WithDescendants(j: Json): multiset<Json>
    decreases Size(j), 1
  {
    multiset{j} + Descendants(j)
  }

  /** The values of the list and everything nested in them. */
  function AllOf(xs: seq<Json>): multiset<Json>
    decreases SizeAll(xs), 2
  {
    if xs == [] then multiset{} else WithDescendants(xs[0]) + AllOf(xs[1..])
  }

  lemma {:induction false} AllOfAppend(xs: seq<Json>, ys: seq<Json>)
    ensures AllOf(xs + ys) == AllOf(xs) + AllOf(ys)
    decreases |xs|
  {
    hide WithDescendants;
    if xs == [] {
      assert xs + ys == ys;
    } else {
      AllOfAppend(xs[1..], ys);
      assert (xs + ys)[1..] == xs[1..] + ys;
    }
  }

  lemma AllOfOne(x: Json)
    ensures AllOf([x]) == multiset{x} + Descendants(x)
  {
    assert [x][1..] == [];
  }

  /** Taking one value off the stack and putting its children on. */
  lemma PopOne(front: seq<Json>, x: Json)
    ensures SizeAll(front + Children(x)) + 1 == SizeAll(front + [x])
    ensures AllOf(front + Children(x)) + multiset{x} == AllOf(front + [x])
  {
    SizeAllAppend(front, Children(x));
    SizeAllAppend(front, [x]);
    SizeIsOneMoreThanChildren(x);
    assert [x][1..] == [] && SizeAll([x]) == Size(x);
    AllOfAppend(front, Children(x));
    AllOfAppend(front, [x]);
    AllOfOne(x);
  }

  lemma StackStarts(j: Json)
    ensures AllOf(Children(j)) == Descendants(j) && AllOf([]) == multiset{} && SizeAll([]) == 0
  {
    SizeIsOneMoreThanChildren(j);
  }

  lemma NoChildren(j: Json)
    ensures !IsContainer(j) ==> Children(j) == []
    ensures Children(j) == [] ==> Size(j) == 1
    ensures Children(j) != [] ==> Size(j) > 1
  {
    SizeIsOneMoreThanChildren(j);
  }

  /** Moves the children of a value onto the stack and clears its container. */
  method Unload(stack: seq<Json>, item: Json) returns (longer: seq<Json>, shell: Json)
    ensures longer == stack + Children(item)
    ensures SameType(shell, item) && Children(shell) == []
  {
    longer, shell := stack, item;
    if item.Arr? {
      longer := longer + item.items;
      shell := Arr([]);
    } else if item.Obj? {
      longer := longer + Values(item.members, SortedKeys(item.members.Keys));
      shell := Obj(map[]);
    }
  }

  /** One call of the destructor. `taken` lists the values as they come off the stack, `destructed` what
      the nested destructor calls find, and `depth` is how deep those calls nest. */
  method Destroy(j: Json) returns (taken: seq<Json>, ghost destructed: seq<Json>, ghost depth: nat)
    ensures multiset(taken) == Descendants(j) && |taken| == Size(j) - 1
    ensures |destructed| == |taken|
    ensures forall i | 0 <= i < |taken| :: SameType(destructed[i], taken[i]) && Children(destructed[i]) == []
    ensures depth == if Children(j) == [] then 1 else 2
    decreases Size(j)
  {
    hide AllOf, Size, SizeAll, Children, Descendants, SameType;
    taken, destructed, depth := [], [], 1;
    var stack := Children(j);
    SizeIsOneMoreThanChildren(j);
    StackStarts(j);
    NoChildren(j);
    while stack != []
      invariant stack == [] || Children(j) != []
      invariant multiset(taken) + AllOf(stack) == Descendants(j)
      invariant |taken| + SizeAll(stack) == Size(j) - 1
      invariant |taken| == |destructed|
      invariant forall i | 0 <= i < |taken| :: SameType(destructed[i], taken[i]) && Children(destructed[i]) == []
      invariant depth == if taken == [] then 1 else 2
      decreases SizeAll(stack)
    {
      var current := stack[|stack| - 1];
      ghost var front := stack[..|stack| - 1];
      assert stack == front + [current];
      PopOne(front, current);
      stack := stack[..|stack| - 1];
      taken := taken + [current];
      stack, current := Unload(stack, current);
      destructed := destructed + [current];
      NoChildren(current);
      var _, _, nested := Destroy(current);
      depth := if 1 + nested > depth then 1 + nested else depth;
    }
  }
}

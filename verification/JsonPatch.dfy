/** The JSON Patch interpreter of `basic_json::patch_inplace`. */
module JsonPatch {
  import opened Wrappers
  import opened Json
  import opened JsonPointer
  import JsonOrder

  /** How a patch run ends. `Threw` and `Aborted` (a failed JSON_ASSERT) carry the document as it was
      left, since operations work in place and are not undone. */
  datatype Outcome = Done(doc: Json) | Threw(doc: Json) | Aborted(doc: Json)

  function Front(p: seq<string>): seq<string>
    requires p != []
  {
    p[..|p| - 1]
  }

  function Back(p: seq<string>): string
    requires p != []
  {
    p[|p| - 1]
  }

  function InsertAt(xs: seq<Json>, i: nat, v: Json): seq<Json>
    requires i <= |xs|
  {
    xs[..i] + [v] + xs[i..]
  }

  function EraseAt(xs: seq<Json>, i: nat): seq<Json>
    requires i < |xs|
  {
    xs[..i] + xs[i + 1..]
  }

  /** Adds `v` under `token` to a parent value. A null parent becomes an object. */
  function AddChild(parent: Json, token: string, v: Json): Outcome {
    match parent
    case Null => Done(Obj(map[token := v]))
    case Obj(m) => Done(Obj(m[token := v]))
    case Arr(xs) =>
      if token == "-" then Done(Arr(xs + [v]))
      else
        var i := ArrayIndex(token);
        if i.None? || i.value > |xs| then Threw(parent) else Done(Arr(InsertAt(xs, i.value, v)))
    case _ => Aborted(parent)
  }

  /** Removes `token` from a parent value. A parent that is neither an object nor an array is left
      alone, without an error. */
  function RemoveChild(parent: Json, token: string): Outcome {
    match parent
    case Obj(m) => if token in m then Done(Obj(m - {token})) else Threw(parent)
    case Arr(xs) =>
      var i := ArrayIndex(token);
      if i.None? || i.value >= |xs| then Threw(parent) else Done(Arr(EraseAt(xs, i.value)))
    case _ => Done(parent)
  }

  /** What happened to the value at `q`, as a change of the whole document. */
  function Within(doc: Json, q: seq<string>, o: Outcome): Outcome
    requires At(doc, q).Some?
  {
    match o
    case Done(j) => Done(Put(doc, q, j))
    case Threw(_) => Threw(doc)
    case Aborted(_) => Aborted(doc)
  }

  /** `operation_add`. */
  function OpAdd(doc: Json, p: seq<string>, v: Json): Outcome {
    if p == [] then Done(v)
    else if |p| > 1 && At(doc, [p[0]]).None? then Threw(doc)
    else if At(doc, Front(p)).None? then Threw(doc)
    else Within(doc, Front(p), AddChild(At(doc, Front(p)).value, Back(p), v))
  }

  /** `operation_remove`. */
  function OpRemove(doc: Json, p: seq<string>): Outcome {
    if p == [] || At(doc, Front(p)).None? then Threw(doc)
    else Within(doc, Front(p), RemoveChild(At(doc, Front(p)).value, Back(p)))
  }

  function OpReplace(doc: Json, p: seq<string>, v: Json): Outcome {
    if At(doc, p).Some? then Done(Put(doc, p, v)) else Threw(doc)
  }

  function OpMove(doc: Json, from: seq<string>, p: seq<string>): Outcome {
    if At(doc, from).None? then Threw(doc)
    else
      match OpRemove(doc, from)
      case Done(d) => OpAdd(d, p, At(doc, from).value)
      case other => other
  }

  function OpCopy(doc: Json, from: seq<string>, p: seq<string>): Outcome {
    if At(doc, from).Some? then OpAdd(doc, p, At(doc, from).value) else Threw(doc)
  }

  function OpTest(doc: Json, p: seq<string>, v: Json): Outcome {
    if At(doc, p).Some? && JsonOrder.Eq(At(doc, p).value, v) then Done(doc) else Threw(doc)
  }

  // ---------- operations as JSON values ----------

  function Member(val: Json, name: string): Option<Json> {
    if val.Obj? && name in val.members then Some(val.members[name]) else None
  }

  function StringMember(val: Json, name: string): Option<string> {
    match Member(val, name)
    case Some(Str(s)) => Some(s)
    case _ => None
  }

  function PointerMember(val: Json, name: string): Option<seq<string>> {
    match StringMember(val, name)
    case Some(s) => ParsePointer(s)
    case None => None
  }

  datatype Operation =
    | Add(ptr: seq<string>, value: Json)
    | Remove(ptr: seq<string>)
    | Replace(ptr: seq<string>, value: Json)
    | Move(from: seq<string>, ptr: seq<string>)
    | Copy(from: seq<string>, ptr: seq<string>)
    | Test(ptr: seq<string>, value: Json)
    | Malformed

  /** The checks made on the members of an operation; `Malformed` stands for every parse error. */
  function Decode(val: Json): Operation {
    var op, ptr := StringMember(val, "op"), PointerMember(val, "path");
    var value, from := Member(val, "value"), PointerMember(val, "from");
    if op.None? || ptr.None? then Malformed
    else
      match op.value
      case "add" => if value.Some? then Add(ptr.value, value.value) else Malformed
      case "remove" => Remove(ptr.value)
      case "replace" => if value.Some? then Replace(ptr.value, value.value) else Malformed
      case "move" => if from.Some? then Move(from.value, ptr.value) else Malformed
      case "copy" => if from.Some? then Copy(from.value, ptr.value) else Malformed
      case "test" => if value.Some? then Test(ptr.value, value.value) else Malformed
      case _ => Malformed
  }

  function Perform(doc: Json, operation: Operation): Outcome {
    match operation
    case Add(ptr, value) => OpAdd(doc, ptr, value)
    case Remove(ptr) => OpRemove(doc, ptr)
    case Replace(ptr, value) => OpReplace(doc, ptr, value)
    case Move(from, ptr) => OpMove(doc, from, ptr)
    case Copy(from, ptr) => OpCopy(doc, from, ptr)
    case Test(ptr, value) => OpTest(doc, ptr, value)
    case Malformed => Threw(doc)
  }

  /** One round of the loop over the operations. */
  function ApplyOp(doc: Json, val: Json): Outcome {
    Perform(doc, Decode(val))
  }

  function Run(doc: Json, ops: seq<Json>): Outcome
    decreases ops
  {
    if ops == [] then Done(doc)
    else
      match ApplyOp(doc, ops[0])
      case Done(d) => Run(d, ops[1..])
      case other => other
  }

  function PatchOutcome(doc: Json, patch: Json): Outcome {
    if patch.Arr? then Run(doc, patch.items) else Threw(doc)
  }

  lemma {:induction false} RunAppend(doc: Json, a: seq<Json>, b: seq<Json>)
    ensures Run(doc, a + b) == if Run(doc, a).Done? then Run(Run(doc, a).doc, b) else Run(doc, a)
    decreases a
  {
    hide ApplyOp;
    if a == [] {
      assert a + b == b;
    } else {
      assert (a + b)[1..] == a[1..] + b;
      var first := ApplyOp(doc, a[0]);
      if first.Done? { RunAppend(first.doc, a[1..], b); }
    }
  }

  lemma RunBoth(doc: Json, a: seq<Json>, middle: Json, b: seq<Json>, end: Outcome)
    requires Run(doc, a) == Done(middle) && Run(middle, b) == end
    ensures Run(doc, a + b) == end
  {
    hide ApplyOp;
    RunAppend(doc, a, b);
  }

  lemma RunSnoc(doc: Json, a: seq<Json>, op: Json)
    ensures Run(doc, a + [op]) == if Run(doc, a).Done? then ApplyOp(Run(doc, a).doc, op) else Run(doc, a)
  {
    hide ApplyOp;
    RunAppend(doc, a, [op]);
    if Run(doc, a).Done? {
      var d := Run(doc, a).doc;
      assert [op][1..] == [];
      assert Run(d, [op]) == ApplyOp(d, op);
    }
  }

  lemma RunOne(doc: Json, op: Json)
    ensures Run(doc, [op]) == ApplyOp(doc, op)
  {
    hide ApplyOp;
    RunSnoc(doc, [], op);
    assert [] + [op] == [op];
  }

  // ---------- remove and add undo each other ----------

  /** The location exists and is not the root. */
  predicate ExistsBelowRoot(doc: Json, p: seq<string>) {
    p != [] && At(doc, p).Some?
  }

  lemma ParentOf(doc: Json, p: seq<string>)
    requires ExistsBelowRoot(doc, p)
    ensures At(doc, Front(p)).Some? && Child(At(doc, Front(p)).value, Back(p)) == At(doc, p)
  {
    assert p == Front(p) + [Back(p)];
    AtPrefix(doc, Front(p), [Back(p)]);
    AtAppend(doc, Front(p), [Back(p)]);
    var parent := At(doc, Front(p)).value;
    assert At(parent, [Back(p)]) == Child(parent, Back(p));
  }

  /** The check of the first token never fails when the parent exists. */
  lemma TopExists(doc: Json, p: seq<string>)
    requires |p| > 1 && At(doc, Front(p)).Some?
    ensures At(doc, [p[0]]).Some?
  {
    assert Front(p) == [p[0]] + Front(p)[1..];
    AtPrefix(doc, [p[0]], Front(p)[1..]);
  }

  lemma OpAddWithin(doc: Json, p: seq<string>, v: Json)
    requires p != [] && At(doc, Front(p)).Some?
    ensures OpAdd(doc, p, v) == Within(doc, Front(p), AddChild(At(doc, Front(p)).value, Back(p), v))
  {
    if |p| > 1 { TopExists(doc, p); }
  }

  lemma AddChildUndoesRemoveChild(parent: Json, token: string)
    requires Child(parent, token).Some?
    ensures RemoveChild(parent, token).Done?
    ensures AddChild(RemoveChild(parent, token).doc, token, Child(parent, token).value) == Done(parent)
  {
    match parent
    case Obj(m) => assert (m - {token})[token := m[token]] == m;
    case Arr(xs) =>
      var i := ArrayIndex(token).value;
      assert token != "-" by { assert '-' in "-"; }
      assert InsertAt(EraseAt(xs, i), i, xs[i]) == xs;
    case _ =>
  }

  /** Section 4.2 then 4.1 of RFC 6902: taking a value out and adding it back at the same location
      restores the document. */
  lemma AddUndoesRemove(doc: Json, p: seq<string>)
    requires ExistsBelowRoot(doc, p)
    ensures OpRemove(doc, p).Done?
    ensures OpAdd(OpRemove(doc, p).doc, p, At(doc, p).value) == Done(doc)
  {
    ParentOf(doc, p);
    var q, parent := Front(p), At(doc, Front(p)).value;
    AddChildUndoesRemoveChild(parent, Back(p));
    var smaller := RemoveChild(parent, Back(p)).doc;
    AtPut(doc, q, smaller);
    OpAddWithin(Put(doc, q, smaller), p, At(doc, p).value);
    PutTwice(doc, q, smaller, parent);
    PutSame(doc, q);
  }

  /** Hence moving a location onto itself changes nothing (section 4.4 of RFC 6902). */
  lemma MoveOntoItself(doc: Json, p: seq<string>)
    requires ExistsBelowRoot(doc, p)
    ensures OpMove(doc, p, p) == Done(doc)
  {
    AddUndoesRemove(doc, p);
  }

  lemma RemoveChildUndoesAddChild(parent: Json, token: string, v: Json)
    requires AddChild(parent, token, v).Done?
    ensures RemoveChild(AddChild(parent, token, v).doc, token) == Done(parent) <==>
            match parent
            case Obj(m) => token !in m
            case Arr(_) => token != "-"
            case _ => false
  {
    match parent
    case Null => assert token in map[token := v];
    case Obj(m) =>
      var removed := m[token := v] - {token};
      if token !in m { assert removed == m; } else { assert token !in removed; }
    case Arr(xs) =>
      if token == "-" {
        assert '-' in token;
      } else {
        var i := ArrayIndex(token).value;
        assert EraseAt(InsertAt(xs, i, v), i) == xs;
      }
    case _ =>
  }

  /** Removing undoes adding exactly when the addition made a new member of an object or inserted
      before an array position: not for "-", a null parent or an overwritten member. */
  lemma RemoveUndoesAdd(doc: Json, p: seq<string>, v: Json)
    requires p != [] && OpAdd(doc, p, v).Done?
    ensures OpRemove(OpAdd(doc, p, v).doc, p) == Done(doc) <==>
            match At(doc, Front(p)).value
            case Obj(m) => Back(p) !in m
            case Arr(_) => Back(p) != "-"
            case _ => false
  {
    var q, parent := Front(p), At(doc, Front(p)).value;
    RemoveChildUndoesAddChild(parent, Back(p), v);
    var grown := AddChild(parent, Back(p), v).doc;
    var back := RemoveChild(grown, Back(p));
    AtPut(doc, q, grown);
    PutTwice(doc, q, grown, back.doc);
    PutSame(doc, q);
    AtPut(doc, q, back.doc);
  }

  lemma RemoveChildSucceedsExactly(parent: Json, token: string)
    ensures RemoveChild(parent, token).Done? <==> Child(parent, token).Some? || !IsContainer(parent)
    ensures !IsContainer(parent) ==> Child(parent, token).None? && RemoveChild(parent, token) == Done(parent)
  {
    hide ArrayIndex;
  }

  lemma ParentAndChild(doc: Json, p: seq<string>)
    requires p != []
    ensures At(doc, p) == if At(doc, Front(p)).Some? then Child(At(doc, Front(p)).value, Back(p)) else None
  {
    assert p == Front(p) + [Back(p)];
    if At(doc, Front(p)).Some? {
      AtAppend(doc, Front(p), [Back(p)]);
      var parent := At(doc, Front(p)).value;
      assert At(parent, [Back(p)]) == Child(parent, Back(p));
    } else if At(doc, p).Some? {
      AtPrefix(doc, Front(p), [Back(p)]);
    }
  }

  /** Section 4.2 of RFC 6902 wants the location of a removal to exist. The code asks for less: below a
      primitive or null value it does nothing and reports success. */
  lemma RemoveSucceedsExactly(doc: Json, p: seq<string>)
    ensures OpRemove(doc, p).Done? <==>
            p != [] && At(doc, Front(p)).Some? && (At(doc, p).Some? || !IsContainer(At(doc, Front(p)).value))
    ensures p != [] && At(doc, Front(p)).Some? && !IsContainer(At(doc, Front(p)).value) ==>
            At(doc, p).None? && OpRemove(doc, p) == Done(doc)
  {
    hide At, Front, Back, Child, RemoveChild, IsContainer, Put;
    if p != [] {
      ParentAndChild(doc, p);
      if At(doc, Front(p)).Some? {
        RemoveChildSucceedsExactly(At(doc, Front(p)).value, Back(p));
        PutSame(doc, Front(p));
      }
    }
  }

  /** The comment in the source says that an existing parent cannot be a primitive value. It can. */
  lemma AddBelowPrimitiveAborts()
    ensures OpAdd(Obj(map["a" := Bool(true)]), ["a", "b"], Null) == Aborted(Obj(map["a" := Bool(true)]))
  {
    var doc := Obj(map["a" := Bool(true)]);
    assert ["a", "b"][..1] == ["a"] && At(doc, ["a"]) == Some(Bool(true));
  }

  /** Adding trips the assertion exactly when the parent exists and is a primitive value. */
  lemma AddAbortsExactlyBelowPrimitives(doc: Json, p: seq<string>, v: Json)
    ensures OpAdd(doc, p, v).Aborted? <==>
            p != [] && At(doc, Front(p)).Some? &&
            var parent := At(doc, Front(p)).value; !parent.Null? && !parent.Obj? && !parent.Arr?
  {
    if p != [] && At(doc, Front(p)).Some? { OpAddWithin(doc, p, v); }
  }
}

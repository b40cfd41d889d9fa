/** What each patch operation does to every location of the document (section 4 of RFC 6902). */
module JsonPatchLaws {
  import opened Wrappers
  import opened Json
  import opened JsonPointer
  import opened JsonOrder
  import opened JsonPatch

  // ---------- locations below a replaced parent ----------

  /** Going on from a child that may be missing. */
  function Into(child: Option<Json>, rest: seq<string>): Option<Json> {
    if child.Some? then At(child.value, rest) else None
  }

  function Under(f: seq<string>, token: string, rest: seq<string>): seq<string> { f + ([token] + rest) }

  lemma AtChild(j: Json, token: string, rest: seq<string>)
    ensures At(j, [token] + rest) == Into(Child(j, token), rest)
  {
    assert ([token] + rest)[1..] == rest;
  }

  lemma AtUnder(doc: Json, f: seq<string>, token: string, rest: seq<string>)
    requires At(doc, f).Some?
    ensures At(doc, Under(f, token, rest)) == Into(Child(At(doc, f).value, token), rest)
  {
    AtAppend(doc, f, [token] + rest);
    AtChild(At(doc, f).value, token, rest);
  }

  lemma AtUnderPut(doc: Json, f: seq<string>, parent: Json, token: string, rest: seq<string>)
    requires At(doc, f).Some?
    ensures At(Put(doc, f, parent), Under(f, token, rest)) == Into(Child(parent, token), rest)
  {
    AtPut(doc, f, parent);
    AtUnder(Put(doc, f, parent), f, token, rest);
  }

  /** Apart from a location, one is apart from its parent or below another child of the parent. */
  lemma {:induction false} ApartFromChild(f: seq<string>, token: string, q: seq<string>)
                                          returns (other: string, rest: seq<string>)
    requires Apart(f + [token], q)
    ensures Apart(f, q) || (q == Under(f, other, rest) && other != token)
  {
    other, rest := "", [];
    if f == [] {
      assert ([] + [token])[0] == token;
      other, rest := q[0], q[1..];
      assert (f + [token])[1..] == [];
      assert q == [] + ([other] + rest);
    } else {
      assert (f + [token])[0] == f[0] && (f + [token])[1..] == f[1..] + [token];
      if q[0] == f[0] {
        other, rest := ApartFromChild(f[1..], token, q[1..]);
        if !Apart(f, q) {
          assert q == [q[0]] + q[1..];
          assert f == [f[0]] + f[1..];
        }
      }
    }
  }

  // ---------- add ----------

  /** The array index that adding under a token inserts at. */
  function Slot(parent: Json, token: string): nat
    requires parent.Arr? && (token == "-" || ArrayIndex(token).Some?)
  {
    if token == "-" then |parent.items| else ArrayIndex(token).value
  }

  lemma AddChildToObject(parent: Json, token: string, v: Json)
    requires !parent.Arr? && AddChild(parent, token, v).Done?
    ensures var r := AddChild(parent, token, v).doc;
            Child(r, token) == Some(v) && forall other | other != token :: Child(r, other) == Child(parent, other)
  {
  }

  lemma AddChildToArray(parent: Json, token: string, v: Json, j: nat)
    requires parent.Arr? && AddChild(parent, token, v).Done?
    ensures token == "-" || ArrayIndex(token).Some?
    ensures var i := Slot(parent, token);
            Child(AddChild(parent, token, v).doc, ToString(j))
            == if j < i then Child(parent, ToString(j)) else if j == i then Some(v) else Child(parent, ToString(j - 1))
  {
    IndexOfToString(j);
    if j > 0 { IndexOfToString(j - 1); }
    hide ArrayIndex, ToString;
    if token == "-" { assert parent.items + [v] == InsertAt(parent.items, |parent.items|, v); }
  }

  predicate ParentIsArray(doc: Json, p: seq<string>) {
    p != [] && At(doc, Front(p)).Some? && At(doc, Front(p)).value.Arr?
  }

  /** The operation at `p` cannot reach the location `q`: under an array it may shift all elements. */
  predicate Clear(doc: Json, p: seq<string>, q: seq<string>) {
    p != [] && if ParentIsArray(doc, p) then Apart(Front(p), q) else Apart(p, q)
  }

  lemma {:induction false} ApartBelow(p: seq<string>, token: string, q: seq<string>)
    requires Apart(p, q)
    ensures Apart(p + [token], q)
  {
    assert (p + [token])[0] == p[0] && (p + [token])[1..] == p[1..] + [token];
    if p[0] == q[0] { ApartBelow(p[1..], token, q[1..]); }
  }

  /** Apart from the parent is always out of reach. */
  lemma ApartFromParentIsClear(doc: Json, p: seq<string>, q: seq<string>)
    requires p != [] && Apart(Front(p), q)
    ensures Clear(doc, p, q)
  {
    FrontAndBack(p);
    ApartBelow(Front(p), Back(p), q);
  }

  lemma FrontAndBack(p: seq<string>)
    requires p != []
    ensures p == Front(p) + [Back(p)]
  {
  }

  lemma AddDone(doc: Json, p: seq<string>, v: Json)
    requires p != [] && OpAdd(doc, p, v).Done?
    ensures At(doc, Front(p)).Some? && AddChild(At(doc, Front(p)).value, Back(p), v).Done?
    ensures OpAdd(doc, p, v).doc == Put(doc, Front(p), AddChild(At(doc, Front(p)).value, Back(p), v).doc)
  {
  }

  /** Replacing the parent, when only the child `token` changes. */
  lemma OnlyChildChanged(doc: Json, p: seq<string>, parent: Json, q: seq<string>)
    requires p != [] && At(doc, Front(p)).Some? && Apart(p, q)
    requires forall other | other != Back(p) :: Child(parent, other) == Child(At(doc, Front(p)).value, other)
    ensures At(Put(doc, Front(p), parent), q) == At(doc, q)
  {
    FrontAndBack(p);
    var f := Front(p);
    hide Front, Back, Child;
    var other, rest := ApartFromChild(f, Back(p), q);
    if Apart(f, q) {
      PutElsewhere(doc, f, q, parent);
    } else {
      AtUnder(doc, f, other, rest);
      AtUnderPut(doc, f, parent, other, rest);
    }
  }

  /** Adding to an object, or to null: the value is at the location and all locations apart from it are as
      they were. */
  lemma AddToObject(doc: Json, p: seq<string>, v: Json, q: seq<string>)
    requires p != [] && OpAdd(doc, p, v).Done? && !ParentIsArray(doc, p)
    ensures var r := OpAdd(doc, p, v).doc;
            At(r, p + q) == At(v, q) && (Apart(p, q) ==> At(r, q) == At(doc, q))
  {
    AddDone(doc, p, v);
    var parent := At(doc, Front(p)).value;
    AddChildToObject(parent, Back(p), v);
    FrontAndBack(p);
    AtUnderPut(doc, Front(p), AddChild(parent, Back(p), v).doc, Back(p), q);
    assert p + q == Under(Front(p), Back(p), q);
    if Apart(p, q) { OnlyChildChanged(doc, p, AddChild(parent, Back(p), v).doc, q); }
  }

  /** Adding to an array: the elements from the slot on move up by one; nothing outside changes. */
  lemma AddToArray(doc: Json, p: seq<string>, v: Json, j: nat, q: seq<string>)
    requires ParentIsArray(doc, p) && OpAdd(doc, p, v).Done?
    ensures Back(p) == "-" || ArrayIndex(Back(p)).Some?
    ensures var r, f, i := OpAdd(doc, p, v).doc, Front(p), Slot(At(doc, Front(p)).value, Back(p));
            && At(r, Under(f, ToString(j), q))
               == (if j < i then At(doc, Under(f, ToString(j), q))
                   else if j == i then At(v, q)
                   else At(doc, Under(f, ToString(j - 1), q)))
            && (Apart(f, q) ==> At(r, q) == At(doc, q))
  {
    AddDone(doc, p, v);
    var f, parent := Front(p), At(doc, Front(p)).value;
    var grown := AddChild(parent, Back(p), v).doc;
    AddChildToArray(parent, Back(p), v, j);
    AtUnderPut(doc, f, grown, ToString(j), q);
    AtUnder(doc, f, ToString(j), q);
    if j > 0 { AtUnder(doc, f, ToString(j - 1), q); }
    if Apart(f, q) { PutElsewhere(doc, f, q, grown); }
  }

  lemma AddKeepsClear(doc: Json, p: seq<string>, v: Json, q: seq<string>)
    requires OpAdd(doc, p, v).Done? && Clear(doc, p, q)
    ensures At(OpAdd(doc, p, v).doc, q) == At(doc, q)
  {
    if ParentIsArray(doc, p) { AddToArray(doc, p, v, 0, q); } else { AddToObject(doc, p, v, q); }
  }

  /** Adding at the end of an array through "-". */
  predicate Appends(doc: Json, p: seq<string>) { ParentIsArray(doc, p) && Back(p) == "-" }

  /** Where an added value is found. */
  function AddedAt(doc: Json, p: seq<string>): seq<string> {
    if Appends(doc, p) then Under(Front(p), ToString(|At(doc, Front(p)).value.items|), []) else p
  }

  lemma DashIsNoIndex(j: Json)
    requires j.Arr?
    ensures Child(j, "-").None? && ArrayIndex("-").None?
  {
    assert '-' in "-";
  }

  lemma IndexIsToString(s: string)
    requires ArrayIndex(s).Some?
    ensures s == ToString(ArrayIndex(s).value)
  {
    IndexOfToString(ArrayIndex(s).value);
    IndexIsInjective(s, ToString(ArrayIndex(s).value));
  }

  /** After a successful add the value is at the location, and with "-" at the new last index instead. */
  lemma AddPuts(doc: Json, p: seq<string>, v: Json)
    requires OpAdd(doc, p, v).Done?
    ensures At(OpAdd(doc, p, v).doc, AddedAt(doc, p)) == Some(v)
    ensures At(OpAdd(doc, p, v).doc, p) == Some(v) <==> !Appends(doc, p)
  {
    if p != [] {
      var f := Front(p);
      FrontAndBack(p);
      if ParentIsArray(doc, p) {
        AddDone(doc, p, v);
        var parent := At(doc, f).value;
        AddChildToArray(parent, Back(p), v, 0);
        AddToArray(doc, p, v, Slot(parent, Back(p)), []);
        assert p == Under(f, Back(p), []);
        if Appends(doc, p) {
          AtUnderPut(doc, f, AddChild(parent, Back(p), v).doc, Back(p), []);
          DashIsNoIndex(AddChild(parent, Back(p), v).doc);
        } else {
          IndexIsToString(Back(p));
        }
      } else {
        AddToObject(doc, p, v, []);
        assert p + [] == p;
      }
    }
  }

  // ---------- remove ----------

  lemma RemoveDone(doc: Json, p: seq<string>)
    requires At(doc, p).Some? && OpRemove(doc, p).Done?
    ensures p != [] && At(doc, Front(p)).Some? && Child(At(doc, Front(p)).value, Back(p)) == At(doc, p)
    ensures RemoveChild(At(doc, Front(p)).value, Back(p)).Done?
    ensures OpRemove(doc, p).doc == Put(doc, Front(p), RemoveChild(At(doc, Front(p)).value, Back(p)).doc)
  {
    ParentAndChild(doc, p);
  }

  /** Removing a member of an object: nothing is left at or below the location, and all locations apart
      from it are as they were. */
  lemma RemoveFromObject(doc: Json, p: seq<string>, q: seq<string>)
    requires At(doc, p).Some? && OpRemove(doc, p).Done? && !ParentIsArray(doc, p)
    ensures var r := OpRemove(doc, p).doc;
            At(r, p + q).None? && (Apart(p, q) ==> At(r, q) == At(doc, q))
  {
    RemoveDone(doc, p);
    var f, parent := Front(p), At(doc, Front(p)).value;
    var smaller := RemoveChild(parent, Back(p)).doc;
    assert Child(smaller, Back(p)).None?;
    assert forall other | other != Back(p) :: Child(smaller, other) == Child(parent, other);
    FrontAndBack(p);
    AtUnderPut(doc, f, smaller, Back(p), q);
    assert p + q == Under(f, Back(p), q);
    if Apart(p, q) { OnlyChildChanged(doc, p, smaller, q); }
  }

  lemma RemoveChildFromArray(parent: Json, token: string, j: nat)
    requires parent.Arr? && Child(parent, token).Some?
    ensures ArrayIndex(token).Some? && RemoveChild(parent, token).Done?
    ensures Child(RemoveChild(parent, token).doc, ToString(j))
            == Child(parent, ToString(if j < ArrayIndex(token).value then j else j + 1))
  {
    IndexOfToString(j);
    IndexOfToString(j + 1);
    hide ArrayIndex, ToString;
  }

  /** Removing an element of an array: the elements behind it move down by one; nothing outside changes. */
  lemma RemoveFromArray(doc: Json, p: seq<string>, j: nat, q: seq<string>)
    requires At(doc, p).Some? && OpRemove(doc, p).Done? && ParentIsArray(doc, p)
    ensures ArrayIndex(Back(p)).Some?
    ensures var r, f, i := OpRemove(doc, p).doc, Front(p), ArrayIndex(Back(p)).value;
            && At(r, Under(f, ToString(j), q)) == At(doc, Under(f, ToString(if j < i then j else j + 1), q))
            && (Apart(f, q) ==> At(r, q) == At(doc, q))
  {
    RemoveDone(doc, p);
    var f, parent := Front(p), At(doc, Front(p)).value;
    RemoveChildFromArray(parent, Back(p), j);
    var smaller := RemoveChild(parent, Back(p)).doc;
    AtUnderPut(doc, f, smaller, ToString(j), q);
    AtUnder(doc, f, ToString(j), q);
    AtUnder(doc, f, ToString(j + 1), q);
    if Apart(f, q) { PutElsewhere(doc, f, q, smaller); }
  }

  lemma RemoveKeepsClear(doc: Json, p: seq<string>, q: seq<string>)
    requires At(doc, p).Some? && OpRemove(doc, p).Done? && Clear(doc, p, q)
    ensures At(OpRemove(doc, p).doc, q) == At(doc, q)
  {
    if ParentIsArray(doc, p) { RemoveFromArray(doc, p, 0, q); } else { RemoveFromObject(doc, p, q); }
  }

  // ---------- replace ----------

  lemma ReplacePuts(doc: Json, p: seq<string>, v: Json, q: seq<string>)
    requires OpReplace(doc, p, v).Done?
    ensures var r := OpReplace(doc, p, v).doc;
            At(r, p + q) == At(v, q) && (Apart(p, q) ==> At(r, q) == At(doc, q))
  {
    AtPut(doc, p, v);
    AtAppend(Put(doc, p, v), p, q);
    if Apart(p, q) { PutElsewhere(doc, p, q, v); }
  }

  // ---------- move and copy ----------

  lemma MoveDone(doc: Json, from: seq<string>, p: seq<string>)
    requires OpMove(doc, from, p).Done?
    ensures At(doc, from).Some? && OpRemove(doc, from).Done?
    ensures OpMove(doc, from, p) == OpAdd(OpRemove(doc, from).doc, p, At(doc, from).value)
  {
  }

  /** A successful move puts the value from `from` at `p`, or with "-" at the new last index, and changes no
      location that neither the removal nor the addition can reach. */
  lemma MovePuts(doc: Json, from: seq<string>, p: seq<string>, q: seq<string>)
    requires OpMove(doc, from, p).Done?
    ensures OpRemove(doc, from).Done?
    ensures var r, d := OpMove(doc, from, p).doc, OpRemove(doc, from).doc;
            && At(r, AddedAt(d, p)) == At(doc, from)
            && (At(r, p) == At(doc, from) <==> !Appends(d, p))
            && (Clear(doc, from, q) && Clear(d, p, q) ==> At(r, q) == At(doc, q))
  {
    MoveDone(doc, from, p);
    var d, v := OpRemove(doc, from).doc, At(doc, from).value;
    hide OpMove, OpAdd, OpRemove, Clear, Appends, AddedAt;
    AddPuts(d, p, v);
    if Clear(doc, from, q) && Clear(d, p, q) {
      RemoveKeepsClear(doc, from, q);
      AddKeepsClear(d, p, v, q);
    }
  }

  /** Moving a member out of an object leaves nothing at its location, provided that the addition cannot
      reach that location. */
  lemma MoveLeavesNothing(doc: Json, from: seq<string>, p: seq<string>)
    requires OpMove(doc, from, p).Done? && !ParentIsArray(doc, from)
    requires OpRemove(doc, from).Done? && Clear(OpRemove(doc, from).doc, p, from)
    ensures At(OpMove(doc, from, p).doc, from).None?
  {
    MoveDone(doc, from, p);
    var d, v := OpRemove(doc, from).doc, At(doc, from).value;
    RemoveFromObject(doc, from, []);
    assert from + [] == from;
    hide OpMove, OpAdd, OpRemove, Clear;
    AddKeepsClear(d, p, v, from);
  }

  /** The proviso is needed: inserting into an array around the source can shift another value onto it. */
  lemma MoveShiftsIntoSource()
    ensures var doc := Arr([Obj(map["x" := Bool(true)]), Obj(map["x" := Bool(false)])]);
            var from, p := [ToString(1), "x"], [ToString(0)];
            && Apart(from, p) && OpMove(doc, from, p).Done?
            && At(OpMove(doc, from, p).doc, p) == Some(Bool(false))
            && At(OpMove(doc, from, p).doc, from) == Some(Bool(true))
  {
    var a, b, e := Obj(map["x" := Bool(true)]), Obj(map["x" := Bool(false)]), Obj(map[]);
    var doc, from, p := Arr([a, b]), [ToString(1), "x"], [ToString(0)];
    IndexOfToString(0);
    IndexOfToString(1);
    assert ToString(0) != ToString(1);
    hide ArrayIndex, ToString;
    assert Front(from) == [ToString(1)] && Back(from) == "x" && Front(p) == [] && Back(p) == ToString(0);
    assert from[1..] == ["x"] && ["x"][1..] == [];
    assert Child(doc, ToString(1)) == Some(b) && Child(b, "x") == Some(Bool(false));
    assert At(b, ["x"]) == Some(Bool(false)) && At(doc, from) == Some(Bool(false));
    assert [ToString(1)][1..] == [] && At(doc, [ToString(1)]) == Some(b);
    assert map["x" := Bool(false)] - {"x"} == map[];
    assert RemoveChild(b, "x") == Done(e);
    assert Put(b, [], e) == e && SetChild(doc, ToString(1), e) == Arr([a, e]);
    assert OpRemove(doc, from) == Done(Arr([a, e]));
    DashIsNoIndex(doc);
    assert InsertAt([a, e], 0, Bool(false)) == [Bool(false), a, e];
    assert OpAdd(Arr([a, e]), p, Bool(false)) == Done(Arr([Bool(false), a, e]));
    var r := Arr([Bool(false), a, e]);
    assert Child(r, ToString(1)) == Some(a) && At(a, ["x"]) == Some(Bool(true));
    assert At(r, from) == Some(Bool(true)) && p[1..] == [] && At(r, p) == Some(Bool(false));
  }

  lemma FrontOfLonger(p: seq<string>, rest: seq<string>)
    requires rest != []
    ensures Front(p + rest) == p + Front(rest)
  {
  }

  /** A member of an object cannot be moved below itself (section 4.4 of RFC 6902). */
  lemma MoveBelowItselfFails(doc: Json, from: seq<string>, rest: seq<string>)
    requires ExistsBelowRoot(doc, from) && !ParentIsArray(doc, from) && rest != []
    ensures !OpMove(doc, from, from + rest).Done?
  {
    AddUndoesRemove(doc, from);
    RemoveFromObject(doc, from, Front(rest));
    FrontOfLonger(from, rest);
    hide At, Front, OpRemove;
  }

  /** A successful copy puts the value at `p`, or with "-" at the new last index, keeps it at `from` if the
      addition cannot reach that, and changes no location that the addition cannot reach. */
  lemma CopyPuts(doc: Json, from: seq<string>, p: seq<string>, q: seq<string>)
    requires OpCopy(doc, from, p).Done?
    ensures var r := OpCopy(doc, from, p).doc;
            && At(doc, from).Some?
            && At(r, AddedAt(doc, p)) == At(doc, from)
            && (At(r, p) == At(doc, from) <==> !Appends(doc, p))
            && (Clear(doc, p, q) ==> At(r, q) == At(doc, q))
            && (Clear(doc, p, from) ==> At(r, from) == At(doc, from))
  {
    var v := At(doc, from).value;
    hide OpAdd, Clear, Appends, AddedAt;
    AddPuts(doc, p, v);
    if Clear(doc, p, q) { AddKeepsClear(doc, p, v, q); }
    if Clear(doc, p, from) { AddKeepsClear(doc, p, v, from); }
  }

  // ---------- failure ----------

  /** An operation that fails leaves the document as it was, except for a move whose value has been taken out
      but cannot be put in: that value is gone. */
  lemma FailureKeepsTheDocument(doc: Json, from: seq<string>, p: seq<string>, v: Json)
    ensures !OpAdd(doc, p, v).Done? ==> OpAdd(doc, p, v).doc == doc
    ensures !OpRemove(doc, p).Done? ==> OpRemove(doc, p).doc == doc
    ensures !OpReplace(doc, p, v).Done? ==> OpReplace(doc, p, v).doc == doc
    ensures !OpCopy(doc, from, p).Done? ==> OpCopy(doc, from, p).doc == doc
    ensures OpTest(doc, p, v).doc == doc
    ensures !OpMove(doc, from, p).Done? ==>
            OpMove(doc, from, p).doc == if ExistsBelowRoot(doc, from) then OpRemove(doc, from).doc else doc
  {
    hide Put, AddChild, RemoveChild;
    assert forall d, w :: !OpAdd(d, p, w).Done? ==> OpAdd(d, p, w).doc == d;
    if ExistsBelowRoot(doc, from) { AddUndoesRemove(doc, from); }
  }

  // ---------- test ----------

  /** A test finds what was added, and never changes the document. */
  lemma TestFindsWhatWasAdded(doc: Json, p: seq<string>, v: Json)
    requires OpAdd(doc, p, v).Done?
    ensures var r := OpAdd(doc, p, v).doc; OpTest(r, AddedAt(doc, p), v) == Done(r)
  {
    AddPuts(doc, p, v);
    EqReflexive(v);
    hide OpAdd, AddedAt;
  }

  /** One location passes the tests for two values only if they are equal, and then both or neither. */
  lemma TestsAgree(doc: Json, p: seq<string>, v: Json, w: Json)
    ensures OpTest(doc, p, v).Done? && OpTest(doc, p, w).Done? ==> Eq(v, w)
    ensures Eq(v, w) ==> OpTest(doc, p, v) == OpTest(doc, p, w)
  {
    hide Eq;
    if At(doc, p).Some? {
      var u := At(doc, p).value;
      if Eq(u, v) {
        EqSymmetric(u, v);
        if Eq(u, w) { EqTransitive(v, u, w); }
        if Eq(v, w) { EqTransitive(u, v, w); }
      }
      if Eq(v, w) {
        EqSymmetric(v, w);
        if Eq(u, w) { EqTransitive(u, w, v); }
      }
    }
  }

  // ---------- operations as JSON ----------

  function TwoFields(k: string, a: Json, l: string, b: Json): map<string, Json> { map[k := a, l := b] }

  function Fields(op: string, p: seq<string>): map<string, Json> {
    TwoFields("op", Str(op), "path", Str(PrintPointer(p)))
  }

  /** An operation as section 4 of RFC 6902 writes it. */
  function Encode(operation: Operation): Json
    requires !operation.Malformed?
  {
    match operation
    case Add(p, v) => Obj(Fields("add", p)["value" := v])
    case Remove(p) => Obj(Fields("remove", p))
    case Replace(p, v) => Obj(Fields("replace", p)["value" := v])
    case Move(from, p) => Obj(Fields("move", p)["from" := Str(PrintPointer(from))])
    case Copy(from, p) => Obj(Fields("copy", p)["from" := Str(PrintPointer(from))])
    case Test(p, v) => Obj(Fields("test", p)["value" := v])
  }

  lemma TwoFieldsAreRead(k: string, a: Json, l: string, b: Json, name: string, v: Json)
    requires k != l && name != k && name != l
    ensures var m := TwoFields(k, a, l, b);
            && Member(Obj(m), k) == Some(a) && Member(Obj(m), l) == Some(b)
            && Member(Obj(m[name := v]), k) == Some(a) && Member(Obj(m[name := v]), l) == Some(b)
            && Member(Obj(m[name := v]), name) == Some(v)
  {
  }

  lemma FieldNames()
    ensures "op" != "path" && "value" != "op" && "value" != "path" && "from" != "op" && "from" != "path"
  {
    assert |"op"| == 2 && |"path"| == 4 && |"value"| == 5 && |"from"| == 4;
    assert "from"[0] == 'f' && "path"[0] == 'p';
  }

  lemma FieldsAreRead(op: string, p: seq<string>, name: string, v: Json)
    requires name != "op" && name != "path"
    ensures var val := Obj(Fields(op, p)[name := v]);
            StringMember(val, "op") == Some(op) && PointerMember(val, "path") == Some(p) && Member(val, name) == Some(v)
    ensures var val := Obj(Fields(op, p));
            StringMember(val, "op") == Some(op) && PointerMember(val, "path") == Some(p)
  {
    FieldNames();
    ParseAfterPrint(p);
    hide ParsePointer, PrintPointer, TwoFields, Member;
    TwoFieldsAreRead("op", Str(op), "path", Str(PrintPointer(p)), name, v);
  }

  /** The interpreter reads every well-formed operation as the one it is. */
  lemma DecodeAfterEncode(operation: Operation)
    requires !operation.Malformed?
    ensures Decode(Encode(operation)) == operation
  {
    FieldNames();
    hide Decode, Fields;
    match operation
    case Add(p, v) => DecodeField("add", p, "value", v);
    case Remove(p) => DecodeField("remove", p, "value", Null);
    case Replace(p, v) => DecodeField("replace", p, "value", v);
    case Move(from, p) => DecodeFrom("move", p, from);
    case Copy(from, p) => DecodeFrom("copy", p, from);
    case Test(p, v) => DecodeField("test", p, "value", v);
  }

  /** Hence each operation of a patch does what its name says. */
  lemma InterpretedAs(doc: Json, from: seq<string>, p: seq<string>, v: Json)
    ensures ApplyOp(doc, Encode(Add(p, v))) == OpAdd(doc, p, v)
    ensures ApplyOp(doc, Encode(Remove(p))) == OpRemove(doc, p)
    ensures ApplyOp(doc, Encode(Replace(p, v))) == OpReplace(doc, p, v)
    ensures ApplyOp(doc, Encode(Move(from, p))) == OpMove(doc, from, p)
    ensures ApplyOp(doc, Encode(Copy(from, p))) == OpCopy(doc, from, p)
    ensures ApplyOp(doc, Encode(Test(p, v))) == OpTest(doc, p, v)
  {
    hide Decode, Encode, OpAdd, OpRemove, OpReplace, OpMove, OpCopy, OpTest;
    DecodeAfterEncode(Add(p, v));
    DecodeAfterEncode(Remove(p));
    DecodeAfterEncode(Replace(p, v));
    DecodeAfterEncode(Move(from, p));
    DecodeAfterEncode(Copy(from, p));
    DecodeAfterEncode(Test(p, v));
  }

  lemma DecodeField(op: string, p: seq<string>, name: string, v: Json)
    requires name == "value"
    ensures var val := Obj(Fields(op, p)[name := v]);
            Decode(val) == match op
                           case "add" => Add(p, v)
                           case "remove" => Remove(p)
                           case "replace" => Replace(p, v)
                           case "test" => Test(p, v)
                           case _ => Decode(val)
    ensures op == "remove" ==> Decode(Obj(Fields(op, p))) == Remove(p)
  {
    FieldNames();
    FieldsAreRead(op, p, name, v);
    hide Fields, StringMember, PointerMember, Member;
  }

  lemma DecodeFrom(op: string, p: seq<string>, from: seq<string>)
    ensures var val := Obj(Fields(op, p)["from" := Str(PrintPointer(from))]);
            Decode(val) == match op
                           case "move" => Move(from, p)
                           case "copy" => Copy(from, p)
                           case _ => Decode(val)
  {
    FieldNames();
    ParseAfterPrint(from);
    hide Fields, ParsePointer, PrintPointer, Member;
    FieldsAreRead(op, p, "from", Str(PrintPointer(from)));
  }
}

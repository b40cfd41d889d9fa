/** JSON Pointer as RFC 6901 defines it (sections 3 to 5), and the two ways the document uses one:
    reading the value at a location and replacing it. */
module JsonPointer {
  import opened Wrappers
  import opened Json

  // ---------- escaping of reference tokens ----------

  function Escape(s: string): string {
    if s == "" then ""
    else (if s[0] == '~' then "~0" else if s[0] == '/' then "~1" else [s[0]]) + Escape(s[1..])
  }

  /** `None` when a '~' is not followed by '0' or '1'. */
  function Unescape(s: string): Option<string> {
    if s == "" then Some("")
    else if s[0] != '~' then Cons(s[0], Unescape(s[1..]))
    else if |s| >= 2 && s[1] == '0' then Cons('~', Unescape(s[2..]))
    else if |s| >= 2 && s[1] == '1' then Cons('/', Unescape(s[2..]))
    else None
  }

  function Cons(c: char, rest: Option<string>): Option<string> {
    if rest.Some? then Some([c] + rest.value) else None
  }

  lemma {:induction false} UnescapeAfterEscape(s: string)
    ensures Unescape(Escape(s)) == Some(s) && '/' !in Escape(s)
  {
    if s != "" {
      UnescapeAfterEscape(s[1..]);
      var e := Escape(s);
      if s[0] == '~' || s[0] == '/' {
        assert e[2..] == Escape(s[1..]);
      } else {
        assert e[1..] == Escape(s[1..]);
      }
      assert s == [s[0]] + s[1..];
    }
  }

  lemma {:induction false} EscapeAfterUnescape(t: string)
    requires '/' !in t && Unescape(t).Some?
    ensures Escape(Unescape(t).value) == t
  {
    if t != "" {
      var n := if t[0] == '~' then 2 else 1;
      EscapeAfterUnescape(t[n..]);
      assert t == t[..n] + t[n..];
      assert Unescape(t).value[1..] == Unescape(t[n..]).value;
    }
  }

  /** Section 4 of RFC 6901 read backwards: '~' is written "~0", '/' is written "~1", and every other
      character stands for itself. */
  lemma {:induction false} EscapeCharByChar(s: string, t: string, c: char)
    ensures Escape(s + t) == Escape(s) + Escape(t)
    ensures Escape("~") == "~0" && Escape("/") == "~1" && (c != '~' && c != '/' ==> Escape([c]) == [c])
    decreases |s|
  {
    assert Escape("") == "" && "~"[1..] == "" && "/"[1..] == "" && [c][1..] == "";
    if s == "" {
      assert s + t == t;
    } else {
      EscapeCharByChar(s[1..], t, c);
      assert (s + t)[1..] == s[1..] + t;
    }
  }

  // ---------- parsing and printing a pointer ----------

  /** Position of the last '/', or -1. */
  function LastSlash(s: string): (j: int)
    ensures -1 <= j < |s|
    ensures j >= 0 ==> s[j] == '/'
    ensures forall i | j < i < |s| :: s[i] != '/'
  {
    if s == "" then -1
    else if s[|s| - 1] == '/' then |s| - 1
    else
      var front := s[..|s| - 1];
      assert forall i | 0 <= i < |front| :: front[i] == s[i];
      LastSlash(front)
  }

  /** The reference tokens of a pointer; `None` when the text is not a pointer. */
  function ParsePointer(s: string): Option<seq<string>> {
    if s == "" then Some([])
    else
      var j := LastSlash(s);
      if j < 0 then None
      else
        var front, last := ParsePointer(s[..j]), Unescape(s[j + 1..]);
        if front.Some? && last.Some? then Some(front.value + [last.value]) else None
  }

  function PrintPointer(p: seq<string>): string {
    if p == [] then "" else PrintPointer(p[..|p| - 1]) + "/" + Escape(p[|p| - 1])
  }

  lemma LastSlashIs(s: string, j: nat)
    requires j < |s| && s[j] == '/' && forall i | j < i < |s| :: s[i] != '/'
    ensures LastSlash(s) == j
  {
    hide LastSlash;
    var k := LastSlash(s);
    assert forall i | k < i < |s| :: s[i] != '/';
  }

  lemma JoinedAt(path: string, slash: string, token: string)
    requires |slash| == 1
    ensures var s := path + slash + token;
            && |s| == |path| + 1 + |token| && s[..|path|] == path && s[|path|] == slash[0] && s[|path| + 1..] == token
            && forall i | |path| < i < |s| :: s[i] == token[i - |path| - 1]
  {
  }

  lemma LastSlashOfChild(path: string, token: string)
    requires '/' !in token
    ensures LastSlash(path + "/" + token) == |path|
  {
    hide *;
    JoinedAt(path, "/", token);
    LastSlashIs(path + "/" + token, |path|);
  }

  /** Extending a pointer by an escaped token extends its token list by that token. */
  lemma ParseChild(path: string, token: string)
    requires ParsePointer(path).Some?
    ensures ParsePointer(path + "/" + Escape(token)) == Some(ParsePointer(path).value + [token])
  {
    hide Escape, Unescape, LastSlash;
    UnescapeAfterEscape(token);
    LastSlashOfChild(path, Escape(token));
    JoinedAt(path, "/", Escape(token));
  }

  lemma PrintChild(p: seq<string>, token: string)
    ensures PrintPointer(p + [token]) == PrintPointer(p) + "/" + Escape(token)
  {
    assert (p + [token])[..|p|] == p;
  }

  lemma {:induction false} ParseAfterPrint(p: seq<string>)
    ensures ParsePointer(PrintPointer(p)) == Some(p)
    decreases |p|
  {
    if p != [] {
      var front, last := p[..|p| - 1], p[|p| - 1];
      assert p == front + [last];
      ParseAfterPrint(front);
      ParseChild(PrintPointer(front), last);
      PrintChild(front, last);
    }
  }

  /** A non-empty pointer is a shorter pointer, a '/' and an escaped token. */
  lemma SplitPointer(s: string) returns (path: string, text: string)
    requires s != "" && ParsePointer(s).Some?
    ensures |path| < |s| && s == path + "/" + text && '/' !in text
    ensures ParsePointer(path).Some? && Unescape(text).Some?
    ensures ParsePointer(s).value == ParsePointer(path).value + [Unescape(text).value]
  {
    var j := LastSlash(s);
    path, text := s[..j], s[j + 1..];
    assert s == s[..j] + [s[j]] + s[j + 1..];
    forall i | 0 <= i < |text| ensures text[i] != '/' { assert text[i] == s[j + 1 + i]; }
  }

  lemma {:induction false} PrintAfterParse(s: string)
    requires ParsePointer(s).Some?
    ensures PrintPointer(ParsePointer(s).value) == s
    decreases |s|
  {
    if s != "" {
      var path, text := SplitPointer(s);
      PrintAfterParse(path);
      EscapeAfterUnescape(text);
      PrintChild(ParsePointer(path).value, Unescape(text).value);
    }
  }

  // ---------- array indices ----------

  function DigitChar(d: nat): char
    requires d < 10
  {
    ('0' as int + d) as char
  }

  /** `std::to_string`. */
  function ToString(n: nat): (s: string)
    ensures s != ""
  {
    if n < 10 then [DigitChar(n)] else ToString(n / 10) + [DigitChar(n % 10)]
  }

  predicate IsDigit(c: char) { '0' <= c <= '9' }

  function Digit(c: char): nat
    requires IsDigit(c)
  {
    c as int - '0' as int
  }

  predicate AllDigits(s: string) { forall c | c in s :: IsDigit(c) }

  function DecimalValue(s: string): nat
    requires AllDigits(s)
  {
    if s == "" then 0 else DecimalValue(s[..|s| - 1]) * 10 + Digit(s[|s| - 1])
  }

  /** Section 4 of RFC 6901: '0', or digits without a leading zero. */
  function ArrayIndex(s: string): Option<nat> {
    if s == "" || (|s| > 1 && s[0] == '0') || !AllDigits(s) then None else Some(DecimalValue(s))
  }

  lemma {:induction false} ToStringDigits(n: nat)
    ensures AllDigits(ToString(n)) && DecimalValue(ToString(n)) == n
    ensures ToString(n)[0] == '0' <==> n == 0
  {
    if n >= 10 {
      ToStringDigits(n / 10);
      assert ToString(n)[..|ToString(n)| - 1] == ToString(n / 10);
    }
  }

  /** The digits of an index, the last one first. */
  lemma DecimalDigits(n: nat)
    ensures n < 10 ==> ToString(n) == "0123456789"[n..n + 1]
    ensures n >= 10 ==> ToString(n) == ToString(n / 10) + ToString(n % 10)
  {
    var digits := "0123456789";
    if n < 10 { assert digits[n] == DigitChar(n); }
  }

  lemma IndexOfToString(n: nat)
    ensures ArrayIndex(ToString(n)) == Some(n)
  {
    ToStringDigits(n);
  }

  lemma {:induction false} EscapeOfDigits(s: string)
    requires AllDigits(s)
    ensures Escape(s) == s
  {
    if s != "" {
      EscapeOfDigits(s[1..]);
      assert s[0] in s;
      assert s == [s[0]] + s[1..];
    }
  }

  lemma ToStringOfTens(n: nat, d: nat)
    requires n > 0 && d < 10
    ensures ToString(n * 10 + d) == ToString(n) + [DigitChar(d)]
  {
    assert (n * 10 + d) / 10 == n && (n * 10 + d) % 10 == d;
  }

  lemma {:induction false} DecimalIsToString(s: string)
    requires s != "" && AllDigits(s) && (|s| > 1 ==> s[0] != '0')
    ensures s == ToString(DecimalValue(s)) && (s[0] != '0' ==> DecimalValue(s) > 0)
  {
    var front, last := s[..|s| - 1], s[|s| - 1];
    assert s == front + [last];
    assert last in s && s[0] in s;
    if |s| > 1 {
      assert AllDigits(front);
      DecimalIsToString(front);
      ToStringOfTens(DecimalValue(front), Digit(last));
    }
  }

  /** Two tokens never name the same array element. */
  lemma IndexIsInjective(s: string, t: string)
    requires ArrayIndex(s).Some? && ArrayIndex(s) == ArrayIndex(t)
    ensures s == t
  {
    DecimalIsToString(s);
    DecimalIsToString(t);
  }

  // ---------- locations of a document ----------

  /** The value one token below `j`. */
  function Child(j: Json, token: string): (r: Option<Json>)
    ensures r.Some? ==> r.value < j
  {
    match j
    case Obj(m) => if token in m then Some(m[token]) else None
    case Arr(xs) =>
      var i := ArrayIndex(token);
      if i.Some? && i.value < |xs| then Some(xs[i.value]) else None
    case _ => None
  }

  function SetChild(j: Json, token: string, v: Json): (r: Json)
    requires Child(j, token).Some?
    ensures Child(r, token) == Some(v)
    ensures forall other | other != token :: Child(r, other) == Child(j, other)
  {
    match j
    case Obj(m) => Obj(m[token := v])
    case Arr(xs) =>
      var i := ArrayIndex(token).value;
      assert forall other | other != token :: ArrayIndex(other) != Some(i) by {
        forall other | other != token ensures ArrayIndex(other) != Some(i) {
          if ArrayIndex(other) == Some(i) { IndexIsInjective(other, token); }
        }
      }
      Arr(xs[i := v])
  }

  /** `at(ptr)`: `None` where the source throws. */
  function At(doc: Json, p: seq<string>): Option<Json> {
    if p == [] then Some(doc)
    else
      var c := Child(doc, p[0]);
      if c.Some? then At(c.value, p[1..]) else None
  }

  /** Assignment through the reference `at(ptr)`. */
  function Put(doc: Json, p: seq<string>, v: Json): (r: Json)
    requires At(doc, p).Some?
  {
    if p == [] then v else SetChild(doc, p[0], Put(Child(doc, p[0]).value, p[1..], v))
  }

  lemma {:induction false} AtAppend(doc: Json, p: seq<string>, q: seq<string>)
    requires At(doc, p).Some?
    ensures At(doc, p + q) == At(At(doc, p).value, q)
  {
    if p == [] {
      assert p + q == q;
    } else {
      AtAppend(Child(doc, p[0]).value, p[1..], q);
      assert (p + q)[1..] == p[1..] + q;
    }
  }

  lemma {:induction false} AtPrefix(doc: Json, p: seq<string>, q: seq<string>)
    requires At(doc, p + q).Some?
    ensures At(doc, p).Some?
  {
    if p != [] {
      assert (p + q)[1..] == p[1..] + q;
      AtPrefix(Child(doc, p[0]).value, p[1..], q);
    }
  }

  lemma {:induction false} AtPut(doc: Json, p: seq<string>, v: Json)
    requires At(doc, p).Some?
    ensures At(Put(doc, p, v), p) == Some(v)
  {
    if p != [] { AtPut(Child(doc, p[0]).value, p[1..], v); }
  }

  lemma SetChildTwice(j: Json, token: string, v: Json, w: Json)
    requires Child(j, token).Some?
    ensures SetChild(SetChild(j, token, v), token, w) == SetChild(j, token, w)
  {
    if j.Obj? { assert j.members[token := v][token := w] == j.members[token := w]; }
  }

  lemma {:induction false} PutTwice(doc: Json, p: seq<string>, v: Json, w: Json)
    requires At(doc, p).Some?
    ensures At(Put(doc, p, v), p).Some? && Put(Put(doc, p, v), p, w) == Put(doc, p, w)
  {
    AtPut(doc, p, v);
    if p != [] {
      var c := Child(doc, p[0]).value;
      PutTwice(c, p[1..], v, w);
      SetChildTwice(doc, p[0], Put(c, p[1..], v), Put(c, p[1..], w));
    }
  }

  lemma {:induction false} PutSame(doc: Json, p: seq<string>)
    requires At(doc, p).Some?
    ensures Put(doc, p, At(doc, p).value) == doc
  {
    if p != [] {
      PutSame(Child(doc, p[0]).value, p[1..]);
      if doc.Obj? { assert doc.members[p[0] := doc.members[p[0]]] == doc.members; }
    }
  }

  lemma {:induction false} PutAppend(doc: Json, p: seq<string>, q: seq<string>, v: Json)
    requires At(doc, p).Some? && At(At(doc, p).value, q).Some?
    ensures At(doc, p + q).Some? && Put(doc, p + q, v) == Put(doc, p, Put(At(doc, p).value, q, v))
  {
    AtAppend(doc, p, q);
    if p == [] {
      assert p + q == q;
    } else {
      PutAppend(Child(doc, p[0]).value, p[1..], q, v);
      assert (p + q)[1..] == p[1..] + q;
    }
  }

  /** Neither location is at or below the other. */
  predicate Apart(p: seq<string>, q: seq<string>) {
    p != [] && q != [] && (p[0] != q[0] || Apart(p[1..], q[1..]))
  }

  /** Assigning at a location leaves every location apart from it as it was. */
  lemma {:induction false} PutElsewhere(doc: Json, p: seq<string>, q: seq<string>, v: Json)
    requires At(doc, p).Some? && Apart(p, q)
    ensures At(Put(doc, p, v), q) == At(doc, q)
  {
    if p[0] == q[0] { PutElsewhere(Child(doc, p[0]).value, p[1..], q[1..], v); }
  }

  /** Replacing the value at `p` by `parent` and then the child `token` of it. */
  lemma PutChild(doc: Json, p: seq<string>, parent: Json, token: string, v: Json)
    requires At(doc, p).Some? && Child(parent, token).Some?
    ensures At(Put(doc, p, parent), p + [token]) == Child(parent, token)
    ensures Put(Put(doc, p, parent), p + [token], v) == Put(doc, p, SetChild(parent, token, v))
  {
    var d := Put(doc, p, parent);
    AtPut(doc, p, parent);
    AtAppend(d, p, [token]);
    assert At(parent, [token]) == Child(parent, token);
    PutAppend(d, p, [token], v);
    assert Put(parent, [token], v) == SetChild(parent, token, v);
    PutTwice(doc, p, parent, SetChild(parent, token, v));
  }
}

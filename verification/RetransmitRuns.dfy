/** Whole runs of the client and of a channel that loses and delays frames but does not duplicate them. */
module RetransmitRuns {
  import opened Cbc
  import opened Frame
  import opened Retransmit

  /** `frames[n]` is the frame of the n-th registration. `handled` lists what the server has read. */
  datatype World = World(pending: Pending, frames: seq<Bytes>, sent: seq<Copy>, inFlight: seq<Copy>, handled: seq<Copy>)

  /** `wire` is the part of the frame that the first transmission puts on the wire. `Ack` is any message that acknowledges the id, a chat of another user included. */
  datatype Event =
    | Register(id: UInt32, frame: Bytes, now: int, wire: Bytes)
    | Scan(now: int, order: seq<UInt32>, sends: map<UInt32, int>)
    | Ack(id: UInt32)
    | Arrive(k: nat)
    | Lose(k: nat)

  const Start: World := World(map[], [], [], [], [])

  ghost predicate Enabled(w: World, e: Event) {
    match e
    case Register(_, frame, _, wire) => wire <= frame
    case Scan(_, order, _) => Visits(order, w.pending)
    case Ack(_) => true
    case Arrive(k) => k < |w.inFlight|
    case Lose(k) => k < |w.inFlight|
  }

  function Without(s: seq<Copy>, k: nat): seq<Copy>
    requires k < |s|
  {
    s[..k] + s[k + 1..]
  }

  function Send(w: World, copies: seq<Copy>): World {
    w.(sent := w.sent + copies, inFlight := w.inFlight + copies)
  }

  ghost function Step(w: World, e: Event): World
    requires Enabled(w, e)
  {
    match e
    case Register(id, frame, now, wire) =>
      var n := |w.frames|;
      Send(w.(pending := w.pending[id := Entry(frame, 0, now, n, now)], frames := w.frames + [frame]),
           FirstCopy(n, wire))
    case Scan(now, order, sends) =>
      Send(w.(pending := Scanned(w.pending, now, sends)), Resends(w.pending, order, now, sends))
    case Ack(id) => w.(pending := w.pending - {id})
    case Arrive(k) => w.(inFlight := Without(w.inFlight, k), handled := w.handled + [w.inFlight[k]])
    case Lose(k) => w.(inFlight := Without(w.inFlight, k))
  }

  ghost predicate Feasible(w: World, run: seq<Event>)
    decreases |run|
  {
    run == [] || (Enabled(w, run[0]) && Feasible(Step(w, run[0]), run[1..]))
  }

  ghost function Run(w: World, run: seq<Event>): World
    requires Feasible(w, run)
    decreases |run|
  {
    if run == [] then w else Run(Step(w, run[0]), run[1..])
  }

  // ---------- counting copies ----------

  function Count(s: seq<Copy>, n: nat): nat {
    if s == [] then 0 else Count(s[..|s| - 1], n) + if s[|s| - 1].regNo == n then 1 else 0
  }

  lemma {:induction false} CountAppend(a: seq<Copy>, b: seq<Copy>, n: nat)
    ensures Count(a + b, n) == Count(a, n) + Count(b, n)
    decreases |b|
  {
    if b == [] {
      assert a + b == a;
    } else {
      CountAppend(a, b[..|b| - 1], n);
      assert (a + b)[..|a + b| - 1] == a + b[..|b| - 1];
    }
  }

  lemma CountOne(c: Copy, n: nat)
    ensures Count([c], n) == if c.regNo == n then 1 else 0
  {
    assert [c][..0] == [];
    assert Count([c][..0], n) == 0;
  }

  lemma CountWithout(s: seq<Copy>, k: nat, n: nat)
    requires k < |s|
    ensures Count(s, n) == Count(Without(s, k), n) + if s[k].regNo == n then 1 else 0
  {
    hide Count;
    CountAppend(s[..k], [s[k]] + s[k + 1..], n);
    CountAppend([s[k]], s[k + 1..], n);
    CountAppend(s[..k], s[k + 1..], n);
    CountOne(s[k], n);
    assert s == s[..k] + ([s[k]] + s[k + 1..]);
  }

  lemma {:induction false} CountNone(s: seq<Copy>, n: nat)
    requires forall c | c in s :: c.regNo != n
    ensures Count(s, n) == 0
    decreases |s|
  {
    if s != [] {
      assert s[|s| - 1] in s;
      CountNone(s[..|s| - 1], n);
    }
  }

  // ---------- the invariant ----------

  ghost predicate IsPending(w: World, n: nat) {
    exists id :: id in w.pending && w.pending[id].regNo == n
  }

  /** Every copy is a beginning of the registered frame. */
  ghost predicate Copies(s: seq<Copy>, frames: seq<Bytes>) {
    forall c | c in s :: c.regNo < |frames| && c.frame <= frames[c.regNo]
  }

  /** The channel makes no copies of its own. */
  ghost predicate FromSent(w: World) {
    forall c | c in w.inFlight || c in w.handled :: c in w.sent
  }

  ghost predicate EntryInv(e: Entry, frames: seq<Bytes>, sent: seq<Copy>) {
    && e.regNo < |frames| && e.frame == frames[e.regNo]
    && 0 <= e.retry <= RETRY_MAX
    && e.retry <= Count(sent, e.regNo) <= 1 + e.retry
    && e.sendTime - e.regTime >= (TIMEOUT_MS + 1) * e.retry
  }

  /** Two ids never share a registration. */
  ghost predicate OwnRegistrations(p: Pending) {
    forall a, b | a in p && b in p && p[a].regNo == p[b].regNo :: a == b
  }

  ghost predicate Entries(w: World) {
    forall id | id in w.pending :: EntryInv(w.pending[id], w.frames, w.sent)
  }

  ghost predicate Counts(w: World) {
    forall n: nat :: Count(w.inFlight, n) + Count(w.handled, n) <= Count(w.sent, n) <= 1 + RETRY_MAX
  }

  ghost predicate Inv(w: World) {
    && OwnRegistrations(w.pending) && Entries(w) && Counts(w)
    && Copies(w.sent, w.frames) && FromSent(w)
  }

  lemma StartInv()
    ensures Inv(Start)
  {
  }

  // ---------- what a scan sends ----------

  ghost predicate SendsFor(p: Pending, order: seq<UInt32>, now: int, sends: map<UInt32, int>, n: nat) {
    exists id :: id in order && id in p && p[id].regNo == n && Resent(p[id], now, SendOk(id, sends))
  }

  lemma {:induction false} ResendsOnce(p: Pending, order: seq<UInt32>, now: int, sends: map<UInt32, int>, n: nat)
    requires OwnRegistrations(p)
    requires forall i, j | 0 <= i < j < |order| :: order[i] != order[j]
    ensures Count(Resends(p, order, now, sends), n) == if SendsFor(p, order, now, sends, n) then 1 else 0
    decreases |order|
  {
    if order != [] {
      var front, id := order[..|order| - 1], order[|order| - 1];
      ResendsOnce(p, front, now, sends, n);
      assert id !in front;
      assert order == front + [id];
      var before := Resends(p, front, now, sends);
      if id in p && Resent(p[id], now, SendOk(id, sends)) {
        var c := CopyOf(p[id], id, sends);
        CountAppend(before, [c], n);
        CountOne(c, n);
        if p[id].regNo == n {
          assert SendsFor(p, order, now, sends, n);
          assert !SendsFor(p, front, now, sends, n);
        }
      }
    }
  }

  lemma {:induction false} ResendsAreCopies(p: Pending, order: seq<UInt32>, now: int, sends: map<UInt32, int>,
                                            frames: seq<Bytes>)
    requires forall id | id in p :: p[id].regNo < |frames| && p[id].frame == frames[p[id].regNo]
    ensures Copies(Resends(p, order, now, sends), frames)
    decreases |order|
  {
    if order != [] {
      ResendsAreCopies(p, order[..|order| - 1], now, sends, frames);
    }
  }

  /** A scan sends one copy of each registration that it resends, and nothing else. */
  lemma ScanSends(p: Pending, order: seq<UInt32>, now: int, sends: map<UInt32, int>, id: UInt32)
    requires OwnRegistrations(p) && Visits(order, p) && id in p
    ensures Count(Resends(p, order, now, sends), p[id].regNo)
            == if Resent(p[id], now, SendOk(id, sends)) then 1 else 0
  {
    ResendsOnce(p, order, now, sends, p[id].regNo);
    assert id in order;
  }

  // ---------- every step keeps the invariant ----------

  lemma SendKeepsCounts(w: World, copies: seq<Copy>)
    requires Counts(w)
    requires forall n: nat :: Count(w.sent, n) + Count(copies, n) <= 1 + RETRY_MAX
    ensures Counts(Send(w, copies))
  {
    hide Count;
    forall n: nat
      ensures var v := Send(w, copies);
              Count(v.inFlight, n) + Count(v.handled, n) <= Count(v.sent, n) <= 1 + RETRY_MAX
    {
      CountAppend(w.sent, copies, n);
      CountAppend(w.inFlight, copies, n);
    }
  }

  lemma RegisteredEntries(w: World, id: UInt32, frame: Bytes, now: int, wire: Bytes, x: UInt32)
    requires Inv(w) && wire <= frame && x in Step(w, Register(id, frame, now, wire)).pending
    ensures var v := Step(w, Register(id, frame, now, wire));
            EntryInv(v.pending[x], v.frames, v.sent)
  {
    hide Counts, OwnRegistrations;
    var n := |w.frames|;
    var copies := FirstCopy(n, wire);
    var m := if x == id then n else w.pending[x].regNo;
    if x != id { assert EntryInv(w.pending[x], w.frames, w.sent); }
    CountNone(w.sent, n);
    CountAppend(w.sent, copies, m);
    CountOne(Copy(n, wire), m);
  }

  lemma RegisterKeepsCounts(w: World, wire: Bytes)
    requires Counts(w) && Copies(w.sent, w.frames)
    ensures Counts(Send(w, FirstCopy(|w.frames|, wire)))
  {
    hide Send;
    var n := |w.frames|;
    var copies := FirstCopy(n, wire);
    CountNone(w.sent, n);
    hide Count;
    forall m: nat ensures Count(w.sent, m) + Count(copies, m) <= 1 + RETRY_MAX {
      CountOne(Copy(n, wire), m);
      CountNone([], m);
    }
    SendKeepsCounts(w, copies);
  }

  lemma RegisterKeeps(w: World, id: UInt32, frame: Bytes, now: int, wire: Bytes)
    requires Inv(w) && wire <= frame
    ensures Inv(Step(w, Register(id, frame, now, wire)))
  {
    var v := Step(w, Register(id, frame, now, wire));
    hide Count, EntryInv;
    RegisterKeepsCounts(w, wire);
    assert Counts(v);
    forall x | x in v.pending ensures EntryInv(v.pending[x], v.frames, v.sent) {
      RegisteredEntries(w, id, frame, now, wire, x);
    }
    assert OwnRegistrations(v.pending) by {
      forall x | x in w.pending ensures w.pending[x].regNo < |w.frames| { EntryIsRegistered(w, x); }
    }
  }

  lemma EntryIsRegistered(w: World, id: UInt32)
    requires Entries(w) && id in w.pending
    ensures w.pending[id].regNo < |w.frames| && w.pending[id].frame == w.frames[w.pending[id].regNo]
  {
    assert EntryInv(w.pending[id], w.frames, w.sent);
  }

  lemma ScannedEntries(w: World, now: int, order: seq<UInt32>, sends: map<UInt32, int>, id: UInt32)
    requires Inv(w) && Visits(order, w.pending) && id in Scanned(w.pending, now, sends)
    ensures EntryInv(Scanned(w.pending, now, sends)[id], w.frames, w.sent + Resends(w.pending, order, now, sends))
  {
    hide Resends, Visits, Count;
    var e := w.pending[id];
    ScanSends(w.pending, order, now, sends, id);
    CountAppend(w.sent, Resends(w.pending, order, now, sends), e.regNo);
    assert EntryInv(e, w.frames, w.sent);
  }

  lemma ScanKeepsCounts(w: World, now: int, order: seq<UInt32>, sends: map<UInt32, int>)
    requires Inv(w) && Visits(order, w.pending)
    ensures Counts(Send(w, Resends(w.pending, order, now, sends)))
  {
    hide Resends, Count, Send;
    var copies := Resends(w.pending, order, now, sends);
    forall n: nat ensures Count(w.sent, n) + Count(copies, n) <= 1 + RETRY_MAX {
      ResendsOnce(w.pending, order, now, sends, n);
      if SendsFor(w.pending, order, now, sends, n) {
        var id :| id in order && id in w.pending && w.pending[id].regNo == n
                  && Resent(w.pending[id], now, SendOk(id, sends));
        assert EntryInv(w.pending[id], w.frames, w.sent);
      }
    }
    SendKeepsCounts(w, copies);
  }

  lemma ScanKeeps(w: World, now: int, order: seq<UInt32>, sends: map<UInt32, int>)
    requires Inv(w) && Visits(order, w.pending)
    ensures Inv(Step(w, Scan(now, order, sends)))
  {
    hide Resends, Count, EntryInv;
    var copies := Resends(w.pending, order, now, sends);
    var v := Step(w, Scan(now, order, sends));
    forall id | id in v.pending ensures EntryInv(v.pending[id], v.frames, v.sent) {
      ScannedEntries(w, now, order, sends, id);
    }
    ScanKeepsCounts(w, now, order, sends);
    assert Counts(v);
    forall id | id in w.pending
      ensures w.pending[id].regNo < |w.frames| && w.pending[id].frame == w.frames[w.pending[id].regNo]
    {
      EntryIsRegistered(w, id);
    }
    ResendsAreCopies(w.pending, order, now, sends, w.frames);
  }

  lemma ChannelKeeps(w: World, k: nat, arrives: bool)
    requires Inv(w) && k < |w.inFlight|
    ensures Inv(Step(w, if arrives then Arrive(k) else Lose(k)))
  {
    var v := Step(w, if arrives then Arrive(k) else Lose(k));
    var c := w.inFlight[k];
    forall n: nat ensures Count(v.inFlight, n) + Count(v.handled, n) <= Count(v.sent, n) <= 1 + RETRY_MAX {
      CountWithout(w.inFlight, k, n);
      CountAppend(w.handled, [c], n);
      CountOne(c, n);
    }
  }

  lemma StepKeeps(w: World, e: Event)
    requires Inv(w) && Enabled(w, e)
    ensures Inv(Step(w, e))
  {
    match e
    case Register(id, frame, now, wire) => RegisterKeeps(w, id, frame, now, wire);
    case Scan(now, order, sends) => ScanKeeps(w, now, order, sends);
    case Ack(_) =>
    case Arrive(k) => ChannelKeeps(w, k, true);
    case Lose(k) => ChannelKeeps(w, k, false);
  }

  lemma {:induction false} RunKeeps(w: World, run: seq<Event>)
    requires Inv(w) && Feasible(w, run)
    ensures Inv(Run(w, run))
    decreases |run|
  {
    if run != [] {
      StepKeeps(w, run[0]);
      RunKeeps(Step(w, run[0]), run[1..]);
    }
  }

  /** In every run the server handles each registration at most four times, and every copy it handles is
      a beginning of the registered frame. */
  lemma HandledAtMostFourTimes(run: seq<Event>, n: nat)
    requires Feasible(Start, run)
    ensures var w := Run(Start, run);
            && Count(w.handled, n) <= 1 + RETRY_MAX
            && forall c | c in w.handled && c.regNo == n :: n < |w.frames| && c.frame <= w.frames[n]
  {
    StartInv();
    RunKeeps(Start, run);
    hide Count, Run, Entries;
    var w := Run(Start, run);
    assert Count(w.inFlight, n) + Count(w.handled, n) <= Count(w.sent, n) <= 1 + RETRY_MAX;
  }

  // ---------- which copies are whole ----------

  ghost predicate AllWhole(s: seq<Copy>, frames: seq<Bytes>) {
    forall c | c in s :: c.regNo < |frames| && c.frame == frames[c.regNo]
  }

  /** The calls of `send` in the event accept all of the frame or nothing: a scan takes a call that accepts
      a part for a success. */
  ghost predicate WholeEvent(w: World, e: Event) {
    match e
    case Register(_, frame, _, wire) => wire == [] || wire == frame
    case Scan(now, _, sends) =>
      forall id | id in w.pending && Resent(w.pending[id], now, SendOk(id, sends)) ::
        Wire(w.pending[id].frame, id, sends) == w.pending[id].frame
    case _ => true
  }

  ghost predicate WholeRun(w: World, run: seq<Event>)
    requires Feasible(w, run)
    decreases |run|
  {
    run == [] || (WholeEvent(w, run[0]) && WholeRun(Step(w, run[0]), run[1..]))
  }

  ghost predicate IsResent(p: Pending, order: seq<UInt32>, now: int, sends: map<UInt32, int>, id: UInt32) {
    id in order && id in p && Resent(p[id], now, SendOk(id, sends))
  }

  lemma {:induction false} ResendsMembers(p: Pending, order: seq<UInt32>, now: int, sends: map<UInt32, int>)
    ensures forall c | c in Resends(p, order, now, sends) ::
              exists id :: IsResent(p, order, now, sends, id) && c == CopyOf(p[id], id, sends)
    ensures forall id | IsResent(p, order, now, sends, id) :: CopyOf(p[id], id, sends) in Resends(p, order, now, sends)
    decreases |order|
  {
    if order != [] {
      var front, last := order[..|order| - 1], order[|order| - 1];
      ResendsMembers(p, front, now, sends);
      assert order == front + [last];
      forall c | c in Resends(p, order, now, sends)
        ensures exists id :: IsResent(p, order, now, sends, id) && c == CopyOf(p[id], id, sends)
      {
        if c in Resends(p, front, now, sends) {
          var id :| IsResent(p, front, now, sends, id) && c == CopyOf(p[id], id, sends);
          assert IsResent(p, order, now, sends, id);
        } else {
          assert IsResent(p, order, now, sends, last);
        }
      }
      forall id | IsResent(p, order, now, sends, id)
        ensures CopyOf(p[id], id, sends) in Resends(p, order, now, sends)
      {
        if id in front { assert IsResent(p, front, now, sends, id); }
      }
    }
  }

  lemma ScanWhole(w: World, now: int, order: seq<UInt32>, sends: map<UInt32, int>)
    requires Inv(w) && Visits(order, w.pending)
    ensures AllWhole(Resends(w.pending, order, now, sends), w.frames) <==> WholeEvent(w, Scan(now, order, sends))
  {
    var p, copies := w.pending, Resends(w.pending, order, now, sends);
    ResendsMembers(p, order, now, sends);
    hide Resends, Count, Wire;
    forall id | id in p ensures id in order && p[id].regNo < |w.frames| && p[id].frame == w.frames[p[id].regNo] {
      EntryIsRegistered(w, id);
    }
    if AllWhole(copies, w.frames) {
      forall id | id in p && Resent(p[id], now, SendOk(id, sends)) ensures Wire(p[id].frame, id, sends) == p[id].frame {
        assert IsResent(p, order, now, sends, id);
        assert CopyOf(p[id], id, sends) in copies;
      }
    }
    if WholeEvent(w, Scan(now, order, sends)) {
      forall c | c in copies ensures c.regNo < |w.frames| && c.frame == w.frames[c.regNo] {
        var id :| IsResent(p, order, now, sends, id) && c == CopyOf(p[id], id, sends);
      }
    }
  }

  lemma StepWhole(w: World, e: Event)
    requires Inv(w) && Enabled(w, e)
    ensures AllWhole(Step(w, e).sent, Step(w, e).frames) <==> AllWhole(w.sent, w.frames) && WholeEvent(w, e)
  {
    var v := Step(w, e);
    assert forall c | c in w.sent :: c.regNo < |w.frames| && v.frames[c.regNo] == w.frames[c.regNo];
    match e
    case Register(id, frame, now, wire) =>
      var copies := FirstCopy(|w.frames|, wire);
      assert v.sent == w.sent + copies;
      if wire != [] { assert Copy(|w.frames|, wire) in copies; }
    case Scan(now, order, sends) =>
      ScanWhole(w, now, order, sends);
      assert v.sent == w.sent + Resends(w.pending, order, now, sends) && v.frames == w.frames;
    case Ack(_) =>
    case Arrive(_) =>
    case Lose(_) =>
  }

  lemma {:induction false} RunWhole(w: World, run: seq<Event>)
    requires Inv(w) && Feasible(w, run)
    ensures AllWhole(Run(w, run).sent, Run(w, run).frames) <==> AllWhole(w.sent, w.frames) && WholeRun(w, run)
    decreases |run|
  {
    if run != [] {
      hide Inv, AllWhole, WholeEvent;
      StepWhole(w, run[0]);
      StepKeeps(w, run[0]);
      RunWhole(Step(w, run[0]), run[1..]);
    }
  }

  /** Every copy that was sent is the registered frame, byte for byte, exactly when no call of `send`
      accepted only a part. */
  lemma CopiesAreWholeExactly(run: seq<Event>)
    requires Feasible(Start, run)
    ensures AllWhole(Run(Start, run).sent, Run(Start, run).frames) <==> WholeRun(Start, run)
    ensures WholeRun(Start, run) ==> AllWhole(Run(Start, run).handled, Run(Start, run).frames)
  {
    StartInv();
    RunWhole(Start, run);
    RunKeeps(Start, run);
    assert FromSent(Run(Start, run));
  }

  /** End to end: without partial sends, every copy that the server handles is read as the text that was
      encrypted. */
  lemma HandledIsRead(run: seq<Event>, n: nat, c: Cipher, iv: Block, p: Bytes, msgType: UInt32, msgId: UInt32)
    requires c.Valid() && Feasible(Start, run) && n < |Run(Start, run).frames|
    requires Run(Start, run).frames[n] == MessageFrame(c, iv, p, msgType, msgId)
    ensures WholeRun(Start, run) ==>
              forall copy | copy in Run(Start, run).handled && copy.regNo == n ::
                ServerRead(c, copy.frame) == (if p == [] then Closed else Text(p))
                && |copy.frame| >= HEADER && ParseHeader(copy.frame).msgId == msgId
  {
    CopiesAreWholeExactly(run);
    FrameShape(c, iv, p, msgType, msgId);
    ServerRecovers(c, iv, p, msgType, msgId);
    hide MessageFrame, Run, WholeRun, ServerRead, ParseHeader;
  }

  // ---------- the bound is reached ----------

  ghost predicate Reachable(w: World) {
    exists run :: Feasible(Start, run) && Run(Start, run) == w
  }

  lemma {:induction false} RunSnoc(w: World, run: seq<Event>, e: Event)
    requires Feasible(w, run) && Enabled(Run(w, run), e)
    ensures Feasible(w, run + [e]) && Run(w, run + [e]) == Step(Run(w, run), e)
    decreases |run|
  {
    if run == [] {
      assert run + [e] == [e] && [e][1..] == [];
    } else {
      hide Step, Enabled;
      assert (run + [e])[0] == run[0] && (run + [e])[1..] == run[1..] + [e];
      RunSnoc(Step(w, run[0]), run[1..], e);
    }
  }

  lemma ReachableStep(w: World, e: Event)
    requires Reachable(w) && Enabled(w, e)
    ensures Reachable(Step(w, e))
  {
    var run :| Feasible(Start, run) && Run(Start, run) == w;
    RunSnoc(Start, run, e);
  }

  function Repeated(c: Copy, n: nat): (s: seq<Copy>)
    ensures |s| == n && forall i | 0 <= i < n :: s[i] == c
  {
    seq(n, i => c)
  }

  /** The first message of a client after k resends, with a of its copies arrived. */
  function Chased(id: UInt32, frame: Bytes, k: nat, a: nat): World
    requires a <= k + 1
  {
    var c := Copy(0, frame);
    World(map[id := Entry(frame, k, (TIMEOUT_MS + 1) * k, 0, 0)], [frame],
          Repeated(c, k + 1), Repeated(c, k + 1 - a), Repeated(c, a))
  }

  lemma ChaseStep(id: UInt32, frame: Bytes, k: nat)
    requires k < RETRY_MAX
    ensures var w, e := Chased(id, frame, k, 0), Scan((TIMEOUT_MS + 1) * (k + 1), [id], map[]);
            Enabled(w, e) && Step(w, e) == Chased(id, frame, k + 1, 0)
  {
    var c, w := Copy(0, frame), Chased(id, frame, k, 0);
    var order, now := [id], (TIMEOUT_MS + 1) * (k + 1);
    assert order[..0] == [] && order[0] == id;
    assert Visits(order, w.pending);
    assert Resends(w.pending, order, now, map[]) == [c];
    assert Repeated(c, k + 1) + [c] == Repeated(c, k + 2);
    assert Scanned(w.pending, now, map[]) == Chased(id, frame, k + 1, 0).pending;
  }

  lemma ArrivalStep(id: UInt32, frame: Bytes, k: nat, a: nat)
    requires a <= k
    ensures var w := Chased(id, frame, k, a);
            Enabled(w, Arrive(0)) && Step(w, Arrive(0)) == Chased(id, frame, k, a + 1)
  {
    var c := Copy(0, frame);
    assert Repeated(c, a) + [c] == Repeated(c, a + 1);
    assert Without(Repeated(c, k + 1 - a), 0) == Repeated(c, k - a);
  }

  lemma ChaseReachable(id: UInt32, frame: Bytes, k: nat, a: nat)
    requires frame != [] && k <= RETRY_MAX && a <= k + 1
    ensures Reachable(Chased(id, frame, k, a))
    decreases k + a
  {
    var c := Copy(0, frame);
    if a > 0 {
      ChaseReachable(id, frame, k, a - 1);
      ArrivalStep(id, frame, k, a - 1);
      hide *;
      ReachableStep(Chased(id, frame, k, a - 1), Arrive(0));
    } else if k > 0 {
      ChaseReachable(id, frame, k - 1, 0);
      ChaseStep(id, frame, k - 1);
      hide *;
      ReachableStep(Chased(id, frame, k - 1, 0), Scan((TIMEOUT_MS + 1) * k, [id], map[]));
    } else {
      assert Feasible(Start, []) && Run(Start, []) == Start;
      ReachableStep(Start, Register(id, frame, 0, frame));
      assert Step(Start, Register(id, frame, 0, frame)) == Chased(id, frame, 0, 0) by {
        assert Repeated(c, 1) == [c] && Repeated(c, 0) == [];
      }
    }
  }

  lemma {:induction false} CountRepeated(c: Copy, n: nat)
    ensures Count(Repeated(c, n), c.regNo) == n
  {
    if n > 0 {
      CountRepeated(c, n - 1);
      assert Repeated(c, n)[..n - 1] == Repeated(c, n - 1);
    }
  }

  /** Four copies do arrive in some run, for any message. */
  lemma FourTimesIsReached(id: UInt32, frame: Bytes)
    requires frame != []
    ensures exists run :: Feasible(Start, run) && Count(Run(Start, run).handled, 0) == 1 + RETRY_MAX
  {
    ChaseReachable(id, frame, RETRY_MAX, 1 + RETRY_MAX);
    CountRepeated(Copy(0, frame), 1 + RETRY_MAX);
  }

  // ---------- after the acknowledgement ----------

  lemma StepAfterRemoval(w: World, e: Event, n: nat)
    requires Inv(w) && Enabled(w, e) && n < |w.frames| && !IsPending(w, n)
    ensures var v := Step(w, e);
            n < |v.frames| && v.frames[n] == w.frames[n] && !IsPending(v, n) && Count(v.sent, n) == Count(w.sent, n)
  {
    match e
    case Register(id, frame, now, wire) =>
      CountAppend(w.sent, FirstCopy(|w.frames|, wire), n);
      CountOne(Copy(|w.frames|, wire), n);
    case Scan(now, order, sends) =>
      hide Resends;
      ResendsOnce(w.pending, order, now, sends, n);
      CountAppend(w.sent, Resends(w.pending, order, now, sends), n);
    case Ack(_) =>
    case Arrive(_) =>
    case Lose(_) =>
  }

  /** A registration that is no longer pending never is again, and no copy of it is sent any more. */
  lemma {:induction false} NoCopyAfterRemoval(w: World, run: seq<Event>, n: nat)
    requires Inv(w) && Feasible(w, run) && n < |w.frames| && !IsPending(w, n)
    ensures var v := Run(w, run);
            !IsPending(v, n) && Count(v.sent, n) == Count(w.sent, n)
    decreases |run|
  {
    if run != [] {
      StepAfterRemoval(w, run[0], n);
      StepKeeps(w, run[0]);
      NoCopyAfterRemoval(Step(w, run[0]), run[1..], n);
    }
  }

  /** After the acknowledgement of an id its registration is over: later copies under that id belong to a
      later registration. */
  lemma NoCopyAfterAck(w: World, id: UInt32, run: seq<Event>)
    requires Inv(w) && id in w.pending && Feasible(Step(w, Ack(id)), run)
    ensures var n := w.pending[id].regNo;
            var v := Run(Step(w, Ack(id)), run);
            && Count(v.sent, n) == Count(w.sent, n)
            && forall x | x in v.pending :: v.pending[x].regNo != n
  {
    var acked := Step(w, Ack(id));
    StepKeeps(w, Ack(id));
    NoCopyAfterRemoval(acked, run, w.pending[id].regNo);
  }

  /** A chat that carries the id removes a message the server never saw. */
  lemma RemovedWithoutHandling(id: UInt32, frame: Bytes, now: int)
    requires frame != []
    ensures var run := [Register(id, frame, now, frame), Lose(0), Ack(id)];
            && Feasible(Start, run)
            && var w := Run(Start, run);
               w.pending == map[] && w.handled == [] && w.inFlight == [] && Count(w.sent, 0) == 1
  {
    var e0, e1, e2 := Register(id, frame, now, frame), Lose(0), Ack(id);
    var run := [e0, e1, e2];
    assert run[1..] == [e1, e2] && run[1..][1..] == [e2] && run[1..][1..][1..] == [];
    var w1 := Step(Start, e0);
    assert w1.inFlight == [Copy(0, frame)] == w1.sent;
    var w2 := Step(w1, e1);
    var w3 := Step(w2, e2);
    assert w3.pending == map[];
    assert Feasible(w3, []) && Run(w3, []) == w3;
    assert Feasible(w2, [e2]) && Run(w2, [e2]) == w3;
    assert Feasible(w1, [e1, e2]) && Run(w1, [e1, e2]) == w3;
    CountOne(Copy(0, frame), 0);
  }

  // ---------- timing ----------

  /** Giving up happens more than four timeouts after the registration, and after three copies at least
      were sent. */
  lemma GiveUpIsLate(run: seq<Event>, id: UInt32, now: int)
    requires Feasible(Start, run) && id in Run(Start, run).pending
    requires GivenUp(Run(Start, run).pending[id], now)
    ensures var w := Run(Start, run);
            && now - w.pending[id].regTime >= 4 * (TIMEOUT_MS + 1) > 4 * TIMEOUT_MS
            && RETRY_MAX <= Count(w.sent, w.pending[id].regNo) <= 1 + RETRY_MAX
  {
    StartInv();
    RunKeeps(Start, run);
    var w := Run(Start, run);
    hide Run, Count;
    assert EntryInv(w.pending[id], w.frames, w.sent);
  }

  /** Scans one after the other, all of whose sends succeed. */
  function AfterScans(p: Pending, nows: seq<int>): Pending
    decreases |nows|
  {
    if nows == [] then p else AfterScans(Scanned(p, nows[0], map[]), nows[1..])
  }

  predicate Spaced(last: int, nows: seq<int>)
    decreases |nows|
  {
    nows == [] || (nows[0] - last > TIMEOUT_MS && Spaced(nows[0], nows[1..]))
  }

  function Advanced(e: Entry, nows: seq<int>): Entry
    requires nows != []
  {
    e.(retry := e.retry + |nows|, sendTime := nows[|nows| - 1])
  }

  /** The entries with at most 3 - k retries, with k more. */
  function Kept(p: Pending, nows: seq<int>): Pending
    requires nows != []
  {
    map id | id in p && p[id].retry + |nows| <= RETRY_MAX :: Advanced(p[id], nows)
  }

  lemma KeptOneByOne(p: Pending, nows: seq<int>)
    requires |nows| > 1
    ensures Kept(Kept(p, [nows[0]]), nows[1..]) == Kept(p, nows)
  {
  }

  /** No call of `send` fails. */
  predicate AllAccepted(sends: map<UInt32, int>) { forall id | id in sends :: sends[id] != -1 }

  lemma ScannedWhenAllTimedOut(p: Pending, now: int, sends: map<UInt32, int>)
    requires AllAccepted(sends) && forall id | id in p :: TimedOut(p[id], now)
    ensures Scanned(p, now, sends) == Kept(p, [now])
  {
  }

  lemma KeptIsSentNow(p: Pending, now: int)
    ensures SentBy(Kept(p, [now]), now)
  {
  }

  /** After k spaced scans exactly the entries with at most 3 - k retries are left. */
  lemma {:induction false} ScansExactly(p: Pending, last: int, nows: seq<int>)
    requires nows != [] && Spaced(last, nows) && SentBy(p, last)
    ensures AfterScans(p, nows) == Kept(p, nows)
    decreases |nows|
  {
    var now := nows[0];
    ScannedWhenAllTimedOut(p, now, map[]);
    KeptIsSentNow(p, now);
    hide Kept, Scanned, SentBy;
    if |nows| == 1 {
      assert nows == [now];
      assert nows[1..] == [];
    } else {
      ScansExactly(Kept(p, [now]), now, nows[1..]);
      KeptOneByOne(p, nows);
    }
  }

  // ---------- draining ----------

  function ScanTimes(run: seq<Event>): seq<int> {
    if run == [] then []
    else if run[0].Scan? then [run[0].now] + ScanTimes(run[1..])
    else ScanTimes(run[1..])
  }

  /** Nothing new is registered and every send succeeds. */
  predicate Quiet(run: seq<Event>) {
    forall e | e in run :: !e.Register? && (e.Scan? ==> AllAccepted(e.sends))
  }

  ghost predicate RetriesAtLeast(p: Pending, k: int) {
    forall id | id in p :: p[id].retry >= k
  }

  ghost predicate SentBy(p: Pending, last: int) {
    forall id | id in p :: p[id].sendTime <= last
  }

  lemma QuietStep(w: World, e: Event, k: int, last: int)
    requires Enabled(w, e) && !e.Register? && (e.Scan? ==> AllAccepted(e.sends) && e.now - last > TIMEOUT_MS)
    requires RetriesAtLeast(w.pending, k) && SentBy(w.pending, last)
    ensures var p := Step(w, e).pending;
            if e.Scan? then RetriesAtLeast(p, k + 1) && SentBy(p, e.now) else RetriesAtLeast(p, k) && SentBy(p, last)
  {
    if e.Scan? { ScannedWhenAllTimedOut(w.pending, e.now, e.sends); }
  }

  lemma {:induction false} RetriesGrow(w: World, run: seq<Event>, k: int, last: int)
    requires Feasible(w, run) && Quiet(run) && Spaced(last, ScanTimes(run))
    requires RetriesAtLeast(w.pending, k) && SentBy(w.pending, last)
    ensures RetriesAtLeast(Run(w, run).pending, k + |ScanTimes(run)|)
    decreases |run|
  {
    if run != [] {
      var e := run[0];
      assert e in run;
      assert forall x | x in run[1..] :: x in run;
      if e.Scan? { assert ScanTimes(run)[1..] == ScanTimes(run[1..]); }
      QuietStep(w, e, k, last);
      hide RetriesAtLeast, SentBy, Step, Enabled;
      RetriesGrow(Step(w, e), run[1..], if e.Scan? then k + 1 else k, if e.Scan? then e.now else last);
    }
  }

  lemma SpentEntries(w: World)
    requires Entries(w) && RetriesAtLeast(w.pending, 1 + RETRY_MAX)
    ensures w.pending == map[]
  {
    assert forall id | id in w.pending :: w.pending[id].retry <= RETRY_MAX;
    assert w.pending.Keys == {};
  }

  /** Four scans more than a timeout apart leave nothing pending, whatever arrives, gets lost or is
      acknowledged in between. */
  lemma FourScansDrain(w: World, run: seq<Event>, last: int)
    requires Inv(w) && Feasible(w, run) && Quiet(run)
    requires SentBy(w.pending, last) && Spaced(last, ScanTimes(run)) && |ScanTimes(run)| >= 1 + RETRY_MAX
    ensures Run(w, run).pending == map[]
  {
    RunKeeps(w, run);
    assert RetriesAtLeast(w.pending, 0) by {
      forall id | id in w.pending ensures w.pending[id].retry >= 0 {
        assert EntryInv(w.pending[id], w.frames, w.sent);
      }
    }
    RetriesGrow(w, run, 0, last);
    hide Run;
    assert RetriesAtLeast(Run(w, run).pending, 1 + RETRY_MAX);
    SpentEntries(Run(w, run));
  }

  // ---------- the client performs the runs ----------

  ghost predicate Matches(client: Client, w: World)
    reads client
  {
    client.Valid() && client.Abs() == w.pending && client.sent == w.sent && client.registered == |w.frames|
  }

  datatype Call =
    | Transmit(cipher: Bytes, msgType: UInt32, msgId: UInt32, now: int, results: seq<int>)
    | CheckTimeOut(now: int, sends: map<UInt32, int>)
    | Receive(msgType: UInt32, msgId: UInt32)

  lemma OneStep(w: World, e: Event)
    requires Enabled(w, e)
    ensures Feasible(w, [e]) && Run(w, [e]) == Step(w, e)
  {
    assert [e][1..] == [];
    assert Feasible(Step(w, e), []) && Run(Step(w, e), []) == Step(w, e);
  }

  /** Every call of the client is a run of at most one event, so what holds of all runs holds of the
      client between any two calls. */
  method Perform(client: Client, ghost w: World, call: Call) returns (ghost run: seq<Event>)
    requires Matches(client, w)
    requires call.Transmit? ==> forall i | 0 <= i < |call.results| :: call.results[i] >= -1
    modifies client
    ensures |run| <= 1 && Feasible(w, run) && Matches(client, Run(w, run))
  {
    hide Retransmit.Joined, Scanned, Resends, Visits;
    run := [];
    match call
    case Transmit(cipher, msgType, msgId, now, results) =>
      var end, wire := client.EncryptedMessage(cipher, msgType, msgId, now, results);
      if cipher != [] {
        run := [Register(msgId, MakeFrame(cipher, msgType, msgId), now, wire)];
        OneStep(w, run[0]);
      }
    case CheckTimeOut(now, sends) =>
      ghost var order := client.CheckTimeOutAndResend(now, sends);
      run := [Scan(now, order, sends)];
      OneStep(w, run[0]);
    case Receive(msgType, msgId) =>
      client.OnMessage(msgType, msgId);
      if Acknowledges(msgType) {
        run := [Ack(msgId)];
        OneStep(w, run[0]);
      }
  }
}

/** The client's pending messages: registration, the timeout scan and acknowledgements, over a channel
    that may lose or delay frames but does not duplicate them. */
module Retransmit {
  import opened Wrappers
  import opened Cbc
  import opened Frame

  const RETRY_MAX: int := 3
  const TIMEOUT_MS: int := 2000

  /** A pending message. `regNo` and `regTime` identify the registration; the three maps of the client hold
      the other parts. */
  datatype Entry = Entry(frame: Bytes, retry: int, sendTime: int, regNo: nat, regTime: int)

  type Pending = map<UInt32, Entry>

  /** What one attempt to send a registered message put on the wire. */
  datatype Copy = Copy(regNo: nat, frame: Bytes)

  // ---------- the scan, one entry at a time ----------

  predicate TimedOut(e: Entry, now: int) { now - e.sendTime > TIMEOUT_MS }

  predicate GivenUp(e: Entry, now: int) { TimedOut(e, now) && e.retry >= RETRY_MAX }

  predicate Resent(e: Entry, now: int, ok: bool) { TimedOut(e, now) && e.retry < RETRY_MAX && ok }

  /** `sends` has what `send` returns for an id, where that is not the length of the frame. */
  predicate SendOk(id: UInt32, sends: map<UInt32, int>) { !(id in sends && sends[id] == -1) }

  /** The part of the frame that a scan puts on the wire: it does not ask how much `send` accepted. */
  function Wire(frame: Bytes, id: UInt32, sends: map<UInt32, int>): (r: Bytes)
    ensures r <= frame
  {
    if id in sends && 0 <= sends[id] < |frame| then frame[..sends[id]] else frame
  }

  function ScannedEntry(e: Entry, now: int, ok: bool): Entry {
    if Resent(e, now, ok) then e.(retry := e.retry + 1, sendTime := now) else e
  }

  /** What a scan makes of all entries at once. */
  function Scanned(p: Pending, now: int, sends: map<UInt32, int>): Pending {
    map id | id in p && !GivenUp(p[id], now) :: ScannedEntry(p[id], now, SendOk(id, sends))
  }

  function CopyOf(e: Entry, id: UInt32, sends: map<UInt32, int>): Copy { Copy(e.regNo, Wire(e.frame, id, sends)) }

  /** The copies sent when the entries are visited in the given order. */
  function Resends(p: Pending, order: seq<UInt32>, now: int, sends: map<UInt32, int>): seq<Copy> {
    if order == [] then []
    else
      var front, id := Resends(p, order[..|order| - 1], now, sends), order[|order| - 1];
      if id in p && Resent(p[id], now, SendOk(id, sends)) then front + [CopyOf(p[id], id, sends)] else front
  }

  /** The order lists every pending id once. */
  ghost predicate Visits(order: seq<UInt32>, p: Pending) {
    && (forall i, j | 0 <= i < j < |order| :: order[i] != order[j])
    && (forall i | 0 <= i < |order| :: order[i] in p)
    && (forall id | id in p :: exists i :: 0 <= i < |order| && order[i] == id)
  }

  // ---------- the three maps ----------

  ghost predicate SameKeys(w: map<UInt32, Bytes>, r: map<UInt32, int>, t: map<UInt32, int>, g: map<UInt32, (nat, int)>) {
    r.Keys == w.Keys && t.Keys == w.Keys && g.Keys == w.Keys
  }

  ghost function Joined(w: map<UInt32, Bytes>, r: map<UInt32, int>, t: map<UInt32, int>, g: map<UInt32, (nat, int)>)
    : (p: Pending)
    requires SameKeys(w, r, t, g)
    ensures p.Keys == w.Keys
  {
    map id | id in w :: Entry(w[id], r[id], t[id], g[id].0, g[id].1)
  }

  lemma JoinedAt(w: map<UInt32, Bytes>, r: map<UInt32, int>, t: map<UInt32, int>, g: map<UInt32, (nat, int)>, id: UInt32)
    requires SameKeys(w, r, t, g) && id in w
    ensures Joined(w, r, t, g)[id] == Entry(w[id], r[id], t[id], g[id].0, g[id].1)
  {
  }

  lemma JoinedPut(w: map<UInt32, Bytes>, r: map<UInt32, int>, t: map<UInt32, int>, g: map<UInt32, (nat, int)>,
                  id: UInt32, e: Entry)
    requires SameKeys(w, r, t, g)
    ensures Joined(w[id := e.frame], r[id := e.retry], t[id := e.sendTime], g[id := (e.regNo, e.regTime)])
            == Joined(w, r, t, g)[id := e]
  {
  }

  lemma JoinedDrop(w: map<UInt32, Bytes>, r: map<UInt32, int>, t: map<UInt32, int>, g: map<UInt32, (nat, int)>, id: UInt32)
    requires SameKeys(w, r, t, g)
    ensures SameKeys(w - {id}, r - {id}, t - {id}, g - {id})
    ensures Joined(w - {id}, r - {id}, t - {id}, g - {id}) == Joined(w, r, t, g) - {id}
  {
  }

  class Client {
    var waitAckMsg: map<UInt32, Bytes>
    var retryCount: map<UInt32, int>
    var sendTime: map<UInt32, int>
    ghost var sent: seq<Copy>
    ghost var registration: map<UInt32, (nat, int)>
    ghost var registered: nat

    ghost predicate Valid()
      reads this
    {
      && SameKeys(waitAckMsg, retryCount, sendTime, registration)
      && forall id | id in retryCount :: 0 <= retryCount[id] <= RETRY_MAX
    }

    ghost function Abs(): Pending
      requires Valid()
      reads this
    {
      Joined(waitAckMsg, retryCount, sendTime, registration)
    }

    constructor ()
      ensures Valid() && Abs() == map[] && sent == [] && registered == 0
    {
      waitAckMsg, retryCount, sendTime := map[], map[], map[];
      sent := [];
      registration, registered := map[], 0;
    }

    /** `encryptedMessage` after the encryption. The message is pending before it is sent, and stays
        pending when the socket fails. `results` are what the calls of `send` return and `wire` is what the
        socket took. */
    method EncryptedMessage(cipher: Bytes, msgType: UInt32, msgId: UInt32, now: int, results: seq<int>)
      returns (end: SendEnd, wire: Bytes)
      requires Valid() && forall i | 0 <= i < |results| :: results[i] >= -1
      modifies this
      ensures Valid()
      ensures cipher == [] ==>
                && end.SendFailed? && wire == []
                && Abs() == old(Abs()) && sent == old(sent) && registered == old(registered)
      ensures cipher != [] ==>
                var frame := MakeFrame(cipher, msgType, msgId);
                && Abs() == old(Abs())[msgId := Entry(frame, 0, now, old(registered), now)]
                && registered == old(registered) + 1
                && wire <= frame && (end.AllSent? <==> wire == frame)
                && sent == old(sent) + FirstCopy(old(registered), wire)
    {
      if cipher == [] { return SendFailed, []; }
      var dataToBeSent := MakeFrame(cipher, msgType, msgId);
      Register(dataToBeSent, msgId, now);
      ghost var calls;
      end, wire, calls := SendAll(dataToBeSent, results);
      sent := sent + FirstCopy(registered - 1, wire);
    }

    method Register(frame: Bytes, msgId: UInt32, now: int)
      requires Valid()
      modifies this
      ensures Valid()
      ensures Abs() == old(Abs())[msgId := Entry(frame, 0, now, old(registered), now)]
      ensures registered == old(registered) + 1 && sent == old(sent)
    {
      hide Joined;
      JoinedPut(waitAckMsg, retryCount, sendTime, registration, msgId, Entry(frame, 0, now, registered, now));
      waitAckMsg := waitAckMsg[msgId := frame];
      retryCount := retryCount[msgId := 0];
      sendTime := sendTime[msgId := now];
      registration := registration[msgId := (registered, now)];
      registered := registered + 1;
    }

    /** One round of the scan. */
    method ScanOne(msgId: UInt32, now: int, sends: map<UInt32, int>)
      requires Valid() && msgId in waitAckMsg
      modifies this
      ensures Valid()
      ensures var e := old(Abs())[msgId];
              && Abs() == (if GivenUp(e, now) then old(Abs()) - {msgId}
                           else old(Abs())[msgId := ScannedEntry(e, now, SendOk(msgId, sends))])
              && sent == (if Resent(e, now, SendOk(msgId, sends)) then old(sent) + [CopyOf(e, msgId, sends)]
                          else old(sent))
      ensures waitAckMsg.Keys == if GivenUp(old(Abs())[msgId], now) then old(waitAckMsg.Keys) - {msgId}
                                 else old(waitAckMsg.Keys)
      ensures registered == old(registered)
    {
      hide Joined;
      JoinedAt(waitAckMsg, retryCount, sendTime, registration, msgId);
      ghost var e := Abs()[msgId];
      if now - sendTime[msgId] > TIMEOUT_MS {
        if retryCount[msgId] >= RETRY_MAX {
          Erase(msgId);
          return;
        }
        var data := waitAckMsg[msgId];
        var len := if msgId in sends then sends[msgId] else |data|;
        if len != -1 {
          Resend(msgId, now, if 0 <= len < |data| then data[..len] else data);
          return;
        }
      }
      assert Abs()[msgId := e] == Abs();
    }

    /** The bookkeeping after a successful `send`. */
    method Resend(msgId: UInt32, now: int, wire: Bytes)
      requires Valid() && msgId in waitAckMsg && retryCount[msgId] < RETRY_MAX
      modifies this
      ensures Valid() && waitAckMsg == old(waitAckMsg) && registered == old(registered)
      ensures var e := old(Abs())[msgId];
              && Abs() == old(Abs())[msgId := e.(retry := e.retry + 1, sendTime := now)]
              && sent == old(sent) + [Copy(e.regNo, wire)]
    {
      hide Joined;
      JoinedAt(waitAckMsg, retryCount, sendTime, registration, msgId);
      ghost var e := Abs()[msgId];
      JoinedPut(waitAckMsg, retryCount, sendTime, registration, msgId, e.(retry := e.retry + 1, sendTime := now));
      assert waitAckMsg[msgId := e.frame] == waitAckMsg;
      assert registration[msgId := (e.regNo, e.regTime)] == registration;
      sent := sent + [Copy(registration[msgId].0, wire)];
      retryCount := retryCount[msgId := retryCount[msgId] + 1];
      sendTime := sendTime[msgId := now];
    }

    /** Walks the hash map in an unspecified order, erasing while it goes. */
    method CheckTimeOutAndResend(now: int, sends: map<UInt32, int>) returns (ghost order: seq<UInt32>)
      requires Valid()
      modifies this
      ensures Valid()
      ensures Visits(order, old(Abs()))
      ensures Abs() == Scanned(old(Abs()), now, sends)
      ensures sent == old(sent) + Resends(old(Abs()), order, now, sends)
      ensures registered == old(registered)
    {
      hide Visited, HalfScanned, Joined, Resends, Scanned, Visits;
      ghost var start := Abs();
      order := [];
      var todo := waitAckMsg.Keys;
      ScanStarts(start, now, sends);
      assert start.Keys == todo;
      while todo != {}
        invariant Valid() && todo <= waitAckMsg.Keys && registered == old(registered)
        invariant todo <= start.Keys && Abs() == HalfScanned(start, todo, now, sends)
        invariant Visited(order, start, todo)
        invariant sent == old(sent) + Resends(start, order, now, sends)
        decreases todo
      {
        ghost var some := SomeElement(todo);
        var msgId :| msgId in todo;
        ScanStep(start, todo, order, msgId, now, sends);
        ScanOne(msgId, now, sends);
        todo := todo - {msgId};
        order := order + [msgId];
      }
      ScanEnds(start, order, now, sends);
    }

    /** `onReceiveAck`. */
    method OnReceiveAck(msgId: UInt32)
      requires Valid()
      modifies this
      ensures Valid()
      ensures Abs() == old(Abs()) - {msgId} && sent == old(sent) && registered == old(registered)
    {
      hide Joined;
      if msgId in waitAckMsg {
        Erase(msgId);
      } else {
        assert Abs() - {msgId} == Abs();
      }
    }

    /** Both the scan and the acknowledgement erase an id from all maps. */
    method Erase(msgId: UInt32)
      requires Valid()
      modifies this
      ensures Valid() && waitAckMsg.Keys == old(waitAckMsg.Keys) - {msgId}
      ensures Abs() == old(Abs()) - {msgId} && sent == old(sent) && registered == old(registered)
    {
      hide Joined;
      JoinedDrop(waitAckMsg, retryCount, sendTime, registration, msgId);
      waitAckMsg := waitAckMsg - {msgId};
      retryCount := retryCount - {msgId};
      sendTime := sendTime - {msgId};
      registration := registration - {msgId};
    }

    /** The part of `readTaskHandler` that acknowledges: chats of other users do so too. */
    method OnMessage(msgType: UInt32, msgId: UInt32)
      requires Valid()
      modifies this
      ensures Valid()
      ensures Abs() == (if Acknowledges(msgType) then old(Abs()) - {msgId} else old(Abs()))
      ensures sent == old(sent) && registered == old(registered)
    {
      if Acknowledges(msgType) { OnReceiveAck(msgId); }
    }
  }

  function FirstCopy(n: nat, wire: Bytes): seq<Copy> { if wire == [] then [] else [Copy(n, wire)] }

  predicate Acknowledges(msgType: UInt32) {
    msgType == LOGIN_MSG_ACK || msgType == REG_MSG_ACK || msgType == ONE_CHAT_MSG || msgType == GROUP_CHAT_MSG
    || msgType == ACK_MSG
  }

  datatype SendEnd = AllSent | SendFailed | StillSending

  function Sum(results: seq<int>): int {
    if results == [] then 0 else Sum(results[..|results| - 1]) + results[|results| - 1]
  }

  /** The partial-send loop over what the calls of `send` return, as far as they have returned. A call that
      accepts nothing is repeated; one that returns -1 ends the loop. */
  method SendAll(data: Bytes, results: seq<int>) returns (end: SendEnd, wire: Bytes, ghost calls: nat)
    requires forall i | 0 <= i < |results| :: results[i] >= -1
    ensures wire <= data && (end.AllSent? <==> wire == data)
    ensures calls <= |results| && forall i | 0 <= i < calls :: results[i] >= 0
    ensures |wire| == if Sum(results[..calls]) < |data| then Sum(results[..calls]) else |data|
    ensures end.SendFailed? ==> calls < |results| && results[calls] == -1
    ensures end.StillSending? ==> calls == |results|
  {
    wire, calls := [], 0;
    var k := 0;
    while |wire| < |data| && k < |results|
      invariant k == calls <= |results| && forall i | 0 <= i < k :: results[i] >= 0
      invariant |wire| <= |data| && wire == data[..|wire|]
      invariant |wire| == if Sum(results[..k]) < |data| then Sum(results[..k]) else |data|
    {
      var len := results[k];
      if len == -1 { return SendFailed, wire, calls; }
      var rest := |data| - |wire|;
      var accepted := if len > rest then rest else len;
      assert data[..|wire| + accepted] == data[..|wire|] + data[|wire|..|wire| + accepted];
      assert results[..k + 1][..k] == results[..k];
      wire := wire + data[|wire|..|wire| + accepted];
      k, calls := k + 1, calls + 1;
    }
    end := if |wire| < |data| then StillSending else AllSent;
  }

  // ---------- the loop of the scan ----------

  /** The entries in the middle of a scan: those in `todo` have not been visited. */
  ghost function HalfScanned(p: Pending, todo: set<UInt32>, now: int, sends: map<UInt32, int>): Pending {
    map id | id in p && (id in todo || !GivenUp(p[id], now)) ::
      if id in todo then p[id] else ScannedEntry(p[id], now, SendOk(id, sends))
  }

  /** `order` lists once each entry that is not in `todo`. */
  ghost predicate Visited(order: seq<UInt32>, p: Pending, todo: set<UInt32>) {
    && (forall i, j | 0 <= i < j < |order| :: order[i] != order[j])
    && (forall i | 0 <= i < |order| :: order[i] in p && order[i] !in todo)
    && (forall id | id in p && id !in todo :: exists i :: 0 <= i < |order| && order[i] == id)
  }

  lemma ScanStarts(p: Pending, now: int, sends: map<UInt32, int>)
    ensures HalfScanned(p, p.Keys, now, sends) == p && Visited([], p, p.Keys)
    ensures Resends(p, [], now, sends) == []
  {
  }

  lemma VisitedOne(p: Pending, todo: set<UInt32>, order: seq<UInt32>, id: UInt32)
    requires id in todo && todo <= p.Keys && Visited(order, p, todo)
    ensures Visited(order + [id], p, todo - {id})
  {
    var longer := order + [id];
    forall x | x in p && x !in todo - {id} ensures exists i :: 0 <= i < |longer| && longer[i] == x {
      if x == id {
        assert longer[|order|] == x;
      } else {
        var i :| 0 <= i < |order| && order[i] == x;
        assert longer[i] == x;
      }
    }
  }

  lemma HalfScannedOne(p: Pending, todo: set<UInt32>, id: UInt32, now: int, sends: map<UInt32, int>)
    requires id in todo && todo <= p.Keys
    ensures var half, next := HalfScanned(p, todo, now, sends), HalfScanned(p, todo - {id}, now, sends);
            && id in half && half[id] == p[id]
            && next == if GivenUp(p[id], now) then half - {id}
                       else half[id := ScannedEntry(p[id], now, SendOk(id, sends))]
  {
  }

  lemma ScanStep(p: Pending, todo: set<UInt32>, order: seq<UInt32>, id: UInt32, now: int, sends: map<UInt32, int>)
    requires id in todo && todo <= p.Keys && Visited(order, p, todo)
    ensures var half, next := HalfScanned(p, todo, now, sends), HalfScanned(p, todo - {id}, now, sends);
            && id in half && half[id] == p[id]
            && next == if GivenUp(p[id], now) then half - {id}
                       else half[id := ScannedEntry(p[id], now, SendOk(id, sends))]
    ensures Visited(order + [id], p, todo - {id})
    ensures Resends(p, order + [id], now, sends)
            == Resends(p, order, now, sends)
               + if Resent(p[id], now, SendOk(id, sends)) then [CopyOf(p[id], id, sends)] else []
  {
    hide Visited, HalfScanned, ScannedEntry, CopyOf, SendOk;
    VisitedOne(p, todo, order, id);
    HalfScannedOne(p, todo, id, now, sends);
    assert (order + [id])[..|order|] == order;
  }

  lemma ScanEnds(p: Pending, order: seq<UInt32>, now: int, sends: map<UInt32, int>)
    requires Visited(order, p, {})
    ensures HalfScanned(p, {}, now, sends) == Scanned(p, now, sends) && Visits(order, p)
  {
  }
}

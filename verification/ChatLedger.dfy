/** Where every message is: stored for later, on the way, or published to nobody. */
module ChatLedger {
  import opened Wrappers
  import opened DbTask
  import opened ChatState
  import opened ChatPresence

  // ---------- counting ----------

  /** How often a message occurs in a list. */
  function Count(xs: seq<Chat>, c: Chat): nat {
    if xs == [] then 0 else Count(xs[..|xs| - 1], c) + if xs[|xs| - 1] == c then 1 else 0
  }

  function ChatsFor(id: int, texts: seq<string>): seq<Chat> {
    seq(|texts|, i requires 0 <= i < |texts| => Chat(id, texts[i]))
  }

  function InResponse(p: Packet, c: Chat): nat {
    if p.LoginOk? then Count(ChatsFor(p.id, p.offline), c) else 0
  }

  function InLive(p: Packet, c: Chat): nat {
    if p.ChatMsg? && Chat(p.to, p.text) == c then 1 else 0
  }

  function InTask(task: Task, c: Chat): nat {
    if task.InsertOfflineMsg? && Chat(task.toid, task.msg) == c then 1 else 0
  }

  function CountResponses(out: seq<Packet>, c: Chat): nat {
    if out == [] then 0 else CountResponses(out[..|out| - 1], c) + InResponse(out[|out| - 1], c)
  }

  function CountLive(out: seq<Packet>, c: Chat): nat {
    if out == [] then 0 else CountLive(out[..|out| - 1], c) + InLive(out[|out| - 1], c)
  }

  function CountPending(q: seq<Task>, c: Chat): nat {
    if q == [] then 0 else CountPending(q[..|q| - 1], c) + InTask(q[|q| - 1], c)
  }

  /** The three places of a stored message: the queue, the offline table, and a login response to its
      addressee. */
  function InStore(s: State, c: Chat): nat {
    CountPending(s.queue, c) + Count(s.tables.offline, c) + CountResponses(s.out, c)
  }

  /** Sent to a connection, or published and waiting for the callback. */
  function OnTheWay(s: State, c: Chat): nat {
    CountLive(s.out, c) + Count(s.channel, c)
  }

  // ---------- the way a message takes ----------

  /** Published messages are heard when the channel has a subscriber. */
  datatype Route = Live | Heard | Unheard | Later

  /** The user has no connection and no subscription, yet the row, or for a private chat the Redis key,
      says online. */
  predicate Gone(s: State, id: int, keyed: bool) {
    && id !in s.conns && id !in s.subs
    && (Query(s.tables, id).user.state == Online || (keyed && id in s.keys))
  }

  /** `keyed`: a private chat asks for the Redis key, a group chat does not. */
  function RouteOf(s: State, id: int, keyed: bool): Route {
    if id in s.conns then Live
    else if Gone(s, id, keyed) then Unheard
    else if Query(s.tables, id).user.state == Online || (keyed && id in s.keys) then Heard
    else Later
  }

  /** The members of a group that are reached in the given way. */
  function Routed(s: State, ids: seq<int>, route: Route): seq<int> {
    if ids == [] then []
    else
      var front, last := Routed(s, ids[..|ids| - 1], route), ids[|ids| - 1];
      if RouteOf(s, last, false) == route then front + [last] else front
  }

  function ForEach(ids: seq<int>, text: string): seq<Chat> {
    seq(|ids|, i requires 0 <= i < |ids| => Chat(ids[i], text))
  }

  function GroupRoute(s: State, sender: int, groupid: int, route: Route): seq<int> {
    Routed(s, Recipients(s.tables.members, groupid, sender), route)
  }

  /** What an event stores: a private chat is filed under the id of the row, which is -1 for an unknown
      addressee. The callback stores what it cannot deliver. */
  function StoredBy(s: State, e: Event): seq<Chat> {
    match e
    case OneChat(_, toid, text, _) =>
      if RouteOf(s, toid, true) == Later then [Chat(Query(s.tables, toid).id, text)] else []
    case GroupChat(_, sender, groupid, text, _) => ForEach(GroupRoute(s, sender, groupid, Later), text)
    case Deliver => if s.channel != [] && s.channel[0].to !in s.conns then [s.channel[0]] else []
    case _ => []
  }

  function SentBy(s: State, e: Event): seq<Chat> {
    match e
    case OneChat(_, toid, text, _) =>
      if RouteOf(s, toid, true) in {Live, Heard} then [Chat(toid, text)] else []
    case GroupChat(_, sender, groupid, text, _) =>
      ForEach(GroupRoute(s, sender, groupid, Live), text) + ForEach(GroupRoute(s, sender, groupid, Heard), text)
    case _ => []
  }

  function LostBy(s: State, e: Event): seq<Chat> {
    match e
    case OneChat(_, toid, text, _) => if RouteOf(s, toid, true) == Unheard then [Chat(toid, text)] else []
    case GroupChat(_, sender, groupid, text, _) => ForEach(GroupRoute(s, sender, groupid, Unheard), text)
    case _ => []
  }

  /** What leaves the channel for the offline table. */
  function ReturnedBy(s: State, e: Event): seq<Chat> {
    if e.Deliver? then StoredBy(s, e) else []
  }

  // ---------- one change at a time ----------

  ghost predicate Changes(s: State, t: State, c: Chat, stored: int, sent: int) {
    InStore(t, c) == InStore(s, c) + stored && OnTheWay(t, c) == OnTheWay(s, c) + sent
  }

  lemma CountOne(xs: seq<Chat>, x: Chat, c: Chat)
    ensures Count(xs + [x], c) == Count(xs, c) + if x == c then 1 else 0
  {
    assert (xs + [x])[..|xs|] == xs;
  }

  lemma CountSingle(x: Chat, c: Chat)
    ensures Count([x], c) == if x == c then 1 else 0
  {
    CountOne([], x, c);
    assert [] + [x] == [x];
  }

  lemma {:induction false} CountAppend(xs: seq<Chat>, ys: seq<Chat>, c: Chat)
    ensures Count(xs + ys, c) == Count(xs, c) + Count(ys, c)
    decreases |ys|
  {
    if ys == [] {
      assert xs + ys == xs;
    } else {
      var front, last := ys[..|ys| - 1], ys[|ys| - 1];
      CountAppend(xs, front, c);
      CountOne(xs + front, last, c);
      CountOne(front, last, c);
      assert xs + front + [last] == xs + ys && front + [last] == ys;
    }
  }

  lemma SendChanges(s: State, p: Packet, c: Chat)
    ensures Changes(s, Send(s, p), c, InResponse(p, c), InLive(p, c))
  {
    assert (s.out + [p])[..|s.out|] == s.out;
  }

  lemma PushChanges(s: State, task: Task, c: Chat)
    ensures Changes(s, PushTask(s, task), c, InTask(task, c), 0)
  {
    assert (s.queue + [task])[..|s.queue|] == s.queue;
  }

  lemma PublishChanges(s: State, x: Chat, c: Chat)
    ensures Changes(s, Publish(s, x), c, 0, if x.to in s.subs && x == c then 1 else 0)
  {
    CountOne(s.channel, x, c);
  }

  /** Presence is no place for messages. */
  lemma SamePlaces(s: State, t: State, c: Chat)
    requires t.out == s.out && t.channel == s.channel && t.queue == s.queue && t.tables.offline == s.tables.offline
    ensures Changes(s, t, c, 0, 0)
  {
  }

  lemma TwoPackets(s: State, p: Packet, q: Packet, c: Chat)
    requires !p.LoginOk? && !p.ChatMsg? && !q.LoginOk? && !q.ChatMsg?
    ensures Changes(s, Send(Send(s, p), q), c, 0, 0)
  {
    SendChanges(s, p, c);
    SendChanges(Send(s, p), q, c);
  }

  lemma TaskAndPacket(s: State, task: Task, p: Packet, c: Chat)
    requires !task.InsertOfflineMsg? && !p.LoginOk? && !p.ChatMsg?
    ensures Changes(s, Send(PushTask(s, task), p), c, 0, 0)
  {
    PushChanges(s, task, c);
    SendChanges(PushTask(s, task), p, c);
  }

  // ---------- login ----------

  /** Login hands over what it removes from the table. */
  lemma {:induction false} RowsSplit(rows: seq<Chat>, id: int, c: Chat)
    ensures Count(rows, c) == Count(ChatsFor(id, MessagesFor(rows, id)), c) + Count(WithoutUser(rows, id), c)
    decreases |rows|
  {
    if rows != [] {
      var front, last := rows[..|rows| - 1], rows[|rows| - 1];
      RowsSplit(front, id, c);
      if last.to == id {
        var texts := MessagesFor(front, id);
        assert ChatsFor(id, texts + [last.text]) == ChatsFor(id, texts) + [last];
        CountOne(ChatsFor(id, texts), last, c);
      } else {
        CountOne(WithoutUser(front, id), last, c);
      }
    }
  }

  lemma LoginChanges(s: State, conn: int, id: int, pwd: string, msgId: int, c: Chat)
    ensures Changes(s, LoginStep(s, conn, id, pwd, msgId), c, 0, 0)
  {
    hide Count, CountPending, CountResponses, CountLive, MessagesFor, WithoutUser, FriendList, ChatsFor;
    if LoginAccepted(s, id, pwd) {
      var rows := s.tables.offline;
      var entered := s.(
        conns := if id in s.conns then s.conns else s.conns[id := conn],
        subs := s.subs + {id},
        keys := s.keys + {id},
        tables := s.tables.(offline := WithoutUser(rows, id)));
      var pushed := PushTask(entered, UpdateUserState(id, Online));
      var ok := LoginOk(conn, id, Query(s.tables, id).user.name, MessagesFor(rows, id),
                        FriendList(s.tables.users, s.tables.friends, id), msgId);
      RowsSplit(rows, id, c);
      PushChanges(entered, UpdateUserState(id, Online), c);
      SendChanges(pushed, ok, c);
      SendChanges(Send(pushed, ok), Ack(conn, msgId), c);
    } else {
      var found := Query(s.tables, id);
      var refused := LoginRefused(conn, if found.id != id || found.user.password != pwd then 1 else 2, msgId);
      TwoPackets(s, refused, Ack(conn, msgId), c);
    }
  }

  // ---------- the other handlers ----------

  lemma ClosePlaces(s: State, found: Option<int>, c: Chat)
    ensures Changes(s, CloseStep(s, found), c, 0, 0)
  {
    if found.Some? { PushChanges(Leave(s, found.value), UpdateUserState(found.value, Offline), c); }
  }

  lemma RegPlaces(s: State, conn: int, name: string, pwd: string, msgId: int, newId: Option<int>, c: Chat)
    ensures Changes(s, RegStep(s, conn, name, pwd, msgId, newId), c, 0, 0)
  {
    if newId.Some? {
      var t := s.tables.(users := s.tables.users[newId.value := User(name, pwd, Offline)]);
      TwoPackets(s.(tables := t), RegOk(conn, newId.value, msgId), Ack(conn, msgId), c);
    } else {
      TwoPackets(s, RegEcho(conn), Ack(conn, msgId), c);
    }
  }

  lemma CreateGroupPlaces(s: State, conn: int, userid: int, name: string, desc: string, msgId: int, c: Chat)
    ensures Changes(s, CreateGroupStep(s, conn, userid, name, desc, msgId), c, 0, 0)
  {
    var t := s.tables.(members := s.tables.members + [Membership(-1, userid, "creator")]);
    var pushed := PushTask(s.(tables := t), CreateGroup(name, desc));
    SamePlaces(s, s.(tables := t), c);
    PushChanges(s.(tables := t), CreateGroup(name, desc), c);
    TwoPackets(pushed, GroupCreated(conn, msgId), Ack(conn, msgId), c);
  }

  lemma AddGroupPlaces(s: State, conn: int, userid: int, groupid: int, msgId: int, c: Chat)
    ensures Changes(s, AddGroupStep(s, conn, userid, groupid, msgId), c, 0, 0)
  {
    PushChanges(s, AddGroupUser(userid, groupid), c);
    TwoPackets(PushTask(s, AddGroupUser(userid, groupid)), GroupJoined(conn, msgId), Ack(conn, msgId), c);
  }

  lemma OneChatChanges(s: State, conn: int, toid: int, text: string, msgId: int, c: Chat)
    ensures var e := OneChat(conn, toid, text, msgId);
            var t := OneChatStep(s, conn, toid, text, msgId);
            Changes(s, t, c, Count(StoredBy(s, e), c), Count(SentBy(s, e), c)) && t.lost == s.lost + LostBy(s, e)
  {
    hide Changes, Count;
    var e, route := OneChat(conn, toid, text, msgId), RouteOf(s, toid, true);
    CountNothing(c);
    CountSingle(Chat(toid, text), c);
    match route
    case Live =>
      var packet := ChatMsg(s.conns[toid], toid, text);
      SendChanges(s, packet, c);
      SendChanges(Send(s, packet), Ack(conn, msgId), c);
      Sequel(s, Send(s, packet), Send(Send(s, packet), Ack(conn, msgId)), c, 0, InLive(packet, c), 0, 0);
    case Heard => PublishChanges(s, Chat(toid, text), c);
    case Unheard => PublishChanges(s, Chat(toid, text), c);
    case Later =>
      var task := InsertOfflineMsg(Query(s.tables, toid).id, text);
      CountSingle(Chat(Query(s.tables, toid).id, text), c);
      PushChanges(s, task, c);
      SendChanges(PushTask(s, task), Ack(conn, msgId), c);
      Sequel(s, PushTask(s, task), Send(PushTask(s, task), Ack(conn, msgId)), c, InTask(task, c), 0, 0, 0);
  }

  lemma CountNothing(c: Chat)
    ensures Count([], c) == 0
  {
  }

  lemma Sequel(s: State, t: State, u: State, c: Chat, stored1: int, sent1: int, stored2: int, sent2: int)
    requires Changes(s, t, c, stored1, sent1) && Changes(t, u, c, stored2, sent2)
    ensures Changes(s, u, c, stored1 + stored2, sent1 + sent2)
  {
  }

  lemma {:induction false} CountFirst(xs: seq<Chat>, c: Chat)
    requires xs != []
    ensures Count(xs, c) == Count(xs[1..], c) + if xs[0] == c then 1 else 0
    decreases |xs|
  {
    if |xs| > 1 {
      var front := xs[..|xs| - 1];
      CountFirst(front, c);
      assert xs[1..][..|xs| - 2] == front[1..];
    }
  }

  lemma DeliverChanges(s: State, c: Chat)
    ensures Changes(s, DeliverStep(s), c, Count(StoredBy(s, Deliver), c), 0 - Count(StoredBy(s, Deliver), c))
  {
    if s.channel != [] {
      var x, rest := s.channel[0], s.(channel := s.channel[1..]);
      CountFirst(s.channel, c);
      CountSingle(x, c);
      if x.to in s.conns {
        SendChanges(rest.(keys := s.keys + {x.to}), ChatMsg(s.conns[x.to], x.to, x.text), c);
      } else {
        CountOne(s.tables.offline, x, c);
      }
    }
  }

  lemma {:induction false} PendingFirst(q: seq<Task>, c: Chat)
    requires q != []
    ensures CountPending(q, c) == InTask(q[0], c) + CountPending(q[1..], c)
    decreases |q|
  {
    if |q| > 1 {
      var front := q[..|q| - 1];
      PendingFirst(front, c);
      assert q[1..][..|q| - 2] == front[1..];
    }
  }

  lemma DbRoundPlaces(s: State, c: Chat)
    ensures Changes(s, DbStep(s), c, 0, 0)
  {
    if s.queue != [] {
      var task := s.queue[0];
      PendingFirst(s.queue, c);
      if task.InsertOfflineMsg? { CountOne(s.tables.offline, Chat(task.toid, task.msg), c); }
    }
  }

  // ---------- group chat ----------

  function LivePackets(s: State, ids: seq<int>, text: string): seq<Packet>
    requires forall i | 0 <= i < |ids| :: ids[i] in s.conns
  {
    seq(|ids|, i requires 0 <= i < |ids| => ChatMsg(s.conns[ids[i]], ids[i], text))
  }

  function StoreTasks(ids: seq<int>, text: string): seq<Task> {
    seq(|ids|, i requires 0 <= i < |ids| => InsertOfflineMsg(ids[i], text))
  }

  lemma {:induction false} RoutedIsRouted(s: State, ids: seq<int>, route: Route)
    ensures forall i | 0 <= i < |Routed(s, ids, route)| :: RouteOf(s, Routed(s, ids, route)[i], false) == route
    decreases |ids|
  {
    if ids != [] { RoutedIsRouted(s, ids[..|ids| - 1], route); }
  }

  lemma {:induction false} RoutedAll(s: State, ids: seq<int>, route: Route)
    ensures Routed(s, ids, route) == [] <==> forall i | 0 <= i < |ids| :: RouteOf(s, ids[i], false) != route
    decreases |ids|
  {
    if ids != [] {
      var front := ids[..|ids| - 1];
      RoutedAll(s, front, route);
      if forall i | 0 <= i < |front| :: RouteOf(s, front[i], false) != route {
        assert forall i | 0 <= i < |front| :: RouteOf(s, ids[i], false) != route;
      } else {
        var i :| 0 <= i < |front| && RouteOf(s, front[i], false) == route;
        assert RouteOf(s, ids[i], false) == route;
      }
    }
  }

  lemma {:induction false} RoutesPartition(s: State, ids: seq<int>)
    ensures multiset(ids)
            == multiset(Routed(s, ids, Live)) + multiset(Routed(s, ids, Heard))
               + multiset(Routed(s, ids, Unheard)) + multiset(Routed(s, ids, Later))
    decreases |ids|
  {
    if ids != [] {
      assert ids == ids[..|ids| - 1] + [ids[|ids| - 1]];
      RoutesPartition(s, ids[..|ids| - 1]);
    }
  }

  lemma OneMore(ids: seq<int>, id: int, text: string)
    ensures ForEach(ids + [id], text) == ForEach(ids, text) + [Chat(id, text)]
    ensures StoreTasks(ids + [id], text) == StoreTasks(ids, text) + [InsertOfflineMsg(id, text)]
  {
  }

  lemma OneMorePacket(s: State, ids: seq<int>, id: int, text: string)
    requires id in s.conns && forall i | 0 <= i < |ids| :: ids[i] in s.conns
    ensures LivePackets(s, ids + [id], text) == LivePackets(s, ids, text) + [ChatMsg(s.conns[id], id, text)]
  {
  }

  lemma GroupOneGoes(s: State, t: State, id: int, text: string)
    requires t.conns == s.conns && t.subs == s.subs && t.tables == s.tables
    ensures GroupOne(t, id, text)
            == match RouteOf(s, id, false)
               case Live => t.(out := t.out + [ChatMsg(s.conns[id], id, text)])
               case Heard => t.(channel := t.channel + [Chat(id, text)])
               case Unheard => t.(lost := t.lost + [Chat(id, text)])
               case Later => t.(queue := t.queue + [InsertOfflineMsg(id, text)])
  {
    hide Query;
  }

  /** The whole effect of the loop: one packet, publish or stored message per member, in order. */
  lemma {:induction false} GroupFanOut(s: State, ids: seq<int>, text: string)
    ensures forall i | 0 <= i < |Routed(s, ids, Live)| :: Routed(s, ids, Live)[i] in s.conns
    ensures GroupAll(s, ids, text)
            == s.(out := s.out + LivePackets(s, Routed(s, ids, Live), text),
                  channel := s.channel + ForEach(Routed(s, ids, Heard), text),
                  lost := s.lost + ForEach(Routed(s, ids, Unheard), text),
                  queue := s.queue + StoreTasks(Routed(s, ids, Later), text))
    decreases |ids|
  {
    RoutedIsRouted(s, ids, Live);
    if ids == [] {
      assert LivePackets(s, [], text) == [] && StoreTasks([], text) == [] && ForEach([], text) == [];
    } else {
      var front, id := ids[..|ids| - 1], ids[|ids| - 1];
      GroupFanOut(s, front, text);
      var route := RouteOf(s, id, false);
      GroupOneGoes(s, GroupAll(s, front, text), id, text);
      hide LivePackets, StoreTasks, ForEach, RouteOf, GroupOne;
      OneMore(Routed(s, front, route), id, text);
      if route == Live {
        RoutedIsRouted(s, front, Live);
        OneMorePacket(s, Routed(s, front, Live), id, text);
      }
    }
  }

  lemma PacketOne(out: seq<Packet>, p: Packet, c: Chat)
    ensures CountLive(out + [p], c) == CountLive(out, c) + InLive(p, c)
    ensures CountResponses(out + [p], c) == CountResponses(out, c) + InResponse(p, c)
  {
    assert (out + [p])[..|out|] == out;
  }

  lemma TaskOne(q: seq<Task>, task: Task, c: Chat)
    ensures CountPending(q + [task], c) == CountPending(q, c) + InTask(task, c)
  {
    assert (q + [task])[..|q|] == q;
  }

  lemma {:induction false} LiveCounts(s: State, out: seq<Packet>, ids: seq<int>, text: string, c: Chat)
    requires forall i | 0 <= i < |ids| :: ids[i] in s.conns
    ensures CountLive(out + LivePackets(s, ids, text), c) == CountLive(out, c) + Count(ForEach(ids, text), c)
    ensures CountResponses(out + LivePackets(s, ids, text), c) == CountResponses(out, c)
    decreases |ids|
  {
    if ids == [] {
      assert out + LivePackets(s, ids, text) == out;
    } else {
      var front, id := ids[..|ids| - 1], ids[|ids| - 1];
      assert ids == front + [id];
      hide CountLive, CountResponses, Count, LivePackets, ForEach;
      LiveCounts(s, out, front, text, c);
      OneMorePacket(s, front, id, text);
      OneMore(front, id, text);
      CountOne(ForEach(front, text), Chat(id, text), c);
      var before, packet := LivePackets(s, front, text), ChatMsg(s.conns[id], id, text);
      PacketOne(out + before, packet, c);
      assert out + before + [packet] == out + (before + [packet]);
    }
  }

  lemma {:induction false} PendingCounts(q: seq<Task>, ids: seq<int>, text: string, c: Chat)
    ensures CountPending(q + StoreTasks(ids, text), c) == CountPending(q, c) + Count(ForEach(ids, text), c)
    decreases |ids|
  {
    if ids == [] {
      assert q + StoreTasks(ids, text) == q;
    } else {
      var front, id := ids[..|ids| - 1], ids[|ids| - 1];
      assert ids == front + [id];
      hide CountPending, Count, StoreTasks, ForEach;
      PendingCounts(q, front, text, c);
      OneMore(front, id, text);
      CountOne(ForEach(front, text), Chat(id, text), c);
      var before, task := StoreTasks(front, text), InsertOfflineMsg(id, text);
      TaskOne(q + before, task, c);
      assert q + before + [task] == q + (before + [task]);
    }
  }

  lemma GroupAllChanges(s: State, ids: seq<int>, text: string, c: Chat)
    ensures Changes(s, GroupAll(s, ids, text), c,
                    Count(ForEach(Routed(s, ids, Later), text), c),
                    Count(ForEach(Routed(s, ids, Live), text) + ForEach(Routed(s, ids, Heard), text), c))
  {
    GroupFanOut(s, ids, text);
    LiveCounts(s, s.out, Routed(s, ids, Live), text, c);
    PendingCounts(s.queue, Routed(s, ids, Later), text, c);
    CountAppend(s.channel, ForEach(Routed(s, ids, Heard), text), c);
    CountAppend(ForEach(Routed(s, ids, Live), text), ForEach(Routed(s, ids, Heard), text), c);
    hide GroupAll, LivePackets, StoreTasks, ForEach, Routed, Count, CountLive, CountResponses, CountPending;
  }

  lemma GroupChatChanges(s: State, conn: int, sender: int, groupid: int, text: string, msgId: int, c: Chat)
    ensures var e := GroupChat(conn, sender, groupid, text, msgId);
            var t := GroupChatStep(s, conn, sender, groupid, text, msgId);
            Changes(s, t, c, Count(StoredBy(s, e), c), Count(SentBy(s, e), c)) && t.lost == s.lost + LostBy(s, e)
  {
    var ids := Recipients(s.tables.members, groupid, sender);
    GroupAllChanges(s, ids, text, c);
    GroupFanOut(s, ids, text);
    SendChanges(GroupAll(s, ids, text), Ack(conn, msgId), c);
    hide GroupAll, LivePackets, StoreTasks, ForEach, Routed, Count, CountLive, CountResponses, CountPending;
  }

  function RowsOf(rows: seq<Membership>, groupid: int, userid: int): nat {
    if rows == [] then 0
    else
      RowsOf(rows[..|rows| - 1], groupid, userid) +
      var last := rows[|rows| - 1]; if last.groupid == groupid && last.userid == userid then 1 else 0
  }

  /** The recipients are the rows of the group, except the sender's. */
  lemma {:induction false} RecipientsAreRows(rows: seq<Membership>, groupid: int, sender: int, userid: int)
    ensures multiset(Recipients(rows, groupid, sender))[userid]
            == if userid == sender then 0 else RowsOf(rows, groupid, userid)
    decreases |rows|
  {
    if rows != [] { RecipientsAreRows(rows[..|rows| - 1], groupid, sender, userid); }
  }

  /** A group chat reaches every row of the group once and the sender never, and ends with one
      acknowledgement. */
  lemma GroupChatDelivers(s: State, conn: int, sender: int, groupid: int, text: string, msgId: int, userid: int)
    ensures var ids := Recipients(s.tables.members, groupid, sender);
            var live, heard := Routed(s, ids, Live), Routed(s, ids, Heard);
            var unheard, later := Routed(s, ids, Unheard), Routed(s, ids, Later);
            && (forall i | 0 <= i < |live| :: live[i] in s.conns)
            && GroupChatStep(s, conn, sender, groupid, text, msgId)
               == s.(out := s.out + LivePackets(s, live, text) + [Ack(conn, msgId)],
                     channel := s.channel + ForEach(heard, text),
                     lost := s.lost + ForEach(unheard, text),
                     queue := s.queue + StoreTasks(later, text))
            && multiset(live)[userid] + multiset(heard)[userid] + multiset(unheard)[userid] + multiset(later)[userid]
               == if userid == sender then 0 else RowsOf(s.tables.members, groupid, userid)
  {
    var ids := Recipients(s.tables.members, groupid, sender);
    GroupFanOut(s, ids, text);
    RoutesPartition(s, ids);
    RecipientsAreRows(s.tables.members, groupid, sender, userid);
    hide Recipients, Routed, LivePackets, StoreTasks, ForEach, GroupAll, RowsOf;
  }

  // ---------- every event ----------

  /** What an event stores, sends and loses, to the message: a stored message is in exactly one of the
      queue, the offline table and a login response to its addressee, and stays stored. */
  lemma StepAccounts(s: State, e: Event, c: Chat)
    ensures InStore(Step(s, e), c) == InStore(s, c) + Count(StoredBy(s, e), c)
    ensures OnTheWay(Step(s, e), c) + Count(ReturnedBy(s, e), c) == OnTheWay(s, c) + Count(SentBy(s, e), c)
    ensures Step(s, e).lost == s.lost + LostBy(s, e)
  {
    hide InStore, OnTheWay, LoginStep, CloseStep, RegStep, OneChatStep, GroupChatStep, CreateGroupStep,
      AddGroupStep, DeliverStep, DbStep, Recipients, ForEach, RouteOf, GroupRoute, Count;
    CountNothing(c);
    StepChanges(s, e, c);
    StepLoses(s, e);
  }

  lemma StepChanges(s: State, e: Event, c: Chat)
    ensures Changes(s, Step(s, e), c, Count(StoredBy(s, e), c), Count(SentBy(s, e), c) - Count(ReturnedBy(s, e), c))
  {
    hide Changes, LoginStep, CloseStep, RegStep, OneChatStep, GroupChatStep, CreateGroupStep, AddGroupStep,
      DeliverStep, DbStep, Recipients, ForEach, RouteOf, GroupRoute, Count;
    CountNothing(c);
    match e
    case Login(conn, id, pwd, msgId) => LoginChanges(s, conn, id, pwd, msgId, c);
    case Logout(conn, id, msgId) =>
      SamePlaces(s, Leave(s, id), c);
      TaskAndPacket(Leave(s, id), UpdateUserState(id, Offline), Ack(conn, msgId), c);
      Sequel(s, Leave(s, id), Step(s, e), c, 0, 0, 0, 0);
    case Close(_, found) => ClosePlaces(s, found, c);
    case Reg(conn, name, pwd, msgId, newId) => RegPlaces(s, conn, name, pwd, msgId, newId, c);
    case OneChat(conn, toid, text, msgId) => OneChatChanges(s, conn, toid, text, msgId, c);
    case GroupChat(conn, sender, groupid, text, msgId) => GroupChatChanges(s, conn, sender, groupid, text, msgId, c);
    case AddFriendMsg(conn, id, friendid, msgId) => TaskAndPacket(s, AddFriend(id, friendid), Ack(conn, msgId), c);
    case CreateGroupMsg(conn, userid, name, desc, msgId) => CreateGroupPlaces(s, conn, userid, name, desc, msgId, c);
    case AddGroupMsg(conn, userid, groupid, msgId) => AddGroupPlaces(s, conn, userid, groupid, msgId, c);
    case Deliver => DeliverChanges(s, c);
    case DbRound => DbRoundPlaces(s, c);
    case KeyExpires(id) => SamePlaces(s, s.(keys := s.keys - {id}), c);
  }

  lemma StepLoses(s: State, e: Event)
    ensures Step(s, e).lost == s.lost + LostBy(s, e)
  {
    match e
    case OneChat(conn, toid, text, msgId) => OneChatChanges(s, conn, toid, text, msgId, Chat(0, ""));
    case GroupChat(conn, sender, groupid, text, msgId) =>
      GroupChatChanges(s, conn, sender, groupid, text, msgId, Chat(0, ""));
    case _ => hide GroupChatStep, OneChatStep;
  }

  // ---------- whole runs ----------

  function CountStored(s: State, es: seq<Event>, c: Chat): nat {
    if es == [] then 0
    else CountStored(s, es[..|es| - 1], c) + Count(StoredBy(Run(s, es[..|es| - 1]), es[|es| - 1]), c)
  }

  /** Over any run, with multiplicity, a message is in the queue, the offline table and the login responses
      together as often as it was stored. */
  lemma {:induction false} OfflineConservation(s: State, es: seq<Event>, c: Chat)
    ensures InStore(Run(s, es), c) == InStore(s, c) + CountStored(s, es, c)
    decreases |es|
  {
    hide Step, InStore, StoredBy, OnTheWay, SentBy, ReturnedBy, LostBy;
    if es != [] {
      OfflineConservation(s, es[..|es| - 1], c);
      StepAccounts(Run(s, es[..|es| - 1]), es[|es| - 1], c);
    }
  }

  /** The user a private message is filed under: an unknown one becomes the row -1. */
  function Addressee(s: State, toid: int): int {
    if toid in s.tables.users || toid in s.conns || toid in s.keys then toid else NO_USER
  }

  /** The messages that an event asks the server to bring to somebody. A private chat to an unknown id
      counts as one to -1, where it is filed. */
  function Accepted(s: State, e: Event): seq<Chat> {
    match e
    case OneChat(_, toid, text, _) => [Chat(Addressee(s, toid), text)]
    case GroupChat(_, sender, groupid, text, _) => ForEach(Recipients(s.tables.members, groupid, sender), text)
    case _ => []
  }

  function CountAccepted(s: State, es: seq<Event>, c: Chat): nat {
    if es == [] then 0
    else CountAccepted(s, es[..|es| - 1], c) + Count(Accepted(Run(s, es[..|es| - 1]), es[|es| - 1]), c)
  }

  lemma RouteCount(s: State, ids: seq<int>, route: Route, text: string, c: Chat)
    requires ids != []
    ensures var front, id := ids[..|ids| - 1], ids[|ids| - 1];
            Count(ForEach(Routed(s, ids, route), text), c)
            == Count(ForEach(Routed(s, front, route), text), c)
               + if RouteOf(s, id, false) == route && Chat(id, text) == c then 1 else 0
  {
    var chosen, id := Routed(s, ids[..|ids| - 1], route), ids[|ids| - 1];
    hide RouteOf, ForEach, Count;
    OneMore(chosen, id, text);
    CountOne(ForEach(chosen, text), Chat(id, text), c);
  }

  lemma {:induction false} RoutesCount(s: State, ids: seq<int>, text: string, c: Chat)
    ensures Count(ForEach(ids, text), c)
            == Count(ForEach(Routed(s, ids, Live), text), c) + Count(ForEach(Routed(s, ids, Heard), text), c)
               + Count(ForEach(Routed(s, ids, Unheard), text), c) + Count(ForEach(Routed(s, ids, Later), text), c)
    decreases |ids|
  {
    if ids != [] {
      var front, id := ids[..|ids| - 1], ids[|ids| - 1];
      hide RouteOf, ForEach, Count, Routed;
      RoutesCount(s, front, text, c);
      assert ids == front + [id];
      OneMore(front, id, text);
      CountOne(ForEach(front, text), Chat(id, text), c);
      RouteCount(s, ids, Live, text, c);
      RouteCount(s, ids, Heard, text, c);
      RouteCount(s, ids, Unheard, text, c);
      RouteCount(s, ids, Later, text, c);
    }
  }

  /** What is accepted is stored, sent or lost. */
  lemma AcceptedSplits(s: State, e: Event, c: Chat)
    ensures Count(Accepted(s, e), c) + Count(ReturnedBy(s, e), c)
            == Count(StoredBy(s, e), c) + Count(SentBy(s, e), c) + Count(LostBy(s, e), c)
  {
    match e
    case OneChat(_, toid, text, _) =>
    case GroupChat(_, sender, groupid, text, _) =>
      RoutesCount(s, Recipients(s.tables.members, groupid, sender), text, c);
      CountAppend(ForEach(GroupRoute(s, sender, groupid, Live), text),
                  ForEach(GroupRoute(s, sender, groupid, Heard), text), c);
      hide Count, ForEach, Recipients, Routed;
    case _ =>
  }

  /** Over any run, with multiplicity, everything accepted is stored, on the way or lost. */
  lemma {:induction false} Conservation(s: State, es: seq<Event>, c: Chat)
    ensures InStore(Run(s, es), c) + OnTheWay(Run(s, es), c) + Count(Run(s, es).lost, c)
            == InStore(s, c) + OnTheWay(s, c) + Count(s.lost, c) + CountAccepted(s, es, c)
    decreases |es|
  {
    hide Step, InStore, OnTheWay, StoredBy, SentBy, ReturnedBy, LostBy, Accepted, Count;
    if es != [] {
      var r, e := Run(s, es[..|es| - 1]), es[|es| - 1];
      Conservation(s, es[..|es| - 1], c);
      StepAccounts(r, e, c);
      CountAppend(r.lost, LostBy(r, e), c);
      AcceptedSplits(r, e, c);
    }
  }

  // ---------- what is lost ----------

  /** The event is a chat to somebody who is gone. */
  predicate MeetsGone(s: State, e: Event) {
    match e
    case OneChat(_, toid, _, _) => Gone(s, toid, true)
    case GroupChat(_, sender, groupid, _, _) =>
      var ids := Recipients(s.tables.members, groupid, sender);
      exists i :: 0 <= i < |ids| && Gone(s, ids[i], false)
    case _ => false
  }

  predicate NobodyGone(s: State, es: seq<Event>) {
    es == [] || (NobodyGone(s, es[..|es| - 1]) && !MeetsGone(Run(s, es[..|es| - 1]), es[|es| - 1]))
  }

  lemma StepLosesExactly(s: State, e: Event)
    ensures LostBy(s, e) == [] <==> !MeetsGone(s, e)
  {
    match e
    case OneChat(_, _, _, _) =>
    case GroupChat(_, sender, groupid, text, _) =>
      var ids := Recipients(s.tables.members, groupid, sender);
      RoutedAll(s, ids, Unheard);
      hide Routed, Recipients;
      assert |LostBy(s, e)| == |Routed(s, ids, Unheard)|;
      assert forall i | 0 <= i < |ids| :: RouteOf(s, ids[i], false) == Unheard <==> Gone(s, ids[i], false);
    case _ =>
  }

  /** A run loses nothing exactly when no chat of it meets an addressee who is gone. */
  lemma {:induction false} LosesNothingExactly(s: State, es: seq<Event>)
    requires s.lost == []
    ensures Run(s, es).lost == [] <==> NobodyGone(s, es)
    decreases |es|
  {
    hide Step, LostBy, MeetsGone;
    if es != [] {
      var r, e := Run(s, es[..|es| - 1]), es[|es| - 1];
      LosesNothingExactly(s, es[..|es| - 1]);
      StepLoses(r, e);
      StepLosesExactly(r, e);
    }
  }

  /** A registered user is gone exactly when the row still says online while the last pending state task
      says offline. */
  lemma GoneExactly(s: State, id: int, keyed: bool)
    requires Inv(s) && id in s.tables.users
    ensures Gone(s, id, keyed) <==>
            s.tables.users[id].state == Online && LastState(s.queue, id) == Some(Offline)
  {
    LastTaskDecides(s, id);
    assert Consistent(s, id);
  }

  /** A private chat to a registered user is lost exactly then, and otherwise loses nothing. */
  lemma PrivateChatLostExactly(s: State, conn: int, toid: int, text: string, msgId: int)
    requires Inv(s) && toid in s.tables.users
    ensures OneChatStep(s, conn, toid, text, msgId).lost
            == if s.tables.users[toid].state == Online && LastState(s.queue, toid) == Some(Offline)
               then s.lost + [Chat(toid, text)] else s.lost
  {
    GoneExactly(s, toid, true);
  }

  lemma CountIsMember(xs: seq<Chat>)
    requires xs != []
    ensures Count(xs, xs[|xs| - 1]) > 0
  {
  }

  /** From a fresh server without stored messages: every message is handed to a connection, on the channel,
      pending or in the offline table as often as it was accepted, exactly when no chat met an addressee
      who was gone. */
  lemma NothingLost(s: State, es: seq<Event>)
    requires Initial(s) && s.tables.offline == []
    ensures (forall c :: CountAccepted(s, es, c) == InStore(Run(s, es), c) + OnTheWay(Run(s, es), c))
            <==> NobodyGone(s, es)
  {
    var r := Run(s, es);
    forall c
      ensures CountAccepted(s, es, c) == InStore(r, c) + OnTheWay(r, c) + Count(r.lost, c)
    {
      Conservation(s, es, c);
      assert InStore(s, c) == 0 && OnTheWay(s, c) == 0 && Count(s.lost, c) == 0;
    }
    hide Run, InStore, OnTheWay, CountAccepted, NobodyGone;
    LosesNothingExactly(s, es);
    if r.lost != [] {
      var c := r.lost[|r.lost| - 1];
      CountIsMember(r.lost);
      assert CountAccepted(s, es, c) != InStore(r, c) + OnTheWay(r, c);
    }
  }

  /** The gap: a chat that arrives between a logout and the database thread is published to nobody. */
  lemma LogoutRaceLosesChat(s: State, id: int, pwd: string)
    requires Initial(s) && id in s.tables.users && pwd == s.tables.users[id].password
    ensures var s1 := Step(s, Login(1, id, pwd, 7));
            var s2 := Step(s1, DbRound);
            var s3 := Step(s2, Logout(1, id, 8));
            Step(s3, OneChat(2, id, "hello", 9)).lost == [Chat(id, "hello")]
  {
    var s1 := LoginStep(s, 1, id, pwd, 7);
    var s2 := DbStep(s1);
    assert s2.tables.users[id].state == Online;
    var s3 := LogoutStep(s2, 1, id, 8);
    assert id !in s3.conns && id !in s3.keys && id !in s3.subs;
  }

  /** A private message to an id without a row is filed under -1. */
  lemma UnknownAddresseeBecomesMinusOne(s: State, conn: int, toid: int, text: string, msgId: int)
    requires Inv(s) && toid !in s.tables.users && toid != NO_USER
    ensures OneChatStep(s, conn, toid, text, msgId).queue == s.queue + [InsertOfflineMsg(-1, text)]
  {
    assert !Known(s, toid);
  }
}

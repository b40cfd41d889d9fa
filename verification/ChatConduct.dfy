/** What one handler does, said of users, connections and packets, and what follows for runs. */
module ChatConduct {
  import opened Wrappers
  import opened DbTask
  import opened ChatState
  import opened ChatPresence
  import opened ChatLedger

  // ---------- who may log in ----------

  /** The row has the password and is offline. The answer to a missing row has the id -1 and an empty
      password, and so admits exactly that. */
  predicate Admits(t: Tables, id: int, pwd: string) {
    if id in t.users then t.users[id].password == pwd && t.users[id].state == Offline
    else id == NO_USER && pwd == ""
  }

  predicate SameElsewhere(s: State, t: State, id: int) {
    && s.conns - {id} == t.conns - {id} && s.subs - {id} == t.subs - {id} && s.keys - {id} == t.keys - {id}
  }

  /** A login that is not admitted changes nothing: it gets one refusal, with errno 2 exactly when the
      password is right, and the acknowledgement. */
  lemma RefusedLogin(s: State, conn: int, id: int, pwd: string, msgId: int)
    requires !Admits(s.tables, id, pwd)
    ensures var errno := if id in s.tables.users && s.tables.users[id].password == pwd then 2 else 1;
            LoginStep(s, conn, id, pwd, msgId) == s.(out := s.out + [LoginRefused(conn, errno, msgId), Ack(conn, msgId)])
  {
    hide MessagesFor, WithoutUser, FriendList;
    assert forall p, q :: s.out + [p] + [q] == s.out + [p, q];
  }

  /** An admitted login enters the map, the subscriptions and the keys, pushes the state, and is answered
      with the row's name; no other user changes. */
  lemma AdmittedLogin(s: State, conn: int, id: int, pwd: string, msgId: int)
    requires Admits(s.tables, id, pwd)
    ensures var t := LoginStep(s, conn, id, pwd, msgId);
            && id in t.conns && id in t.subs && id in t.keys && SameElsewhere(s, t, id)
            && t.conns[id] == (if id in s.conns then s.conns[id] else conn)
            && t.queue == s.queue + [UpdateUserState(id, Online)]
            && t.tables == s.tables.(offline := t.tables.offline)
            && t.channel == s.channel && t.lost == s.lost
            && |t.out| == |s.out| + 2 && t.out[..|s.out|] == s.out && t.out[|s.out| + 1] == Ack(conn, msgId)
            && var answer := t.out[|s.out|];
               && answer.LoginOk? && answer.conn == conn && answer.id == id && answer.msgId == msgId
               && (id in s.tables.users ==> answer.name == s.tables.users[id].name)
               && answer.offline == MessagesFor(s.tables.offline, id)
               && answer.friends == FriendList(s.tables.users, s.tables.friends, id)
  {
    hide MessagesFor, WithoutUser, FriendList;
    var t := LoginStep(s, conn, id, pwd, msgId);
    assert t.out == s.out + [t.out[|s.out|]] + [Ack(conn, msgId)];
  }

  /** The rows of the user leave the table, all others stay. */
  lemma {:induction false} WithoutUserExactly(rows: seq<Chat>, id: int, c: Chat)
    ensures Count(WithoutUser(rows, id), c) == if c.to == id then 0 else Count(rows, c)
    decreases |rows|
  {
    if rows != [] {
      var front, last := rows[..|rows| - 1], rows[|rows| - 1];
      WithoutUserExactly(front, id, c);
      if last.to != id { CountOne(WithoutUser(front, id), last, c); }
    }
  }

  /** An admitted login leaves no message of the user in the table and touches no other; its answer has
      every message of the user, as often as it was stored. */
  lemma LoginHandsOverAll(s: State, conn: int, id: int, pwd: string, msgId: int, c: Chat)
    requires Admits(s.tables, id, pwd)
    ensures var t := LoginStep(s, conn, id, pwd, msgId);
            && Count(t.tables.offline, c) == (if c.to == id then 0 else Count(s.tables.offline, c))
            && |t.out| > |s.out| && InResponse(t.out[|s.out|], c) == if c.to == id then Count(s.tables.offline, c) else 0
  {
    AdmittedLogin(s, conn, id, pwd, msgId);
    WithoutUserExactly(s.tables.offline, id, c);
    RowsSplit(s.tables.offline, id, c);
    hide MessagesFor, WithoutUser, FriendList, Count, ChatsFor;
  }

  /** In the order of the table. */
  lemma {:induction false} MessagesInOrder(a: seq<Chat>, b: seq<Chat>, id: int)
    ensures MessagesFor(a + b, id) == MessagesFor(a, id) + MessagesFor(b, id)
    decreases |b|
  {
    if b == [] {
      assert a + b == a;
    } else {
      MessagesInOrder(a, b[..|b| - 1], id);
      assert (a + b)[..|a + b| - 1] == a + b[..|b| - 1];
    }
  }

  /** A listed friend has the name and the state of the user's row. */
  lemma {:induction false} FriendListIsTrue(users: map<int, User>, rows: seq<(int, int)>, id: int)
    ensures forall f | f in FriendList(users, rows, id) ::
              f.id in users && f.name == users[f.id].name && f.state == users[f.id].state && (id, f.id) in rows
    decreases |rows|
  {
    if rows != [] {
      FriendListIsTrue(users, rows[..|rows| - 1], id);
      assert rows == rows[..|rows| - 1] + [rows[|rows| - 1]];
    }
  }

  // ---------- leaving ----------

  lemma LastStatePushed(q: seq<Task>, id: int, state: Presence, other: int)
    ensures LastState(q + [UpdateUserState(id, state)], other) == if other == id then Some(state) else LastState(q, other)
  {
    assert (q + [UpdateUserState(id, state)])[..|q|] == q;
  }

  /** Without connection, subscription and key, and offline by the last state task. */
  predicate HasLeft(s: State, id: int) {
    id !in s.conns && id !in s.subs && id !in s.keys && LastState(s.queue, id) == Some(Offline)
  }

  ghost predicate OthersStay(s: State, t: State, id: int) {
    SameElsewhere(s, t, id) && forall other | other != id :: LastState(t.queue, other) == LastState(s.queue, other)
  }

  /** Closing a connection: the user it is found for has left and nobody else changes. Without an entry the
      map and the queue stay as they are, and only what is held for the id -1 goes. */
  lemma CloseExactly(s: State, conn: int, found: Option<int>)
    requires CloseFinds(s, conn, found)
    ensures var t := CloseStep(s, found);
            && t.tables == s.tables && t.out == s.out && t.channel == s.channel && t.lost == s.lost
            && match found
               case Some(id) =>
                 && s.conns[id] == conn && id !in t.conns && id !in t.subs && id !in t.keys && OthersStay(s, t, id)
                 && (id != NO_USER ==> HasLeft(t, id))
               case None =>
                 && (forall id | id in s.conns :: s.conns[id] != conn)
                 && t.conns == s.conns && t.queue == s.queue && OthersStay(s, t, NO_USER)
  {
    if found.Some? && found.value != NO_USER {
      forall other
        ensures LastState(CloseStep(s, found).queue, other)
                == if other == found.value then Some(Offline) else LastState(s.queue, other)
      {
        LastStatePushed(s.queue, found.value, Offline, other);
      }
      hide LastState;
    }
  }

  /** A connection on which several users have logged in keeps all but one of them. */
  lemma CloseFreesConnection(s: State, conn: int, found: Option<int>)
    requires CloseFinds(s, conn, found)
    ensures (forall id | id in CloseStep(s, found).conns :: CloseStep(s, found).conns[id] != conn) <==>
            (forall a, b | a in s.conns && b in s.conns && s.conns[a] == conn && s.conns[b] == conn :: a == b)
  {
    var t := CloseStep(s, found);
    if found.Some? {
      assert t.conns == s.conns - {found.value};
      if a, b :| a in s.conns && b in s.conns && s.conns[a] == conn && s.conns[b] == conn && a != b {
        var other := if a == found.value then b else a;
        assert other in t.conns && t.conns[other] == conn;
      }
    }
  }

  /** Logging out: the user has left, nobody else changes, and one acknowledgement is sent. */
  lemma LogoutExactly(s: State, conn: int, id: int, msgId: int)
    ensures var t := LogoutStep(s, conn, id, msgId);
            && HasLeft(t, id) && OthersStay(s, t, id)
            && t.tables == s.tables && t.channel == s.channel && t.lost == s.lost
            && t.out == s.out + [Ack(conn, msgId)]
  {
    forall other
      ensures LastState(LogoutStep(s, conn, id, msgId).queue, other)
              == if other == id then Some(Offline) else LastState(s.queue, other)
    {
      LastStatePushed(s.queue, id, Offline, other);
    }
    hide LastState;
  }

  // ---------- registering ----------

  /** After a registration the new user, and nobody new besides, can log in with the password and is
      answered with the name. */
  lemma RegisteredCanLogin(s: State, conn: int, name: string, pwd: string, msgId: int, id: int, attempt: string)
    requires Enabled(s, Reg(conn, name, pwd, msgId, Some(id)))
    ensures var t := RegStep(s, conn, name, pwd, msgId, Some(id));
            && (Admits(t.tables, id, attempt) <==> attempt == pwd)
            && t.tables.users[id].name == name
            && t.tables.users - {id} == s.tables.users
            && t.out == s.out + [RegOk(conn, id, msgId), Ack(conn, msgId)]
            && t == s.(tables := s.tables.(users := t.tables.users), out := t.out)
    ensures RegStep(s, conn, name, pwd, msgId, None) == s.(out := s.out + [RegEcho(conn), Ack(conn, msgId)])
  {
    assert forall p, q :: s.out + [p] + [q] == s.out + [p, q];
  }

  // ---------- packets ----------

  /** A chat packet goes to the connection that its addressee has at that moment. */
  predicate Addressed(s: State, p: Packet) { p.ChatMsg? ==> p.to in s.conns && s.conns[p.to] == p.conn }

  /** Every other packet goes back to the connection of the request, with the id of its message. */
  predicate Responds(e: Event, p: Packet) {
    match p
    case LoginOk(conn, id, _, _, _, msgId) => e.Login? && conn == e.conn && id == e.id && msgId == e.msgId
    case LoginRefused(conn, _, msgId) => e.Login? && conn == e.conn && msgId == e.msgId
    case RegOk(conn, id, msgId) => e.Reg? && conn == e.conn && e.newId == Some(id) && msgId == e.msgId
    case RegEcho(conn) => e.Reg? && conn == e.conn && e.newId == None
    case GroupCreated(conn, msgId) => e.CreateGroupMsg? && conn == e.conn && msgId == e.msgId
    case GroupJoined(conn, msgId) => e.AddGroupMsg? && conn == e.conn && msgId == e.msgId
    case ChatMsg(_, _, _) => e.OneChat? || e.GroupChat? || e.Deliver?
    case Ack(conn, msgId) => IsRequest(e) && conn == e.conn && msgId == e.msgId
  }

  predicate IsRequest(e: Event) { !e.Close? && !e.Deliver? && !e.DbRound? && !e.KeyExpires? }

  ghost predicate NewPackets(s: State, t: State, e: Event) {
    && |s.out| <= |t.out| && t.out[..|s.out|] == s.out
    && forall i | |s.out| <= i < |t.out| :: Addressed(s, t.out[i]) && Responds(e, t.out[i])
  }

  lemma LivePacketsAddressed(s: State, ids: seq<int>, text: string)
    requires forall i | 0 <= i < |ids| :: ids[i] in s.conns
    ensures forall p | p in LivePackets(s, ids, text) :: p.ChatMsg? && Addressed(s, p)
  {
  }

  lemma LoginPackets(s: State, conn: int, id: int, pwd: string, msgId: int)
    ensures NewPackets(s, LoginStep(s, conn, id, pwd, msgId), Login(conn, id, pwd, msgId))
  {
    if Admits(s.tables, id, pwd) {
      AdmittedLogin(s, conn, id, pwd, msgId);
    } else {
      RefusedLogin(s, conn, id, pwd, msgId);
    }
    hide LoginStep, Admits;
  }

  lemma GroupChatPackets(s: State, e: Event)
    requires e.GroupChat?
    ensures NewPackets(s, Step(s, e), e)
  {
    var ids := Recipients(s.tables.members, e.groupid, e.sender);
    GroupFanOut(s, ids, e.text);
    var live := LivePackets(s, Routed(s, ids, Live), e.text);
    LivePacketsAddressed(s, Routed(s, ids, Live), e.text);
    var out := Step(s, e).out;
    assert out == s.out + live + [Ack(e.conn, e.msgId)];
    hide Step, LivePackets, Recipients, Routed, ForEach, StoreTasks, GroupAll;
    forall i | |s.out| <= i < |out| ensures Addressed(s, out[i]) && Responds(e, out[i]) {
      if i < |out| - 1 {
        assert out[i] == live[i - |s.out|];
        assert out[i] in live;
      }
    }
    assert out[..|s.out|] == s.out;
  }

  lemma OnePacket(s: State, t: State, e: Event, p: Packet)
    requires t.out == s.out + [p] && Addressed(s, p) && Responds(e, p)
    ensures NewPackets(s, t, e)
  {
    hide Addressed, Responds;
  }

  lemma PacketPair(s: State, t: State, e: Event, p: Packet, q: Packet)
    requires t.out == s.out + [p] + [q] && Addressed(s, p) && Responds(e, p) && Addressed(s, q) && Responds(e, q)
    ensures NewPackets(s, t, e)
  {
    hide Addressed, Responds;
  }

  lemma NoPacket(s: State, t: State, e: Event)
    requires t.out == s.out
    ensures NewPackets(s, t, e)
  {
  }

  lemma OneChatPackets(s: State, e: Event)
    requires e.OneChat?
    ensures NewPackets(s, Step(s, e), e)
  {
    hide NewPackets;
    if e.toid in s.conns {
      PacketPair(s, Step(s, e), e, ChatMsg(s.conns[e.toid], e.toid, e.text), Ack(e.conn, e.msgId));
    } else if Published(s, e) {
      NoPacket(s, Step(s, e), e);
    } else {
      OnePacket(s, Step(s, e), e, Ack(e.conn, e.msgId));
    }
  }

  lemma DeliverPackets(s: State)
    ensures NewPackets(s, DeliverStep(s), Deliver)
  {
    hide NewPackets;
    if s.channel != [] && s.channel[0].to in s.conns {
      OnePacket(s, DeliverStep(s), Deliver, ChatMsg(s.conns[s.channel[0].to], s.channel[0].to, s.channel[0].text));
    } else {
      NoPacket(s, DeliverStep(s), Deliver);
    }
  }

  /** Packets are only added, each to whom it is meant for. */
  lemma StepPackets(s: State, e: Event)
    ensures NewPackets(s, Step(s, e), e)
  {
    hide LoginStep, GroupChatStep, OneChatStep, DeliverStep, NewPackets;
    match e
    case Login(conn, id, pwd, msgId) => LoginPackets(s, conn, id, pwd, msgId);
    case GroupChat(_, _, _, _, _) => GroupChatPackets(s, e);
    case OneChat(_, _, _, _) => OneChatPackets(s, e);
    case Deliver => DeliverPackets(s);
    case Logout(conn, _, msgId) => OnePacket(s, Step(s, e), e, Ack(conn, msgId));
    case AddFriendMsg(conn, _, _, msgId) => OnePacket(s, Step(s, e), e, Ack(conn, msgId));
    case Reg(conn, _, _, msgId, newId) =>
      PacketPair(s, Step(s, e), e, if newId.Some? then RegOk(conn, newId.value, msgId) else RegEcho(conn), Ack(conn, msgId));
    case CreateGroupMsg(conn, _, _, _, msgId) =>
      PacketPair(s, Step(s, e), e, GroupCreated(conn, msgId), Ack(conn, msgId));
    case AddGroupMsg(conn, _, _, msgId) => PacketPair(s, Step(s, e), e, GroupJoined(conn, msgId), Ack(conn, msgId));
    case Close(_, _) => NoPacket(s, Step(s, e), e);
    case DbRound => NoPacket(s, Step(s, e), e);
    case KeyExpires(_) => NoPacket(s, Step(s, e), e);
  }

  /** A private chat to a connected user goes to that connection and is acknowledged. */
  lemma ChatToPresentUser(s: State, conn: int, toid: int, text: string, msgId: int)
    requires toid in s.conns
    ensures OneChatStep(s, conn, toid, text, msgId)
            == s.(out := s.out + [ChatMsg(s.conns[toid], toid, text), Ack(conn, msgId)])
  {
    assert forall p, q :: s.out + [p] + [q] == s.out + [p, q];
  }

  // ---------- acknowledgements ----------

  function Acks(out: seq<Packet>): seq<(int, int)> {
    if out == [] then []
    else
      var front, last := Acks(out[..|out| - 1]), out[|out| - 1];
      if last.Ack? then front + [(last.conn, last.msgId)] else front
  }

  /** A private chat that is published. */
  predicate Published(s: State, e: Event) { e.OneChat? && RouteOf(s, e.toid, true) in {Heard, Unheard} }

  function AckFor(s: State, e: Event): seq<(int, int)> {
    if IsRequest(e) && !Published(s, e) then [(e.conn, e.msgId)] else []
  }

  lemma {:induction false} AcksAppend(a: seq<Packet>, b: seq<Packet>)
    ensures Acks(a + b) == Acks(a) + Acks(b)
    decreases |b|
  {
    if b == [] {
      assert a + b == a;
    } else {
      AcksAppend(a, b[..|b| - 1]);
      assert (a + b)[..|a + b| - 1] == a + b[..|b| - 1];
    }
  }

  lemma {:induction false} NoAcks(out: seq<Packet>)
    requires forall p | p in out :: !p.Ack?
    ensures Acks(out) == []
    decreases |out|
  {
    if out != [] {
      assert out[|out| - 1] in out;
      NoAcks(out[..|out| - 1]);
    }
  }

  lemma AckLast(out: seq<Packet>, more: seq<Packet>, conn: int, msgId: int)
    requires forall p | p in more :: !p.Ack?
    ensures Acks(out + more + [Ack(conn, msgId)]) == Acks(out) + [(conn, msgId)]
  {
    AcksAppend(out, more);
    NoAcks(more);
    assert (out + more + [Ack(conn, msgId)])[..|out + more|] == out + more;
  }

  /** Every request is acknowledged exactly once, to its sender, except a private chat that is published,
      which is not; nothing else is. */
  lemma StepAcks(s: State, e: Event)
    ensures Acks(Step(s, e).out) == Acks(s.out) + AckFor(s, e)
  {
    if IsRequest(e) && !Published(s, e) {
      var more := AnswerTo(s, e);
      AckLast(s.out, more, e.conn, e.msgId);
      hide Acks, Step;
    } else if e.Deliver? {
      if s.channel != [] && s.channel[0].to in s.conns { AcksAppend(s.out, Step(s, e).out[|s.out|..]); }
    }
  }

  /** The packets before the acknowledgement: one answer to a login, a registration and the two group
      requests, and otherwise only chats. */
  lemma AnswerTo(s: State, e: Event) returns (more: seq<Packet>)
    requires IsRequest(e) && !Published(s, e)
    ensures Step(s, e).out == s.out + more + [Ack(e.conn, e.msgId)] && forall p | p in more :: !p.Ack?
    ensures e.Login? ==> |more| == 1 && (more[0].LoginOk? <==> Admits(s.tables, e.id, e.pwd))
                         && (more[0].LoginRefused? <==> !Admits(s.tables, e.id, e.pwd))
    ensures e.Reg? ==> more == [if e.newId.Some? then RegOk(e.conn, e.newId.value, e.msgId) else RegEcho(e.conn)]
    ensures e.CreateGroupMsg? ==> more == [GroupCreated(e.conn, e.msgId)]
    ensures e.AddGroupMsg? ==> more == [GroupJoined(e.conn, e.msgId)]
    ensures e.OneChat? || e.GroupChat? || e.Logout? || e.AddFriendMsg? ==> forall p | p in more :: p.ChatMsg?
  {
    more := [];
    match e
    case Login(conn, id, pwd, msgId) =>
      if Admits(s.tables, id, pwd) { AdmittedLogin(s, conn, id, pwd, msgId); } else { RefusedLogin(s, conn, id, pwd, msgId); }
      more := [LoginStep(s, conn, id, pwd, msgId).out[|s.out|]];
      hide LoginStep;
    case Logout(_, _, _) =>
    case Reg(conn, _, _, msgId, newId) => more := [if newId.Some? then RegOk(conn, newId.value, msgId) else RegEcho(conn)];
    case OneChat(_, toid, text, _) => if toid in s.conns { more := [ChatMsg(s.conns[toid], toid, text)]; }
    case GroupChat(conn, sender, groupid, text, msgId) =>
      var ids := Recipients(s.tables.members, groupid, sender);
      GroupFanOut(s, ids, text);
      more := LivePackets(s, Routed(s, ids, Live), text);
      LivePacketsAddressed(s, Routed(s, ids, Live), text);
      hide GroupAll, LivePackets, Recipients, Routed;
    case AddFriendMsg(_, _, _, _) =>
    case CreateGroupMsg(conn, _, _, _, msgId) => more := [GroupCreated(conn, msgId)];
    case AddGroupMsg(conn, _, _, msgId) => more := [GroupJoined(conn, msgId)];
  }

  // ---------- who is connected, subscribed and present in Redis ----------

  /** The user comes in by an admitted login. */
  predicate Enters(s: State, e: Event, id: int) { e.Login? && e.id == id && Admits(s.tables, id, e.pwd) }

  /** The user goes out by a logout or by the close that finds them. */
  predicate Leaves(e: Event, id: int) {
    (e.Logout? && e.id == id) || (e.Close? && e.found == Some(id))
  }

  /** A close that finds nobody goes for the subscription and the key of the id -1. */
  predicate Drops(e: Event, id: int) { Leaves(e, id) || (e.Close? && e.found == None && id == NO_USER) }

  /** A published message that reaches a connection renews the key. */
  predicate Renews(s: State, e: Event, id: int) {
    e.Deliver? && s.channel != [] && s.channel[0].to == id && id in s.conns
  }

  /** Entries, subscriptions and keys come and go exactly so. */
  lemma ComesAndGoes(s: State, e: Event, id: int)
    ensures id in Step(s, e).conns <==> Enters(s, e, id) || (id in s.conns && !Leaves(e, id))
    ensures id in Step(s, e).subs <==> Enters(s, e, id) || (id in s.subs && !Drops(e, id))
    ensures id in Step(s, e).keys <==>
            || Enters(s, e, id) || Renews(s, e, id)
            || (id in s.keys && !Drops(e, id) && e != KeyExpires(id))
  {
    hide MessagesFor, WithoutUser, FriendList;
    match e
    case GroupChat(_, sender, groupid, text, _) =>
      GroupFanOut(s, Recipients(s.tables.members, groupid, sender), text);
      hide GroupAll, LivePackets, Routed, StoreTasks, ForEach, Recipients;
    case _ =>
  }

  // ---------- over runs ----------

  /** The j-th event of the run is a login of the user on the connection, and is admitted. */
  predicate AdmittedAt(s: State, es: seq<Event>, j: int, conn: int, id: int) {
    && 0 <= j < |es| && es[j].Login? && es[j].conn == conn && es[j].id == id
    && Admits(Run(s, es[..j]).tables, id, es[j].pwd)
  }

  ghost predicate WasAdmitted(s: State, es: seq<Event>, conn: int, id: int) {
    exists j :: AdmittedAt(s, es, j, conn, id)
  }

  lemma AdmittedBefore(s: State, es: seq<Event>, conn: int, id: int)
    requires es != [] && WasAdmitted(s, es[..|es| - 1], conn, id)
    ensures WasAdmitted(s, es, conn, id)
  {
    var front := es[..|es| - 1];
    var j :| AdmittedAt(s, front, j, conn, id);
    assert front[..j] == es[..j];
    assert AdmittedAt(s, es, j, conn, id);
  }

  lemma AdmittedLast(s: State, es: seq<Event>)
    requires es != [] && es[|es| - 1].Login?
    requires Admits(Run(s, es[..|es| - 1]).tables, es[|es| - 1].id, es[|es| - 1].pwd)
    ensures WasAdmitted(s, es, es[|es| - 1].conn, es[|es| - 1].id)
  {
    assert AdmittedAt(s, es, |es| - 1, es[|es| - 1].conn, es[|es| - 1].id);
  }

  lemma {:induction false} GroupKeepsConns(s: State, ids: seq<int>, text: string)
    ensures GroupAll(s, ids, text).conns == s.conns
    decreases |ids|
  {
    if ids != [] { GroupKeepsConns(s, ids[..|ids| - 1], text); }
  }

  /** A new entry of the map comes from an admitted login. */
  lemma StepConns(s: State, e: Event, id: int)
    requires id in Step(s, e).conns
    ensures (id in s.conns && Step(s, e).conns[id] == s.conns[id])
            || (e.Login? && e.id == id && Step(s, e).conns[id] == e.conn && Admits(s.tables, id, e.pwd))
  {
    hide MessagesFor, WithoutUser, FriendList;
    match e
    case GroupChat(_, sender, groupid, text, _) =>
      GroupKeepsConns(s, Recipients(s.tables.members, groupid, sender), text);
    case _ =>
  }

  /** In every state of a run, whoever is in the map was admitted on that connection. */
  lemma {:induction false} ConnectedWasAdmitted(s: State, es: seq<Event>, id: int)
    requires s.conns == map[] && id in Run(s, es).conns
    ensures WasAdmitted(s, es, Run(s, es).conns[id], id)
    decreases |es|
  {
    if es != [] {
      var front, e := es[..|es| - 1], es[|es| - 1];
      var r := Run(s, front);
      StepConns(r, e, id);
      if id in r.conns && Run(s, es).conns[id] == r.conns[id] {
        ConnectedWasAdmitted(s, front, id);
        AdmittedBefore(s, es, r.conns[id], id);
      } else {
        AdmittedLast(s, es);
      }
    }
  }

  /** Every chat goes to a connection on which its addressee was admitted, and every login answer to one on
      which that user was. */
  lemma {:induction false} PacketsReachTheRight(s: State, es: seq<Event>, i: nat)
    requires s.conns == map[] && s.out == [] && i < |Run(s, es).out|
    ensures var p := Run(s, es).out[i];
            && (p.ChatMsg? ==> WasAdmitted(s, es, p.conn, p.to))
            && (p.LoginOk? ==> WasAdmitted(s, es, p.conn, p.id))
    decreases |es|
  {
    if es != [] {
      var front, e := es[..|es| - 1], es[|es| - 1];
      var r, p := Run(s, front), Run(s, es).out[i];
      StepPackets(r, e);
      hide Step, Responds, Admits;
      if i < |r.out| {
        assert r.out[i] == p;
        PacketsReachTheRight(s, front, i);
        if p.ChatMsg? { AdmittedBefore(s, es, p.conn, p.to); }
        if p.LoginOk? { AdmittedBefore(s, es, p.conn, p.id); }
      } else if p.ChatMsg? {
        assert Addressed(r, p);
        ConnectedWasAdmitted(s, front, p.to);
        AdmittedBefore(s, es, p.conn, p.to);
      } else if p.LoginOk? {
        assert Responds(e, p);
        LoginAnswerIsAdmitted(r, e, p, i);
        AdmittedLast(s, es);
      }
    }
  }

  lemma LoginAnswerIsAdmitted(s: State, e: Event, p: Packet, i: nat)
    requires |s.out| <= i < |Step(s, e).out| && Step(s, e).out[i] == p && p.LoginOk?
    ensures e.Login? && e.conn == p.conn && e.id == p.id && Admits(s.tables, e.id, e.pwd)
  {
    StepPackets(s, e);
    assert Responds(e, Step(s, e).out[i]);
    if !Admits(s.tables, e.id, e.pwd) { RefusedLogin(s, e.conn, e.id, e.pwd, e.msgId); }
    hide LoginStep;
  }

  function AcksAsked(s: State, es: seq<Event>): seq<(int, int)> {
    if es == [] then [] else AcksAsked(s, es[..|es| - 1]) + AckFor(Run(s, es[..|es| - 1]), es[|es| - 1])
  }

  /** Over any run the acknowledgements are those of the requests that are not published chats, in order. */
  lemma {:induction false} RunAcks(s: State, es: seq<Event>)
    ensures Acks(Run(s, es).out) == Acks(s.out) + AcksAsked(s, es)
    decreases |es|
  {
    hide Step, Acks, AckFor;
    if es != [] {
      RunAcks(s, es[..|es| - 1]);
      StepAcks(Run(s, es[..|es| - 1]), es[|es| - 1]);
    }
  }

  // ---------- what becomes of a closed connection ----------

  predicate LogsIn(es: seq<Event>, id: int) { exists j :: 0 <= j < |es| && es[j].Login? && es[j].id == id }

  lemma {:induction false} StaysAway(s: State, es: seq<Event>, id: int)
    requires id !in s.conns && !LogsIn(es, id)
    ensures id !in Run(s, es).conns
    decreases |es|
  {
    if es != [] {
      var front, e := es[..|es| - 1], es[|es| - 1];
      StaysAway(s, front, id);
      if id in Run(s, es).conns { StepConns(Run(s, front), e, id); }
    }
  }

  lemma {:induction false} GroupKeepsUsers(s: State, ids: seq<int>, text: string)
    ensures GroupAll(s, ids, text).tables == s.tables
    decreases |ids|
  {
    if ids != [] { GroupKeepsUsers(s, ids[..|ids| - 1], text); }
  }

  lemma UsersStay(s: State, e: Event, id: int)
    requires id in s.tables.users
    ensures id in Step(s, e).tables.users
  {
    hide MessagesFor, WithoutUser, FriendList;
    match e
    case GroupChat(_, sender, groupid, text, _) =>
      GroupKeepsUsers(s, Recipients(s.tables.members, groupid, sender), text);
    case _ =>
  }

  lemma {:induction false} RunKeepsInv(s: State, es: seq<Event>, id: int)
    requires Inv(s) && Feasible(s, es) && id in s.tables.users
    ensures Inv(Run(s, es)) && id in Run(s, es).tables.users
    decreases |es|
  {
    hide Inv, Step, Enabled;
    if es != [] {
      RunKeepsInv(s, es[..|es| - 1], id);
      StepKeeps(Run(s, es[..|es| - 1]), es[|es| - 1]);
      UsersStay(Run(s, es[..|es| - 1]), es[|es| - 1], id);
    }
  }

  /** A registered user whose connection closes, and who does not log in again, is offline in the table once
      the pending writes are applied, whatever else happens. */
  lemma ClosedGoesOffline(s: State, conn: int, id: int, es: seq<Event>)
    requires Inv(s) && id in s.tables.users && CloseFinds(s, conn, Some(id))
    requires Feasible(CloseStep(s, Some(id)), es) && !LogsIn(es, id)
    ensures var r := Run(CloseStep(s, Some(id)), es);
            && id !in r.conns && id in r.tables.users
            && (r.queue == [] ==> r.tables.users[id].state == Offline)
  {
    var t := CloseStep(s, Some(id));
    CloseExactly(s, conn, Some(id));
    CloseKeeps(s, Some(id));
    StaysAway(t, es, id);
    RunKeepsInv(t, es, id);
    var r := Run(t, es);
    if r.queue == [] { DrainedTableIsRight(r, id); }
  }
}

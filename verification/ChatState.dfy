/** The chat server as a state machine: one event is one handler call, one Redis callback, one round
    of the database thread or the expiry of one Redis key. */
module ChatState {
  import opened Wrappers
  import opened DbTask

  datatype Contact = Contact(id: int, name: string, state: Presence)

  /** What a connection is sent. `ChatMsg` records the user it is meant for. */
  datatype Packet =
    | LoginOk(conn: int, id: int, name: string, offline: seq<string>, friends: seq<Contact>, msgId: int)
    | LoginRefused(conn: int, errno: int, msgId: int)
    | RegOk(conn: int, id: int, msgId: int)
    | RegEcho(conn: int)
    | GroupCreated(conn: int, msgId: int)
    | GroupJoined(conn: int, msgId: int)
    | ChatMsg(conn: int, to: int, text: string)
    | Ack(conn: int, msgId: int)

  /** `conns` is `_userConnMap`; `channel` holds published messages on their way to the callback and
      `lost` those published while nobody subscribed. */
  datatype State = State(
    conns: map<int, int>,
    subs: set<int>,
    keys: set<int>,
    channel: seq<Chat>,
    lost: seq<Chat>,
    queue: seq<Task>,
    tables: Tables,
    out: seq<Packet>)

  /** The id that `UserModel::query` answers with when there is no such row. */
  const NO_USER: int := -1

  datatype Found = Found(id: int, user: User)

  function Query(t: Tables, id: int): Found {
    if id in t.users then Found(id, t.users[id]) else Found(NO_USER, User("", "", Offline))
  }

  /** The texts waiting for a user, in table order. */
  function MessagesFor(rows: seq<Chat>, id: int): seq<string> {
    if rows == [] then []
    else
      var front, last := MessagesFor(rows[..|rows| - 1], id), rows[|rows| - 1];
      if last.to == id then front + [last.text] else front
  }

  function WithoutUser(rows: seq<Chat>, id: int): seq<Chat> {
    if rows == [] then []
    else
      var front, last := WithoutUser(rows[..|rows| - 1], id), rows[|rows| - 1];
      if last.to == id then front else front + [last]
  }

  /** The friends of a user: the rows of the friend table joined with the user table. */
  function FriendList(users: map<int, User>, rows: seq<(int, int)>, id: int): seq<Contact> {
    if rows == [] then []
    else
      var front, last := FriendList(users, rows[..|rows| - 1], id), rows[|rows| - 1];
      if last.0 == id && last.1 in users then front + [Contact(last.1, users[last.1].name, users[last.1].state)]
      else front
  }

  /** `queryGroupUsers`: the rows of the group, without those of the sender. */
  function Recipients(rows: seq<Membership>, groupid: int, sender: int): seq<int> {
    if rows == [] then []
    else
      var front, last := Recipients(rows[..|rows| - 1], groupid, sender), rows[|rows| - 1];
      if last.groupid == groupid && last.userid != sender then front + [last.userid] else front
  }

  function Send(s: State, p: Packet): State { s.(out := s.out + [p]) }

  function PushTask(s: State, task: Task): State { s.(queue := s.queue + [task]) }

  function Publish(s: State, c: Chat): State {
    if c.to in s.subs then s.(channel := s.channel + [c]) else s.(lost := s.lost + [c])
  }

  predicate LoginAccepted(s: State, id: int, pwd: string) {
    var found := Query(s.tables, id);
    found.id == id && found.user.password == pwd && found.user.state == Offline
  }

  /** An accepted login keeps an older connection of the same user in the map. */
  function LoginStep(s: State, conn: int, id: int, pwd: string, msgId: int): State {
    var found := Query(s.tables, id);
    var answered :=
      if found.id != id || found.user.password != pwd then Send(s, LoginRefused(conn, 1, msgId))
      else if found.user.state == Online then Send(s, LoginRefused(conn, 2, msgId))
      else
        var msgs, friends := MessagesFor(s.tables.offline, id), FriendList(s.tables.users, s.tables.friends, id);
        var entered := s.(
          conns := if id in s.conns then s.conns else s.conns[id := conn],
          subs := s.subs + {id},
          keys := s.keys + {id},
          tables := s.tables.(offline := WithoutUser(s.tables.offline, id)));
        Send(PushTask(entered, UpdateUserState(id, Online)), LoginOk(conn, id, found.user.name, msgs, friends, msgId));
    Send(answered, Ack(conn, msgId))
  }

  /** The connection leaves, the subscription and the Redis key go. */
  function Leave(s: State, id: int): State {
    s.(conns := s.conns - {id}, subs := s.subs - {id}, keys := s.keys - {id})
  }

  function LogoutStep(s: State, conn: int, id: int, msgId: int): State {
    Send(PushTask(Leave(s, id), UpdateUserState(id, Offline)), Ack(conn, msgId))
  }

  /** `found` is the entry of the map that the search for the connection hits first, if any. */
  predicate CloseFinds(s: State, conn: int, found: Option<int>) {
    match found
    case Some(id) => id in s.conns && s.conns[id] == conn
    case None => forall id | id in s.conns :: s.conns[id] != conn
  }

  /** Without an entry the id stays -1, and it is that channel and key that go. */
  function CloseStep(s: State, found: Option<int>): State {
    match found
    case Some(id) => if id == NO_USER then Leave(s, id) else PushTask(Leave(s, id), UpdateUserState(id, Offline))
    case None => s.(subs := s.subs - {NO_USER}, keys := s.keys - {NO_USER})
  }

  /** `newId` is the key the database generates, or `None` when it refuses the row. */
  function RegStep(s: State, conn: int, name: string, pwd: string, msgId: int, newId: Option<int>): State {
    var answered :=
      match newId
      case Some(id) =>
        Send(s.(tables := s.tables.(users := s.tables.users[id := User(name, pwd, Offline)])), RegOk(conn, id, msgId))
      case None => Send(s, RegEcho(conn));
    Send(answered, Ack(conn, msgId))
  }

  /** A published message gets no acknowledgement. */
  function OneChatStep(s: State, conn: int, toid: int, text: string, msgId: int): State {
    if toid in s.conns then Send(Send(s, ChatMsg(s.conns[toid], toid, text)), Ack(conn, msgId))
    else if toid in s.keys || Query(s.tables, toid).user.state == Online then Publish(s, Chat(toid, text))
    else Send(PushTask(s, InsertOfflineMsg(Query(s.tables, toid).id, text)), Ack(conn, msgId))
  }

  /** One member of a group; here the Redis key is not asked for. */
  function GroupOne(s: State, id: int, text: string): State {
    if id in s.conns then Send(s, ChatMsg(s.conns[id], id, text))
    else if Query(s.tables, id).user.state == Online then Publish(s, Chat(id, text))
    else PushTask(s, InsertOfflineMsg(id, text))
  }

  function GroupAll(s: State, ids: seq<int>, text: string): State {
    if ids == [] then s else GroupOne(GroupAll(s, ids[..|ids| - 1], text), ids[|ids| - 1], text)
  }

  function GroupChatStep(s: State, conn: int, sender: int, groupid: int, text: string, msgId: int): State {
    Send(GroupAll(s, Recipients(s.tables.members, groupid, sender), text), Ack(conn, msgId))
  }

  /** The callback for the oldest message on the channel. */
  function DeliverStep(s: State): State {
    if s.channel == [] then s
    else
      var c, rest := s.channel[0], s.(channel := s.channel[1..]);
      if c.to in s.conns then Send(rest.(keys := s.keys + {c.to}), ChatMsg(s.conns[c.to], c.to, c.text))
      else rest.(tables := s.tables.(offline := s.tables.offline + [c]))
  }

  function DbStep(s: State): State {
    if s.queue == [] then s
    else s.(tables := ApplyTask(s.tables, s.queue[0]), queue := s.queue[1..])
  }

  function CreateGroupStep(s: State, conn: int, userid: int, name: string, desc: string, msgId: int): State {
    var t := s.tables.(members := s.tables.members + [Membership(-1, userid, "creator")]);
    Send(Send(PushTask(s.(tables := t), CreateGroup(name, desc)), GroupCreated(conn, msgId)), Ack(conn, msgId))
  }

  function AddGroupStep(s: State, conn: int, userid: int, groupid: int, msgId: int): State {
    Send(Send(PushTask(s, AddGroupUser(userid, groupid)), GroupJoined(conn, msgId)), Ack(conn, msgId))
  }

  datatype Event =
    | Login(conn: int, id: int, pwd: string, msgId: int)
    | Logout(conn: int, id: int, msgId: int)
    | Close(conn: int, found: Option<int>)
    | Reg(conn: int, name: string, pwd: string, msgId: int, newId: Option<int>)
    | OneChat(conn: int, toid: int, text: string, msgId: int)
    | GroupChat(conn: int, sender: int, groupid: int, text: string, msgId: int)
    | AddFriendMsg(conn: int, id: int, friendid: int, msgId: int)
    | CreateGroupMsg(conn: int, userid: int, name: string, desc: string, msgId: int)
    | AddGroupMsg(conn: int, userid: int, groupid: int, msgId: int)
    | Deliver
    | DbRound
    | KeyExpires(id: int)

  /** What the environment can do: close finds an entry of that connection if there is one, and the
      database generates fresh positive keys. */
  predicate Enabled(s: State, e: Event) {
    match e
    case Close(conn, found) => CloseFinds(s, conn, found)
    case Reg(_, _, _, _, Some(id)) => id > 0 && id !in s.tables.users
    case _ => true
  }

  function Step(s: State, e: Event): State {
    match e
    case Login(conn, id, pwd, msgId) => LoginStep(s, conn, id, pwd, msgId)
    case Logout(conn, id, msgId) => LogoutStep(s, conn, id, msgId)
    case Close(_, found) => CloseStep(s, found)
    case Reg(conn, name, pwd, msgId, newId) => RegStep(s, conn, name, pwd, msgId, newId)
    case OneChat(conn, toid, text, msgId) => OneChatStep(s, conn, toid, text, msgId)
    case GroupChat(conn, sender, groupid, text, msgId) => GroupChatStep(s, conn, sender, groupid, text, msgId)
    case AddFriendMsg(conn, id, friendid, msgId) => Send(PushTask(s, AddFriend(id, friendid)), Ack(conn, msgId))
    case CreateGroupMsg(conn, userid, name, desc, msgId) => CreateGroupStep(s, conn, userid, name, desc, msgId)
    case AddGroupMsg(conn, userid, groupid, msgId) => AddGroupStep(s, conn, userid, groupid, msgId)
    case Deliver => DeliverStep(s)
    case DbRound => DbStep(s)
    case KeyExpires(id) => s.(keys := s.keys - {id})
  }

  function Run(s: State, es: seq<Event>): State {
    if es == [] then s else Step(Run(s, es[..|es| - 1]), es[|es| - 1])
  }

  predicate Feasible(s: State, es: seq<Event>) {
    es == [] || (Feasible(s, es[..|es| - 1]) && Enabled(Run(s, es[..|es| - 1]), es[|es| - 1]))
  }

  /** A freshly started server: nobody is online. */
  predicate Initial(s: State) {
    && s.conns == map[] && s.subs == {} && s.keys == {} && s.channel == [] && s.lost == [] && s.queue == []
    && s.out == []
    && forall u | u in s.tables.users :: u > 0 && s.tables.users[u].state == Offline
  }
}

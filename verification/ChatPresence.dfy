/** Who is online: the map of connections refines the user table with the pending writes applied. */
module ChatPresence {
  import opened Wrappers
  import opened DbTask
  import opened ChatState

  /** The tables as they will be when the pending writes have been applied. */
  function Settled(s: State): Tables { ApplyAll(s.tables, s.queue) }

  predicate Known(s: State, id: int) { id in s.tables.users || id == NO_USER }

  predicate OnlineTask(task: Task) { task.UpdateUserState? && task.state == Online }

  predicate TaskKnown(s: State, task: Task) { OnlineTask(task) ==> Known(s, task.userid) }

  ghost predicate AllKnown(s: State) {
    && (forall u | u in s.tables.users :: u > 0)
    && (forall id | id in s.conns :: Known(s, id))
    && (forall id | id in s.subs :: Known(s, id))
    && (forall id | id in s.keys :: Known(s, id))
    && (forall i | 0 <= i < |s.queue| :: TaskKnown(s, s.queue[i]))
  }

  /** For one registered user: online in the settled table, connected and subscribed are the same,
      and a Redis key implies them. */
  predicate Consistent(s: State, u: int)
    requires u in Settled(s).users
  {
    && (Settled(s).users[u].state == Online <==> u in s.conns)
    && (u in s.conns <==> u in s.subs)
    && (u in s.keys ==> u in s.conns)
  }

  ghost predicate Inv(s: State) {
    && AllKnown(s)
    && Settled(s).users.Keys == s.tables.users.Keys
    && forall u | u in s.tables.users :: Consistent(s, u)
  }

  lemma SettledKeys(s: State)
    ensures Settled(s).users.Keys == s.tables.users.Keys
  {
    ApplyAllKeepsUsers(s.tables, s.queue);
  }

  /** Pending writes read and write the user table independently of the other tables. */
  lemma {:induction false} UsersAlone(t: Tables, t': Tables, q: seq<Task>)
    requires t.users == t'.users
    ensures ApplyAll(t, q).users == ApplyAll(t', q).users
    decreases |q|
  {
    if q != [] { UsersAlone(ApplyTask(t, q[0]), ApplyTask(t', q[0]), q[1..]); }
  }

  lemma NewRowOneTask(t: Tables, task: Task, id: int, user: User)
    requires id !in t.users && user.state == Offline && (OnlineTask(task) ==> task.userid != id)
    ensures ApplyTask(t.(users := t.users[id := user]), task).users == ApplyTask(t, task).users[id := user]
  {
    if task.UpdateUserState? && task.userid == id {
      assert user.(state := task.state) == user;
    }
  }

  /** A row added behind the back of the queue stays offline when no pending task says otherwise. */
  lemma {:induction false} NewRow(t: Tables, q: seq<Task>, id: int, user: User)
    requires id !in t.users && user.state == Offline
    requires forall i | 0 <= i < |q| :: OnlineTask(q[i]) ==> q[i].userid != id
    ensures ApplyAll(t.(users := t.users[id := user]), q).users == ApplyAll(t, q).users[id := user]
    decreases |q|
  {
    if q != [] {
      var t' := ApplyTask(t, q[0]);
      NewRowOneTask(t, q[0], id, user);
      NewRow(t', q[1..], id, user);
      UsersAlone(ApplyTask(t.(users := t.users[id := user]), q[0]), t'.(users := t'.users[id := user]), q[1..]);
    }
  }

  /** Changes that leave alone what the invariant speaks of. */
  predicate SamePresence(s: State, s': State) {
    s'.conns == s.conns && s'.subs == s.subs && s'.tables.users == s.tables.users
  }

  lemma QuietChange(s: State, s': State)
    requires Inv(s) && SamePresence(s, s') && s'.queue == s.queue
    requires forall id | id in s'.keys :: id in s.keys || id in s.conns
    ensures Inv(s')
  {
    UsersAlone(s.tables, s'.tables, s.queue);
    forall i | 0 <= i < |s'.queue| ensures TaskKnown(s', s'.queue[i]) { assert TaskKnown(s, s.queue[i]); }
    forall u | u in s'.tables.users ensures Consistent(s', u) { assert Consistent(s, u); }
  }

  predicate StateTask(task: Task) { task.UpdateUserState? }

  lemma QuietPush(s: State, task: Task)
    requires Inv(s) && !StateTask(task)
    ensures Inv(PushTask(s, task))
  {
    var s' := PushTask(s, task);
    ApplyAllPush(s.tables, s.queue, task);
    assert Settled(s').users == Settled(s).users;
    forall u | u in s'.tables.users ensures Consistent(s', u) { assert Consistent(s, u); }
    forall i | 0 <= i < |s'.queue| ensures TaskKnown(s', s'.queue[i]) {
      if i < |s.queue| { assert TaskKnown(s, s.queue[i]); }
    }
  }

  /** A user enters or leaves together with the task that writes it down. */
  lemma PresenceChange(s: State, s': State, id: int, state: Presence)
    requires Inv(s) && (state == Online ==> Known(s, id))
    requires s'.tables.users == s.tables.users && s'.queue == s.queue + [UpdateUserState(id, state)]
    requires forall u :: u in s'.conns <==> if u == id then state == Online else u in s.conns
    requires forall u :: u in s'.subs <==> if u == id then state == Online else u in s.subs
    requires forall u :: u in s'.keys ==> if u == id then state == Online else u in s.keys
    ensures Inv(s')
  {
    var task := UpdateUserState(id, state);
    UsersAlone(s.tables, s'.tables, s'.queue);
    ApplyAllPush(s.tables, s.queue, task);
    SettledKeys(s');
    forall u | u in s'.tables.users ensures Consistent(s', u) { assert Consistent(s, u); }
    forall i | 0 <= i < |s'.queue| ensures TaskKnown(s', s'.queue[i]) {
      if i < |s.queue| { assert TaskKnown(s, s.queue[i]); }
    }
  }

  lemma LoginKeeps(s: State, conn: int, id: int, pwd: string, msgId: int)
    requires Inv(s)
    ensures Inv(LoginStep(s, conn, id, pwd, msgId))
  {
    var s' := LoginStep(s, conn, id, pwd, msgId);
    if LoginAccepted(s, id, pwd) {
      PresenceChange(s, s', id, Online);
    } else {
      QuietChange(s, s');
    }
  }

  lemma CloseKeeps(s: State, found: Option<int>)
    requires Inv(s)
    ensures Inv(CloseStep(s, found))
  {
    var s' := CloseStep(s, found);
    if found.Some? && found.value != NO_USER {
      PresenceChange(s, s', found.value, Offline);
    } else {
      forall i | 0 <= i < |s'.queue| ensures TaskKnown(s', s'.queue[i]) { assert TaskKnown(s, s.queue[i]); }
      forall u | u in s'.tables.users ensures Consistent(s', u) { assert Consistent(s, u); }
    }
  }

  lemma RegKeeps(s: State, conn: int, name: string, pwd: string, msgId: int, newId: Option<int>)
    requires Inv(s) && Enabled(s, Reg(conn, name, pwd, msgId, newId))
    ensures Inv(RegStep(s, conn, name, pwd, msgId, newId))
  {
    var s' := RegStep(s, conn, name, pwd, msgId, newId);
    match newId
    case None => QuietChange(s, s');
    case Some(id) =>
      forall i | 0 <= i < |s'.queue| ensures TaskKnown(s', s'.queue[i]) && TaskKnown(s, s.queue[i]) {
        assert TaskKnown(s, s.queue[i]);
      }
      NewRow(s.tables, s.queue, id, User(name, pwd, Offline));
      assert Settled(s').users == Settled(s).users[id := User(name, pwd, Offline)];
      forall u | u in s'.tables.users ensures Consistent(s', u) {
        if u != id { assert Consistent(s, u); }
      }
  }

  lemma OneChatKeeps(s: State, conn: int, toid: int, text: string, msgId: int)
    requires Inv(s)
    ensures Inv(OneChatStep(s, conn, toid, text, msgId))
  {
    var s' := OneChatStep(s, conn, toid, text, msgId);
    if s'.queue == s.queue {
      QuietChange(s, s');
    } else {
      var pushed := PushTask(s, InsertOfflineMsg(Query(s.tables, toid).id, text));
      QuietPush(s, InsertOfflineMsg(Query(s.tables, toid).id, text));
      QuietChange(pushed, s');
    }
  }

  lemma {:induction false} GroupKeeps(s: State, ids: seq<int>, text: string)
    requires Inv(s)
    ensures Inv(GroupAll(s, ids, text))
    decreases |ids|
  {
    if ids != [] {
      var front, id := ids[..|ids| - 1], ids[|ids| - 1];
      GroupKeeps(s, front, text);
      var m := GroupAll(s, front, text);
      if GroupOne(m, id, text).queue == m.queue {
        QuietChange(m, GroupOne(m, id, text));
      } else {
        QuietPush(m, InsertOfflineMsg(id, text));
      }
    }
  }

  lemma DbRoundKeeps(s: State)
    requires Inv(s)
    ensures Inv(DbStep(s))
  {
    if s.queue != [] {
      var s' := DbStep(s);
      assert Settled(s') == Settled(s);
      assert s'.tables.users.Keys == s.tables.users.Keys;
      forall u | u in s'.tables.users ensures Consistent(s', u) { assert Consistent(s, u); }
      forall i | 0 <= i < |s'.queue| ensures TaskKnown(s', s'.queue[i]) { assert TaskKnown(s, s.queue[i + 1]); }
    }
  }

  /** Every event keeps the invariant. */
  lemma StepKeeps(s: State, e: Event)
    requires Inv(s) && Enabled(s, e)
    ensures Inv(Step(s, e))
  {
    match e
    case Login(conn, id, pwd, msgId) => LoginKeeps(s, conn, id, pwd, msgId);
    case Logout(conn, id, msgId) => PresenceChange(s, Step(s, e), id, Offline);
    case Close(_, found) => CloseKeeps(s, found);
    case Reg(conn, name, pwd, msgId, newId) => RegKeeps(s, conn, name, pwd, msgId, newId);
    case OneChat(conn, toid, text, msgId) => OneChatKeeps(s, conn, toid, text, msgId);
    case GroupChat(conn, sender, groupid, text, msgId) =>
      var ids := Recipients(s.tables.members, groupid, sender);
      GroupKeeps(s, ids, text);
      QuietChange(GroupAll(s, ids, text), Step(s, e));
    case AddFriendMsg(_, id, friendid, _) =>
      QuietPush(s, AddFriend(id, friendid));
      QuietChange(PushTask(s, AddFriend(id, friendid)), Step(s, e));
    case CreateGroupMsg(_, _, name, desc, _) =>
      QuietPush(s, CreateGroup(name, desc));
      QuietChange(PushTask(s, CreateGroup(name, desc)), Step(s, e));
    case AddGroupMsg(_, userid, groupid, _) =>
      QuietPush(s, AddGroupUser(userid, groupid));
      QuietChange(PushTask(s, AddGroupUser(userid, groupid)), Step(s, e));
    case Deliver => QuietChange(s, Step(s, e));
    case DbRound => DbRoundKeeps(s);
    case KeyExpires(_) => QuietChange(s, Step(s, e));
  }

  /** In every reachable state the live map refines the settled user table. */
  lemma {:induction false} PresenceRefinement(s: State, es: seq<Event>)
    requires Initial(s) && Feasible(s, es)
    ensures Inv(Run(s, es))
    decreases |es|
  {
    if es == [] {
      forall u | u in s.tables.users ensures Consistent(s, u) { }
    } else {
      PresenceRefinement(s, es[..|es| - 1]);
      StepKeeps(Run(s, es[..|es| - 1]), es[|es| - 1]);
    }
  }

  // ---------- consequences ----------

  /** No state task is pending for the user. */
  predicate Calm(s: State, u: int) {
    forall i | 0 <= i < |s.queue| :: !(s.queue[i].UpdateUserState? && s.queue[i].userid == u)
  }

  lemma {:induction false} CalmRow(t: Tables, q: seq<Task>, u: int)
    requires u in t.users && forall i | 0 <= i < |q| :: !(q[i].UpdateUserState? && q[i].userid == u)
    ensures u in ApplyAll(t, q).users && ApplyAll(t, q).users[u].state == t.users[u].state
    decreases |q|
  {
    if q != [] { CalmRow(ApplyTask(t, q[0]), q[1..], u); }
  }

  /** A row of the table is right, or a state task for the user is pending. */
  lemma RowIsRightOrPending(s: State, u: int)
    requires Inv(s) && u in s.tables.users && Calm(s, u)
    ensures s.tables.users[u].state == Online <==> u in s.conns
  {
    CalmRow(s.tables, s.queue, u);
    assert Consistent(s, u);
  }

  /** The settled row, and with it the map, goes by the last pending state task. */
  lemma LastTaskDecides(s: State, u: int)
    requires Inv(s) && u in s.tables.users
    ensures u in s.conns <==>
            match LastState(s.queue, u) case Some(state) => state == Online case None => s.tables.users[u].state == Online
  {
    LastStateWins(s.tables, s.queue, u);
    assert Consistent(s, u);
  }

  /** An accepted login meets an older connection of the user exactly when the last pending state task of
      the user says online. That connection then stays in the map; otherwise the user maps to the new one. */
  lemma NoDuplicateLogin(s: State, conn: int, id: int, pwd: string, msgId: int)
    requires Inv(s) && id in s.tables.users && LoginAccepted(s, id, pwd)
    ensures id in s.conns <==> LastState(s.queue, id) == Some(Online)
    ensures LoginStep(s, conn, id, pwd, msgId).conns
            == if LastState(s.queue, id) == Some(Online) then s.conns else s.conns[id := conn]
    ensures Calm(s, id) ==> id !in s.conns
  {
    LastTaskDecides(s, id);
    if Calm(s, id) { RowIsRightOrPending(s, id); }
  }

  /** Two logins before the database thread runs are both accepted; the map keeps the first. */
  lemma SecondLoginOvertakesQueue(s: State, id: int)
    requires Initial(s) && id in s.tables.users
    ensures var pwd := s.tables.users[id].password;
            var s1 := LoginStep(s, 1, id, pwd, 7);
            LoginAccepted(s1, id, pwd) && LoginStep(s1, 2, id, pwd, 8).conns[id] == 1
  {
  }

  /** A chat to a registered user without a connection is stored for later exactly when the row says
      offline, and otherwise published to a channel nobody reads. Without a pending state task it is
      stored. */
  lemma ChatToAbsentUser(s: State, conn: int, toid: int, text: string, msgId: int)
    requires Inv(s) && toid in s.tables.users && toid !in s.conns
    ensures var s' := OneChatStep(s, conn, toid, text, msgId);
            && (s.tables.users[toid].state == Offline <==> s'.queue == s.queue + [InsertOfflineMsg(toid, text)])
            && (s.tables.users[toid].state == Online <==> s'.lost == s.lost + [Chat(toid, text)])
            && s'.channel == s.channel
    ensures Calm(s, toid) ==> s.tables.users[toid].state == Offline
  {
    assert Consistent(s, toid);
    if Calm(s, toid) { RowIsRightOrPending(s, toid); }
  }

  /** When the queue has drained the table itself is right. */
  lemma DrainedTableIsRight(s: State, u: int)
    requires Inv(s) && s.queue == [] && u in s.tables.users
    ensures s.tables.users[u].state == Online <==> u in s.conns
  {
    assert Consistent(s, u);
  }
}

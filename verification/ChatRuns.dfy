/** The service performs the runs of the state machine, from a fresh server on. */
module ChatRuns {
  import opened Wrappers
  import opened DbTask
  import opened ChatState
  import opened ChatPresence
  import opened ChatLedger
  import opened ChatService

  /** A server started on tables in which nobody is online. */
  method StartServer(tables: Tables) returns (service: Service)
    requires forall u | u in tables.users :: u > 0 && tables.users[u].state == Offline
    ensures fresh(service) && fresh(service.redis) && fresh(service.queue) && fresh(service.db)
    ensures Initial(service.Abs()) && service.Abs().tables == tables
  {
    var redis := new Redis();
    var queue := new DbTaskQueue();
    var db := new Database(tables);
    service := new Service(redis, queue, db);
  }

  /** The event that a call turns out to be: only closing a connection leaves something open, namely the
      entry of the map that the search finds. */
  predicate Becomes(call: Event, e: Event) {
    e == call || (call.Close? && e.Close? && e.conn == call.conn)
  }

  /** One call of the environment. */
  method Call(service: Service, call: Event) returns (ghost e: Event)
    requires call.Close? || Enabled(service.Abs(), call)
    modifies service, service.redis, service.queue, service.db
    ensures Becomes(call, e) && Enabled(old(service.Abs()), e)
    ensures service.Abs() == Step(old(service.Abs()), e)
  {
    hide LoginStep, LogoutStep, CloseStep, RegStep, OneChatStep, GroupChatStep, CreateGroupStep, AddGroupStep;
    e := call;
    match call
    case Login(conn, id, pwd, msgId) => service.Login(conn, id, pwd, msgId);
    case Logout(conn, id, msgId) => service.Logout(conn, id, msgId);
    case Close(conn, _) =>
      var found := service.ClientCloseException(conn);
      e := Close(conn, found);
    case Reg(conn, name, pwd, msgId, newId) => service.Register(conn, name, pwd, msgId, newId);
    case OneChat(conn, toid, text, msgId) => service.OneChat(conn, toid, text, msgId);
    case GroupChat(conn, sender, groupid, text, msgId) => service.GroupChat(conn, sender, groupid, text, msgId);
    case AddFriendMsg(conn, id, friendid, msgId) => service.AddFriend(conn, id, friendid, msgId);
    case CreateGroupMsg(conn, userid, name, desc, msgId) => service.CreateGroup(conn, userid, name, desc, msgId);
    case AddGroupMsg(conn, userid, groupid, msgId) => service.AddGroup(conn, userid, groupid, msgId);
    case Deliver => if service.redis.channel != [] { service.HandleRedisSubscribeMessage(); }
    case DbRound => if service.queue.dbQueue != [] { service.DbRound(); }
    case KeyExpires(id) => service.redis.Delete(id);
  }

  lemma OneEventMore(start: State, es: seq<Event>, e: Event)
    requires Feasible(start, es) && Enabled(Run(start, es), e)
    ensures Feasible(start, es + [e]) && Run(start, es + [e]) == Step(Run(start, es), e)
  {
    assert (es + [e])[..|es|] == es;
  }

  /** After any call the service is in a state of a run, so the theorems on runs hold of it: presence, the
      conservation of stored messages, and when something has been lost. */
  method Perform(service: Service, ghost start: State, ghost es: seq<Event>, call: Event)
    returns (ghost longer: seq<Event>)
    requires Initial(start) && Feasible(start, es) && service.Abs() == Run(start, es)
    requires call.Close? || Enabled(service.Abs(), call)
    modifies service, service.redis, service.queue, service.db
    ensures |longer| == |es| + 1 && longer[..|es|] == es && Becomes(call, longer[|es|])
    ensures Feasible(start, longer) && service.Abs() == Run(start, longer)
    ensures Inv(service.Abs())
    ensures forall c :: InStore(service.Abs(), c) == InStore(start, c) + CountStored(start, longer, c)
    ensures service.redis.lost == [] <==> NobodyGone(start, longer)
  {
    ghost var e := Call(service, call);
    longer := es + [e];
    OneEventMore(start, es, e);
    PresenceRefinement(start, longer);
    forall c ensures InStore(Run(start, longer), c) == InStore(start, c) + CountStored(start, longer, c) {
      OfflineConservation(start, longer, c);
    }
    LosesNothingExactly(start, longer);
    hide *;
  }
}

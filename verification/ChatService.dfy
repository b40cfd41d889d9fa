/** The handlers of the chat service, working in place on the map of connections, the Redis client, the
    task queue and the database. Each is one step of the state machine in ChatState. */
module ChatService {
  import opened Wrappers
  import opened DbTask
  import opened ChatState
  import opened ChatPresence
  import ChatRegistry

  /** The subscriptions and keys this server holds in Redis. Messages published on a subscribed channel
      come back to the callback in order; others are lost to this server. */
  class Redis {
    var subs: set<int>
    var keys: set<int>
    var channel: seq<Chat>
    var lost: seq<Chat>

    constructor ()
      ensures subs == {} && keys == {} && channel == [] && lost == []
    {
      subs, keys, channel, lost := {}, {}, [], [];
    }

    method Subscribe(id: int)
      modifies this`subs
      ensures subs == old(subs) + {id}
    {
      subs := subs + {id};
    }

    method Unsubscribe(id: int)
      modifies this`subs
      ensures subs == old(subs) - {id}
    {
      subs := subs - {id};
    }

    method Set(id: int)
      modifies this`keys
      ensures keys == old(keys) + {id}
    {
      keys := keys + {id};
    }

    method Delete(id: int)
      modifies this`keys
      ensures keys == old(keys) - {id}
    {
      keys := keys - {id};
    }

    method Publish(c: Chat)
      modifies this`channel, this`lost
      ensures channel == if c.to in subs then old(channel) + [c] else old(channel)
      ensures lost == if c.to in subs then old(lost) else old(lost) + [c]
    {
      if c.to in subs { channel := channel + [c]; } else { lost := lost + [c]; }
    }
  }

  class Service {
    var userConnMap: map<int, int>
    var out: seq<Packet>
    const redis: Redis
    const queue: DbTaskQueue
    const db: Database

    constructor (redis: Redis, queue: DbTaskQueue, db: Database)
      ensures this.redis == redis && this.queue == queue && this.db == db
      ensures userConnMap == map[] && out == []
    {
      this.redis, this.queue, this.db := redis, queue, db;
      userConnMap, out := map[], [];
    }

    ghost function Abs(): State
      reads this, redis, queue, db
    {
      State(userConnMap, redis.subs, redis.keys, redis.channel, redis.lost, queue.dbQueue, db.tables, out)
    }

    method SendPacket(p: Packet)
      modifies this`out
      ensures out == old(out) + [p]
    {
      out := out + [p];
    }

    method Login(conn: int, id: int, pwd: string, msgId: int)
      modifies this, redis, queue, db
      ensures Abs() == LoginStep(old(Abs()), conn, id, pwd, msgId)
    {
      var found := Query(db.tables, id);
      if found.id == id && found.user.password == pwd {
        if found.user.state == Online {
          SendPacket(LoginRefused(conn, 2, msgId));
        } else {
          if id !in userConnMap { userConnMap := userConnMap[id := conn]; }
          redis.Subscribe(id);
          redis.Set(id);
          queue.Push(UpdateUserState(found.id, Online));
          var msgs := MessagesFor(db.tables.offline, id);
          if msgs != [] {
            db.tables := db.tables.(offline := WithoutUser(db.tables.offline, id));
          } else {
            NoMessagesNoRows(db.tables.offline, id);
          }
          var friends := FriendList(db.tables.users, db.tables.friends, id);
          SendPacket(LoginOk(conn, found.id, found.user.name, msgs, friends, msgId));
        }
      } else {
        SendPacket(LoginRefused(conn, 1, msgId));
      }
      SendPacket(Ack(conn, msgId));
    }

    method Register(conn: int, name: string, pwd: string, msgId: int, newId: Option<int>)
      modifies this, db
      ensures Abs() == RegStep(old(Abs()), conn, name, pwd, msgId, newId)
    {
      match newId {
        case Some(id) =>
          db.tables := db.tables.(users := db.tables.users[id := User(name, pwd, Offline)]);
          SendPacket(RegOk(conn, id, msgId));
        case None => SendPacket(RegEcho(conn));
      }
      SendPacket(Ack(conn, msgId));
    }

    /** Searches the map, whose order is unspecified, for the connection. */
    method ClientCloseException(conn: int) returns (found: Option<int>)
      modifies this, redis, queue
      ensures CloseFinds(old(Abs()), conn, found)
      ensures Abs() == CloseStep(old(Abs()), found)
    {
      found := None;
      var todo: set<int> := userConnMap.Keys;
      while todo != {}
        invariant todo <= userConnMap.Keys
        invariant found.None? && userConnMap == old(userConnMap) && out == old(out)
        invariant forall id | id in userConnMap && id !in todo :: userConnMap[id] != conn
        modifies this`userConnMap
        decreases todo
      {
        ghost var some := SomeElement(todo);
        var id :| id in todo;
        if userConnMap[id] == conn {
          found := Some(id);
          userConnMap := userConnMap - {id};
          break;
        }
        todo := todo - {id};
      }
      var id := if found.Some? then found.value else NO_USER;
      redis.Unsubscribe(id);
      redis.Delete(id);
      if id != NO_USER { queue.Push(UpdateUserState(id, Offline)); }
    }

    method Logout(conn: int, userid: int, msgId: int)
      modifies this, redis, queue
      ensures Abs() == LogoutStep(old(Abs()), conn, userid, msgId)
    {
      userConnMap := userConnMap - {userid};
      redis.Unsubscribe(userid);
      redis.Delete(userid);
      queue.Push(UpdateUserState(userid, Offline));
      SendPacket(Ack(conn, msgId));
    }

    method OneChat(conn: int, toid: int, text: string, msgId: int)
      modifies this, redis, queue
      ensures Abs() == OneChatStep(old(Abs()), conn, toid, text, msgId)
    {
      if toid in userConnMap {
        SendPacket(ChatMsg(userConnMap[toid], toid, text));
        SendPacket(Ack(conn, msgId));
        return;
      }
      if toid in redis.keys {
        redis.Publish(Chat(toid, text));
        return;
      }
      var found := Query(db.tables, toid);
      if found.user.state == Online {
        redis.Publish(Chat(toid, text));
        return;
      }
      queue.Push(InsertOfflineMsg(found.id, text));
      SendPacket(Ack(conn, msgId));
    }

    method GroupChat(conn: int, userid: int, groupid: int, text: string, msgId: int)
      modifies this, redis, queue
      ensures Abs() == GroupChatStep(old(Abs()), conn, userid, groupid, text, msgId)
    {
      var ids := Recipients(db.tables.members, groupid, userid);
      for i := 0 to |ids|
        invariant Abs() == GroupAll(old(Abs()), ids[..i], text)
      {
        assert ids[..i + 1][..i] == ids[..i];
        var id := ids[i];
        if id in userConnMap {
          SendPacket(ChatMsg(userConnMap[id], id, text));
        } else {
          var found := Query(db.tables, id);
          if found.user.state == Online {
            redis.Publish(Chat(id, text));
          } else {
            queue.Push(InsertOfflineMsg(id, text));
          }
        }
      }
      assert ids[..|ids|] == ids;
      SendPacket(Ack(conn, msgId));
    }

    /** Once the pending writes are applied, both directions of the friendship are there and nothing else
        has changed. */
    method AddFriend(conn: int, userid: int, friendid: int, msgId: int)
      modifies this, queue
      ensures Abs() == Step(old(Abs()), AddFriendMsg(conn, userid, friendid, msgId))
      ensures Settled(Abs()) == var t := Settled(old(Abs()));
                                t.(friends := t.friends + [(userid, friendid), (friendid, userid)])
    {
      ApplyAllPush(db.tables, queue.dbQueue, Task.AddFriend(userid, friendid));
      queue.Push(Task.AddFriend(userid, friendid));
      SendPacket(Ack(conn, msgId));
    }

    /** The group comes with the pending writes. The row for the creator is written at once, with the id -1
        that the new group still has. */
    method CreateGroup(conn: int, userid: int, name: string, desc: string, msgId: int)
      modifies this, queue, db
      ensures Abs() == CreateGroupStep(old(Abs()), conn, userid, name, desc, msgId)
      ensures Settled(Abs()).groups == Settled(old(Abs())).groups + [(name, desc)]
      ensures db.tables == old(db.tables).(members := old(db.tables).members + [Membership(-1, userid, "creator")])
    {
      ChatRegistry.StepRegistry(Abs(), CreateGroupMsg(conn, userid, name, desc, msgId));
      queue.Push(Task.CreateGroup(name, desc));
      db.tables := db.tables.(members := db.tables.members + [Membership(-1, userid, "creator")]);
      SendPacket(GroupCreated(conn, msgId));
      SendPacket(Ack(conn, msgId));
      assert Abs() == CreateGroupStep(old(Abs()), conn, userid, name, desc, msgId);
      hide Settled, CreateGroupStep;
    }

    /** Once the pending writes are applied, the user is a member and nothing else has changed. */
    method AddGroup(conn: int, userid: int, groupid: int, msgId: int)
      modifies this, queue
      ensures Abs() == AddGroupStep(old(Abs()), conn, userid, groupid, msgId)
      ensures Settled(Abs()) == var t := Settled(old(Abs()));
                                t.(members := t.members + [Membership(groupid, userid, "normal")])
    {
      ApplyAllPush(db.tables, queue.dbQueue, AddGroupUser(userid, groupid));
      queue.Push(AddGroupUser(userid, groupid));
      SendPacket(GroupJoined(conn, msgId));
      SendPacket(Ack(conn, msgId));
    }

    /** The callback for the oldest message on the channel. */
    method HandleRedisSubscribeMessage()
      requires redis.channel != []
      modifies this, redis, db
      ensures Abs() == DeliverStep(old(Abs()))
    {
      var c := redis.channel[0];
      redis.channel := redis.channel[1..];
      if c.to in userConnMap {
        redis.Set(c.to);
        SendPacket(ChatMsg(userConnMap[c.to], c.to, c.text));
        return;
      }
      db.tables := db.tables.(offline := db.tables.offline + [c]);
    }

    /** One round of the database thread. */
    method DbRound()
      requires queue.dbQueue != []
      modifies queue, db
      ensures Abs() == DbStep(old(Abs()))
    {
      var task := queue.Pop();
      db.tables := ApplyTask(db.tables, task);
    }
  }

  /** Without messages for a user there is nothing to remove. */
  lemma {:induction false} NoMessagesNoRows(rows: seq<Chat>, id: int)
    requires MessagesFor(rows, id) == []
    ensures WithoutUser(rows, id) == rows
    decreases |rows|
  {
    if rows != [] {
      NoMessagesNoRows(rows[..|rows| - 1], id);
      assert rows == rows[..|rows| - 1] + [rows[|rows| - 1]];
    }
  }
}

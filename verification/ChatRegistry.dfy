/** Friends, groups and their members over whole runs. */
module ChatRegistry {
  import opened Wrappers
  import opened DbTask
  import opened ChatState
  import opened ChatPresence
  import opened ChatLedger

  // ---------- what the pending writes will add ----------

  function FriendRows(task: Task): seq<(int, int)> {
    if task.AddFriend? then [(task.userid, task.friendid), (task.friendid, task.userid)] else []
  }

  function GroupRows(task: Task): seq<(string, string)> {
    if task.CreateGroup? then [(task.name, task.desc)] else []
  }

  function MemberRows(task: Task): seq<Membership> {
    if task.AddGroupUser? then [Membership(task.groupid, task.userid, "normal")] else []
  }

  function PendingFriends(q: seq<Task>): seq<(int, int)> {
    if q == [] then [] else PendingFriends(q[..|q| - 1]) + FriendRows(q[|q| - 1])
  }

  function PendingGroups(q: seq<Task>): seq<(string, string)> {
    if q == [] then [] else PendingGroups(q[..|q| - 1]) + GroupRows(q[|q| - 1])
  }

  function PendingMembers(q: seq<Task>): seq<Membership> {
    if q == [] then [] else PendingMembers(q[..|q| - 1]) + MemberRows(q[|q| - 1])
  }

  lemma {:induction false} SettledRows(t: Tables, q: seq<Task>)
    ensures ApplyAll(t, q).friends == t.friends + PendingFriends(q)
    ensures ApplyAll(t, q).groups == t.groups + PendingGroups(q)
    ensures ApplyAll(t, q).members == t.members + PendingMembers(q)
    decreases |q|
  {
    if q != [] {
      var front, last := q[..|q| - 1], q[|q| - 1];
      assert q == front + [last];
      SettledRows(t, front);
      ApplyAllPush(t, front, last);
      hide ApplyAll;
    }
  }

  // ---------- what an event asks for ----------

  function FriendsAsked(e: Event): seq<(int, int)> {
    if e.AddFriendMsg? then [(e.id, e.friendid), (e.friendid, e.id)] else []
  }

  function GroupsAsked(e: Event): seq<(string, string)> {
    if e.CreateGroupMsg? then [(e.name, e.desc)] else []
  }

  /** The creator of a group becomes a member of the group -1. */
  function MembersAsked(e: Event): seq<Membership> {
    match e
    case CreateGroupMsg(_, userid, _, _, _) => [Membership(-1, userid, "creator")]
    case AddGroupMsg(_, userid, groupid, _) => [Membership(groupid, userid, "normal")]
    case _ => []
  }

  function AllFriendsAsked(es: seq<Event>): seq<(int, int)> {
    if es == [] then [] else AllFriendsAsked(es[..|es| - 1]) + FriendsAsked(es[|es| - 1])
  }

  function AllGroupsAsked(es: seq<Event>): seq<(string, string)> {
    if es == [] then [] else AllGroupsAsked(es[..|es| - 1]) + GroupsAsked(es[|es| - 1])
  }

  function AllMembersAsked(es: seq<Event>): seq<Membership> {
    if es == [] then [] else AllMembersAsked(es[..|es| - 1]) + MembersAsked(es[|es| - 1])
  }

  // ---------- one step ----------

  /** Handlers other than the three of this module push no task of theirs. */
  predicate OtherTask(task: Task) { task.UpdateUserState? || task.InsertOfflineMsg? }

  lemma PushOther(q: seq<Task>, task: Task)
    requires OtherTask(task)
    ensures PendingFriends(q + [task]) == PendingFriends(q)
    ensures PendingGroups(q + [task]) == PendingGroups(q)
    ensures PendingMembers(q + [task]) == PendingMembers(q)
  {
    assert (q + [task])[..|q|] == q;
  }

  ghost predicate SameRegistry(s: State, t: State) {
    && t.tables.friends == s.tables.friends && t.tables.groups == s.tables.groups
    && t.tables.members == s.tables.members
    && PendingFriends(t.queue) == PendingFriends(s.queue) && PendingGroups(t.queue) == PendingGroups(s.queue)
    && PendingMembers(t.queue) == PendingMembers(s.queue)
  }

  lemma GroupOneKeepsRegistry(s: State, id: int, text: string)
    ensures SameRegistry(s, GroupOne(s, id, text))
  {
    hide PendingFriends, PendingGroups, PendingMembers, Query;
    PushOther(s.queue, InsertOfflineMsg(id, text));
  }

  lemma {:induction false} GroupChatKeepsRegistry(s: State, ids: seq<int>, text: string)
    ensures SameRegistry(s, GroupAll(s, ids, text))
    decreases |ids|
  {
    hide GroupOne, PendingFriends, PendingGroups, PendingMembers;
    if ids != [] {
      var front := GroupAll(s, ids[..|ids| - 1], text);
      GroupChatKeepsRegistry(s, ids[..|ids| - 1], text);
      GroupOneKeepsRegistry(front, ids[|ids| - 1], text);
    }
  }

  predicate AsksNothing(e: Event) { !e.AddFriendMsg? && !e.CreateGroupMsg? && !e.AddGroupMsg? && !e.DbRound? }

  lemma OtherEvents(s: State, e: Event)
    requires AsksNothing(e)
    ensures SameRegistry(s, Step(s, e))
  {
    hide PendingFriends, PendingGroups, PendingMembers, Recipients, WithoutUser, MessagesFor, FriendList;
    match e
    case Login(_, id, _, _) => PushOther(s.queue, UpdateUserState(id, Online));
    case Logout(_, id, _) => PushOther(s.queue, UpdateUserState(id, Offline));
    case Close(_, found) => if found.Some? { PushOther(s.queue, UpdateUserState(found.value, Offline)); }
    case OneChat(_, toid, text, _) => PushOther(s.queue, InsertOfflineMsg(Query(s.tables, toid).id, text));
    case GroupChat(_, sender, groupid, text, _) =>
      GroupChatKeepsRegistry(s, Recipients(s.tables.members, groupid, sender), text);
    case _ =>
  }

  lemma AskingEvents(s: State, e: Event)
    requires !AsksNothing(e) && !e.DbRound?
    ensures var t := Step(s, e);
            && t.tables.friends == s.tables.friends && t.tables.groups == s.tables.groups
            && t.tables.members == s.tables.members + (if e.CreateGroupMsg? then MembersAsked(e) else [])
            && PendingFriends(t.queue) == PendingFriends(s.queue) + FriendsAsked(e)
            && PendingGroups(t.queue) == PendingGroups(s.queue) + GroupsAsked(e)
            && PendingMembers(t.queue) == PendingMembers(s.queue) + (if e.AddGroupMsg? then MembersAsked(e) else [])
  {
    var t := Step(s, e);
    assert t.queue[..|t.queue| - 1] == s.queue;
  }

  // ---------- over runs ----------

  lemma RowsOfState(s: State)
    ensures Settled(s).friends == s.tables.friends + PendingFriends(s.queue)
    ensures Settled(s).groups == s.tables.groups + PendingGroups(s.queue)
    ensures Settled(s).members == s.tables.members + PendingMembers(s.queue)
  {
    SettledRows(s.tables, s.queue);
  }

  lemma Associative<T>(a: seq<T>, b: seq<T>, c: seq<T>)
    ensures a + (b + c) == a + b + c
  {
  }

  lemma StepRegistry(s: State, e: Event)
    ensures Settled(Step(s, e)).friends == Settled(s).friends + FriendsAsked(e)
    ensures Settled(Step(s, e)).groups == Settled(s).groups + GroupsAsked(e)
  {
    if e.DbRound? {
      RoundSettles(s);
    } else if AsksNothing(e) {
      assert FriendsAsked(e) == [] && GroupsAsked(e) == [];
      hide Step, Settled, PendingFriends, PendingGroups, PendingMembers;
      RowsOfState(s);
      RowsOfState(Step(s, e));
      OtherEvents(s, e);
    } else {
      hide Step, Settled, PendingFriends, PendingGroups, PendingMembers, FriendsAsked, GroupsAsked, MembersAsked;
      RowsOfState(s);
      RowsOfState(Step(s, e));
      AskingEvents(s, e);
      Associative(s.tables.friends, PendingFriends(s.queue), FriendsAsked(e));
      Associative(s.tables.groups, PendingGroups(s.queue), GroupsAsked(e));
    }
  }

  /** Once the pending writes are applied, the friend and group tables hold what the run asked for, in
      order, after what they held before. */
  lemma {:induction false} FriendsAndGroupsOfRun(s: State, es: seq<Event>)
    ensures Settled(Run(s, es)).friends == Settled(s).friends + AllFriendsAsked(es)
    ensures Settled(Run(s, es)).groups == Settled(s).groups + AllGroupsAsked(es)
    decreases |es|
  {
    hide Step, Settled, FriendsAsked, GroupsAsked;
    if es != [] {
      FriendsAndGroupsOfRun(s, es[..|es| - 1]);
      StepRegistry(Run(s, es[..|es| - 1]), es[|es| - 1]);
    }
  }

  lemma RoundSettles(s: State)
    ensures Settled(DbStep(s)) == Settled(s)
  {
  }

  /** How often a row occurs in the member table. */
  function CountRows(rows: seq<Membership>, m: Membership): nat {
    if rows == [] then 0 else CountRows(rows[..|rows| - 1], m) + if rows[|rows| - 1] == m then 1 else 0
  }

  lemma {:induction false} CountRowsAppend(a: seq<Membership>, b: seq<Membership>, m: Membership)
    ensures CountRows(a + b, m) == CountRows(a, m) + CountRows(b, m)
    decreases |b|
  {
    if b == [] {
      assert a + b == a;
    } else {
      CountRowsAppend(a, b[..|b| - 1], m);
      assert (a + b)[..|a + b| - 1] == a + b[..|b| - 1];
    }
  }

  lemma SettledCount(s: State, m: Membership)
    ensures CountRows(Settled(s).members, m)
            == CountRows(s.tables.members, m) + CountRows(PendingMembers(s.queue), m)
  {
    RowsOfState(s);
    CountRowsAppend(s.tables.members, PendingMembers(s.queue), m);
    hide Settled, CountRows, PendingMembers;
  }

  lemma StepMembers(s: State, e: Event, m: Membership)
    ensures CountRows(Settled(Step(s, e)).members, m) == CountRows(Settled(s).members, m) + CountRows(MembersAsked(e), m)
  {
    assert CountRows([], m) == 0;
    if e.DbRound? {
      RoundSettles(s);
    } else if AsksNothing(e) {
      assert MembersAsked(e) == [];
      hide Step, Settled, CountRows, PendingFriends, PendingGroups, PendingMembers;
      RowsOfState(s);
      RowsOfState(Step(s, e));
      OtherEvents(s, e);
    } else {
      hide Step, Settled, CountRows, PendingFriends, PendingGroups, PendingMembers, MembersAsked, FriendsAsked,
        GroupsAsked;
      SettledCount(s, m);
      SettledCount(Step(s, e), m);
      AskingMembers(s, e, m);
    }
  }

  lemma AskingMembers(s: State, e: Event, m: Membership)
    requires !AsksNothing(e) && !e.DbRound?
    ensures var t := Step(s, e);
            CountRows(t.tables.members, m) + CountRows(PendingMembers(t.queue), m)
            == CountRows(s.tables.members, m) + CountRows(PendingMembers(s.queue), m) + CountRows(MembersAsked(e), m)
  {
    assert e.AddFriendMsg? ==> MembersAsked(e) == [];
    assert CountRows([], m) == 0;
    hide Step, CountRows, PendingFriends, PendingGroups, PendingMembers, MembersAsked, FriendsAsked, GroupsAsked;
    AskingEvents(s, e);
    CountRowsAppend(s.tables.members, if e.CreateGroupMsg? then MembersAsked(e) else [], m);
    CountRowsAppend(PendingMembers(s.queue), if e.AddGroupMsg? then MembersAsked(e) else [], m);
  }

  /** The same for the member table, with multiplicity: the creator's row overtakes the queue. */
  lemma {:induction false} MembersOfRun(s: State, es: seq<Event>, m: Membership)
    ensures CountRows(Settled(Run(s, es)).members, m)
            == CountRows(Settled(s).members, m) + CountRows(AllMembersAsked(es), m)
    decreases |es|
  {
    if es == [] {
      assert CountRows([], m) == 0;
    } else {
      var front, e := es[..|es| - 1], es[|es| - 1];
      MembersOfRun(s, front, m);
      StepMembers(Run(s, front), e, m);
      CountRowsAppend(AllMembersAsked(front), MembersAsked(e), m);
      hide Step, Settled, CountRows;
    }
  }

  // ---------- creators ----------

  /** The user asks to join the group. */
  predicate Joins(e: Event, groupid: int, userid: int) {
    e.AddGroupMsg? && e.groupid == groupid && e.userid == userid
  }

  predicate JoinsIn(es: seq<Event>, groupid: int, userid: int) {
    exists i :: 0 <= i < |es| && Joins(es[i], groupid, userid)
  }

  ghost predicate MemberIn(rows: seq<Membership>, groupid: int, userid: int) {
    exists i :: 0 <= i < |rows| && rows[i].groupid == groupid && rows[i].userid == userid
  }

  lemma {:induction false} CountIsMembership(rows: seq<Membership>, m: Membership)
    ensures CountRows(rows, m) > 0 <==> m in rows
    decreases |rows|
  {
    if rows != [] {
      CountIsMembership(rows[..|rows| - 1], m);
      assert rows == rows[..|rows| - 1] + [rows[|rows| - 1]];
    }
  }

  lemma {:induction false} AskedMembers(es: seq<Event>, m: Membership)
    ensures m in AllMembersAsked(es) ==> m.groupid == -1 || (m.role == "normal" && JoinsIn(es, m.groupid, m.userid))
    ensures forall groupid, userid | JoinsIn(es, groupid, userid) ::
              Membership(groupid, userid, "normal") in AllMembersAsked(es)
    decreases |es|
  {
    if es != [] {
      var front, e := es[..|es| - 1], es[|es| - 1];
      AskedMembers(front, m);
      if m in AllMembersAsked(es) && m.groupid != -1 {
        if m in AllMembersAsked(front) {
          var i :| 0 <= i < |front| && Joins(front[i], m.groupid, m.userid);
          assert Joins(es[i], m.groupid, m.userid);
        } else {
          assert Joins(es[|es| - 1], m.groupid, m.userid);
        }
      }
      forall groupid, userid | JoinsIn(es, groupid, userid)
        ensures Membership(groupid, userid, "normal") in AllMembersAsked(es)
      {
        var i :| 0 <= i < |es| && Joins(es[i], groupid, userid);
        if i < |front| {
          assert Joins(front[i], groupid, userid);
          assert JoinsIn(front, groupid, userid);
        }
      }
    }
  }

  /** A user is or will be a member of a group with a proper id exactly when they were before the run or
      asked to join during it. Creating a group makes no difference. */
  lemma MemberExactlyByJoining(s: State, es: seq<Event>, groupid: int, userid: int)
    requires groupid != -1
    ensures MemberIn(Settled(Run(s, es)).members, groupid, userid)
            <==> MemberIn(Settled(s).members, groupid, userid) || JoinsIn(es, groupid, userid)
  {
    var before, after := Settled(s).members, Settled(Run(s, es)).members;
    hide Settled, Run;
    forall m: Membership | m.groupid == groupid && m.userid == userid
      ensures m in after ==> m in before || JoinsIn(es, groupid, userid)
      ensures m in before ==> m in after
    {
      MembersOfRun(s, es, m);
      CountIsMembership(before, m);
      CountIsMembership(after, m);
      CountIsMembership(AllMembersAsked(es), m);
      AskedMembers(es, m);
    }
    if JoinsIn(es, groupid, userid) {
      var m := Membership(groupid, userid, "normal");
      MembersOfRun(s, es, m);
      CountIsMembership(after, m);
      CountIsMembership(AllMembersAsked(es), m);
      AskedMembers(es, m);
      assert m in after;
    }
    if MemberIn(before, groupid, userid) {
      var i :| 0 <= i < |before| && before[i].groupid == groupid && before[i].userid == userid;
      assert before[i] in after;
    }
    if MemberIn(after, groupid, userid) {
      var i :| 0 <= i < |after| && after[i].groupid == groupid && after[i].userid == userid;
      assert after[i] in after;
    }
  }

  lemma {:induction false} RecipientIsMember(rows: seq<Membership>, groupid: int, sender: int)
    ensures forall id | id in Recipients(rows, groupid, sender) :: MemberIn(rows, groupid, id)
    decreases |rows|
  {
    if rows != [] {
      var front, last := rows[..|rows| - 1], rows[|rows| - 1];
      RecipientIsMember(front, groupid, sender);
      forall id | id in Recipients(rows, groupid, sender) ensures MemberIn(rows, groupid, id) {
        if id in Recipients(front, groupid, sender) {
          var i :| 0 <= i < |front| && front[i].groupid == groupid && front[i].userid == id;
          assert rows[i].groupid == groupid && rows[i].userid == id;
        } else {
          assert rows[|rows| - 1].groupid == groupid && rows[|rows| - 1].userid == id;
        }
      }
    }
  }

  /** Who creates a group gets none of its messages: whatever the run, a user who does not ask to join a
      group is not among its recipients. */
  lemma CreatorIsNoRecipient(s: State, es: seq<Event>, groupid: int, userid: int, sender: int)
    requires groupid != -1 && !MemberIn(Settled(s).members, groupid, userid) && !JoinsIn(es, groupid, userid)
    ensures userid !in Recipients(Run(s, es).tables.members, groupid, sender)
  {
    var r := Run(s, es);
    MemberExactlyByJoining(s, es, groupid, userid);
    SettledRows(r.tables, r.queue);
    RecipientIsMember(r.tables.members, groupid, sender);
    hide Run, ApplyAll, Recipients;
    LongerRows(r.tables.members, PendingMembers(r.queue), groupid, userid);
  }

  lemma LongerRows(a: seq<Membership>, b: seq<Membership>, groupid: int, userid: int)
    ensures MemberIn(a, groupid, userid) ==> MemberIn(a + b, groupid, userid)
  {
    if MemberIn(a, groupid, userid) {
      var i :| 0 <= i < |a| && a[i].groupid == groupid && a[i].userid == userid;
      assert (a + b)[i] == a[i];
    }
  }

  /** No run adds a creator's row for a group with a proper id. */
  lemma CreatorRowsStay(s: State, es: seq<Event>, m: Membership)
    requires m.role == "creator" && m.groupid != -1
    ensures CountRows(Settled(Run(s, es)).members, m) == CountRows(Settled(s).members, m)
  {
    MembersOfRun(s, es, m);
    AskedMembers(es, m);
    CountIsMembership(AllMembersAsked(es), m);
    assert "creator" != "normal" by { assert |"creator"| != |"normal"|; }
  }

  // ---------- friends ----------

  function CountPairs(rows: seq<(int, int)>, a: int, b: int): nat {
    if rows == [] then 0 else CountPairs(rows[..|rows| - 1], a, b) + if rows[|rows| - 1] == (a, b) then 1 else 0
  }

  ghost predicate Mutual(rows: seq<(int, int)>) {
    forall a, b :: CountPairs(rows, a, b) == CountPairs(rows, b, a)
  }

  lemma BothWays(rows: seq<(int, int)>, u: int, f: int)
    requires Mutual(rows)
    ensures Mutual(rows + [(u, f), (f, u)])
  {
    var longer := rows + [(u, f), (f, u)];
    assert longer[..|longer| - 1] == rows + [(u, f)] && (rows + [(u, f)])[..|rows|] == rows;
    forall a, b ensures CountPairs(longer, a, b) == CountPairs(longer, b, a) {
      assert CountPairs(rows, a, b) == CountPairs(rows, b, a);
      PairTwice(rows, u, f, a, b);
      PairTwice(rows, u, f, b, a);
    }
  }

  lemma PairTwice(rows: seq<(int, int)>, u: int, f: int, a: int, b: int)
    ensures CountPairs(rows + [(u, f), (f, u)], a, b)
            == CountPairs(rows, a, b) + (if (u, f) == (a, b) then 1 else 0) + (if (f, u) == (a, b) then 1 else 0)
  {
    var longer := rows + [(u, f), (f, u)];
    assert longer[..|longer| - 1] == rows + [(u, f)] && (rows + [(u, f)])[..|rows|] == rows;
  }

  lemma {:induction false} GroupChatKeepsTables(s: State, ids: seq<int>, text: string)
    ensures GroupAll(s, ids, text).tables == s.tables
    decreases |ids|
  {
    if ids != [] { GroupChatKeepsTables(s, ids[..|ids| - 1], text); }
  }

  /** Only the database thread writes friends, and it writes both directions in one round. */
  lemma StepKeepsMutual(s: State, e: Event)
    requires Mutual(s.tables.friends)
    ensures Mutual(Step(s, e).tables.friends)
  {
    hide Mutual;
    match e
    case DbRound =>
      if s.queue != [] && s.queue[0].AddFriend? {
        BothWays(s.tables.friends, s.queue[0].userid, s.queue[0].friendid);
      }
    case GroupChat(_, sender, groupid, text, _) =>
      GroupChatKeepsTables(s, Recipients(s.tables.members, groupid, sender), text);
    case _ =>
  }

  lemma {:induction false} RunKeepsMutual(s: State, es: seq<Event>)
    requires Mutual(s.tables.friends)
    ensures Mutual(Run(s, es).tables.friends)
    decreases |es|
  {
    hide Mutual, Step;
    if es != [] {
      RunKeepsMutual(s, es[..|es| - 1]);
      StepKeepsMutual(Run(s, es[..|es| - 1]), es[|es| - 1]);
    }
  }

  function CountListed(contacts: seq<Contact>, id: int): nat {
    if contacts == [] then 0
    else CountListed(contacts[..|contacts| - 1], id) + if contacts[|contacts| - 1].id == id then 1 else 0
  }

  lemma {:induction false} ListedByRows(users: map<int, User>, rows: seq<(int, int)>, a: int, b: int)
    requires b in users
    ensures CountListed(FriendList(users, rows, a), b) == CountPairs(rows, a, b)
    decreases |rows|
  {
    if rows != [] {
      var front, last := FriendList(users, rows[..|rows| - 1], a), rows[|rows| - 1];
      ListedByRows(users, rows[..|rows| - 1], a, b);
      if last.0 == a && last.1 in users {
        var contact := Contact(last.1, users[last.1].name, users[last.1].state);
        assert (front + [contact])[..|front|] == front;
      }
    }
  }

  /** In every state of a run, two registered users find each other in their friend lists equally often. */
  lemma FriendsAreMutual(s: State, es: seq<Event>, a: int, b: int)
    requires Mutual(s.tables.friends) && a in Run(s, es).tables.users && b in Run(s, es).tables.users
    ensures var t := Run(s, es).tables;
            CountListed(FriendList(t.users, t.friends, a), b) == CountListed(FriendList(t.users, t.friends, b), a)
  {
    RunKeepsMutual(s, es);
    var t := Run(s, es).tables;
    ListedByRows(t.users, t.friends, a, b);
    ListedByRows(t.users, t.friends, b, a);
  }
}

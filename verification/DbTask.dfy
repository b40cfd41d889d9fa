/** The database tables, the queue of pending writes and the thread that applies them. */
module DbTask {
  import opened Wrappers

  datatype Presence = Online | Offline

  datatype User = User(name: string, password: string, state: Presence)

  /** A text addressed to a user. */
  datatype Chat = Chat(to: int, text: string)

  datatype Membership = Membership(groupid: int, userid: int, role: string)

  datatype Tables = Tables(
    users: map<int, User>,
    offline: seq<Chat>,
    friends: seq<(int, int)>,
    groups: seq<(string, string)>,
    members: seq<Membership>)

  datatype Task =
    | UpdateUserState(userid: int, state: Presence)
    | InsertOfflineMsg(toid: int, msg: string)
    | AddFriend(userid: int, friendid: int)
    | CreateGroup(name: string, desc: string)
    | AddGroupUser(userid: int, groupid: int)

  function SetState(users: map<int, User>, id: int, state: Presence): map<int, User> {
    if id in users then users[id := users[id].(state := state)] else users
  }

  /** One round of `dbWork`. */
  function ApplyTask(t: Tables, task: Task): Tables {
    match task
    case UpdateUserState(id, state) => t.(users := SetState(t.users, id, state))
    case InsertOfflineMsg(toid, msg) => t.(offline := t.offline + [Chat(toid, msg)])
    case AddFriend(id, friendid) => t.(friends := t.friends + [(id, friendid), (friendid, id)])
    case CreateGroup(name, desc) => t.(groups := t.groups + [(name, desc)])
    case AddGroupUser(id, groupid) => t.(members := t.members + [Membership(groupid, id, "normal")])
  }

  /** The tables once the pending writes have been applied in order. */
  function ApplyAll(t: Tables, q: seq<Task>): Tables
    decreases |q|
  {
    if q == [] then t else ApplyAll(ApplyTask(t, q[0]), q[1..])
  }

  lemma {:induction false} ApplyAllAppend(t: Tables, q: seq<Task>, r: seq<Task>)
    ensures ApplyAll(t, q + r) == ApplyAll(ApplyAll(t, q), r)
    decreases |q|
  {
    if q == [] {
      assert q + r == r;
    } else {
      ApplyAllAppend(ApplyTask(t, q[0]), q[1..], r);
      assert (q + r)[1..] == q[1..] + r;
    }
  }

  lemma ApplyAllPush(t: Tables, q: seq<Task>, task: Task)
    ensures ApplyAll(t, q + [task]) == ApplyTask(ApplyAll(t, q), task)
  {
    ApplyAllAppend(t, q, [task]);
    assert [task][1..] == [];
  }

  lemma {:induction false} ApplyAllKeepsUsers(t: Tables, q: seq<Task>)
    ensures ApplyAll(t, q).users.Keys == t.users.Keys
    decreases |q|
  {
    if q != [] { ApplyAllKeepsUsers(ApplyTask(t, q[0]), q[1..]); }
  }

  // ---------- the last state wins ----------

  function LastState(q: seq<Task>, id: int): Option<Presence>
    decreases |q|
  {
    if q == [] then None
    else
      match q[|q| - 1]
      case UpdateUserState(u, state) => if u == id then Some(state) else LastState(q[..|q| - 1], id)
      case _ => LastState(q[..|q| - 1], id)
  }

  /** Once the queue has drained, a user has the state of the last state task pushed for them. */
  lemma {:induction false} LastStateWins(t: Tables, q: seq<Task>, id: int)
    requires id in t.users
    ensures id in ApplyAll(t, q).users
    ensures ApplyAll(t, q).users[id].state
            == match LastState(q, id) case Some(state) => state case None => t.users[id].state
    decreases |q|
  {
    if q != [] {
      var front, last := q[..|q| - 1], q[|q| - 1];
      assert q == front + [last];
      LastStateWins(t, front, id);
      ApplyAllPush(t, front, last);
    }
  }

  // ---------- the queue and the thread ----------

  class Database {
    var tables: Tables

    constructor (t: Tables)
      ensures tables == t
    {
      tables := t;
    }
  }

  class DbTaskQueue {
    var dbQueue: seq<Task>

    constructor ()
      ensures dbQueue == []
    {
      dbQueue := [];
    }

    method Push(task: Task)
      modifies this
      ensures dbQueue == old(dbQueue) + [task]
    {
      dbQueue := dbQueue + [task];
    }

    /** The caller waits until the queue is not empty. */
    method Pop() returns (task: Task)
      requires dbQueue != []
      modifies this
      ensures old(dbQueue) == [task] + dbQueue
    {
      task := dbQueue[0];
      dbQueue := dbQueue[1..];
    }

    /** The rounds of `dbWork` until the queue is empty again. */
    method DbWork(db: Database)
      modifies this, db
      ensures dbQueue == []
      ensures db.tables == ApplyAll(old(db.tables), old(dbQueue))
    {
      while dbQueue != []
        invariant ApplyAll(db.tables, dbQueue) == ApplyAll(old(db.tables), old(dbQueue))
        decreases |dbQueue|
      {
        ghost var before := dbQueue;
        var task := Pop();
        assert before[0] == task && before[1..] == dbQueue;
        db.tables := ApplyTask(db.tables, task);
      }
    }
  }

  // ---------- any interleaving of pushes and rounds ----------

  datatype Worker = Worker(tables: Tables, queue: seq<Task>, applied: seq<Task>)

  datatype WorkerEvent = Pushed(task: Task) | Round

  /** A round with an empty queue waits. */
  function WorkerStep(w: Worker, e: WorkerEvent): Worker {
    match e
    case Pushed(task) => w.(queue := w.queue + [task])
    case Round =>
      if w.queue == [] then w
      else Worker(ApplyTask(w.tables, w.queue[0]), w.queue[1..], w.applied + [w.queue[0]])
  }

  function WorkerRun(w: Worker, es: seq<WorkerEvent>): Worker {
    if es == [] then w else WorkerStep(WorkerRun(w, es[..|es| - 1]), es[|es| - 1])
  }

  function Pushes(es: seq<WorkerEvent>): seq<Task> {
    if es == [] then []
    else
      match es[|es| - 1]
      case Pushed(task) => Pushes(es[..|es| - 1]) + [task]
      case Round => Pushes(es[..|es| - 1])
  }

  /** Tasks are applied in the order of the pushes, none twice and none skipped, and the tables are
      the interpretation of the applied ones. */
  lemma {:induction false} QueueRefinement(t: Tables, es: seq<WorkerEvent>)
    ensures var w := WorkerRun(Worker(t, [], []), es);
            w.applied + w.queue == Pushes(es) && w.tables == ApplyAll(t, w.applied)
    decreases |es|
  {
    if es != [] {
      var front, last := es[..|es| - 1], es[|es| - 1];
      QueueRefinement(t, front);
      var w := WorkerRun(Worker(t, [], []), front);
      match last
      case Pushed(task) => assert w.applied + (w.queue + [task]) == w.applied + w.queue + [task];
      case Round =>
        if w.queue != [] {
          ApplyAllPush(t, w.applied, w.queue[0]);
          assert w.applied + [w.queue[0]] + w.queue[1..] == w.applied + w.queue;
        }
    }
  }
}

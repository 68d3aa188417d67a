/** The data-access layer of the backend: the `users` and `tasks` tables as two maps from
    primary key to row, with the lookups and updates the API routes perform on them. */
module Crud {
  import opened Wrappers
  import opened Models
  import opened Schemas

  // ---------------------------------------------------------------------------
  // Partial updates

  /** One explicitly set field of a `TaskUpdate` with its value. */
  datatype FieldValue =
    | SetTitle(title: string)
    | SetDescription(description: Option<string>)
    | SetDeadline(deadline: Timestamp)
    | SetCompleted(completed: bool)

  /** The fields of `u` that were set, in declaration order, as
      `updates.dict(exclude_unset=True).items()` lists them. */
  function SetFields(u: TaskUpdate): (fs: seq<FieldValue>)
    ensures |fs| <= 4
    ensures u == NoUpdate ==> fs == []
  {
    (if u.title.Some? then [SetTitle(u.title.value)] else [])
    + (if u.description.Some? then [SetDescription(u.description.value)] else [])
    + (if u.deadline.Some? then [SetDeadline(u.deadline.value)] else [])
    + (if u.completed.Some? then [SetCompleted(u.completed.value)] else [])
  }

  /** `setattr(task, field, value)` for one field. */
  function SetAttr(t: Task, f: FieldValue): (r: Task)
    ensures r.id == t.id && r.ownerId == t.ownerId
  {
    match f
    case SetTitle(x) => t.(title := x)
    case SetDescription(x) => t.(description := x)
    case SetDeadline(x) => t.(deadline := x)
    case SetCompleted(x) => t.(completed := x)
  }

  /** The task after the `setattr` calls of `fs`, in order. */
  function ApplyFields(t: Task, fs: seq<FieldValue>): (r: Task)
    ensures r.id == t.id && r.ownerId == t.ownerId
    decreases |fs|
  {
    if fs == [] then t else SetAttr(ApplyFields(t, fs[..|fs| - 1]), fs[|fs| - 1])
  }

  /** The intended meaning of a partial update: each field that was set takes the new
      value, every other field, the id and the owner are kept. */
  function ApplyUpdate(t: Task, u: TaskUpdate): (r: Task)
    ensures r.id == t.id && r.ownerId == t.ownerId
    ensures r.title == (if u.title.Some? then u.title.value else t.title)
    ensures r.description == (if u.description.Some? then u.description.value else t.description)
    ensures r.deadline == (if u.deadline.Some? then u.deadline.value else t.deadline)
    ensures r.completed == (if u.completed.Some? then u.completed.value else t.completed)
  {
    Task(t.id, u.title.GetOr(t.title), u.description.GetOr(t.description),
         u.deadline.GetOr(t.deadline), u.completed.GetOr(t.completed), t.ownerId)
  }

  /** Appending zero or one field adds at most one `setattr` call at the end. */
  lemma ApplyFieldsSnoc(t: Task, fs: seq<FieldValue>, opt: seq<FieldValue>)
    requires |opt| <= 1
    ensures ApplyFields(t, fs + opt) == if opt == [] then ApplyFields(t, fs) else SetAttr(ApplyFields(t, fs), opt[0])
  {
    if opt == [] {
      assert fs + opt == fs;
    } else {
      assert (fs + opt)[..|fs + opt| - 1] == fs;
    }
  }

  /** Applying the set fields one at a time gives exactly the intended partial update. */
  lemma ApplySetFields(t: Task, u: TaskUpdate)
    ensures ApplyFields(t, SetFields(u)) == ApplyUpdate(t, u)
  {
    var a := if u.title.Some? then [SetTitle(u.title.value)] else [];
    var b := if u.description.Some? then [SetDescription(u.description.value)] else [];
    var c := if u.deadline.Some? then [SetDeadline(u.deadline.value)] else [];
    var d := if u.completed.Some? then [SetCompleted(u.completed.value)] else [];
    assert SetFields(u) == a + b + c + d;
    assert [] + a == a;
    ApplyFieldsSnoc(t, [], a);
    ApplyFieldsSnoc(t, a, b);
    ApplyFieldsSnoc(t, a + b, c);
    ApplyFieldsSnoc(t, a + b + c, d);
  }

  /** The `setattr` loop of `update_task`, over a copy of the row. */
  method ApplySetAttrs(task: Task, fields: seq<FieldValue>) returns (t: Task)
    ensures t == ApplyFields(task, fields)
  {
    t := task;
    for i := 0 to |fields|
      invariant t == ApplyFields(task, fields[..i])
    {
      assert fields[..i + 1][..i] == fields[..i];
      t := SetAttr(t, fields[i]);
    }
    assert fields[..|fields|] == fields;
  }

  /** An update that sets nothing changes nothing. */
  lemma EmptyUpdateChangesNothing(t: Task)
    ensures ApplyFields(t, SetFields(NoUpdate)) == t
  {
    assert SetFields(NoUpdate) == [];
  }

  // ---------------------------------------------------------------------------
  // Ownership and ordering

  /** The rows among `ids` that belong to `owner`. */
  ghost function Owned(tasks: map<nat, Task>, ids: set<nat>, owner: nat): set<Task> {
    set id | id in ids && id in tasks && tasks[id].ownerId == owner :: tasks[id]
  }

  /** Every row in `before` that does not belong to `owner` is in `after`, unchanged. */
  ghost predicate OthersKept(before: map<nat, Task>, after: map<nat, Task>, owner: nat) {
    forall id :: id in before && before[id].ownerId != owner ==> id in after && after[id] == before[id]
  }

  /** The rows that do not belong to `owner` are the same in `before` and `after`: none
      was removed, changed or added. */
  ghost predicate OthersUnchanged(before: map<nat, Task>, after: map<nat, Task>, owner: nat) {
    OthersKept(before, after, owner) && OthersKept(after, before, owner)
  }

  /** A change made on behalf of one owner leaves every other owner's tasks as they were. */
  lemma {:induction false} OwnershipIsolation(before: map<nat, Task>, after: map<nat, Task>, owner: nat, other: nat)
    requires OthersUnchanged(before, after, owner)
    requires other != owner
    ensures Owned(after, after.Keys, other) == Owned(before, before.Keys, other)
  {
    forall t | t in Owned(after, after.Keys, other)
      ensures t in Owned(before, before.Keys, other)
    {
      var id :| id in after && after[id].ownerId == other && after[id] == t;
      assert id in before && before[id] == t;
    }
    forall t | t in Owned(before, before.Keys, other)
      ensures t in Owned(after, after.Keys, other)
    {
      var id :| id in before && before[id].ownerId == other && before[id] == t;
      assert id in after && after[id] == t;
    }
  }

  lemma OwnedStep(tasks: map<nat, Task>, done: set<nat>, id: nat, owner: nat)
    requires TasksKeyed(tasks) && id in tasks && id !in done
    ensures tasks[id].ownerId == owner ==>
              multiset(Owned(tasks, done + {id}, owner))
              == multiset(Owned(tasks, done, owner)) + multiset{tasks[id]}
    ensures tasks[id].ownerId != owner ==> Owned(tasks, done + {id}, owner) == Owned(tasks, done, owner)
  {
    if tasks[id].ownerId == owner {
      var before := Owned(tasks, done, owner);
      assert Owned(tasks, done + {id}, owner) == before + {tasks[id]};
      assert forall j :: j in done && j in tasks ==> tasks[j].id != tasks[id].id;
      assert tasks[id] !in before;
    }
  }

  /** A sequence with the multiset of a set holds each element once. */
  lemma DistinctFromSet(s: seq<Task>, elems: set<Task>)
    requires multiset(s) == multiset(elems)
    ensures forall i, j :: 0 <= i < j < |s| ==> s[i] != s[j]
  {
    forall i, j | 0 <= i < j < |s|
      ensures s[i] != s[j]
    {
      assert s == s[..j] + s[j..];
      assert s[..j][i] == s[i];
      assert s[j..][0] == s[j];
      assert multiset(s)[s[j]] == multiset(s[..j])[s[j]] + multiset(s[j..])[s[j]];
      assert multiset(elems)[s[j]] <= 1;
    }
  }

  predicate SortedByDeadline(s: seq<Task>) {
    forall i, j :: 0 <= i < j < |s| ==> s[i].deadline <= s[j].deadline
  }

  /** Inserts `t` after every task whose deadline is not later than its own. */
  function InsertByDeadline(s: seq<Task>, t: Task): (r: seq<Task>)
    ensures multiset(r) == multiset(s) + multiset{t}
  {
    if s == [] then [t]
    else if t.deadline < s[0].deadline then [t] + s
    else
      assert s == [s[0]] + s[1..];
      [s[0]] + InsertByDeadline(s[1..], t)
  }

  /** No task of `s` is due before `d`. */
  predicate DueFrom(s: seq<Task>, d: Timestamp) {
    forall i :: 0 <= i < |s| ==> d <= s[i].deadline
  }

  lemma {:induction false} InsertKeepsDueFrom(s: seq<Task>, t: Task, d: Timestamp)
    requires DueFrom(s, d) && d <= t.deadline
    ensures DueFrom(InsertByDeadline(s, t), d)
  {
    if s != [] && t.deadline >= s[0].deadline {
      InsertKeepsDueFrom(s[1..], t, d);
    }
  }

  lemma {:induction false} InsertKeepsSorted(s: seq<Task>, t: Task)
    requires SortedByDeadline(s)
    ensures SortedByDeadline(InsertByDeadline(s, t))
  {
    if s != [] && t.deadline >= s[0].deadline {
      var rest := InsertByDeadline(s[1..], t);
      InsertKeepsSorted(s[1..], t);
      InsertKeepsDueFrom(s[1..], t, s[0].deadline);
      var r := [s[0]] + rest;
      assert forall i :: 0 < i < |r| ==> r[i] == rest[i - 1];
    }
  }

  // ---------------------------------------------------------------------------
  // The store

  class Store {
    var users: map<nat, User>
    var tasks: map<nat, Task>
    /** The next primary keys the tables hand out. */
    var nextUserId: nat
    var nextTaskId: nat

    ghost predicate Valid()
      reads this
    {
      && Consistent(users, tasks)
      && (forall id :: id in users ==> id < nextUserId)
      && (forall id :: id in tasks ==> id < nextTaskId)
    }

    constructor ()
      ensures Valid() && users == map[] && tasks == map[]
    {
      users, tasks := map[], map[];
      nextUserId, nextTaskId := 1, 1;
    }

    predicate UsernameTaken(username: string)
      reads this
    {
      exists id :: id in users && users[id].username == username
    }

    /** The tasks of `owner`, as a set. */
    ghost function OwnedBy(owner: nat): set<Task>
      reads this
    {
      Owned(tasks, tasks.Keys, owner)
    }

    /** `get_user_by_username`: the user with that username, if any. */
    method GetUserByUsername(username: string) returns (r: Option<User>)
      requires Valid()
      ensures r.Some? <==> UsernameTaken(username)
      ensures r.Some? ==> r.value.id in users && users[r.value.id] == r.value && r.value.username == username
    {
      if exists id :: id in users && users[id].username == username {
        var id :| id in users && users[id].username == username;
        r := Some(users[id]);
      } else {
        r := None;
      }
    }

    /** `create_user`: adds a user under a fresh id, storing the hash of the password.
        The UNIQUE constraint on `username` refuses a taken name, so callers check first. */
    method CreateUser(user: UserCreate, hash: string -> string) returns (u: User)
      requires Valid() && !UsernameTaken(user.username)
      modifies this
      ensures Valid()
      ensures u.username == user.username && u.password == hash(user.password)
      ensures u.id !in old(users) && users == old(users)[u.id := u]
      ensures tasks == old(tasks)
    {
      u := User(nextUserId, user.username, hash(user.password));
      users := users[nextUserId := u];
      nextUserId := nextUserId + 1;
    }

    /** `create_task`: adds the task under a fresh id with the request's fields and owner.
        The request's null description is not stored: the column default "" applies. `now`
        is the clock reading at the insert; the deadline default that uses it never applies,
        since a `TaskCreate` always carries a deadline. The foreign key on `owner_id` demands
        an existing user; the only caller passes one. */
    method CreateTask(task: TaskCreate, ownerId: nat, now: Timestamp) returns (t: Task)
      requires Valid() && ownerId in users
      modifies this
      ensures Valid()
      ensures t.title == task.title && t.deadline == task.deadline && t.completed == task.completed
      ensures t.description == if task.description.None? then Some("") else task.description
      ensures t.ownerId == ownerId
      ensures t.id !in old(tasks) && tasks == old(tasks)[t.id := t]
      ensures users == old(users)
      ensures OthersUnchanged(old(tasks), tasks, ownerId)
    {
      t := NewTaskRow(nextTaskId, ownerId, task.title, task.description, Some(task.deadline), Some(task.completed), now);
      tasks := tasks[nextTaskId := t];
      nextTaskId := nextTaskId + 1;
    }

    /** `list_tasks`: every task of `owner`, each once, ordered by deadline. */
    method ListTasks(owner: nat) returns (r: seq<Task>)
      requires Valid()
      ensures multiset(r) == multiset(OwnedBy(owner))
      ensures forall i :: 0 <= i < |r| ==> r[i].ownerId == owner && r[i].id in tasks && tasks[r[i].id] == r[i]
      ensures forall id :: id in tasks && tasks[id].ownerId == owner ==> tasks[id] in r
      ensures forall i, j :: 0 <= i < j < |r| ==> r[i].id != r[j].id
      ensures SortedByDeadline(r)
    {
      var pending := tasks.Keys;
      r := [];
      while pending != {}
        invariant pending <= tasks.Keys
        invariant SortedByDeadline(r)
        invariant multiset(r) == multiset(Owned(tasks, tasks.Keys - pending, owner))
        decreases pending
      {
        var id :| id in pending;
        OwnedStep(tasks, tasks.Keys - pending, id, owner);
        assert tasks.Keys - (pending - {id}) == (tasks.Keys - pending) + {id};
        if tasks[id].ownerId == owner {
          InsertKeepsSorted(r, tasks[id]);
          r := InsertByDeadline(r, tasks[id]);
        }
        pending := pending - {id};
      }
      assert tasks.Keys - pending == tasks.Keys;
      forall i | 0 <= i < |r|
        ensures r[i].ownerId == owner && r[i].id in tasks && tasks[r[i].id] == r[i]
      {
        assert r[i] in multiset(r);
        assert r[i] in OwnedBy(owner);
      }
      forall id | id in tasks && tasks[id].ownerId == owner
        ensures tasks[id] in r
      {
        assert tasks[id] in OwnedBy(owner);
        assert tasks[id] in multiset(r);
      }
      DistinctFromSet(r, OwnedBy(owner));
    }

    /** `get_task`: the task with that id, only when it belongs to `owner`. */
    method GetTask(taskId: nat, owner: nat) returns (r: Option<Task>)
      requires Valid()
      ensures r.Some? <==> taskId in tasks && tasks[taskId].ownerId == owner
      ensures r.Some? ==> r.value == tasks[taskId] && r.value.id == taskId && r.value.ownerId == owner
    {
      if taskId in tasks && tasks[taskId].ownerId == owner {
        r := Some(tasks[taskId]);
      } else {
        r := None;
      }
    }

    /** `update_task`: on a task of `owner`, sets the explicitly set fields one by one;
        otherwise reports failure and changes nothing. */
    method UpdateTask(taskId: nat, owner: nat, updates: TaskUpdate) returns (r: Option<Task>)
      requires Valid()
      modifies this
      ensures Valid() && users == old(users)
      ensures r.Some? <==> old(taskId in tasks && tasks[taskId].ownerId == owner)
      ensures r.None? ==> tasks == old(tasks)
      ensures r.Some? ==> r.value == ApplyUpdate(old(tasks[taskId]), updates)
                          && tasks == old(tasks)[taskId := r.value]
      ensures OthersUnchanged(old(tasks), tasks, owner)
    {
      var found := GetTask(taskId, owner);
      if found.None? {
        return None;
      }
      var task := ApplySetAttrs(found.value, SetFields(updates));
      ApplySetFields(found.value, updates);
      tasks := tasks[taskId := task];
      r := Some(task);
    }

    /** `delete_task`: removes the task when it belongs to `owner` and reports whether it did. */
    method DeleteTask(taskId: nat, owner: nat) returns (ok: bool)
      requires Valid()
      modifies this
      ensures Valid() && users == old(users)
      ensures ok <==> old(taskId in tasks && tasks[taskId].ownerId == owner)
      ensures tasks == if ok then old(tasks) - {taskId} else old(tasks)
      ensures ok ==> |tasks| == |old(tasks)| - 1
      ensures OthersUnchanged(old(tasks), tasks, owner)
    {
      var found := GetTask(taskId, owner);
      if found.None? {
        return false;
      }
      tasks := tasks - {taskId};
      ok := true;
    }

    /** Deleting a user row, with the cascade to its tasks that the `User.tasks`
        relationship declares. No route of the API deletes users. */
    method DeleteUser(userId: nat)
      requires Valid()
      modifies this
      ensures Valid()
      ensures users == old(users) - {userId}
      ensures tasks == CascadeDelete(old(tasks), userId)
    {
      CascadeKeepsConsistent(users, tasks, userId);
      users := users - {userId};
      tasks := CascadeDelete(tasks, userId);
    }
  }
}

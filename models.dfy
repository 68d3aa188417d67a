/** The two database tables of the backend, `users` and `tasks`, as records, and the
    column constraints that the tables enforce, as predicates over the whole table. */
module Models {
  import opened Wrappers

  /** A timestamp; the backend stores `datetime` values, modelled as integers. */
  type Timestamp = int

  /** A row of `users`. `username` and `password` are non-null strings; `password` holds
      the hash, never the plain text (see `Crud.Store.CreateUser`). */
  datatype User = User(id: nat, username: string, password: string)

  /** A row of `tasks`. `title`, `deadline` and `owner_id` are NOT NULL columns, so they
      are plain values; `description` is nullable. */
  datatype Task = Task(
    id: nat,
    title: string,
    description: Option<string>,
    deadline: Timestamp,
    completed: bool,
    ownerId: nat)

  /** The row `models.Task(...)` inserts. An attribute that is `None` (whether left out or
      passed as `None`) is left out of the INSERT, so its column default applies:
      `description` is "", `completed` is false and `deadline` is the current time. The
      clock is the `now` parameter. A new row therefore never has a NULL description. */
  function NewTaskRow(
      id: nat, ownerId: nat, title: string,
      description: Option<string>, deadline: Option<Timestamp>, completed: Option<bool>,
      now: Timestamp): (t: Task)
    ensures t.id == id && t.ownerId == ownerId && t.title == title
    ensures t.description.Some?
    ensures description.Some? ==> t.description == description
    ensures description.None? ==> t.description == Some("")
    ensures deadline.Some? ==> t.deadline == deadline.value
    ensures deadline.None? ==> t.deadline == now
    ensures t.completed <==> completed == Some(true)
  {
    Task(id, title, Some(description.GetOr("")), deadline.GetOr(now), completed.GetOr(false), ownerId)
  }

  /** Every row is stored under its own primary key. */
  ghost predicate UsersKeyed(users: map<nat, User>) {
    forall id :: id in users ==> users[id].id == id
  }

  ghost predicate TasksKeyed(tasks: map<nat, Task>) {
    forall id :: id in tasks ==> tasks[id].id == id
  }

  /** The UNIQUE constraint on `username`. */
  ghost predicate UniqueUsernames(users: map<nat, User>) {
    forall a, b :: a in users && b in users && users[a].username == users[b].username ==> a == b
  }

  /** The foreign key `tasks.owner_id -> users.id`. */
  ghost predicate TasksOwned(users: map<nat, User>, tasks: map<nat, Task>) {
    forall id :: id in tasks ==> tasks[id].ownerId in users
  }

  /** All constraints of both tables together. */
  ghost predicate Consistent(users: map<nat, User>, tasks: map<nat, Task>) {
    UsersKeyed(users) && TasksKeyed(tasks) && UniqueUsernames(users) && TasksOwned(users, tasks)
  }

  /** The cascade on `User.tasks`: deleting a user deletes every task it owns. */
  function CascadeDelete(tasks: map<nat, Task>, userId: nat): (r: map<nat, Task>)
    ensures forall id :: id in r <==> id in tasks && tasks[id].ownerId != userId
    ensures forall id :: id in r ==> r[id] == tasks[id]
  {
    map id | id in tasks && tasks[id].ownerId != userId :: tasks[id]
  }

  /** Deleting a user together with its tasks keeps both tables consistent. */
  lemma CascadeKeepsConsistent(users: map<nat, User>, tasks: map<nat, Task>, userId: nat)
    requires Consistent(users, tasks)
    ensures Consistent(users - {userId}, CascadeDelete(tasks, userId))
  {
    var t' := CascadeDelete(tasks, userId);
    forall id | id in t'
      ensures t'[id].ownerId in users - {userId}
    {
      assert t'[id] == tasks[id];
    }
  }
}

/** The request and response shapes of the API, with their field defaults, and the
    validation that turns a JSON body into a `TaskCreate`. */
module Schemas {
  import opened Wrappers
  import Models

  /** How a field appears in a JSON request body. */
  datatype Field<+T> = Absent | Null | Given(value: T)

  datatype UserCreate = UserCreate(username: string, password: string)
  datatype UserLogin = UserLogin(username: string, password: string)

  /** What the API returns for a user: the id and the username, and nothing else. */
  datatype UserOut = UserOut(id: nat, username: string)

  const BearerType := "bearer"

  /** The login answer; `token_type` defaults to "bearer". */
  datatype Token = Token(accessToken: string, tokenType: string := BearerType)

  /** `TaskBase`, and `TaskCreate`, which adds nothing to it. */
  datatype TaskBase = TaskBase(
    title: string,
    description: Option<string>,
    deadline: Models.Timestamp,
    completed: bool)

  type TaskCreate = TaskBase

  /** `TaskUpdate`: every field is optional; `None` is a field the request did not set.
      `description` is nullable, so it may be set to `None`. */
  datatype TaskUpdate = TaskUpdate(
    title: Option<string>,
    description: Option<Option<string>>,
    deadline: Option<Models.Timestamp>,
    completed: Option<bool>)

  /** The default `TaskUpdate`: nothing set. */
  const NoUpdate := TaskUpdate(None, None, None, None)

  /** `TaskOut`: a `TaskBase` and the task's id. */
  datatype TaskOut = TaskOut(id: nat, task: TaskBase)

  datatype ValidationError = Missing(field: string) | NotNullable(field: string)

  /** Validates a `TaskCreate` body. `title` and `deadline` have no default and are
      required; `description` defaults to "" and accepts null; `completed` defaults to false. */
  function ParseTaskCreate(
      title: Field<string>, description: Field<string>,
      deadline: Field<Models.Timestamp>, completed: Field<bool>): (r: Result<TaskCreate, ValidationError>)
    ensures r.Ok? <==> title.Given? && deadline.Given? && !completed.Null?
    ensures title.Absent? ==> r == Err(Missing("title"))
    ensures r.Ok? ==> r.value.title == title.value && r.value.deadline == deadline.value
    ensures r.Ok? ==> r.value.description == match description
                                             case Absent => Some("")
                                             case Null => None
                                             case Given(d) => Some(d)
    ensures r.Ok? ==> r.value.completed == (completed.Given? && completed.value)
  {
    match (title, deadline, completed)
    case (Absent, _, _) => Err(Missing("title"))
    case (Null, _, _) => Err(NotNullable("title"))
    case (_, Absent, _) => Err(Missing("deadline"))
    case (_, Null, _) => Err(NotNullable("deadline"))
    case (_, _, Null) => Err(NotNullable("completed"))
    case (Given(t), Given(d), c) =>
      var desc := match description
        case Absent => Some("")
        case Null => None
        case Given(s) => Some(s);
      Ok(TaskBase(t, desc, d, c == Given(true)))
  }

  /** A body that leaves out the optional fields gets the defaults. */
  lemma CreateDefaults(title: string, deadline: Models.Timestamp)
    ensures ParseTaskCreate(Given(title), Absent, Given(deadline), Absent)
            == Ok(TaskBase(title, Some(""), deadline, false))
  {
  }

  /** The response shape of a user row: the password column is not part of it. */
  function ToUserOut(u: Models.User): (r: UserOut)
    ensures r.id == u.id && r.username == u.username
  {
    UserOut(u.id, u.username)
  }

  /** The response shape of a task row: every `TaskBase` field and the id; `owner_id` is dropped. */
  function ToTaskOut(t: Models.Task): (r: TaskOut)
    ensures r.id == t.id
    ensures r.task == TaskBase(t.title, t.description, t.deadline, t.completed)
  {
    TaskOut(t.id, TaskBase(t.title, t.description, t.deadline, t.completed))
  }

  /** A `List[TaskOut]` response: each row in its response shape, in the same order. */
  function ToTaskOuts(rows: seq<Models.Task>): (outs: seq<TaskOut>)
    ensures |outs| == |rows|
    ensures forall i :: 0 <= i < |rows| ==> outs[i] == ToTaskOut(rows[i])
  {
    seq(|rows|, i requires 0 <= i < |rows| => ToTaskOut(rows[i]))
  }

  /** The user's answer does not depend on the stored password: it cannot leak it. */
  lemma UserOutHidesPassword(u: Models.User, other: string)
    ensures ToUserOut(u.(password := other)) == ToUserOut(u)
  {
  }

  /** The task's answer does not depend on its owner. */
  lemma TaskOutHidesOwner(t: Models.Task, other: nat)
    ensures ToTaskOut(t.(ownerId := other)) == ToTaskOut(t)
  {
  }
}

/** The dashboard page of the client: the task list it mirrors from the server, the
    overdue check and the filter projection it renders, and the handlers that call the
    API and update the list. The server's replies and the user's confirmation answer are
    inputs of the handlers; each handler returns the request it sends, if any. */
module Dashboard {
  import opened Wrappers

  // ---------------------------------------------------------------------------
  // Tasks as the client holds them

  /** A deadline in a task object: `Missing` is undefined or the empty string, `Null` is
      null, `At(time)` a point in time. Only `At` is truthy. */
  datatype Deadline = Missing | Null | At(time: int)

  datatype Task = Task(id: int, title: string, description: Option<string>, deadline: Deadline, completed: bool)

  /** `isOverdue`: not completed, a deadline present, and the deadline strictly before `now`. */
  function IsOverdue(deadline: Deadline, completed: bool, now: int): (overdue: bool) {
    if !deadline.At? || completed then false else deadline.time < now
  }

  lemma OverdueMeaning(deadline: Deadline, completed: bool, now: int)
    ensures completed ==> !IsOverdue(deadline, completed, now)
    ensures !deadline.At? ==> !IsOverdue(deadline, completed, now)
    ensures deadline.At? && !completed ==> (IsOverdue(deadline, completed, now) <==> deadline.time < now)
  {
  }

  /** `formatDeadline`; the locale formatting of a present deadline is the `format` parameter. */
  function FormatDeadline(deadline: Deadline, format: int -> string): (text: string)
    ensures !deadline.At? ==> text == "No deadline"
    ensures deadline.At? ==> text == format(deadline.time)
  {
    if deadline.At? then format(deadline.time) else "No deadline"
  }

  // ---------------------------------------------------------------------------
  // Array.prototype.filter and the filter projection

  /** `a` is `b` with some elements left out, the rest in their original order. */
  predicate IsSubsequence(a: seq<Task>, b: seq<Task>)
    decreases |b|
  {
    if b == [] then a == []
    else (a != [] && a[0] == b[0] && IsSubsequence(a[1..], b[1..])) || IsSubsequence(a, b[1..])
  }

  /** `s.filter(keep)`: the elements that `keep` accepts, every occurrence, in order. */
  function Select(s: seq<Task>, keep: Task -> bool): (r: seq<Task>)
    ensures IsSubsequence(r, s)
    ensures forall t :: multiset(r)[t] == if keep(t) then multiset(s)[t] else 0
  {
    if s == [] then []
    else
      assert s == [s[0]] + s[1..];
      if keep(s[0]) then [s[0]] + Select(s[1..], keep) else Select(s[1..], keep)
  }

  /** The test the `filteredTasks` projection applies to each task under `filter`. */
  predicate Shows(filter: string, t: Task, now: int) {
    if filter == "completed" then t.completed
    else if filter == "pending" then !t.completed && !IsOverdue(t.deadline, t.completed, now)
    else if filter == "overdue" then IsOverdue(t.deadline, t.completed, now)
    else true
  }

  /** `filteredTasks`. */
  function Filtered(tasks: seq<Task>, filter: string, now: int): (r: seq<Task>)
    ensures IsSubsequence(r, tasks)
  {
    Select(tasks, (t: Task) => Shows(filter, t, now))
  }

  /** Every task passes exactly one of the "completed", "pending" and "overdue" filters. */
  lemma ExactlyOneFilter(t: Task, now: int)
    ensures (if Shows("completed", t, now) then 1 else 0)
            + (if Shows("pending", t, now) then 1 else 0)
            + (if Shows("overdue", t, now) then 1 else 0) == 1
  {
  }

  /** The "completed", "pending" and "overdue" views together hold every task exactly once. */
  lemma {:induction false} FiltersPartition(tasks: seq<Task>, now: int)
    ensures multiset(Filtered(tasks, "completed", now)) + multiset(Filtered(tasks, "pending", now))
            + multiset(Filtered(tasks, "overdue", now)) == multiset(tasks)
  {
    forall t
      ensures (multiset(Filtered(tasks, "completed", now)) + multiset(Filtered(tasks, "pending", now))
               + multiset(Filtered(tasks, "overdue", now)))[t] == multiset(tasks)[t]
    {
      ExactlyOneFilter(t, now);
    }
  }

  /** Any filter value other than the three named ones shows the whole list. */
  lemma {:induction false} OtherFilterShowsAll(tasks: seq<Task>, filter: string, now: int)
    requires filter != "completed" && filter != "pending" && filter != "overdue"
    ensures Filtered(tasks, filter, now) == tasks
  {
    if tasks != [] {
      OtherFilterShowsAll(tasks[1..], filter, now);
      assert tasks == [tasks[0]] + tasks[1..];
    }
  }

  // ---------------------------------------------------------------------------
  // List updates

  /** `tasks.find(t => t.id === id)`: the index of the first task with that id. */
  function FindById(s: seq<Task>, id: int): (k: Option<nat>)
    ensures k.Some? ==> k.value < |s| && s[k.value].id == id && forall j :: 0 <= j < k.value ==> s[j].id != id
    ensures k.None? ==> forall j :: 0 <= j < |s| ==> s[j].id != id
  {
    if s == [] then None
    else if s[0].id == id then Some(0)
    else
      var k := FindById(s[1..], id);
      if k.Some? then Some(k.value + 1) else None
  }

  /** `tasks.map(t => t.id === id ? x : t)`. */
  function ReplaceById(s: seq<Task>, id: int, x: Task): (r: seq<Task>)
    ensures |r| == |s|
    ensures forall i :: 0 <= i < |s| ==> r[i] == if s[i].id == id then x else s[i]
  {
    if s == [] then [] else [if s[0].id == id then x else s[0]] + ReplaceById(s[1..], id, x)
  }

  /** `tasks.filter(t => t.id !== id)`. */
  function RemoveById(s: seq<Task>, id: int): (r: seq<Task>)
    ensures IsSubsequence(r, s)
    ensures forall t :: multiset(r)[t] == if t.id == id then 0 else multiset(s)[t]
  {
    Select(s, (t: Task) => t.id != id)
  }

  // ---------------------------------------------------------------------------
  // JavaScript String.prototype.trim

  /** The WhiteSpace and LineTerminator characters of ECMAScript, which `trim` removes. */
  predicate IsJsSpace(c: char) {
    || '\t' <= c <= '\r'
    || c == ' ' || c == '\U{00A0}' || c == '\U{1680}'
    || '\U{2000}' <= c <= '\U{200A}'
    || c == '\U{2028}' || c == '\U{2029}' || c == '\U{202F}' || c == '\U{205F}' || c == '\U{3000}' || c == '\U{FEFF}'
  }

  predicate Blank(s: string) {
    forall i :: 0 <= i < |s| ==> IsJsSpace(s[i])
  }

  /** The index of the first non-whitespace character of `s` at or after `i`, or `|s|`. */
  function SkipStart(s: string, i: nat): (j: nat)
    requires i <= |s|
    ensures i <= j <= |s|
    ensures forall k :: i <= k < j ==> IsJsSpace(s[k])
    ensures j < |s| ==> !IsJsSpace(s[j])
    decreases |s| - i
  {
    if i < |s| && IsJsSpace(s[i]) then SkipStart(s, i + 1) else i
  }

  /** The index just past the last non-whitespace character of `s` before `j`, or 0. */
  function SkipEnd(s: string, j: nat): (i: nat)
    requires j <= |s|
    ensures i <= j
    ensures forall k :: i <= k < j ==> IsJsSpace(s[k])
    ensures 0 < i ==> !IsJsSpace(s[i - 1])
  {
    if 0 < j && IsJsSpace(s[j - 1]) then SkipEnd(s, j - 1) else j
  }

  /** Drops the leading whitespace: what is dropped is all whitespace, and what is kept
      does not start with whitespace. */
  function TrimStart(s: string): (r: string)
    ensures |r| <= |s| && r == s[|s| - |r|..]
    ensures Blank(s[..|s| - |r|])
    ensures r == [] || !IsJsSpace(r[0])
  {
    s[SkipStart(s, 0)..]
  }

  /** Drops the trailing whitespace, in the same sense. */
  function TrimEnd(s: string): (r: string)
    ensures |r| <= |s| && r == s[..|r|]
    ensures Blank(s[|r|..])
    ensures r == [] || !IsJsSpace(r[|r| - 1])
  {
    s[..SkipEnd(s, |s|)]
  }

  /** `String.prototype.trim`: the part of `s` between a blank prefix and a blank suffix,
      starting and ending with a non-whitespace character. */
  function Trim(s: string): (r: string)
    ensures exists a :: 0 <= a <= |s| - |r| && r == s[a..a + |r|] && Blank(s[..a]) && Blank(s[a + |r|..])
    ensures r == [] || (!IsJsSpace(r[0]) && !IsJsSpace(r[|r| - 1]))
  {
    var m := TrimStart(s);
    var r := TrimEnd(m);
    TrimSlice(s, m, r);
    r
  }

  /** Trimming both ends keeps a slice of `s` between a blank prefix and a blank suffix. */
  lemma TrimSlice(s: string, m: string, r: string)
    requires |m| <= |s| && m == s[|s| - |m|..] && Blank(s[..|s| - |m|])
    requires |r| <= |m| && r == m[..|r|] && Blank(m[|r|..])
    ensures exists a :: 0 <= a <= |s| - |r| && r == s[a..a + |r|] && Blank(s[..a]) && Blank(s[a + |r|..])
  {
    var a := |s| - |m|;
    assert r == s[a..a + |r|];
    assert s[a + |r|..] == m[|r|..];
  }

  lemma TrimStartEmpty(s: string)
    ensures TrimStart(s) == [] <==> Blank(s)
  {
  }

  lemma TrimEndEmpty(s: string)
    ensures TrimEnd(s) == [] <==> Blank(s)
  {
  }

  /** `title.trim()` is empty exactly when the title consists of whitespace only. */
  lemma TrimEmptyIffBlank(s: string)
    ensures Trim(s) == [] <==> Blank(s)
  {
    TrimStartEmpty(s);
    TrimEndEmpty(TrimStart(s));
  }

  // ---------------------------------------------------------------------------
  // Requests and replies

  /** The add-task form. */
  datatype Form = Form(title: string, description: string, deadline: string)

  const EmptyForm := Form("", "", "")

  datatype Call =
    | GetTasks
    | PutCompleted(id: int, completed: bool)
    | PutField(id: int, field: string, value: string)
    | DeleteTask(id: int)
    | PostTask(form: Form)

  datatype Request = Request(authorization: string, call: Call)

  /** What an awaited API call produced: the response data, or a failure carrying the
      `detail` field of the error response when there is one. */
  datatype Reply<T> = Success(data: T) | Failure(detail: Option<string>)

  /** The header value `Bearer ${token}`; a null token is rendered as "null". */
  function AuthHeader(token: Option<string>): (h: string)
    ensures token.Some? ==> h == "Bearer " + token.value
    ensures token.None? ==> h == "Bearer null"
  {
    "Bearer " + if token.Some? then token.value else "null"
  }

  /** `err.response?.data?.detail || "Failed to fetch tasks"`. */
  function FetchError(detail: Option<string>): (message: string)
    ensures message != ""
    ensures detail.Some? && detail.value != "" ==> message == detail.value
    ensures !(detail.Some? && detail.value != "") ==> message == "Failed to fetch tasks"
  {
    if detail.Some? && detail.value != "" then detail.value else "Failed to fetch tasks"
  }

  // ---------------------------------------------------------------------------
  // The component state

  class DashboardState {
    /** The token from the authentication context. */
    var token: Option<string>
    var tasks: seq<Task>
    var loading: bool
    var error: string
    var newTask: Form
    var filter: string

    constructor (token: Option<string>)
      ensures this.token == token && tasks == [] && !loading && error == ""
      ensures newTask == EmptyForm && filter == "all"
    {
      this.token := token;
      tasks, loading, error := [], false, "";
      newTask, filter := EmptyForm, "all";
    }

    /** The tasks the page lists at time `now`. */
    function Visible(now: int): (r: seq<Task>)
      reads this
      ensures IsSubsequence(r, tasks)
    {
      Filtered(tasks, filter, now)
    }

    /** `fetchTasks` up to its `await`: the page shows the loading state and no error. */
    method StartFetch() returns (sent: Request)
      modifies this`loading, this`error
      ensures loading && error == ""
      ensures sent == Request(AuthHeader(token), GetTasks)
    {
      loading := true;
      error := "";
      sent := Request(AuthHeader(token), GetTasks);
    }

    /** `fetchTasks` after its `await`: the list is replaced, or the error is shown; loading ends either way. */
    method FinishFetch(reply: Reply<seq<Task>>)
      modifies this`tasks, this`loading, this`error
      ensures !loading
      ensures reply.Success? ==> tasks == reply.data && error == old(error)
      ensures reply.Failure? ==> tasks == old(tasks) && error == FetchError(reply.detail)
    {
      if reply.Success? {
        tasks := reply.data;
      } else {
        error := FetchError(reply.detail);
      }
      loading := false;
    }

    /** `fetchTasks` as a whole. */
    method FetchTasks(reply: Reply<seq<Task>>) returns (sent: Request)
      modifies this`tasks, this`loading, this`error
      ensures sent == Request(AuthHeader(token), GetTasks)
      ensures !loading
      ensures reply.Success? ==> tasks == reply.data && error == ""
      ensures reply.Failure? ==> tasks == old(tasks) && error == FetchError(reply.detail)
    {
      sent := StartFetch();
      FinishFetch(reply);
    }

    /** `handleToggle`: asks the server to flip `completed` of the task with that id and
        puts the server's version of the task in its place. */
    method HandleToggle(taskId: int, reply: Reply<Task>) returns (sent: Option<Request>)
      modifies this`tasks
      ensures FindById(old(tasks), taskId).None? ==> sent.None? && tasks == old(tasks)
      ensures var k := FindById(old(tasks), taskId);
              k.Some? ==> sent == Some(Request(AuthHeader(token), PutCompleted(taskId, !old(tasks)[k.value].completed)))
      ensures sent.Some? && reply.Success? ==> tasks == ReplaceById(old(tasks), taskId, reply.data)
      ensures sent.Some? && reply.Failure? ==> tasks == old(tasks)
    {
      var k := FindById(tasks, taskId);
      if k.None? {
        return None;
      }
      var task := tasks[k.value];
      sent := Some(Request(AuthHeader(token), PutCompleted(taskId, !task.completed)));
      if reply.Success? {
        tasks := ReplaceById(tasks, taskId, reply.data);
      }
    }

    /** `handleDelete`: when the user confirms, asks the server to delete the task and
        drops every task with that id from the list. */
    method HandleDelete(taskId: int, confirmed: bool, reply: Reply<()>) returns (sent: Option<Request>)
      modifies this`tasks
      ensures !confirmed ==> sent.None? && tasks == old(tasks)
      ensures confirmed ==> sent == Some(Request(AuthHeader(token), DeleteTask(taskId)))
      ensures confirmed && reply.Success? ==> tasks == RemoveById(old(tasks), taskId)
      ensures confirmed && reply.Failure? ==> tasks == old(tasks)
    {
      if !confirmed {
        return None;
      }
      sent := Some(Request(AuthHeader(token), DeleteTask(taskId)));
      if reply.Success? {
        tasks := RemoveById(tasks, taskId);
      }
    }

    /** `handleInlineEdit`: sends a one-field update and puts the server's version of the
        task in place of every task with that id. */
    method HandleInlineEdit(taskId: int, field: string, value: string, reply: Reply<Task>) returns (sent: Request)
      modifies this`tasks
      ensures sent == Request(AuthHeader(token), PutField(taskId, field, value))
      ensures reply.Success? ==> tasks == ReplaceById(old(tasks), taskId, reply.data)
      ensures reply.Failure? ==> tasks == old(tasks)
    {
      sent := Request(AuthHeader(token), PutField(taskId, field, value));
      if reply.Success? {
        tasks := ReplaceById(tasks, taskId, reply.data);
      }
    }

    /** `handleAddTask`: a title that is blank after trimming sends nothing; otherwise the
        form is posted, the created task is appended and the form is cleared. */
    method HandleAddTask(reply: Reply<Task>) returns (sent: Option<Request>)
      modifies this`tasks, this`newTask
      ensures Blank(old(newTask.title)) ==> sent.None? && tasks == old(tasks) && newTask == old(newTask)
      ensures !Blank(old(newTask.title)) ==> sent == Some(Request(AuthHeader(token), PostTask(old(newTask))))
      ensures sent.Some? && reply.Success? ==> tasks == old(tasks) + [reply.data] && newTask == EmptyForm
      ensures sent.Some? && reply.Failure? ==> tasks == old(tasks) && newTask == old(newTask)
    {
      TrimEmptyIffBlank(newTask.title);
      if Trim(newTask.title) == "" {
        return None;
      }
      sent := Some(Request(AuthHeader(token), PostTask(newTask)));
      if reply.Success? {
        tasks := tasks + [reply.data];
        newTask := EmptyForm;
      }
    }
  }
}

/** The HTTP layer of the backend: the bearer-token gate and the outcome of every route.
    Token decoding, password hashing and checking, and token issuing are foreign calls
    and arrive as function parameters. */
module Api {
  import opened Wrappers
  import opened Models
  import opened Schemas
  import opened Crud

  /** A failed request: an `HTTPException` with its status and detail, or an exception
      the route does not catch, which the server answers with status 500. */
  datatype ApiError = HttpError(status: nat, detail: string) | InternalError

  const UsernameTakenError := HttpError(400, "Username already taken")
  const InvalidCredentials := HttpError(401, "Invalid credentials")
  const MissingToken := HttpError(401, "Missing token")
  const InvalidToken := HttpError(401, "Invalid token")
  const UserNotFound := HttpError(404, "User not found")
  const TaskNotFound := HttpError(404, "Task not found")

  /** The body of a successful delete, `{"status": "deleted"}`. */
  datatype DeleteStatus = DeleteStatus(status: string)

  // ---------------------------------------------------------------------------
  // Python string operations used by the gate

  /** `str.lower()` on one character; only the ASCII letters are mapped. */
  function LowerChar(c: char): (d: char)
    ensures 'A' <= c <= 'Z' ==> 'a' <= d <= 'z' && d as int - c as int == 32
    ensures !('A' <= c <= 'Z') ==> d == c
  {
    if 'A' <= c <= 'Z' then (c as int + 32) as char else c
  }

  function Lower(s: string): (r: string)
    ensures |r| == |s| && forall i :: 0 <= i < |s| ==> r[i] == LowerChar(s[i])
  {
    if s == [] then [] else [LowerChar(s[0])] + Lower(s[1..])
  }

  /** Lower-casing works character by character, so it commutes with taking a prefix. */
  lemma LowerPrefix(s: string, n: nat)
    requires n <= |s|
    ensures Lower(s)[..n] == Lower(s[..n])
  {
  }

  predicate StartsWith(s: string, prefix: string) {
    |prefix| <= |s| && s[..|prefix|] == prefix
  }

  /** The characters `str.split()` with no argument splits on: tab to carriage return,
      the four information separators and space, next line, no-break space, and the
      Unicode space separators and line and paragraph separators. */
  predicate IsSpace(c: char) {
    || '\t' <= c <= '\r'
    || '\U{001C}' <= c <= ' '
    || c == '\U{0085}' || c == '\U{00A0}' || c == '\U{1680}'
    || '\U{2000}' <= c <= '\U{200A}'
    || c == '\U{2028}' || c == '\U{2029}' || c == '\U{202F}' || c == '\U{205F}' || c == '\U{3000}'
  }

  predicate SpaceFree(w: string) {
    forall i :: 0 <= i < |w| ==> !IsSpace(w[i])
  }

  /** The length of the run of non-space characters that `s` starts with. */
  function WordEnd(s: string): (n: nat)
    ensures n <= |s| && SpaceFree(s[..n])
    ensures n < |s| ==> IsSpace(s[n])
  {
    if s == [] || IsSpace(s[0]) then 0 else 1 + WordEnd(s[1..])
  }

  /** `s.split()`: the maximal runs of non-space characters, in order. */
  function Words(s: string): (ws: seq<string>)
    ensures forall k :: 0 <= k < |ws| ==> ws[k] != [] && SpaceFree(ws[k])
    ensures ws == [] <==> forall i :: 0 <= i < |s| ==> IsSpace(s[i])
    decreases |s|
  {
    if s == [] then []
    else if IsSpace(s[0]) then Words(s[1..])
    else
      var n := WordEnd(s);
      [s[..n]] + Words(s[n..])
  }

  lemma {:induction false} WordEndOfWord(w: string, rest: string)
    requires SpaceFree(w)
    requires rest == [] || IsSpace(rest[0])
    ensures WordEnd(w + rest) == |w|
  {
    if w != [] {
      assert (w + rest)[1..] == w[1..] + rest;
      WordEndOfWord(w[1..], rest);
    } else {
      assert w + rest == rest;
    }
  }

  /** A non-empty string without spaces splits into itself. */
  lemma WordsOfWord(w: string)
    requires w != [] && SpaceFree(w)
    ensures Words(w) == [w]
  {
    WordEndOfWord(w, []);
    assert w + [] == w;
    assert w[|w|..] == [];
  }

  /** A word followed by a whitespace character and the rest splits into that word and the
      words of the rest. With `WordsOfWord` and `WordsSkipSpace` this determines `Words` on
      every string: each string is empty, a word, starts with whitespace, or is a word, a
      whitespace character and a rest. */
  lemma WordsAfterWord(w: string, sep: char, rest: string)
    requires w != [] && SpaceFree(w) && IsSpace(sep)
    ensures Words(w + [sep] + rest) == [w] + Words(rest)
  {
    var s := w + [sep] + rest;
    WordEndOfWord(w, [sep] + rest);
    assert s == w + ([sep] + rest);
    assert s[..|w|] == w;
    assert s[|w|..] == [sep] + rest;
    assert ([sep] + rest)[1..] == rest;
  }

  /** Leading whitespace produces no word. */
  lemma WordsSkipSpace(c: char, s: string)
    requires IsSpace(c)
    ensures Words([c] + s) == Words(s)
  {
    assert ([c] + s)[1..] == s;
  }

  /** The characters of `s` that are not whitespace, in order. */
  function NonSpace(s: string): (r: string)
    ensures SpaceFree(r) && |r| <= |s|
  {
    if s == [] then [] else (if IsSpace(s[0]) then [] else [s[0]]) + NonSpace(s[1..])
  }

  function Concat(ws: seq<string>): string {
    if ws == [] then [] else ws[0] + Concat(ws[1..])
  }

  lemma {:induction false} NonSpaceAppend(a: string, b: string)
    ensures NonSpace(a + b) == NonSpace(a) + NonSpace(b)
  {
    if a != [] {
      assert (a + b)[1..] == a[1..] + b;
      NonSpaceAppend(a[1..], b);
    } else {
      assert a + b == b;
    }
  }

  lemma {:induction false} NonSpaceOfWord(w: string)
    requires SpaceFree(w)
    ensures NonSpace(w) == w
  {
    if w != [] {
      NonSpaceOfWord(w[1..]);
    }
  }

  /** The words of `s`, put back together, are exactly its non-whitespace characters, in order. */
  lemma {:induction false} WordsKeepNonSpace(s: string)
    ensures Concat(Words(s)) == NonSpace(s)
    decreases |s|
  {
    if s != [] {
      if IsSpace(s[0]) {
        WordsKeepNonSpace(s[1..]);
      } else {
        var n := WordEnd(s);
        assert s == s[..n] + s[n..];
        NonSpaceAppend(s[..n], s[n..]);
        NonSpaceOfWord(s[..n]);
        WordsKeepNonSpace(s[n..]);
        assert Words(s)[1..] == Words(s[n..]);
      }
    }
  }

  // ---------------------------------------------------------------------------
  // The gate

  /** `authorization` is present and non-empty, and its lower-case form starts with "bearer ". */
  predicate HasBearerPrefix(authorization: Option<string>) {
    authorization.Some? && authorization.value != ""
    && StartsWith(Lower(authorization.value), "bearer ")
  }

  /** `get_current_username`: the username encoded in the bearer token of the header. */
  function GetCurrentUsername(authorization: Option<string>, decode: string -> Option<string>): (r: Result<string, ApiError>)
    ensures r == Err(MissingToken) <==> !HasBearerPrefix(authorization)
    ensures r == Err(InternalError) <==> HasBearerPrefix(authorization) && |Words(authorization.value)| < 2
    ensures r == Err(InvalidToken) <==>
              HasBearerPrefix(authorization) && |Words(authorization.value)| >= 2
              && decode(Words(authorization.value)[1]) in {None, Some("")}
    ensures r.Ok? <==>
              HasBearerPrefix(authorization) && |Words(authorization.value)| >= 2
              && decode(Words(authorization.value)[1]) !in {None, Some("")}
    ensures r.Ok? ==> r.value != "" && decode(Words(authorization.value)[1]) == Some(r.value)
  {
    if authorization.None? || authorization.value == ""
       || !StartsWith(Lower(authorization.value), "bearer ") then
      Err(MissingToken)
    else
      var words := Words(authorization.value);
      if |words| < 2 then
        Err(InternalError)  // `split()[1]` raises IndexError
      else
        var username := decode(words[1]);
        if username.None? || username.value == "" then Err(InvalidToken) else Ok(username.value)
  }

  /** Any header that starts with "Bearer " passes the prefix check. */
  lemma BearerPrefix(rest: string)
    ensures HasBearerPrefix(Some("Bearer " + rest))
  {
    var h := "Bearer " + rest;
    assert h[..7] == "Bearer ";
    LowerPrefix(h, 7);
    assert Lower("Bearer ") == "bearer ";
  }

  /** "Bearer " followed by something splits into "Bearer" and the words of the rest. */
  lemma BearerWords(rest: string)
    ensures Words("Bearer " + rest) == ["Bearer"] + Words(rest)
  {
    assert SpaceFree("Bearer");
    assert "Bearer " + rest == "Bearer" + [' '] + rest;
    WordsAfterWord("Bearer", ' ', rest);
  }

  /** The header the client builds, "Bearer " followed by a token without spaces, passes
      the gate, and the gate decodes exactly that token. */
  lemma BearerRoundTrip(token: string, decode: string -> Option<string>)
    requires token != [] && SpaceFree(token)
    ensures HasBearerPrefix(Some("Bearer " + token))
    ensures Words("Bearer " + token) == ["Bearer", token]
    ensures GetCurrentUsername(Some("Bearer " + token), decode)
            == if decode(token).Some? && decode(token).value != "" then Ok(decode(token).value)
               else Err(InvalidToken)
  {
    BearerPrefix(token);
    BearerWords(token);
    WordsOfWord(token);
  }

  /** The header value "Bearer ", as `get_current_username` receives it, passes the prefix
      check but holds a single word, so taking the second word fails and the request ends
      in a server error instead of a 401. (An HTTP server strips trailing spaces and tabs
      from a field value, section 3.2 of RFC 7230, so on the wire this value needs other
      trailing whitespace; see `NoBreakSpaceIsServerError`.) */
  lemma BareBearerIsServerError(decode: string -> Option<string>)
    ensures GetCurrentUsername(Some("Bearer "), decode) == Err(InternalError)
  {
    BearerPrefix("");
    BearerWords("");
    assert "Bearer " + "" == "Bearer ";
  }

  /** "Bearer " followed by a no-break space survives HTTP whitespace trimming, which
      removes only spaces and tabs, and `split()` treats U+00A0 as whitespace: the header
      has a single word and ends in a server error. */
  lemma NoBreakSpaceIsServerError(decode: string -> Option<string>)
    ensures GetCurrentUsername(Some("Bearer \U{00A0}"), decode) == Err(InternalError)
  {
    BearerPrefix("\U{00A0}");
    BearerWords("\U{00A0}");
    WordsSkipSpace('\U{00A0}', "");
    assert "Bearer " + "\U{00A0}" == "Bearer \U{00A0}";
    assert ['\U{00A0}'] + "" == "\U{00A0}";
  }

  // ---------------------------------------------------------------------------
  // Routes

  /** `POST /auth/register`. */
  method Register(db: Store, user: UserCreate, hash: string -> string) returns (r: Result<UserOut, ApiError>)
    requires db.Valid()
    modifies db
    ensures db.Valid() && db.tasks == old(db.tasks)
    ensures old(db.UsernameTaken(user.username)) ==> r == Err(UsernameTakenError) && db.users == old(db.users)
    ensures !old(db.UsernameTaken(user.username)) ==>
              && r.Ok? && r.value.username == user.username && r.value.id !in old(db.users)
              && db.users == old(db.users)[r.value.id := User(r.value.id, user.username, hash(user.password))]
    ensures db.UsernameTaken(user.username)
  {
    var existing := db.GetUserByUsername(user.username);
    if existing.Some? {
      return Err(UsernameTakenError);
    }
    var u := db.CreateUser(user, hash);
    assert db.users[u.id].username == user.username;
    r := Ok(ToUserOut(u));
  }

  /** `POST /auth/login`. */
  method Login(db: Store, user: UserLogin, verify: (string, string) -> bool, issue: string -> string)
    returns (r: Result<Token, ApiError>)
    requires db.Valid()
    ensures r.Ok? <==> exists id :: id in db.users && db.users[id].username == user.username
                                    && verify(user.password, db.users[id].password)
    ensures r.Ok? ==> r.value == Token(issue(user.username)) && r.value.tokenType == "bearer"
    ensures r.Err? ==> r.error == InvalidCredentials
  {
    var found := db.GetUserByUsername(user.username);
    if found.None? || !verify(user.password, found.value.password) {
      return Err(InvalidCredentials);
    }
    r := Ok(Token(issue(found.value.username)));
  }

  /** `id` is the user named `name`. */
  ghost predicate IsUser(users: map<nat, User>, id: nat, name: string) {
    id in users && users[id].username == name
  }

  /** `POST /tasks`. `now` is the clock reading at the insert. */
  method CreateTask(db: Store, task: TaskCreate, authorization: Option<string>, decode: string -> Option<string>,
                    now: Timestamp)
    returns (r: Result<TaskOut, ApiError>)
    requires db.Valid()
    modifies db
    ensures db.Valid() && db.users == old(db.users)
    ensures var who := GetCurrentUsername(authorization, decode);
            && (who.Err? ==> r == Err(who.error) && db.tasks == old(db.tasks))
            && (who.Ok? && !db.UsernameTaken(who.value) ==> r == Err(UserNotFound) && db.tasks == old(db.tasks))
            && (who.Ok? && db.UsernameTaken(who.value) ==>
                  && r.Ok? && r.value.task == task.(description := Some(task.description.GetOr("")))
                  && r.value.id !in old(db.tasks) && r.value.id in db.tasks
                  && db.tasks == old(db.tasks)[r.value.id := db.tasks[r.value.id]]
                  && ToTaskOut(db.tasks[r.value.id]) == r.value
                  && IsUser(db.users, db.tasks[r.value.id].ownerId, who.value))
  {
    var who := GetCurrentUsername(authorization, decode);
    if who.Err? {
      return Err(who.error);
    }
    var user := db.GetUserByUsername(who.value);
    if user.None? {
      return Err(UserNotFound);
    }
    var t := db.CreateTask(task, user.value.id, now);
    r := Ok(ToTaskOut(t));
  }

  /** `GET /tasks`. */
  method ListMyTasks(db: Store, authorization: Option<string>, decode: string -> Option<string>)
    returns (r: Result<seq<TaskOut>, ApiError>)
    requires db.Valid()
    ensures var who := GetCurrentUsername(authorization, decode);
            && (who.Err? ==> r == Err(who.error))
            && (who.Ok? && !db.UsernameTaken(who.value) ==> r == Err(UserNotFound))
            && (who.Ok? && db.UsernameTaken(who.value) ==> r.Ok?)
    ensures r.Ok? ==> forall uid :: IsUser(db.users, uid, GetCurrentUsername(authorization, decode).value) ==>
              && (forall i :: 0 <= i < |r.value| ==>
                    r.value[i].id in db.tasks && db.tasks[r.value[i].id].ownerId == uid
                    && r.value[i] == ToTaskOut(db.tasks[r.value[i].id]))
              && (forall id :: id in db.tasks && db.tasks[id].ownerId == uid ==>
                    exists i :: 0 <= i < |r.value| && r.value[i].id == id)
              && (forall i, j :: 0 <= i < j < |r.value| ==>
                    r.value[i].id != r.value[j].id && r.value[i].task.deadline <= r.value[j].task.deadline)
  {
    var who := GetCurrentUsername(authorization, decode);
    if who.Err? {
      return Err(who.error);
    }
    var user := db.GetUserByUsername(who.value);
    if user.None? {
      return Err(UserNotFound);
    }
    var rows := db.ListTasks(user.value.id);
    var outs := ToTaskOuts(rows);
    r := Ok(outs);
    forall uid | IsUser(db.users, uid, who.value)
      ensures uid == user.value.id
    {
      assert db.users[uid].username == db.users[user.value.id].username;
    }
    forall i | 0 <= i < |outs|
      ensures outs[i].id == rows[i].id && outs[i].task.deadline == rows[i].deadline
      ensures outs[i] == ToTaskOut(db.tasks[outs[i].id])
    {
    }
    forall id | id in db.tasks && db.tasks[id].ownerId == user.value.id
      ensures exists i :: 0 <= i < |outs| && outs[i].id == id
    {
      var i :| 0 <= i < |rows| && rows[i] == db.tasks[id];
      assert outs[i].id == id;
    }
  }

  /** `PUT /tasks/{task_id}`. */
  method UpdateMyTask(db: Store, taskId: nat, updates: TaskUpdate,
                      authorization: Option<string>, decode: string -> Option<string>)
    returns (r: Result<TaskOut, ApiError>)
    requires db.Valid()
    modifies db
    ensures db.Valid() && db.users == old(db.users)
    ensures var who := GetCurrentUsername(authorization, decode);
            && (who.Err? ==> r == Err(who.error) && db.tasks == old(db.tasks))
            && (who.Ok? && !db.UsernameTaken(who.value) ==> r == Err(UserNotFound) && db.tasks == old(db.tasks))
            && (who.Ok? ==> forall uid :: IsUser(db.users, uid, who.value) ==>
                  if taskId in old(db.tasks) && old(db.tasks)[taskId].ownerId == uid then
                    && db.tasks == old(db.tasks)[taskId := ApplyUpdate(old(db.tasks)[taskId], updates)]
                    && r == Ok(ToTaskOut(db.tasks[taskId]))
                  else
                    r == Err(TaskNotFound) && db.tasks == old(db.tasks))
  {
    var who := GetCurrentUsername(authorization, decode);
    if who.Err? {
      return Err(who.error);
    }
    var user := db.GetUserByUsername(who.value);
    if user.None? {
      return Err(UserNotFound);
    }
    var updated := db.UpdateTask(taskId, user.value.id, updates);
    if updated.None? {
      return Err(TaskNotFound);
    }
    r := Ok(ToTaskOut(updated.value));
  }

  /** `DELETE /tasks/{task_id}`. */
  method DeleteMyTask(db: Store, taskId: nat, authorization: Option<string>, decode: string -> Option<string>)
    returns (r: Result<DeleteStatus, ApiError>)
    requires db.Valid()
    modifies db
    ensures db.Valid() && db.users == old(db.users)
    ensures var who := GetCurrentUsername(authorization, decode);
            && (who.Err? ==> r == Err(who.error) && db.tasks == old(db.tasks))
            && (who.Ok? && !db.UsernameTaken(who.value) ==> r == Err(UserNotFound) && db.tasks == old(db.tasks))
            && (who.Ok? ==> forall uid :: IsUser(db.users, uid, who.value) ==>
                  if taskId in old(db.tasks) && old(db.tasks)[taskId].ownerId == uid then
                    r == Ok(DeleteStatus("deleted")) && db.tasks == old(db.tasks) - {taskId}
                  else
                    r == Err(TaskNotFound) && db.tasks == old(db.tasks))
  {
    var who := GetCurrentUsername(authorization, decode);
    if who.Err? {
      return Err(who.error);
    }
    var user := db.GetUserByUsername(who.value);
    if user.None? {
      return Err(UserNotFound);
    }
    var ok := db.DeleteTask(taskId, user.value.id);
    if !ok {
      return Err(TaskNotFound);
    }
    r := Ok(DeleteStatus("deleted"));
  }

  /** Registering and then logging in with the same password succeeds, for any password
      check that accepts a password against its own hash. */
  method RegisterThenLogin(db: Store, user: UserCreate, hash: string -> string,
                           verify: (string, string) -> bool, issue: string -> string)
    returns (registered: Result<UserOut, ApiError>, token: Result<Token, ApiError>)
    requires db.Valid() && !db.UsernameTaken(user.username)
    requires forall p :: verify(p, hash(p))
    modifies db
    ensures registered.Ok? && token == Ok(Token(issue(user.username)))
  {
    registered := Register(db, user, hash);
    var id := registered.value.id;
    assert db.users[id].password == hash(user.password);
    token := Login(db, UserLogin(user.username, user.password), verify, issue);
  }
}

/** The task routes: create, list, read, update and delete, each scoped to the
    caller the auth gate let through. Errors are returned as the value the
    controller throws; the error handler turns them into the response. */
module TaskController {
  import opened Wrappers
  import opened Text
  import opened Json
  import opened Constants
  import opened ErrorHandler
  import Validators
  import opened Sanitization
  import opened TaskModel
  import opened AuthMiddleware

  const TaskNotFound := AppError(NOT_FOUND, TASK_NOT_FOUND, "Task not found")

  /** The task validator's answer on `body`. */
  function TaskErrors(body: Payload): seq<Validators.ValidationError> {
    Validators.Answer(Validators.TaskForm, body, Validators.FieldCount(Validators.TaskForm))
  }

  /** A value or, when it is falsy, the fallback: JavaScript's `v || d`. */
  function OrElse(v: Value, d: Value): (r: Value)
    ensures Truthy(v) ==> r == v
    ensures !Truthy(v) ==> r == d
  {
    if Truthy(v) then v else d
  }

  // ---------------------------------------------------------------------------
  // createTask

  /** The document `createTask` builds from an accepted body. (`sanitizeString(d) || ''`
      is just `sanitizeString(d)`, which is "" for anything falsy.) */
  function NewTaskDraft(owner: nat, body: Payload): TaskDraft {
    TaskDraft(
      owner,
      SanitizeString(Get(body, "title")),
      SanitizeString(Get(body, "description")),
      OrElse(Get(body, "status"), Str("todo")),
      OrElse(Get(body, "priority"), Str("medium")),
      OrElse(Get(body, "dueDate"), Undefined),
      SanitizeArray(Get(body, "tags")))
  }

  /** `createTask`. */
  method CreateTask(store: TaskStore, caller: Option<Claims>, body: Payload) returns (r: Result<Stored, Raised>)
    requires store.Valid()
    modifies store
    ensures store.Valid()
    ensures caller.None? ==> r == Err(App(NotAuthenticated)) && unchanged(store)
    ensures caller.Some? && TaskErrors(body) != [] ==> r == Err(App(Validators.InvalidInput(TaskErrors(body)))) && unchanged(store)
    ensures caller.Some? && TaskErrors(body) == [] ==>
      var built := BuildTask(NewTaskDraft(caller.value.userId, body), old(store.clock));
      && (built.Some? ==>
            && r == Ok(Stored(old(store.clock), built.value))
            && store.tasks == old(store.tasks)[old(store.clock) := built.value])
      && (built.None? ==> r.Err? && r.error.Unexpected? && store.tasks == old(store.tasks))
    ensures caller.Some? ==> OthersKept(old(store.tasks), store.tasks, caller.value.userId)
  {
    if caller.None? {
      return Err(App(NotAuthenticated));
    }
    var validationErrors := Validators.ValidateTaskInput(body);
    if |validationErrors| > 0 {
      return Err(App(Validators.InvalidInput(validationErrors)));
    }
    var title, description := Get(body, "title"), Get(body, "description");
    var priority, dueDate := Get(body, "priority"), Get(body, "dueDate");
    var tags, status := Get(body, "tags"), Get(body, "status");
    var newTask := TaskDraft(
      caller.value.userId,
      SanitizeString(title),
      SanitizeString(description),
      OrElse(status, Str("todo")),
      OrElse(priority, Str("medium")),
      OrElse(dueDate, Undefined),
      SanitizeArray(tags));
    var saved := store.Save(newTask);
    if saved.None? {
      return Err(Unexpected("Task validation failed"));
    }
    r := Ok(saved.value);
  }

  /** Validation guarantees that the status and priority of the draft cast: to
      the named value when one was given, to the defaults otherwise. */
  lemma AcceptedDraftCasts(owner: nat, body: Payload)
    requires TaskErrors(body) == []
    ensures var d := NewTaskDraft(owner, body);
      var status, priority := Get(body, "status"), Get(body, "priority");
      && CastStatus(d.status).Some? && CastPriority(d.priority).Some?
      && (Truthy(status) ==> status.Str? && StatusName(CastStatus(d.status).value) == status.s)
      && (!Truthy(status) ==> CastStatus(d.status) == Some(Todo))
      && (Truthy(priority) ==> priority.Str? && PriorityName(CastPriority(d.priority).value) == priority.s)
      && (!Truthy(priority) ==> CastPriority(d.priority) == Some(Medium))
  {
    Validators.TaskAcceptance(body);
    assert ParseStatus("todo") == Some(Todo);
    assert ParsePriority("medium") == Some(Medium);
  }

  /** What an accepted body is stored as: owned by the caller; title and
      description sanitised (and trimmed by the schema); status and priority as
      given, or "todo" and "medium" when falsy; dueDate only when truthy; tags
      through sanitizeArray. Only the title can make the schema refuse it. */
  lemma CreatedTaskContents(owner: nat, body: Payload, createdAt: nat)
    requires TaskErrors(body) == []
    ensures var built := BuildTask(NewTaskDraft(owner, body), createdAt);
      var title := Trim(SanitizeString(Get(body, "title")));
      var status, priority, dueDate := Get(body, "status"), Get(body, "priority"), Get(body, "dueDate");
      && (built.Some? <==> 1 <= |title| <= MaxTitleLength)
      && (built.Some? ==>
            && built.value.userId == owner
            && built.value.title == title
            && built.value.description == Trim(SanitizeString(Get(body, "description")))
            && (Truthy(status) ==> status.Str? && StatusName(built.value.status) == status.s)
            && (!Truthy(status) ==> built.value.status == Todo)
            && (Truthy(priority) ==> priority.Str? && PriorityName(built.value.priority) == priority.s)
            && (!Truthy(priority) ==> built.value.priority == Medium)
            && built.value.dueDate == (if Truthy(dueDate) then Some(dueDate) else None)
            && built.value.tags == SanitizeArray(Get(body, "tags"))
            && built.value.createdAt == createdAt)
  {
    AcceptedDraftCasts(owner, body);
  }

  /** A title made only of angle brackets passes validation, is sanitised to "",
      and the schema then refuses the task: the request ends in a 500. */
  lemma BracketOnlyTitleRefused(owner: nat, body: Payload, createdAt: nat)
    requires Get(body, "title") == Str("<>")
    ensures BuildTask(NewTaskDraft(owner, body), createdAt) == None
  {
    var s := "<>";
    assert StripAngleBrackets(s[1..]) == [];
    assert StripAngleBrackets(s) == [];
    assert SanitizeString(Str(s)) == [];
  }

  // ---------------------------------------------------------------------------
  // getTasks

  const DefaultPage := 1
  const DefaultLimit := 10
  const MaxLimit := 100

  /** `parseInt(v)` is NaN or 0, so `parseInt(v) || d` falls back to `d`. */
  predicate NoNumber(v: Value) {
    var n := ParseInt(JsString(v));
    n.None? || n == Some(0)
  }

  /** `parseInt(v) || d`: NaN and 0 both fall back to `d`. */
  function IntOr(v: Value, d: int): (r: int)
    ensures NoNumber(v) ==> r == d
    ensures !NoNumber(v) ==> r == ParseInt(JsString(v)).value && r != 0
  {
    match ParseInt(JsString(v))
    case None => d
    case Some(n) => if n == 0 then d else n
  }

  function Max(a: int, b: int): int {
    if a < b then b else a
  }

  function Min(a: int, b: int): int {
    if a < b then a else b
  }

  /** `Math.max(1, parseInt(page) || 1)`. */
  function PageNumber(query: Payload): (page: nat)
    ensures page >= 1
  {
    Max(1, IntOr(Get(query, "page"), DefaultPage))
  }

  /** `Math.max(1, Math.min(100, parseInt(limit) || 10))`. */
  function PageLimit(query: Payload): (limit: nat)
    ensures 1 <= limit <= MaxLimit
  {
    Max(1, Min(MaxLimit, IntOr(Get(query, "limit"), DefaultLimit)))
  }

  /** `Math.ceil(total / limit)`. */
  function CeilDiv(total: nat, limit: nat): (pages: nat)
    requires limit >= 1
    ensures pages * limit >= total
    ensures pages == 0 || (pages - 1) * limit < total
  {
    (total + limit - 1) / limit
  }

  /** The query's optional filters: a status, priority or search term is used when
      it is a non-empty string. */
  function QueryString(query: Payload, key: string): (r: Option<string>)
    ensures r.Some? <==> Get(query, key).Str? && Get(query, key).s != ""
  {
    var v := Get(query, key);
    if Truthy(v) && v.Str? then Some(v.s) else None
  }

  /** The list query: always the caller's tasks. */
  function ListFilter(owner: nat, query: Payload): (f: TaskFilter)
    ensures f.owner == owner
  {
    TaskFilter(owner, QueryString(query, "status"), QueryString(query, "priority"), QueryString(query, "search"))
  }

  /** `(page - 1) * limit`: how many matches precede the page. */
  function Skip(page: nat, limit: nat): nat
    requires page >= 1
  {
    (page - 1) * limit
  }

  /** `.skip((page - 1) * limit).limit(limit)` on a listing: the matches from
      position Skip(page, limit) on, at most `limit` of them. */
  function PageSlice(all: seq<Stored>, page: nat, limit: nat): (r: seq<Stored>)
    requires page >= 1 && limit >= 1
    ensures |r| == Max(0, Min(limit, |all| - Skip(page, limit)))
    ensures forall i :: 0 <= i < |r| ==> Skip(page, limit) + i < |all| && r[i] == all[Skip(page, limit) + i]
  {
    var skip := Skip(page, limit);
    if skip >= |all| then [] else all[skip..Min(skip + limit, |all|)]
  }

  datatype Pagination = Pagination(total: nat, page: nat, pages: nat, limit: nat)

  datatype TaskPage = TaskPage(data: seq<Stored>, pagination: Pagination)

  /** `getTasks`: one page of the caller's matching tasks, newest first, with the
      count of all matches and the number of pages. */
  function GetTasks(store: TaskStore, caller: Option<Claims>, query: Payload,
                    textMatch: (string, Task) -> bool): (r: Result<TaskPage, Raised>)
    reads store
    ensures caller.None? ==> r == Err(App(NotAuthenticated))
    ensures caller.Some? ==>
      var all := store.Find(ListFilter(caller.value.userId, query), textMatch);
      && r.Ok?
      && r.value.pagination.total == |all|
      && r.value.pagination.page == PageNumber(query)
      && r.value.pagination.limit == PageLimit(query)
      && r.value.pagination.pages == CeilDiv(|all|, PageLimit(query))
      && r.value.data == PageSlice(all, PageNumber(query), PageLimit(query))
  {
    if caller.None? then Err(App(NotAuthenticated))
    else
      var page := PageNumber(query);
      var limit := PageLimit(query);
      var all := store.Find(ListFilter(caller.value.userId, query), textMatch);
      Ok(TaskPage(PageSlice(all, page, limit), Pagination(|all|, page, CeilDiv(|all|, limit), limit)))
  }

  /** Every item of a page is one of the caller's tasks, as stored. */
  lemma PageHoldsCallersTasks(store: TaskStore, owner: nat, query: Payload, textMatch: (string, Task) -> bool)
    ensures var data := PageSlice(store.Find(ListFilter(owner, query), textMatch), PageNumber(query), PageLimit(query));
      forall i :: 0 <= i < |data| ==>
        && data[i].task.userId == owner
        && data[i].id in store.tasks && store.tasks[data[i].id] == data[i].task
  {
    var f := ListFilter(owner, query);
    var all := Newest(store.tasks, store.clock, f, textMatch);
    assert store.Find(f, textMatch) == all;
    var data := PageSlice(all, PageNumber(query), PageLimit(query));
    forall i | 0 <= i < |data|
      ensures data[i].task.userId == owner
      ensures data[i].id in store.tasks && store.tasks[data[i].id] == data[i].task
    {
      var j := Skip(PageNumber(query), PageLimit(query)) + i;
      assert data[i] == all[j];
      assert Matches(all[j].task, f, textMatch);
    }
  }

  /** a * c < b * c with c positive means a < b. */
  lemma MulLessCancel(a: nat, b: nat, c: nat)
    requires c >= 1 && a * c < b * c
    ensures a < b
  {
  }

  /** Multiplying by a natural number keeps order. */
  lemma MulMonotone(a: nat, b: nat, c: nat)
    requires a <= b
    ensures a * c <= b * c
  {
  }

  /** Every item of the listing is on the page its position says, within the page
      count. */
  lemma EveryTaskOnItsPage(all: seq<Stored>, limit: nat, i: nat)
    requires limit >= 1 && i < |all|
    ensures var page := i / limit + 1;
      && page <= CeilDiv(|all|, limit)
      && i % limit < |PageSlice(all, page, limit)|
      && PageSlice(all, page, limit)[i % limit] == all[i]
  {
    var page := i / limit + 1;
    assert Skip(page, limit) + i % limit == i;
    var pages := CeilDiv(|all|, limit);
    assert (i / limit) * limit <= i < pages * limit;
    MulLessCancel(i / limit, pages, limit);
  }

  /** A page past the last one is empty. */
  lemma PastLastPageEmpty(all: seq<Stored>, page: nat, limit: nat)
    requires limit >= 1 && page > CeilDiv(|all|, limit)
    ensures PageSlice(all, page, limit) == []
  {
    MulMonotone(CeilDiv(|all|, limit), page - 1, limit);
  }

  /** Fifteen matching tasks at ten a page: page 2 holds the last five, and there
      are two pages. */
  lemma SecondPageOfFifteen(all: seq<Stored>)
    requires |all| == 15
    ensures PageSlice(all, 2, 10) == all[10..]
    ensures CeilDiv(15, 10) == 2
  {
  }

  /** No usable page or limit (not a number, or 0) means page 1 and limit 10,
      each independently of the other. */
  lemma DefaultPaging(query: Payload)
    ensures NoNumber(Get(query, "page")) ==> PageNumber(query) == DefaultPage
    ensures NoNumber(Get(query, "limit")) ==> PageLimit(query) == DefaultLimit
  {
  }

  /** Values that are no usable number: a missing key (`undefined`), `null`, the
      numeral "0", and any string that starts with something other than whitespace,
      a sign or a digit. */
  lemma NoNumberValues(v: Value)
    requires || v == Undefined || v == Null || v == Str("0")
             || (v.Str? && |v.s| > 0 && !IsWhitespace(v.s[0]) && !IsDecimalDigit(v.s[0])
                 && v.s[0] != '+' && v.s[0] != '-')
    ensures NoNumber(v)
  {
    if v == Undefined {
      var u := "undefined";
      assert JsString(v) == u;
      ParseIntOfLetter(u);
    } else if v == Null {
      var u := "null";
      assert JsString(v) == u;
      ParseIntOfLetter(u);
    } else if v == Str("0") {
      ParseIntDecimal(0);
      assert Decimal(0) == "0";
    } else {
      ParseIntOfLetter(v.s);
    }
  }

  /** A query with neither page nor limit gets page 1 and limit 10. */
  lemma MissingPaging(query: Payload)
    requires "page" !in query && "limit" !in query
    ensures PageNumber(query) == DefaultPage && PageLimit(query) == DefaultLimit
  {
    NoNumberValues(Undefined);
  }

  /** A page or limit written as a decimal numeral is used as given, the limit
      capped at 100. */
  lemma NumeralPaging(query: Payload, page: nat, limit: nat)
    requires page >= 1 && limit >= 1
    requires Get(query, "page") == Str(Decimal(page)) && Get(query, "limit") == Str(Decimal(limit))
    ensures PageNumber(query) == page
    ensures PageLimit(query) == Min(limit, MaxLimit)
  {
    NumeralParsed(page, DefaultPage);
    NumeralParsed(limit, DefaultLimit);
  }

  /** A positive decimal numeral is taken at its value. */
  lemma NumeralParsed(n: nat, d: int)
    requires n >= 1
    ensures IntOr(Str(Decimal(n)), d) == n
  {
    ParseIntDecimal(n);
    assert JsString(Str(Decimal(n))) == Decimal(n);
  }

  // ---------------------------------------------------------------------------
  // getTaskById

  /** `getTaskById`: the caller's task with that id; a missing id and another
      user's task give the same 404. */
  function GetTaskById(store: TaskStore, caller: Option<Claims>, id: nat): (r: Result<Stored, Raised>)
    reads store
    ensures caller.None? ==> r == Err(App(NotAuthenticated))
    ensures caller.Some? && id in store.tasks && store.tasks[id].userId == caller.value.userId ==>
      r == Ok(Stored(id, store.tasks[id]))
    ensures caller.Some? && !(id in store.tasks && store.tasks[id].userId == caller.value.userId) ==>
      r == Err(App(TaskNotFound))
  {
    if caller.None? then Err(App(NotAuthenticated))
    else
      match store.FindOne(id, caller.value.userId)
      case None => Err(App(TaskNotFound))
      case Some(task) => Ok(Stored(id, task))
  }

  // ---------------------------------------------------------------------------
  // updateTask

  /** One step of the update builder: the body's value under `key` is added when
      it is a string. */
  function WithString(u: map<string, Value>, body: Payload, key: string): (r: map<string, Value>)
    ensures key in r <==> key in u || (key in body && body[key].Str?)
    ensures key in body && body[key].Str? ==> r[key] == body[key]
    ensures forall k :: k != key ==> (k in r <==> k in u) && (k in r ==> r[k] == u[k])
  {
    if key in body && body[key].Str? then u[key := body[key]] else u
  }

  /** The dueDate step: added whenever the key is there, a falsy value becoming
      `undefined`. */
  function WithDueDate(u: map<string, Value>, body: Payload): (r: map<string, Value>)
    ensures "dueDate" in r <==> "dueDate" in u || "dueDate" in body
    ensures "dueDate" in body ==> r["dueDate"] == OrElse(body["dueDate"], Undefined)
    ensures forall k :: k != "dueDate" ==> (k in r <==> k in u) && (k in r ==> r[k] == u[k])
  {
    if "dueDate" in body then u["dueDate" := OrElse(body["dueDate"], Undefined)] else u
  }

  /** The tags step: added when an array. */
  function WithTags(u: map<string, Value>, body: Payload): (r: map<string, Value>)
    ensures "tags" in r <==> "tags" in u || ("tags" in body && body["tags"].Arr?)
    ensures "tags" in body && body["tags"].Arr? ==> r["tags"] == body["tags"]
    ensures forall k :: k != "tags" ==> (k in r <==> k in u) && (k in r ==> r[k] == u[k])
  {
    if "tags" in body && body["tags"].Arr? then u["tags" := body["tags"]] else u
  }

  /** The update `updateTask` sends. */
  function TaskUpdate(body: Payload): map<string, Value> {
    var strings := WithString(WithString(WithString(WithString(map[], body, "title"), body, "description"),
                                         body, "status"), body, "priority");
    WithTags(WithDueDate(strings, body), body)
  }

  /** The body's value under `key` is copied exactly when present and a string. */
  predicate CopiesString(update: map<string, Value>, body: Payload, key: string) {
    && (key in update <==> key in body && body[key].Str?)
    && (key in update ==> update[key] == body[key])
  }

  /** The update names only the six task fields: title, description, status and
      priority when they are strings, tags when an array, and dueDate whenever the
      key is there (falsy becoming `undefined`). Nothing is sanitised. */
  lemma TaskUpdateFields(body: Payload)
    ensures var u := TaskUpdate(body);
      && u.Keys <= {"title", "description", "status", "priority", "dueDate", "tags"}
      && CopiesString(u, body, "title") && CopiesString(u, body, "description")
      && CopiesString(u, body, "status") && CopiesString(u, body, "priority")
      && ("dueDate" in u <==> "dueDate" in body)
      && ("dueDate" in u ==> u["dueDate"] == OrElse(body["dueDate"], Undefined))
      && ("tags" in u <==> "tags" in body && body["tags"].Arr?)
      && ("tags" in u ==> u["tags"] == body["tags"])
  {
  }

  /** The builder loop of `updateTask`, which collects the update key by key. */
  method BuildTaskUpdate(body: Payload) returns (updateData: map<string, Value>)
    ensures updateData == TaskUpdate(body)
  {
    updateData := map[];
    if "title" in body && body["title"].Str? {
      updateData := updateData["title" := body["title"]];
    }
    ghost var before := updateData;
    if "description" in body && body["description"].Str? {
      updateData := updateData["description" := body["description"]];
    }
    assert updateData == WithString(before, body, "description");
    before := updateData;
    if "status" in body && body["status"].Str? {
      updateData := updateData["status" := body["status"]];
    }
    assert updateData == WithString(before, body, "status");
    before := updateData;
    if "priority" in body && body["priority"].Str? {
      updateData := updateData["priority" := body["priority"]];
    }
    assert updateData == WithString(before, body, "priority");
    before := updateData;
    if "dueDate" in body {
      updateData := updateData["dueDate" := OrElse(body["dueDate"], Undefined)];
    }
    assert updateData == WithDueDate(before, body);
    before := updateData;
    if "tags" in body && body["tags"].Arr? {
      updateData := updateData["tags" := body["tags"]];
    }
    assert updateData == WithTags(before, body);
  }

  /** `updateTask`. */
  method UpdateTask(store: TaskStore, caller: Option<Claims>, id: nat, body: Payload) returns (r: Result<Task, Raised>)
    requires store.Valid()
    modifies store
    ensures store.Valid()
    ensures store.clock == old(store.clock)
    ensures caller.None? ==> r == Err(App(NotAuthenticated)) && unchanged(store)
    ensures caller.Some? && TaskErrors(body) != [] ==> r == Err(App(Validators.InvalidInput(TaskErrors(body)))) && unchanged(store)
    ensures caller.Some? && TaskErrors(body) == [] && !UpdateAccepted(TaskUpdate(body)) ==>
      r.Err? && r.error.Unexpected? && store.tasks == old(store.tasks)
    ensures caller.Some? && TaskErrors(body) == [] && UpdateAccepted(TaskUpdate(body))
            && old(store.FindOne(id, caller.value.userId)).None? ==>
      r == Err(App(TaskNotFound)) && store.tasks == old(store.tasks)
    ensures caller.Some? && TaskErrors(body) == [] && UpdateAccepted(TaskUpdate(body))
            && old(store.FindOne(id, caller.value.userId)).Some? ==>
      var updated := ApplyUpdate(old(store.tasks)[id], TaskUpdate(body));
      updated.Some? && r == Ok(updated.value) && store.tasks == old(store.tasks)[id := updated.value]
    ensures caller.Some? ==> OthersKept(old(store.tasks), store.tasks, caller.value.userId)
  {
    if caller.None? {
      return Err(App(NotAuthenticated));
    }
    var validationErrors := Validators.ValidateTaskInput(body);
    if |validationErrors| > 0 {
      return Err(App(Validators.InvalidInput(validationErrors)));
    }
    var updateData := BuildTaskUpdate(body);
    var task := store.FindOneAndUpdate(id, caller.value.userId, updateData);
    match task
    case Err(reason) => r := Err(Unexpected(reason));
    case Ok(None) => r := Err(App(TaskNotFound));
    case Ok(Some(t)) => r := Ok(t);
  }

  /** An accepted update always names the title, and every field the body does not
      name keeps its value. */
  lemma UpdateKeepsUnnamedFields(t: Task, body: Payload)
    requires Conforms(t) && TaskErrors(body) == []
    ensures "title" in TaskUpdate(body)
    ensures var u := ApplyUpdate(t, TaskUpdate(body));
      u.Some? ==>
        && u.value.userId == t.userId && u.value.createdAt == t.createdAt
        && ("description" !in body ==> u.value.description == t.description)
        && ("status" !in body ==> u.value.status == t.status)
        && ("priority" !in body ==> u.value.priority == t.priority)
        && ("dueDate" !in body ==> u.value.dueDate == t.dueDate)
        && ("tags" !in body ==> u.value.tags == t.tags)
  {
    Validators.TaskAcceptance(body);
    TaskUpdateFields(body);
  }

  /** Validation and the schema disagree on an empty status: `validateTaskInput`
      lets a falsy status through, but the enum validator refuses "" in an update.
      So for any id, found or not, this body gives the 500 and not the 404. */
  lemma EmptyStatusRefusedBySchema()
    ensures var body := map["title" := Str("a"), "status" := Str("")];
      TaskErrors(body) == [] && !UpdateAccepted(TaskUpdate(body))
  {
    var body := map["title" := Str("a"), "status" := Str("")];
    Validators.TaskAcceptance(body);
    TaskUpdateFields(body);
    assert Trim("a") == "a";
    assert Get(body, "priority") == Undefined;
    assert ParseStatus("") == None;
  }

  /** Tags given to an update are stored exactly as sent, markup included: unlike
      createTask, updateTask does not sanitise them. */
  lemma UpdateTagsUnsanitised(t: Task, body: Payload)
    requires Conforms(t)
    requires "tags" in body && body["tags"].Arr?
    ensures var u := ApplyUpdate(t, TaskUpdate(body));
      u.Some? ==> AllStrings(body["tags"].items) && u.value.tags == Strings(body["tags"].items)
  {
    TaskUpdateFields(body);
  }

  // ---------------------------------------------------------------------------
  // deleteTask

  /** `deleteTask`: removes exactly the caller's task with that id; a missing id
      or another user's task gives the 404, so a second delete of the same id does. */
  method DeleteTask(store: TaskStore, caller: Option<Claims>, id: nat) returns (r: Result<Task, Raised>)
    requires store.Valid()
    modifies store
    ensures store.Valid()
    ensures store.clock == old(store.clock)
    ensures caller.None? ==> r == Err(App(NotAuthenticated)) && unchanged(store)
    ensures caller.Some? && old(store.FindOne(id, caller.value.userId)).None? ==>
      r == Err(App(TaskNotFound)) && store.tasks == old(store.tasks)
    ensures caller.Some? && old(store.FindOne(id, caller.value.userId)).Some? ==>
      r == Ok(old(store.tasks)[id]) && store.tasks == old(store.tasks) - {id}
    ensures caller.Some? ==> store.FindOne(id, caller.value.userId).None?
    ensures caller.Some? ==> OthersKept(old(store.tasks), store.tasks, caller.value.userId)
  {
    if caller.None? {
      return Err(App(NotAuthenticated));
    }
    var task := store.FindOneAndDelete(id, caller.value.userId);
    if task.None? {
      return Err(App(TaskNotFound));
    }
    r := Ok(task.value);
  }

  /** Owner isolation: every task of a user other than `owner` is still there,
      unchanged. */
  predicate OthersKept(before: map<nat, Task>, after: map<nat, Task>, owner: nat) {
    forall k :: k in before && before[k].userId != owner ==> k in after && after[k] == before[k]
  }
}

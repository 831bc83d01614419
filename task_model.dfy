/** The Task schema and the task collection. The collection is a store object that
    maps ids to documents; the schema's setters (trim), defaults and validators
    (required, length bounds, enums) are applied whenever a document is written. */
module TaskModel {
  import opened Wrappers
  import opened Text
  import opened Json
  import Validators

  datatype Status = Todo | InProgress | Completed
  datatype Priority = Low | Medium | High

  function StatusName(s: Status): string {
    match s
    case Todo => "todo"
    case InProgress => "in_progress"
    case Completed => "completed"
  }

  function PriorityName(p: Priority): string {
    match p
    case Low => "low"
    case Medium => "medium"
    case High => "high"
  }

  /** The status enum check: exactly the names the task validator accepts. */
  function ParseStatus(s: string): (r: Option<Status>)
    ensures r.Some? <==> s in Validators.TaskStatuses
    ensures r.Some? ==> StatusName(r.value) == s
  {
    if s == "todo" then Some(Todo)
    else if s == "in_progress" then Some(InProgress)
    else if s == "completed" then Some(Completed)
    else None
  }

  /** The priority enum check: exactly the names the task validator accepts. */
  function ParsePriority(s: string): (r: Option<Priority>)
    ensures r.Some? <==> s in Validators.TaskPriorities
    ensures r.Some? ==> PriorityName(r.value) == s
  {
    if s == "low" then Some(Low)
    else if s == "medium" then Some(Medium)
    else if s == "high" then Some(High)
    else None
  }

  lemma StatusRoundTrip(s: Status)
    ensures ParseStatus(StatusName(s)) == Some(s)
  {
  }

  lemma PriorityRoundTrip(p: Priority)
    ensures ParsePriority(PriorityName(p)) == Some(p)
  {
  }

  const MaxTitleLength := 200

  /** A stored task. `createdAt` is an abstract timestamp, used only for ordering;
      `dueDate` keeps the value it was given (no date casting). */
  datatype Task = Task(
    userId: nat,
    title: string,
    description: string,
    status: Status,
    priority: Priority,
    dueDate: Option<Value>,
    tags: seq<string>,
    createdAt: nat)

  /** A task as the schema allows it: trimmed title of 1 to 200 characters and a
      trimmed description. Owner, enums and tag strings are held by the types. */
  predicate Conforms(t: Task) {
    && IsTrimmed(t.title) && 1 <= |t.title| <= MaxTitleLength
    && IsTrimmed(t.description)
  }

  /** The schema accepts exactly the tasks its setters leave unchanged: saving a
      stored task again changes neither its title nor its description. */
  lemma ConformsIsFixedPoint(t: Task)
    ensures Conforms(t) <==> CastTitle(t.title) == Some(t.title) && Trim(t.description) == t.description
  {
    if CastTitle(t.title) == Some(t.title) && Trim(t.description) == t.description {
      assert IsTrimmed(t.title) && IsTrimmed(t.description);
    }
  }

  /** The title setter and validators: trim, then required, minlength 1 and
      maxlength 200. */
  function CastTitle(s: string): (r: Option<string>)
    ensures r.Some? <==> 1 <= |Trim(s)| <= MaxTitleLength
    ensures r.Some? ==> r.value == Trim(s)
  {
    var t := Trim(s);
    if 1 <= |t| <= MaxTitleLength then Some(t) else None
  }

  /** The status path: absent means the default "todo"; a string must name a status. */
  function CastStatus(v: Value): (r: Option<Status>)
    ensures v == Undefined ==> r == Some(Todo)
    ensures v.Str? ==> r == ParseStatus(v.s)
  {
    match v
    case Undefined => Some(Todo)
    case Str(s) => ParseStatus(s)
    case _ => None
  }

  /** The priority path: absent means the default "medium". */
  function CastPriority(v: Value): (r: Option<Priority>)
    ensures v == Undefined ==> r == Some(Medium)
    ensures v.Str? ==> r == ParsePriority(v.s)
  {
    match v
    case Undefined => Some(Medium)
    case Str(s) => ParsePriority(s)
    case _ => None
  }

  /** The document a controller hands to `new Task({...})`. */
  datatype TaskDraft = TaskDraft(
    userId: nat,
    title: string,
    description: string,
    status: Value,
    priority: Value,
    dueDate: Value,
    tags: seq<string>)

  /** Saving a draft: setters, defaults and validators; None when the schema
      refuses it. */
  function BuildTask(d: TaskDraft, createdAt: nat): (r: Option<Task>)
    ensures r.Some? <==> CastTitle(d.title).Some? && CastStatus(d.status).Some? && CastPriority(d.priority).Some?
    ensures r.Some? ==> Conforms(r.value)
    ensures r.Some? ==> r.value == Task(d.userId, Trim(d.title), Trim(d.description), CastStatus(d.status).value,
                                        CastPriority(d.priority).value,
                                        if d.dueDate == Undefined then None else Some(d.dueDate),
                                        d.tags, createdAt)
  {
    var title, status, priority := CastTitle(d.title), CastStatus(d.status), CastPriority(d.priority);
    if title.None? || status.None? || priority.None? then None
    else
      Some(Task(d.userId, title.value, Trim(d.description), status.value, priority.value,
                if d.dueDate == Undefined then None else Some(d.dueDate), d.tags, createdAt))
  }

  /** `findOneAndUpdate` with validators on: each path named in `update` goes
      through its setter and validators; a path not named stays as it was. An
      `undefined` value leaves the stored value as it was: Mongoose 7 and later
      strip undefined keys from an update before it is sent. None when a validator
      refuses a value. */
  function ApplyUpdate(t: Task, update: map<string, Value>): (r: Option<Task>)
    requires Conforms(t)
    ensures r.Some? <==> UpdateAccepted(update)
    ensures r.Some? ==> Conforms(r.value)
    ensures r.Some? ==> r.value.userId == t.userId && r.value.createdAt == t.createdAt
    ensures r.Some? && "title" !in update ==> r.value.title == t.title
    ensures r.Some? && "description" !in update ==> r.value.description == t.description
    ensures r.Some? && "status" !in update ==> r.value.status == t.status
    ensures r.Some? && "priority" !in update ==> r.value.priority == t.priority
    ensures r.Some? && ("dueDate" !in update || update["dueDate"] == Undefined) ==> r.value.dueDate == t.dueDate
    ensures r.Some? && "tags" !in update ==> r.value.tags == t.tags
    ensures r.Some? && "title" in update ==> update["title"].Str? && r.value.title == Trim(update["title"].s)
    ensures r.Some? && "description" in update ==>
      update["description"].Str? && r.value.description == Trim(update["description"].s)
    ensures r.Some? && "status" in update ==> update["status"].Str? && StatusName(r.value.status) == update["status"].s
    ensures r.Some? && "priority" in update ==>
      update["priority"].Str? && PriorityName(r.value.priority) == update["priority"].s
    ensures r.Some? && "dueDate" in update && update["dueDate"] != Undefined ==> r.value.dueDate == Some(update["dueDate"])
    ensures r.Some? && "tags" in update ==>
      update["tags"].Arr? && AllStrings(update["tags"].items) && r.value.tags == Strings(update["tags"].items)
    ensures update == map[] ==> r == Some(t)
  {
    var title := if "title" !in update then Some(t.title)
                 else if update["title"].Str? then CastTitle(update["title"].s) else None;
    var description := if "description" !in update then Some(t.description)
                       else if update["description"].Str? then Some(Trim(update["description"].s)) else None;
    var status := if "status" !in update then Some(t.status)
                  else if update["status"].Str? then ParseStatus(update["status"].s) else None;
    var priority := if "priority" !in update then Some(t.priority)
                    else if update["priority"].Str? then ParsePriority(update["priority"].s) else None;
    var dueDate := if "dueDate" !in update || update["dueDate"] == Undefined then t.dueDate
                   else Some(update["dueDate"]);
    var tags := if "tags" !in update then Some(t.tags)
                else if update["tags"].Arr? && AllStrings(update["tags"].items) then Some(Strings(update["tags"].items))
                else None;
    if title.None? || description.None? || status.None? || priority.None? || tags.None? then None
    else
      Some(Task(t.userId, title.value, description.value, status.value, priority.value, dueDate, tags.value,
                t.createdAt))
  }

  /** Whether the casts and update validators accept every path the update names.
      It reads the update alone, not the stored task: Mongoose casts and validates an
      update before the query is sent, whether or not a document matches. */
  predicate UpdateAccepted(update: map<string, Value>) {
    && ("title" in update ==> update["title"].Str? && CastTitle(update["title"].s).Some?)
    && ("description" in update ==> update["description"].Str?)
    && ("status" in update ==> update["status"].Str? && ParseStatus(update["status"].s).Some?)
    && ("priority" in update ==> update["priority"].Str? && ParsePriority(update["priority"].s).Some?)
    && ("tags" in update ==> update["tags"].Arr? && AllStrings(update["tags"].items))
  }

  predicate AllStrings(items: seq<Value>) {
    forall i :: 0 <= i < |items| ==> items[i].Str?
  }

  /** The strings of an all-string array, in order. */
  function Strings(items: seq<Value>): (r: seq<string>)
    requires AllStrings(items)
    ensures |r| == |items|
    ensures forall i :: 0 <= i < |items| ==> r[i] == items[i].s
  {
    if items == [] then [] else [items[0].s] + Strings(items[1..])
  }

  // ---------------------------------------------------------------------------
  // Queries

  /** A stored task together with its id. */
  datatype Stored = Stored(id: nat, task: Task)

  /** A list query: always the owner, optionally an exact status and priority, and
      optionally a text search, decided by `textMatch` (the text index is outside
      this model). */
  datatype TaskFilter = TaskFilter(owner: nat, status: Option<string>, priority: Option<string>, search: Option<string>)

  predicate Matches(t: Task, f: TaskFilter, textMatch: (string, Task) -> bool) {
    && t.userId == f.owner
    && (f.status.None? || StatusName(t.status) == f.status.value)
    && (f.priority.None? || PriorityName(t.priority) == f.priority.value)
    && (f.search.None? || textMatch(f.search.value, t))
  }

  /** The matching tasks with id below `n`, highest id first. */
  function Newest(tasks: map<nat, Task>, n: nat, f: TaskFilter, textMatch: (string, Task) -> bool): (r: seq<Stored>)
    ensures forall i :: 0 <= i < |r| ==>
      r[i].id < n && r[i].id in tasks && tasks[r[i].id] == r[i].task && Matches(r[i].task, f, textMatch)
    ensures forall i, j :: 0 <= i < j < |r| ==> r[i].id > r[j].id
    ensures forall id :: id < n && id in tasks && Matches(tasks[id], f, textMatch) ==> Stored(id, tasks[id]) in r
  {
    if n == 0 then []
    else
      var id := n - 1;
      var rest := Newest(tasks, id, f, textMatch);
      if id in tasks && Matches(tasks[id], f, textMatch) then [Stored(id, tasks[id])] + rest else rest
  }

  /** The task collection. Ids come from a counter that also serves as the creation
      timestamp, so a higher id means a later `createdAt`. */
  class TaskStore {
    var tasks: map<nat, Task>
    var clock: nat

    predicate Valid()
      reads this
    {
      forall id :: id in tasks ==> id < clock && tasks[id].createdAt == id && Conforms(tasks[id])
    }

    constructor()
      ensures Valid() && tasks == map[] && clock == 0
    {
      tasks := map[];
      clock := 0;
    }

    /** `findOne({_id: id, userId: owner})`. */
    function FindOne(id: nat, owner: nat): (r: Option<Task>)
      reads this
      ensures r.Some? <==> id in tasks && tasks[id].userId == owner
      ensures r.Some? ==> r.value == tasks[id]
    {
      if id in tasks && tasks[id].userId == owner then Some(tasks[id]) else None
    }

    /** `find(filter).sort({createdAt: -1})`: every matching task, newest first. */
    function Find(f: TaskFilter, textMatch: (string, Task) -> bool): (r: seq<Stored>)
      reads this
      ensures forall i :: 0 <= i < |r| ==>
        r[i].id in tasks && tasks[r[i].id] == r[i].task && Matches(r[i].task, f, textMatch)
      ensures forall i, j :: 0 <= i < j < |r| ==> r[i].id > r[j].id
      ensures Valid() ==> forall id :: id in tasks && Matches(tasks[id], f, textMatch) ==> Stored(id, tasks[id]) in r
    {
      Newest(tasks, clock, f, textMatch)
    }

    /** `save()` of a new document: stored under a fresh id when the schema accepts
      it; nothing changes when it refuses. */
    method Save(d: TaskDraft) returns (r: Option<Stored>)
      requires Valid()
      modifies this
      ensures Valid()
      ensures BuildTask(d, old(clock)).Some? ==>
        && r == Some(Stored(old(clock), BuildTask(d, old(clock)).value))
        && tasks == old(tasks)[old(clock) := BuildTask(d, old(clock)).value]
        && clock == old(clock) + 1
      ensures BuildTask(d, old(clock)).None? ==> r == None && tasks == old(tasks) && clock == old(clock)
    {
      var built := BuildTask(d, clock);
      if built.None? {
        return None;
      }
      tasks := tasks[clock := built.value];
      r := Some(Stored(clock, built.value));
      clock := clock + 1;
    }

    /** `findOneAndUpdate({_id: id, userId: owner}, update, {new: true, runValidators: true})`:
      the update is cast and validated first, so a refused update is an Err that
      changes nothing, whether or not the task exists; an accepted one gives
      Ok(None) when there is no such task, and otherwise replaces it. */
    method FindOneAndUpdate(id: nat, owner: nat, update: map<string, Value>) returns (r: Result<Option<Task>, string>)
      requires Valid()
      modifies this
      ensures Valid()
      ensures clock == old(clock)
      ensures !UpdateAccepted(update) ==> r.Err? && tasks == old(tasks)
      ensures UpdateAccepted(update) && old(FindOne(id, owner)).None? ==> r == Ok(None) && tasks == old(tasks)
      ensures UpdateAccepted(update) && old(FindOne(id, owner)).Some? ==>
        && ApplyUpdate(old(tasks)[id], update).Some?
        && r == Ok(Some(ApplyUpdate(old(tasks)[id], update).value))
        && tasks == old(tasks)[id := ApplyUpdate(old(tasks)[id], update).value]
    {
      if !UpdateAccepted(update) {
        return Err("Validation failed");
      }
      if FindOne(id, owner).None? {
        return Ok(None);
      }
      var updated := ApplyUpdate(tasks[id], update);
      tasks := tasks[id := updated.value];
      r := Ok(Some(updated.value));
    }

    /** `findOneAndDelete({_id: id, userId: owner})`: removes exactly that task. */
    method FindOneAndDelete(id: nat, owner: nat) returns (r: Option<Task>)
      requires Valid()
      modifies this
      ensures Valid()
      ensures clock == old(clock)
      ensures r == old(FindOne(id, owner))
      ensures r.Some? ==> tasks == old(tasks) - {id}
      ensures r.None? ==> tasks == old(tasks)
    {
      r := FindOne(id, owner);
      if r.Some? {
        tasks := tasks - {id};
      }
    }
  }

  /** In a valid store, the listing is ordered by creation time, newest first. */
  lemma NewestFirst(store: TaskStore, f: TaskFilter, textMatch: (string, Task) -> bool)
    requires store.Valid()
    ensures var r := store.Find(f, textMatch);
      forall i, j :: 0 <= i < j < |r| ==> r[i].task.createdAt > r[j].task.createdAt
  {
  }
}

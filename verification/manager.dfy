/** The task store (`TodoManager` in src/todo.py): a map from id to task
    and the next id to hand out. Every operation returns the new store with
    its result; a raised `ValueError` becomes an `Err`/`Rejected` result and
    a `None` return becomes `None`/`NotFound`. Writing the file
    (`save_todos`) is modelled by `Save`, the records it would write. */
module Manager {
  import opened Wrappers
  import opened Timestamps
  import opened Items
  import Text

  datatype Store = Store(todos: map<int, Task>, nextId: int)

  /** A store with no tasks, as after a missing or unreadable file. */
  const Empty: Store := Store(map[], 1)

  /** The store's invariant: each task sits under its own id, and every id
      is below the next one to be handed out. */
  predicate Valid(s: Store) {
    forall k :: k in s.todos ==> s.todos[k].id == k && k < s.nextId
  }

  datatype ValidationError = EmptyTitle | InvalidPriority

  /** A store after an operation, and what the operation returned. */
  datatype Step<T> = Step(store: Store, result: T)

  const Priorities: set<string> := {"high", "medium", "low"}

  /** The check `priority.lower() in ["high", "medium", "low"]`. */
  predicate IsValidPriority(p: string) {
    Text.Lower(p) in Priorities
  }

  lemma PriorityExamples()
    ensures IsValidPriority("HIGH") && IsValidPriority("Medium") && IsValidPriority("low")
    ensures !IsValidPriority("bogus") && !IsValidPriority("")
  {
    Text.LowerIs("HIGH", "high");
    Text.LowerIs("Medium", "medium");
    Text.LowerOfLowerCase("low");
    Text.LowerOfLowerCase("bogus");
  }

  // ---- Loading and saving -------------------------------------------------

  /** The file as `load_todos` finds it: absent, not a JSON array of objects,
      or an array of records. */
  datatype Persisted = Missing | Corrupt | Records(items: seq<Record>)

  function Ids(ts: seq<Task>): set<int> {
    set t | t in ts :: t.id
  }

  predicate DistinctIds(ts: seq<Task>) {
    forall i, j :: 0 <= i < j < |ts| ==> ts[i].id != ts[j].id
  }

  /** Every record of the list reads on its own. */
  predicate AllRead(items: seq<Record>, now: Timestamp) {
    forall i :: 0 <= i < |items| ==> FromDict(items[i], now).Ok?
  }

  /** `[TodoItem.from_dict(d) for d in data]`: the first bad record makes
      the whole list fail. */
  function DecodeAll(items: seq<Record>, now: Timestamp): (r: Result<seq<Task>, RecordError>)
    ensures r.Ok? ==> |r.value| == |items|
    ensures r.Ok? ==> forall i :: 0 <= i < |items| ==> FromDict(items[i], now) == Ok(r.value[i])
  {
    if |items| == 0 then Ok([])
    else
      var first :- FromDict(items[0], now);
      var rest :- DecodeAll(items[1..], now);
      Ok([first] + rest)
  }

  /** The list reads exactly when every record reads: the first bad record
      makes it fail, and a list of good records never does. */
  lemma {:induction false} DecodeAllReads(items: seq<Record>, now: Timestamp)
    ensures DecodeAll(items, now).Ok? <==> AllRead(items, now)
    decreases |items|
  {
    if |items| > 0 {
      DecodeAllReads(items[1..], now);
      assert AllRead(items, now) <==>
        FromDict(items[0], now).Ok? && AllRead(items[1..], now);
    }
  }

  /** `{todo.id: todo for todo in loaded_todos}`: a later task with the same
      id replaces an earlier one. */
  function Index(ts: seq<Task>): (m: map<int, Task>)
    ensures m.Keys == Ids(ts)
    ensures forall k :: k in m ==> m[k].id == k && m[k] in ts
  {
    if |ts| == 0 then map[]
    else
      var last := ts[|ts| - 1];
      assert forall t :: t in ts <==> t in ts[..|ts| - 1] || t == last;
      Index(ts[..|ts| - 1])[last.id := last]
  }

  /** `n` is what `load_todos` computes from the surviving ids: one past the
      largest, or 1 when there are none. */
  predicate IsNextId(n: int, keys: set<int>) {
    if keys == {} then n == 1
    else n - 1 in keys && forall k :: k in keys ==> k < n
  }

  function MaxId(ts: seq<Task>): (r: int)
    requires |ts| > 0
    ensures r in Ids(ts)
    ensures forall t :: t in ts ==> t.id <= r
  {
    if |ts| == 1 then ts[0].id
    else
      var m := MaxId(ts[1..]);
      assert forall t :: t in ts ==> t == ts[0] || t in ts[1..];
      if ts[0].id >= m then ts[0].id else m
  }

  /** `max(self._todos.keys()) + 1`, or 1 for an empty store. */
  function NextIdFor(ts: seq<Task>): (n: int)
    ensures IsNextId(n, Ids(ts))
  {
    if |ts| == 0 then 1 else MaxId(ts) + 1
  }

  /** `load_todos`: a missing file, an unparsable one, or any record that
      cannot be read gives an empty store with next id 1; otherwise the
      tasks are indexed by id and the counter is recomputed from them. */
  function Load(p: Persisted, now: Timestamp): (s: Store)
    ensures Valid(s)
    ensures IsNextId(s.nextId, s.todos.Keys)
    ensures !p.Records? ==> s == Empty
  {
    match p
    case Missing => Empty
    case Corrupt => Empty
    case Records(items) =>
      match DecodeAll(items, now)
      case Err(_) => Empty
      case Ok(ts) => Store(Index(ts), NextIdFor(ts))
  }

  /** The records `save_todos` writes for a listing of the store. */
  function Save(listing: seq<Task>): (r: seq<Record>)
    ensures |r| == |listing|
    ensures forall i :: 0 <= i < |r| ==> r[i] == ToDict(listing[i])
  {
    if |listing| == 0 then [] else [ToDict(listing[0])] + Save(listing[1..])
  }

  // ---- Queries ------------------------------------------------------------

  /** `get_todo`: the task stored under `id`, if any. */
  function Get(s: Store, id: int): (r: Option<Task>)
    ensures r.Some? <==> id in s.todos
    ensures r.Some? ==> r.value == s.todos[id]
  {
    if id in s.todos then Some(s.todos[id]) else None
  }

  /** `r` lists every task of `m` exactly once, in some order. */
  predicate IsListing(r: seq<Task>, m: map<int, Task>) {
    && DistinctIds(r)
    && (forall i :: 0 <= i < |r| ==> r[i].id in m && m[r[i].id] == r[i])
    && m.Keys <= Ids(r)
  }

  /** Gives the solver the witness it needs before `var key :| key in rest`
      in `GetAll`; without it the existence of a member is not found. */
  lemma NonEmptyHasMember(s: set<int>)
    requires s != {}
    ensures exists x :: x in s
  {
    if forall x :: x !in s {
      assert false;
    }
  }

  /** `all` lists, once each, the tasks of `m` whose keys are not in `rest`. */
  predicate ListedSoFar(all: seq<Task>, rest: set<int>, m: map<int, Task>) {
    && rest == m.Keys - Ids(all)
    && (forall i :: 0 <= i < |all| ==> all[i].id in m && m[all[i].id] == all[i])
    && DistinctIds(all)
  }

  lemma ListStep(all: seq<Task>, rest: set<int>, m: map<int, Task>, key: int)
    requires forall k :: k in m ==> m[k].id == k
    requires ListedSoFar(all, rest, m) && key in rest
    ensures ListedSoFar(all + [m[key]], rest - {key}, m)
  {
  }

  /** `get_all_todos`: the store promises no order, so the keys are taken
      in an arbitrary one. */
  method GetAll(s: Store) returns (all: seq<Task>)
    requires Valid(s)
    ensures IsListing(all, s.todos)
    ensures |all| == |s.todos|
  {
    all := [];
    var rest := s.todos.Keys;
    while rest != {}
      invariant ListedSoFar(all, rest, s.todos)
      invariant |all| + |rest| == |s.todos|
      decreases |rest|
    {
      NonEmptyHasMember(rest);
      var key :| key in rest;
      ListStep(all, rest, s.todos, key);
      all := all + [s.todos[key]];
      rest := rest - {key};
    }
  }

  // ---- Mutations ----------------------------------------------------------

  /** `add_todo`: the title is checked, then the priority; only then is a
      task created under the next id. A failed add changes nothing. */
  function Add(s: Store, title: string, description: string, due: Option<Timestamp>,
               priority: string, now: Timestamp): (r: Step<Result<Task, ValidationError>>)
    ensures |title| == 0 ==> r == Step(s, Err(EmptyTitle))
    ensures |title| > 0 && !IsValidPriority(priority) ==> r == Step(s, Err(InvalidPriority))
    ensures r.result.Ok? <==> |title| > 0 && IsValidPriority(priority)
    ensures r.result.Ok? ==>
      var t := r.result.value;
      && t.id == s.nextId
      && t.title == title && t.description == description && t.due == due
      && !t.completed && t.created == now
      && t.priority == Text.Lower(priority) && t.priority in Priorities
    ensures r.result.Ok? ==> r.store.todos == s.todos[s.nextId := r.result.value]
    ensures r.result.Ok? ==> r.store.nextId == s.nextId + 1
    ensures Valid(s) ==> Valid(r.store)
  {
    if |title| == 0 then Step(s, Err(EmptyTitle))
    else if !IsValidPriority(priority) then Step(s, Err(InvalidPriority))
    else
      var t := Task(s.nextId, title, description, false, now, due, Text.Lower(priority));
      Step(Store(s.todos[s.nextId := t], s.nextId + 1), Ok(t))
  }

  /** The optional arguments of `update_todo`; `None` means "leave as is". */
  datatype Patch = Patch(
    title: Option<string>,
    description: Option<string>,
    completed: Option<bool>,
    due: Option<Timestamp>,
    priority: Option<string>)

  const NoChanges: Patch := Patch(None, None, None, None, None)

  datatype UpdateOutcome = NotFound | Updated(task: Task) | Rejected(error: ValidationError)

  /** `u` is `t` with the title, description, completed flag and due date
      of `p` written where given, and nothing else changed. */
  predicate FieldsWritten(t: Task, p: Patch, u: Task) {
    && u.id == t.id && u.created == t.created
    && u.title == (if p.title.Some? then p.title.value else t.title)
    && u.description == (if p.description.Some? then p.description.value else t.description)
    && u.completed == (if p.completed.Some? then p.completed.value else t.completed)
    && u.due == (if p.due.Some? then p.due else t.due)
  }

  /** The in-place writes `update_todo` makes before it looks at the
      priority: title, description, completed flag and due date, in that
      order, each only when given. */
  function WriteFields(t: Task, p: Patch): (u: Task)
    ensures FieldsWritten(t, p, u)
    ensures u.priority == t.priority
  {
    var t := if p.title.Some? then t.(title := p.title.value) else t;
    var t := if p.description.Some? then t.(description := p.description.value) else t;
    var t := if p.completed.Some? then t.(completed := p.completed.value) else t;
    if p.due.Some? then t.(due := p.due) else t
  }

  /** `update_todo`. The task is changed in place field by field, so an
      invalid priority is reported only after the other fields have been
      written: the store keeps those writes (and the file is not saved).
      An empty title is refused before anything is written. */
  function Update(s: Store, id: int, p: Patch): (r: Step<UpdateOutcome>)
    ensures id !in s.todos <==> r.result.NotFound?
    ensures id !in s.todos ==> r.store == s
    ensures id in s.todos && p.title == Some("") ==> r == Step(s, Rejected(EmptyTitle))
    ensures r.store.nextId == s.nextId && r.store.todos.Keys == s.todos.Keys
    ensures forall k :: k in s.todos && k != id ==> r.store.todos[k] == s.todos[k]
    ensures r.result.Rejected? && r.result.error == InvalidPriority ==>
      && p.priority.Some? && !IsValidPriority(p.priority.value)
      && FieldsWritten(s.todos[id], p, r.store.todos[id])
      && r.store.todos[id].priority == s.todos[id].priority
    ensures id in s.todos && p.title != Some("") && p.priority.Some? && !IsValidPriority(p.priority.value) ==>
      && r.result == Rejected(InvalidPriority)
      && FieldsWritten(s.todos[id], p, r.store.todos[id])
      && r.store.todos[id].priority == s.todos[id].priority
    ensures id in s.todos && p.title != Some("") && (p.priority.None? || IsValidPriority(p.priority.value)) ==>
      r.result.Updated?
    ensures r.result.Updated? ==>
      && r.result.task == r.store.todos[id]
      && FieldsWritten(s.todos[id], p, r.result.task)
      && r.result.task.priority
         == (if p.priority.Some? then Text.Lower(p.priority.value) else s.todos[id].priority)
      && (p.priority.Some? ==> r.result.task.priority in Priorities)
    ensures Valid(s) ==> Valid(r.store)
  {
    if id !in s.todos then Step(s, NotFound)
    else
      if p.title.Some? && |p.title.value| == 0 then Step(s, Rejected(EmptyTitle))
      else
        var t := WriteFields(s.todos[id], p);
        if p.priority.Some? && !IsValidPriority(p.priority.value) then
          Step(s.(todos := s.todos[id := t]), Rejected(InvalidPriority))
        else
          var t := if p.priority.Some? then t.(priority := Text.Lower(p.priority.value)) else t;
          Step(s.(todos := s.todos[id := t]), Updated(t))
  }

  /** `delete_todo`: true exactly when the id was present, and then only
      that entry is removed. The counter is not lowered. */
  function Delete(s: Store, id: int): (r: Step<bool>)
    ensures r.result <==> id in s.todos
    ensures r.store.todos.Keys == s.todos.Keys - {id}
    ensures forall k :: k in r.store.todos ==> r.store.todos[k] == s.todos[k]
    ensures r.store.nextId == s.nextId
    ensures Valid(s) ==> Valid(r.store)
  {
    if id in s.todos then Step(Store(s.todos - {id}, s.nextId), true) else Step(s, false)
  }

  /** `mark_complete`: sets the completed flag of one task and nothing else. */
  function MarkComplete(s: Store, id: int): (r: Step<Option<Task>>)
    ensures r.result.None? <==> id !in s.todos
    ensures id !in s.todos ==> r.store == s
    ensures r.store.nextId == s.nextId && r.store.todos.Keys == s.todos.Keys
    ensures forall k :: k in s.todos && k != id ==> r.store.todos[k] == s.todos[k]
    ensures r.result.Some? ==>
      && r.result.value == r.store.todos[id]
      && r.result.value == s.todos[id].(completed := true)
    ensures Valid(s) ==> Valid(r.store)
  {
    if id in s.todos then
      var t := s.todos[id].(completed := true);
      Step(s.(todos := s.todos[id := t]), Some(t))
    else Step(s, None)
  }
}

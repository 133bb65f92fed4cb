/** The task record (`TodoItem` in src/todo.py) and its mapping to and from
    the field map that is written to the JSON file. */
module Items {
  import opened Wrappers
  import opened Timestamps

  /** One to-do item. `priority` is free text here: the store writes only
      lower-case "high", "medium" or "low", but a loaded file may hold any
      string. */
  datatype Task = Task(
    id: int,
    title: string,
    description: string,
    completed: bool,
    created: Timestamp,
    due: Option<Timestamp>,
    priority: string)

  /** The JSON values a record field can hold. Timestamp text is a `Str`. */
  datatype Value = Null | Bool(b: bool) | Int(i: int) | Str(s: string)

  /** One JSON object of the persisted array. */
  type Record = map<string, Value>

  datatype RecordError =
    | MissingField(name: string)
    | UnexpectedField
    | BadValue(name: string)

  /** The keyword arguments `TodoItem` accepts: the keys `to_dict` writes. */
  const FieldNames: set<string> :=
    {"id", "title", "description", "completed", "creation_date", "due_date", "priority"}

  /** Python truthiness of a JSON value. */
  predicate Truthy(v: Value) {
    match v
    case Null => false
    case Bool(b) => b
    case Int(i) => i != 0
    case Str(s) => |s| > 0
  }

  /** `to_dict`: every field is written, timestamps as text, and a missing
      due date as an explicit null rather than an absent key. */
  function ToDict(t: Task): (r: Record)
    ensures r.Keys == FieldNames
    ensures r["due_date"] == Null <==> t.due.None?
    ensures r["creation_date"].Str? && Truthy(r["creation_date"])
  {
    map[
      "id" := Int(t.id),
      "title" := Str(t.title),
      "description" := Str(t.description),
      "completed" := Bool(t.completed),
      "creation_date" := Str(Format(t.created)),
      "due_date" := (if t.due.Some? then Str(Format(t.due.value)) else Null),
      "priority" := Str(t.priority)]
  }

  /** `datetime.fromisoformat` on a field value: non-text raises
      `TypeError`, badly formatted text raises `ValueError`. */
  function ParseStamp(name: string, v: Value): (r: Result<Timestamp, RecordError>)
    ensures r.Ok? <==> v.Str? && Parse(v.s).Some?
    ensures r.Ok? ==> Parse(v.s) == Some(r.value)
  {
    match v
    case Str(s) => (match Parse(s)
                    case Some(t) => Ok(t)
                    case None => Err(BadValue(name)))
    case _ => Err(BadValue(name))
  }

  function TextField(d: Record, name: string, default: string): Result<string, RecordError> {
    if name !in d then Ok(default)
    else match d[name]
      case Str(s) => Ok(s)
      case _ => Err(BadValue(name))
  }

  /** The records `from_dict` and the constructor accept: only known keys,
      an integer id and a text title, text description and priority, a
      boolean completed flag, a parseable creation date when one is given,
      and a parseable due date when a truthy one is given. */
  predicate Readable(d: Record) {
    && d.Keys <= FieldNames
    && "id" in d && d["id"].Int?
    && "title" in d && d["title"].Str?
    && ("description" in d ==> d["description"].Str?)
    && ("priority" in d ==> d["priority"].Str?)
    && ("completed" in d ==> d["completed"].Bool?)
    && ("creation_date" in d ==> d["creation_date"].Str? && Parse(d["creation_date"].s).Some?)
    && ("due_date" in d && Truthy(d["due_date"]) ==>
          d["due_date"].Str? && Parse(d["due_date"].s).Some?)
  }

  /** `from_dict` followed by the `TodoItem(**data)` constructor. `now` is
      the clock reading used for a record without a creation date. */
  function FromDict(d: Record, now: Timestamp): (r: Result<Task, RecordError>)
    ensures ("id" !in d || "title" !in d) ==> r.Err?
    ensures !(d.Keys <= FieldNames) ==> r.Err?
    ensures r.Ok? ==> d["id"] == Int(r.value.id) && d["title"] == Str(r.value.title)
    ensures r.Ok? ==> (r.value.due.Some? <==> "due_date" in d && Truthy(d["due_date"]))
    ensures r.Ok? && "creation_date" !in d ==> r.value.created == now
    ensures r.Ok? <==> Readable(d)
    ensures r.Ok? ==>
      && ("description" in d ==> d["description"] == Str(r.value.description))
      && ("description" !in d ==> r.value.description == "")
      && ("priority" in d ==> d["priority"] == Str(r.value.priority))
      && ("priority" !in d ==> r.value.priority == "medium")
      && ("completed" in d ==> d["completed"] == Bool(r.value.completed))
      && ("completed" !in d ==> !r.value.completed)
    ensures r.Ok? && "creation_date" in d ==>
      d["creation_date"].Str? && Parse(d["creation_date"].s) == Some(r.value.created)
    ensures r.Ok? && r.value.due.Some? ==>
      "due_date" in d && d["due_date"].Str? && Parse(d["due_date"].s) == r.value.due
  {
    var created :-
      if "creation_date" !in d then Ok(now)
      else if Truthy(d["creation_date"]) then ParseStamp("creation_date", d["creation_date"])
      else Err(BadValue("creation_date"));
    var due :-
      if "due_date" in d && Truthy(d["due_date"]) then
        (var t :- ParseStamp("due_date", d["due_date"]); Ok(Some(t)))
      else Ok(None);
    if !(d.Keys <= FieldNames) then Err(UnexpectedField)
    else if "id" !in d then Err(MissingField("id"))
    else if "title" !in d then Err(MissingField("title"))
    else if !d["id"].Int? then Err(BadValue("id"))
    else if !d["title"].Str? then Err(BadValue("title"))
    else
      var description :- TextField(d, "description", "");
      var priority :- TextField(d, "priority", "medium");
      var completed :-
        if "completed" !in d then Ok(false)
        else if d["completed"].Bool? then Ok(d["completed"].b)
        else Err(BadValue("completed"));
      Ok(Task(d["id"].i, d["title"].s, description, completed, created, due, priority))
  }

  /** A record read back from `to_dict` is the item that was written, field
      for field, whatever the clock says. */
  lemma RecordRoundTrip(t: Task, now: Timestamp)
    ensures FromDict(ToDict(t), now) == Ok(t)
  {
    ParseFormat(t.created);
    if t.due.Some? {
      ParseFormat(t.due.value);
    }
  }

  /** A record holding only an id and a title gets the dataclass defaults:
      empty description, not completed, no due date, medium priority, and the
      current time as creation date. */
  lemma FromDictDefaults(id: int, title: string, now: Timestamp)
    ensures FromDict(map["id" := Int(id), "title" := Str(title)], now)
         == Ok(Task(id, title, "", false, now, None, "medium"))
  {
  }

  /** A null or empty due date reads as "no due date", the same as an
      absent one. */
  lemma FromDictFalsyDue(d: Record, now: Timestamp)
    requires "due_date" in d && !Truthy(d["due_date"])
    ensures FromDict(d, now) == FromDict(d - {"due_date"}, now)
  {
  }
}

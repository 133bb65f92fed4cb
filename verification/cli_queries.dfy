/** The pure rules inside the command handlers of src/main.py: the search
    filter, the title match used to delete by title, and the reading of a
    `completed` value. */
module CliQueries {
  import opened Wrappers
  import opened Timestamps
  import opened Items
  import opened Manager
  import Text

  /** The tasks of `xs` that `keep` accepts, in their original order. */
  function Filter(xs: seq<Task>, keep: Task -> bool): (r: seq<Task>)
    ensures |r| <= |xs|
    ensures forall t :: t in r <==> t in xs && keep(t)
  {
    if |xs| == 0 then []
    else
      var init := xs[..|xs| - 1];
      var last := xs[|xs| - 1];
      assert forall t :: t in xs <==> t in init || t == last;
      if keep(last) then Filter(init, keep) + [last] else Filter(init, keep)
  }

  /** Filtering keeps order: filtering a concatenation concatenates the
      filtered parts. */
  lemma {:induction false} FilterAppend(a: seq<Task>, b: seq<Task>, keep: Task -> bool)
    ensures Filter(a + b, keep) == Filter(a, keep) + Filter(b, keep)
    decreases |b|
  {
    if |b| > 0 {
      var b' := b[..|b| - 1];
      assert (a + b)[..|a + b| - 1] == a + b';
      FilterAppend(a, b', keep);
    } else {
      assert a + b == a;
    }
  }

  /** A filter that accepts no task returns nothing. */
  lemma {:induction false} FilterNone(xs: seq<Task>, keep: Task -> bool)
    requires forall t :: t in xs ==> !keep(t)
    ensures Filter(xs, keep) == []
    decreases |xs|
  {
    if |xs| > 0 {
      var init := xs[..|xs| - 1];
      assert forall t :: t in init ==> t in xs;
      FilterNone(init, keep);
    }
  }

  // ---- Search ---------------------------------------------------------------

  /** The test in `handle_search`: the id matches when one is given, and the
      due date matches when a date is given (a task without a due date never
      matches a date). */
  predicate SearchMatch(t: Task, id: Option<int>, date: Option<Timestamp>) {
    && (id.None? || t.id == id.value)
    && (date.None? || t.due == Some(date.value))
  }

  function SearchKeep(id: Option<int>, date: Option<Timestamp>): Task -> bool {
    (t: Task) => SearchMatch(t, id, date)
  }

  /** The loop of `handle_search` over the listed tasks. */
  method Search(todos: seq<Task>, id: Option<int>, date: Option<Timestamp>) returns (found: seq<Task>)
    ensures found == Filter(todos, SearchKeep(id, date))
    ensures forall t :: t in found <==> t in todos && SearchMatch(t, id, date)
  {
    found := [];
    for i := 0 to |todos|
      invariant found == Filter(todos[..i], SearchKeep(id, date))
    {
      assert todos[..i + 1][..i] == todos[..i];
      if SearchMatch(todos[i], id, date) {
        found := found + [todos[i]];
      }
    }
    assert todos[..|todos|] == todos;
  }

  /** With neither an id nor a date, search returns every task in order. */
  lemma SearchWithoutFilters(todos: seq<Task>)
    ensures Filter(todos, SearchKeep(None, None)) == todos
  {
  }

  /** When ids are unique, searching by id finds at most one task. */
  lemma {:induction false} SearchByIdAtMostOne(todos: seq<Task>, id: int, date: Option<Timestamp>)
    requires DistinctIds(todos)
    ensures |Filter(todos, SearchKeep(Some(id), date))| <= 1
    decreases |todos|
  {
    if |todos| > 0 {
      var init := todos[..|todos| - 1];
      var last := todos[|todos| - 1];
      var keep := SearchKeep(Some(id), date);
      if keep(last) {
        forall t | t in init
          ensures !keep(t)
        {
          var j :| 0 <= j < |init| && init[j] == t;
          assert todos[j] == t;
        }
        FilterNone(init, keep);
      } else {
        SearchByIdAtMostOne(init, id, date);
      }
    }
  }

  // ---- Delete by title ------------------------------------------------------

  function TitleKeep(identifier: string): Task -> bool {
    (t: Task) => Text.Lower(t.title) == Text.Lower(identifier)
  }

  /** The candidates of `interactive_delete` for a non-numeric identifier:
      the tasks whose title equals it, ignoring case. */
  function TitleMatches(todos: seq<Task>, identifier: string): (r: seq<Task>)
    ensures forall t :: t in r <==> t in todos && Text.Lower(t.title) == Text.Lower(identifier)
  {
    Filter(todos, TitleKeep(identifier))
  }

  /** The case of the identifier does not matter. */
  lemma TitleMatchesIgnoresCase(todos: seq<Task>, a: string, b: string)
    requires Text.Lower(a) == Text.Lower(b)
    ensures TitleMatches(todos, a) == TitleMatches(todos, b)
  {
  }

  // ---- The `completed` value of `update` -------------------------------------

  const TrueWords: set<string> := {"true", "yes", "1"}
  const FalseWords: set<string> := {"false", "no", "0"}

  /** `handle_update` reading the value given for the `completed` field:
      `None` is the "Invalid value" rejection. */
  function ParseCompleted(value: string): (r: Option<bool>)
    ensures r == Some(true) <==> Text.Lower(value) in TrueWords
    ensures r == Some(false) <==> Text.Lower(value) in FalseWords
    ensures r.None? <==> Text.Lower(value) !in TrueWords + FalseWords
  {
    var v := Text.Lower(value);
    if v in TrueWords then Some(true)
    else if v in FalseWords then Some(false)
    else None
  }

  /** Lower-casing the value first changes nothing. */
  lemma ParseCompletedIgnoresCase(value: string)
    ensures ParseCompleted(Text.Lower(value)) == ParseCompleted(value)
  {
    Text.LowerIdempotent(value);
  }

  lemma ParseCompletedExamples()
    ensures ParseCompleted("Yes") == Some(true) && ParseCompleted("TRUE") == Some(true)
    ensures ParseCompleted("1") == Some(true)
    ensures ParseCompleted("No") == Some(false) && ParseCompleted("0") == Some(false)
    ensures ParseCompleted("maybe").None? && ParseCompleted("").None?
  {
    Text.LowerIs("Yes", "yes");
    Text.LowerIs("TRUE", "true");
    Text.LowerIs("No", "no");
    Text.LowerOfLowerCase("1");
    Text.LowerOfLowerCase("0");
    Text.LowerOfLowerCase("maybe");
  }

  datatype CompletedOutcome = InvalidValue | Applied(outcome: UpdateOutcome)

  /** The `completed` branch of `handle_update` with no other flags: an
      unreadable value is refused before the store is touched; otherwise the
      flag is set through `update_todo`. `main` sends the `update` command to
      `interactive_update` instead, which is not modelled, so this handler is
      not reached from the command loop. */
  function UpdateCompleted(s: Store, id: int, value: string): (r: Step<CompletedOutcome>)
    ensures ParseCompleted(value).None? <==> r.result == InvalidValue
    ensures ParseCompleted(value).None? ==> r.store == s
    ensures r.store.nextId == s.nextId && r.store.todos.Keys == s.todos.Keys
    ensures forall k :: k in s.todos && k != id ==> r.store.todos[k] == s.todos[k]
    ensures ParseCompleted(value).Some? && id in s.todos ==>
      && r.result == Applied(Updated(r.store.todos[id]))
      && r.store.todos[id] == s.todos[id].(completed := ParseCompleted(value).value)
    ensures ParseCompleted(value).Some? && id !in s.todos ==> r == Step(s, Applied(NotFound))
  {
    match ParseCompleted(value)
    case None => Step(s, InvalidValue)
    case Some(b) =>
      var u := Update(s, id, Patch(None, None, Some(b), None, None));
      Step(u.store, Applied(u.result))
  }
}

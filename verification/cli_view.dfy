/** The orderings `handle_view` offers. Python's `list.sort(key=...)` is
    stable and compares keys with `<`; it is modelled by a stable insertion
    sort under the key preorder `KeyLe`. */
module CliView {
  import opened Wrappers
  import opened Timestamps
  import opened Items
  import opened Manager
  import Text

  datatype SortKey = ByCreationDate | ByDueDate | ByPriority | ByStatus | ByTitle | ById

  /** The `sort_by` names `handle_view` recognises; any other name leaves the
      list as listed. */
  function ParseSortKey(name: string): Option<SortKey> {
    if name == "creation_date" then Some(ByCreationDate)
    else if name == "due_date" then Some(ByDueDate)
    else if name == "priority" then Some(ByPriority)
    else if name == "status" then Some(ByStatus)
    else if name == "title" then Some(ByTitle)
    else if name == "id" then Some(ById)
    else None
  }

  /** `priority_order.get(todo.priority, 4)`; the stored text is not
      lower-cased again, so "HIGH" from a hand-edited file ranks 4. */
  function PriorityRank(p: string): (r: int)
    ensures 1 <= r <= 4
    ensures r < 4 <==> p in Priorities
  {
    if p == "high" then 1 else if p == "medium" then 2 else if p == "low" then 3 else 4
  }

  /** The due-date key `(todo.due_date is None, todo.due_date)` compared as
      a Python tuple. */
  predicate DueLe(a: Option<Timestamp>, b: Option<Timestamp>) {
    match (a, b)
    case (Some(x), Some(y)) => x <= y
    case (Some(_), None) => true
    case (None, Some(_)) => false
    case (None, None) => true
  }

  /** The key of `a` is not greater than the key of `b`. */
  predicate KeyLe(k: SortKey, a: Task, b: Task) {
    match k
    case ByCreationDate => a.created <= b.created
    case ByDueDate => DueLe(a.due, b.due)
    case ByPriority => PriorityRank(a.priority) <= PriorityRank(b.priority)
    case ByStatus => !a.completed || b.completed
    case ByTitle => Text.LexLe(Text.Lower(a.title), Text.Lower(b.title))
    case ById => a.id <= b.id
  }

  lemma KeyLeTotal(k: SortKey, a: Task, b: Task)
    ensures KeyLe(k, a, b) || KeyLe(k, b, a)
  {
    if k == ByTitle {
      Text.LexLeTotal(Text.Lower(a.title), Text.Lower(b.title));
    }
  }

  lemma KeyLeTransitive(k: SortKey, a: Task, b: Task, c: Task)
    requires KeyLe(k, a, b) && KeyLe(k, b, c)
    ensures KeyLe(k, a, c)
  {
    if k == ByTitle {
      Text.LexLeTransitive(Text.Lower(a.title), Text.Lower(b.title), Text.Lower(c.title));
    }
  }

  predicate SortedBy(k: SortKey, xs: seq<Task>) {
    forall i, j :: 0 <= i < j < |xs| ==> KeyLe(k, xs[i], xs[j])
  }

  /** Places `x` after every element whose key is not greater than its own. */
  function Insert(k: SortKey, x: Task, xs: seq<Task>): (r: seq<Task>)
    requires SortedBy(k, xs)
    ensures SortedBy(k, r)
    ensures multiset(r) == multiset(xs) + multiset{x}
  {
    if |xs| == 0 then [x]
    else if !KeyLe(k, xs[0], x) then
      KeyLeTotal(k, xs[0], x);
      forall j | 0 <= j < |xs|
        ensures KeyLe(k, x, xs[j])
      {
        if j > 0 {
          KeyLeTransitive(k, x, xs[0], xs[j]);
        }
      }
      [x] + xs
    else
      var rest := Insert(k, x, xs[1..]);
      assert xs == [xs[0]] + xs[1..];
      forall j | 0 <= j < |rest|
        ensures KeyLe(k, xs[0], rest[j])
      {
        assert rest[j] in multiset(rest);
        if rest[j] != x {
          assert rest[j] in multiset(xs[1..]);
          var i :| 0 <= i < |xs[1..]| && xs[1..][i] == rest[j];
          assert xs[i + 1] == rest[j];
        }
      }
      [xs[0]] + rest
  }

  /** `todos.sort(key=...)` for the chosen key. */
  function Sort(k: SortKey, xs: seq<Task>): (r: seq<Task>)
    ensures SortedBy(k, r)
    ensures multiset(r) == multiset(xs)
  {
    if |xs| == 0 then []
    else
      assert xs == xs[..|xs| - 1] + [xs[|xs| - 1]];
      Insert(k, xs[|xs| - 1], Sort(k, xs[..|xs| - 1]))
  }

  /** The order `handle_view` prints the listed tasks in. */
  function View(todos: seq<Task>, sortBy: string): (r: seq<Task>)
    ensures multiset(r) == multiset(todos)
    ensures ParseSortKey(sortBy).None? ==> r == todos
    ensures ParseSortKey(sortBy).Some? ==> SortedBy(ParseSortKey(sortBy).value, r)
  {
    match ParseSortKey(sortBy)
    case None => todos
    case Some(k) => Sort(k, todos)
  }

  // ---- What each ordering promises ------------------------------------------

  /** High before medium before low before anything else. */
  lemma PriorityOrder(xs: seq<Task>, i: int, j: int)
    requires 0 <= i < j < |Sort(ByPriority, xs)|
    ensures var r := Sort(ByPriority, xs);
      && (r[j].priority == "high" ==> r[i].priority == "high")
      && (r[j].priority == "medium" ==> r[i].priority in {"high", "medium"})
      && (r[i].priority !in Priorities ==> r[j].priority !in Priorities)
  {
  }

  /** Every task with a due date comes before every task without one, and
      dated tasks are in ascending date order. */
  lemma DueDateOrder(xs: seq<Task>, i: int, j: int)
    requires 0 <= i < j < |Sort(ByDueDate, xs)|
    ensures var r := Sort(ByDueDate, xs);
      && (r[i].due.None? ==> r[j].due.None?)
      && (r[i].due.Some? && r[j].due.Some? ==> r[i].due.value <= r[j].due.value)
  {
  }

  /** All pending tasks come before all completed ones. */
  lemma StatusOrder(xs: seq<Task>, i: int, j: int)
    requires 0 <= i < j < |Sort(ByStatus, xs)|
    ensures var r := Sort(ByStatus, xs);
      r[i].completed ==> r[j].completed
  {
  }

  /** Sorting keeps exactly the tasks it was given, so unique ids stay
      unique. */
  lemma SortKeepsDistinctIds(k: SortKey, xs: seq<Task>)
    requires DistinctIds(xs)
    ensures DistinctIds(Sort(k, xs))
  {
    var r := Sort(k, xs);
    forall i, j | 0 <= i < j < |r|
      ensures r[i].id != r[j].id
    {
      assert r[i] in multiset(xs) && r[j] in multiset(xs);
      var p :| 0 <= p < |xs| && xs[p] == r[i];
      var q :| 0 <= q < |xs| && xs[q] == r[j];
      if p == q {
        // The same entry of xs at two positions of r would occur twice in r.
        assert multiset(r)[r[i]] >= 2 by {
          TwoPositions(r, i, j);
        }
        OnePosition(xs, p);
        assert false;
      }
    }
  }

  /** With unique ids, the id ordering is strictly increasing. */
  lemma IdOrder(xs: seq<Task>, i: int, j: int)
    requires DistinctIds(xs)
    requires 0 <= i < j < |Sort(ById, xs)|
    ensures Sort(ById, xs)[i].id < Sort(ById, xs)[j].id
  {
    SortKeepsDistinctIds(ById, xs);
  }

  lemma TwoPositions(r: seq<Task>, i: int, j: int)
    requires 0 <= i < j < |r| && r[i] == r[j]
    ensures multiset(r)[r[i]] >= 2
  {
    assert r == r[..j] + r[j..];
    assert r[i] in r[..j];
    assert r[j..] == [r[j]] + r[j + 1..];
  }

  /** An entry of a sequence whose ids are unique occurs in it once. */
  lemma {:induction false} OnePosition(xs: seq<Task>, p: int)
    requires DistinctIds(xs) && 0 <= p < |xs|
    ensures multiset(xs)[xs[p]] == 1
    decreases |xs|
  {
    var t := xs[p];
    var init := xs[..|xs| - 1];
    assert xs == init + [xs[|xs| - 1]];
    if p == |xs| - 1 {
      forall q | 0 <= q < |init|
        ensures init[q] != t
      {
        assert xs[q].id != xs[p].id;
      }
      assert t !in init;
    } else {
      OnePosition(init, p);
    }
  }
}

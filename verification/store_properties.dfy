/** Properties of the task store that relate several operations: loading
    and saving, repeated deletes and completions, and the id counter. */
module StoreProperties {
  import opened Wrappers
  import opened Timestamps
  import opened Items
  import opened Manager
  import Text

  // ---- Load -----------------------------------------------------------------

  /** One unreadable record empties the whole store: no partial recovery. */
  lemma LoadAllOrNothing(items: seq<Record>, now: Timestamp, i: int)
    requires 0 <= i < |items| && FromDict(items[i], now).Err?
    ensures Load(Records(items), now) == Empty
  {
  }

  /** When every record reads, the store holds exactly the records' ids. */
  lemma LoadKeys(items: seq<Record>, now: Timestamp)
    requires DecodeAll(items, now).Ok?
    ensures Load(Records(items), now).todos.Keys == Ids(DecodeAll(items, now).value)
  {
  }

  lemma {:induction false} DecodeSaved(listing: seq<Task>, now: Timestamp)
    ensures DecodeAll(Save(listing), now) == Ok(listing)
    decreases |listing|
  {
    if |listing| > 0 {
      RecordRoundTrip(listing[0], now);
      assert Save(listing)[1..] == Save(listing[1..]);
      DecodeSaved(listing[1..], now);
      assert [listing[0]] + listing[1..] == listing;
    }
  }

  /** The last task with a given id is the one the index keeps. */
  lemma {:induction false} IndexLastWins(ts: seq<Task>, i: int)
    requires 0 <= i < |ts|
    requires forall j :: i < j < |ts| ==> ts[j].id != ts[i].id
    ensures Index(ts)[ts[i].id] == ts[i]
    decreases |ts|
  {
    if i < |ts| - 1 {
      IndexLastWins(ts[..|ts| - 1], i);
    }
  }

  /** A file of readable records loads every one of them under its id,
      except a record whose id a later record repeats. */
  lemma LoadKeepsRecord(items: seq<Record>, now: Timestamp, i: int)
    requires 0 <= i < |items| && Readable(items[i])
    requires forall j :: 0 <= j < |items| ==>
      Readable(items[j]) && (i < j ==> items[j]["id"] != items[i]["id"])
    ensures FromDict(items[i], now).Ok?
    ensures
      var t := FromDict(items[i], now).value;
      var m := Load(Records(items), now).todos;
      t.id in m && m[t.id] == t
  {
    DecodeAllReads(items, now);
    IndexLastWins(DecodeAll(items, now).value, i);
  }

  /** Saving a listing of a valid store and loading the file again gives
      back every task unchanged; the counter is recomputed from the ids. */
  lemma SaveLoadRoundTrip(s: Store, listing: seq<Task>, now: Timestamp)
    requires Valid(s) && IsListing(listing, s.todos)
    ensures Load(Records(Save(listing)), now).todos == s.todos
    ensures IsNextId(Load(Records(Save(listing)), now).nextId, s.todos.Keys)
  {
    DecodeSaved(listing, now);
    var m := Index(listing);
    assert m.Keys == s.todos.Keys;
    forall k | k in m
      ensures m[k] == s.todos[k]
    {
      var i :| 0 <= i < |listing| && listing[i].id == k;
      IndexLastWins(listing, i);
    }
  }

  /** After a reload the counter never exceeds the one the store had, as
      long as tasks remain; it drops below it when the largest ids were
      deleted. */
  lemma ReloadCounterAtMost(s: Store, listing: seq<Task>, now: Timestamp)
    requires Valid(s) && IsListing(listing, s.todos) && s.todos != map[]
    ensures Load(Records(Save(listing)), now).nextId <= s.nextId
  {
    SaveLoadRoundTrip(s, listing, now);
  }

  /** The id of a deleted task with the largest id is handed out again after
      the file is reloaded: add "a" and "b" (ids 1 and 2), delete 2, reload,
      and the next add gets id 2, while the store before the reload would
      have handed out 3. */
  lemma IdReusedAfterReload(now: Timestamp)
    ensures
      var s1 := Add(Empty, "a", "", None, "medium", now).store;
      var s2 := Add(s1, "b", "", None, "medium", now).store;
      var s3 := Delete(s2, 2).store;
      var listing := [Task(1, "a", "", false, now, None, "medium")];
      var reloaded := Load(Records(Save(listing)), now);
      var again := Add(reloaded, "c", "", None, "medium", now);
      && s3.nextId == 3 && IsListing(listing, s3.todos)
      && again.result.Ok? && again.result.value.id == 2
  {
    Text.LowerOfLowerCase("medium");
    var t1 := Task(1, "a", "", false, now, None, "medium");
    var t2 := Task(2, "b", "", false, now, None, "medium");
    var s1 := Add(Empty, "a", "", None, "medium", now).store;
    assert s1 == Store(map[1 := t1], 2);
    var s2 := Add(s1, "b", "", None, "medium", now).store;
    assert s2 == Store(map[1 := t1, 2 := t2], 3);
    var s3 := Delete(s2, 2).store;
    assert s3 == Store(map[1 := t1], 3);
    var listing := [t1];
    assert Ids(listing) == {1};
    SaveLoadRoundTrip(s3, listing, now);
    var reloaded := Load(Records(Save(listing)), now);
    assert reloaded == Store(map[1 := t1], 2);
  }

  // ---- Add ------------------------------------------------------------------

  /** In a valid store, add hands out an id no live task has, so the store
      grows by exactly one task. */
  lemma AddFreshId(s: Store, title: string, description: string, due: Option<Timestamp>,
                   priority: string, now: Timestamp)
    requires Valid(s)
    requires Add(s, title, description, due, priority, now).result.Ok?
    ensures s.nextId !in s.todos
    ensures |Add(s, title, description, due, priority, now).store.todos| == |s.todos| + 1
  {
  }

  /** Ids handed out by successive adds strictly increase, whatever the
      fields of either task and the clock reading of either add. */
  lemma AddIdsIncrease(s: Store, a: string, da: string, dueA: Option<Timestamp>, pa: string,
                       nowA: Timestamp, b: string, db: string, dueB: Option<Timestamp>,
                       pb: string, nowB: Timestamp)
    requires Add(s, a, da, dueA, pa, nowA).result.Ok?
    requires Add(Add(s, a, da, dueA, pa, nowA).store, b, db, dueB, pb, nowB).result.Ok?
    ensures
      var first := Add(s, a, da, dueA, pa, nowA);
      var second := Add(first.store, b, db, dueB, pb, nowB);
      first.result.value.id < second.result.value.id
  {
  }

  // ---- Update ---------------------------------------------------------------

  /** An update with no fields returns the task unchanged and changes
      nothing. */
  lemma UpdateNoChanges(s: Store, id: int)
    requires id in s.todos
    ensures Update(s, id, NoChanges) == Step(s, Updated(s.todos[id]))
  {
  }

  /** A due date can never be cleared by an update: `None` means "leave as
      is". */
  lemma UpdateKeepsDueDate(s: Store, id: int, p: Patch)
    requires id in s.todos && s.todos[id].due.Some?
    ensures Update(s, id, p).store.todos[id].due.Some?
  {
  }

  /** An invalid priority is refused only after the other fields have been
      written: the store is left exactly as the same update without a
      priority would leave it, and only the outcome differs. */
  lemma UpdateInvalidPriorityAfterWrites(s: Store, id: int, p: Patch)
    requires id in s.todos && p.title != Some("")
    requires p.priority.Some? && !IsValidPriority(p.priority.value)
    ensures
      var r := Update(s, id, p);
      var q := Update(s, id, p.(priority := None));
      && r.result == Rejected(InvalidPriority)
      && q.result.Updated?
      && r.store == q.store
      && r.store.todos[id].priority == s.todos[id].priority
  {
  }

  // ---- Delete and complete --------------------------------------------------

  /** Deleting the same id twice: the second delete reports false and
      changes nothing. */
  lemma DeleteTwice(s: Store, id: int)
    ensures !Delete(Delete(s, id).store, id).result
    ensures Delete(Delete(s, id).store, id).store == Delete(s, id).store
  {
  }

  lemma MarkCompleteIdempotent(s: Store, id: int)
    ensures MarkComplete(MarkComplete(s, id).store, id).store == MarkComplete(s, id).store
  {
  }

  // ---- A session ------------------------------------------------------------

  /** Add "Buy milk" with priority high, fail to add "Call bank" with a bogus
      priority, complete task 1, then delete it twice. */
  lemma Session(now: Timestamp)
    ensures
      var a := Add(Empty, "Buy milk", "", None, "high", now);
      var b := Add(a.store, "Call bank", "", None, "bogus", now);
      var c := MarkComplete(b.store, 1);
      var d := Delete(c.store, 1);
      var e := Delete(d.store, 1);
      && a.result == Ok(Task(1, "Buy milk", "", false, now, None, "high"))
      && b.result == Err(InvalidPriority) && |b.store.todos| == 1
      && c.result == Some(Task(1, "Buy milk", "", true, now, None, "high"))
      && d.result && !e.result && e.store.todos == map[]
  {
    Text.LowerOfLowerCase("high");
    Text.LowerOfLowerCase("bogus");
  }
}

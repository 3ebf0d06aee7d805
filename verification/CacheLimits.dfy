/**
 * What the coherence conditions are for: for each of the four on lists and the three on single tasks, a
 * run that breaks only it and ends, with no reader or writer left, in a stale entry. The stale value
 * lasts until its time to live runs out or, for a list, the next bump.
 */
module CacheLimits {
  import opened Outcomes
  import opened TaskQueries
  import opened TaskCache
  import CacheCoherence
  import EntryCoherence

  /** The one condition a run may break. */
  datatype Waived = ForLists(list: CacheCoherence.Condition) | ForEntry(entry: EntryCoherence.Condition, id: Uuid)

  predicate Allowed(w: Waived, s: State, step: Step)
    requires Enabled(s, step)
  {
    match w
    case ForLists(c) =>
      && (c.VersionIsKept? || CacheCoherence.Meets(CacheCoherence.VersionIsKept, s, step))
      && (c.BumpsCanRead? || CacheCoherence.Meets(CacheCoherence.BumpsCanRead, s, step))
      && (c.BumpsCanWrite? || CacheCoherence.Meets(CacheCoherence.BumpsCanWrite, s, step))
      && (c.VersionNeverFalls? || CacheCoherence.Meets(CacheCoherence.VersionNeverFalls, s, step))
    case ForEntry(c, id) =>
      && (c.ReadersCaughtUp? || EntryCoherence.Meets(EntryCoherence.ReadersCaughtUp, id, s, step))
      && (c.DeleteTakes? || EntryCoherence.Meets(EntryCoherence.DeleteTakes, id, s, step))
      && (c.OthersLeaveRow? || EntryCoherence.Meets(EntryCoherence.OthersLeaveRow, id, s, step))
  }

  ghost predicate ReachesBut(w: Waived, from: State, steps: seq<Step>, to: State)
    decreases |steps|
  {
    if steps == [] then from == to
    else Enabled(from, steps[0]) && Allowed(w, from, steps[0]) && ReachesBut(w, Do(from, steps[0]), steps[1..], to)
  }

  ghost predicate CanReach(w: Waived, from: State, to: State) {
    exists steps :: ReachesBut(w, from, steps, to)
  }

  lemma {:induction false} Appended(w: Waived, from: State, steps: seq<Step>, mid: State, step: Step)
    requires ReachesBut(w, from, steps, mid) && Enabled(mid, step) && Allowed(w, mid, step)
    ensures ReachesBut(w, from, steps + [step], Do(mid, step))
    decreases |steps|
  {
    hide Allowed, Do, Enabled;
    if steps == [] {
      assert [step][1..] == [];
      assert steps + [step] == [step];
      assert ReachesBut(w, Do(mid, step), [], Do(mid, step));
    } else {
      Appended(w, Do(from, steps[0]), steps[1..], mid, step);
      assert (steps + [step])[1..] == steps[1..] + [step];
    }
  }

  lemma Then(w: Waived, from: State, s: State, step: Step)
    requires CanReach(w, from, s) && Enabled(s, step) && Allowed(w, s, step)
    ensures CanReach(w, from, Do(s, step))
  {
    hide Allowed, Do, Enabled;
    var steps :| ReachesBut(w, from, steps, s);
    Appended(w, from, steps, s, step);
  }

  lemma Nothing(w: Waived, from: State)
    ensures CanReach(w, from, from)
  {
    assert ReachesBut(w, from, [], from);
  }

  // ----- lists -----

  function Reading(s: State, n: nat, r: ListReader): State { s.(lists := s.lists[n := r]) }

  /** A reader up to its miss. */
  lemma MissEntry(w: Waived, from: State, s: State, n: nat, query: ListQuery)
    requires w.ForLists? && CanReach(w, from, s) && n !in s.lists && ListKey(CurrentVersion(s), query) !in s.cache
    ensures CanReach(w, from, Reading(s, n, ListReading(query, s.now, CurrentVersion(s), None, None)))
  {
    hide CanReach, ListKey, Answer;
    var s1 := Reading(s, n, ListStarted(query, s.now));
    Then(w, from, s, StartList(n, query));
    var s2 := Reading(s, n, ListKeyed(query, s.now, CurrentVersion(s)));
    assert s2.lists == s1.lists[n := ListKeyed(query, s.now, CurrentVersion(s))];
    Then(w, from, s1, ReadVersion(n, true));
    assert Reading(s, n, ListReading(query, s.now, CurrentVersion(s), None, None)).lists ==
           s2.lists[n := ListReading(query, s.now, CurrentVersion(s), None, None)];
    Then(w, from, s2, LookUpList(n, true));
  }

  /** Its two reads of the table. */
  lemma ReadBoth(w: Waived, from: State, s: State, n: nat, query: ListQuery, version: nat) returns (s': State)
    requires w.ForLists? && CanReach(w, from, Reading(s, n, ListReading(query, s.now, version, None, None)))
    ensures CanReach(w, from, s')
    ensures s' == Reading(s, n,
              ListReading(query, s.now, version, Some(Rows(query, s.table)), Some(Total(query, s.table))))
                  .(fetched := s'.fetched)
  {
    hide CanReach, ListKey, Answer, Rows, Total;
    var s1 := Reading(s, n, ListReading(query, s.now, version, None, None));
    Then(w, from, s1, ReadRows(n));
    var s2 := Do(s1, ReadRows(n));
    Then(w, from, s2, ReadTotal(n));
    s' := Do(s2, ReadTotal(n));
    assert s'.lists == s.lists[n := s'.lists[n]];
  }

  /** A reader that meets nobody fills the entry under the current version. */
  lemma FillEntry(w: Waived, from: State, s: State, n: nat, query: ListQuery) returns (s': State)
    requires w.ForLists? && CanReach(w, from, s) && n !in s.lists && ListKey(CurrentVersion(s), query) !in s.cache
    ensures CanReach(w, from, s')
    ensures s'.cache == s.cache[ListKey(CurrentVersion(s), query) :=
                                  Entry(Listed(Answer(query, s.table)), s.now, s.now, Some(s.now + s.ttl))]
    ensures s'.table == s.table && s'.writers == s.writers && s'.lists == s.lists && s'.now == s.now && s'.ttl == s.ttl
  {
    hide CanReach, ListKey;
    MissEntry(w, from, s, n, query);
    var s1 := ReadBoth(w, from, s, n, query, CurrentVersion(s));
    Then(w, from, s1, StoreList(n, true));
    s' := Do(s1, StoreList(n, true));
    assert s'.lists == s.lists;
  }

  /** A writer's create. */
  lemma CommitCreate(w: Waived, from: State, s: State, n: nat, task: Task) returns (s': State)
    requires w.ForLists? && CanReach(w, from, s) && n !in s.writers
    ensures CanReach(w, from, s')
    ensures s' == s.(table := [task] + s.table, writers := s.writers[n := Writer(None, ToRead)])
    ensures CurrentVersion(s') == CurrentVersion(s)
  {
    Then(w, from, s, Commit(n, Create(task)));
    s' := Do(s, Commit(n, Create(task)));
  }

  /** A create with its bump's read. */
  lemma CommitAndRead(w: Waived, from: State, s: State, n: nat, task: Task) returns (s': State)
    requires w.ForLists? && CanReach(w, from, s) && n !in s.writers
    ensures CanReach(w, from, s')
    ensures s' == s.(table := [task] + s.table, writers := s.writers[n := Writer(None, ToWrite(CurrentVersion(s)))])
  {
    hide CanReach;
    var s1 := CommitCreate(w, from, s, n, task);
    Then(w, from, s1, BumpRead(n, true));
    s' := Do(s1, BumpRead(n, true));
  }

  /** A bump's write. */
  lemma FinishBump(w: Waived, from: State, s: State, n: nat) returns (s': State)
    requires CanReach(w, from, s) && Enabled(s, BumpWrite(n, true)) && Allowed(w, s, BumpWrite(n, true))
    ensures CanReach(w, from, s')
    ensures s' == s.(cache := s.cache[VERSION_KEY := Entry(Version(s.writers[n].bump.read + 1), s.now, s.now, None)],
                     writers := s.writers[n := s.writers[n].(bump := Bumped)])
    ensures CurrentVersion(s') == s.writers[n].bump.read + 1
  {
    Then(w, from, s, BumpWrite(n, true));
    s' := Do(s, BumpWrite(n, true));
  }

  ghost predicate StaleAtRest(s: State, query: ListQuery) {
    var key := ListKey(CurrentVersion(s), query);
    && !CacheCoherence.Bumping(s) && s.lists == map[]
    && key in s.cache && s.cache[key].value.Listed?
    && s.cache[key].value != Listed(Answer(query, s.table))
  }

  lemma OneMoreSelected(query: ListQuery, task: Task, table: seq<Task>)
    requires Selects(query, task)
    ensures Total(query, [task] + table) == Total(query, table) + 1
    ensures Answer(query, [task] + table) != Answer(query, table)
  {
    assert ([task] + table)[1..] == table;
  }

  /** The page stored before a create that it should show is stale. */
  lemma CreateMakesStale(s: State, query: ListQuery, task: Task, table: seq<Task>)
    requires Selects(query, task) && s.table == [task] + table && !CacheCoherence.Bumping(s) && s.lists == map[]
    requires ListKey(CurrentVersion(s), query) in s.cache
    requires s.cache[ListKey(CurrentVersion(s), query)].value == Listed(Answer(query, table))
    ensures StaleAtRest(s, query)
  {
    hide ListKey, Answer, Selects;
    OneMoreSelected(query, task, table);
  }

  /** A bump whose write fails leaves the old list under the current version. */
  lemma {:induction false} FailedBumpGoesStale(ttl: nat, table: seq<Task>, query: ListQuery, task: Task)
    requires Selects(query, task)
    ensures exists s :: CanReach(ForLists(CacheCoherence.BumpsCanWrite), Initial(ttl, table), s)
              && StaleAtRest(s, query)
  {
    hide CanReach, ListKey, Answer, Selects, StaleAtRest;
    var s0, w := Initial(ttl, table), ForLists(CacheCoherence.BumpsCanWrite);
    Nothing(w, s0);
    var s1 := FillEntry(w, s0, s0, 0, query);
    CacheCoherence.ListKeyIsNotVersionKey(0, query);
    var s2 := CommitAndRead(w, s0, s1, 0, task);
    Then(w, s0, s2, BumpWrite(0, false));
    var s3 := Do(s2, BumpWrite(0, false));
    CreateMakesStale(s3, query, task, table);
  }

  /** A first create, a complete bump, and a list stored under version 1. */
  lemma FillVersionOne(w: Waived, s0: State, query: ListQuery, task: Task) returns (s: State)
    requires w.ForLists? && s0 == Initial(s0.ttl, s0.table)
    ensures CanReach(w, s0, s)
    ensures s.writers == map[1 := Writer(None, Bumped)] && s.lists == map[]
    ensures VERSION_KEY in s.cache && CurrentVersion(s) == 1
    ensures ListKey(1, query) in s.cache && s.cache[ListKey(1, query)].value == Listed(Answer(query, s.table))
  {
    hide CanReach, ListKey, Answer;
    Nothing(w, s0);
    CacheCoherence.ListKeyIsNotVersionKey(1, query);
    var s1 := CommitAndRead(w, s0, s0, 1, task);
    var s2 := FinishBump(w, s0, s1, 1);
    s := FillEntry(w, s0, s2, 0, query);
  }

  /** A bump whose read fails takes the version for 0 and writes 1 again, over a list stored under 1. */
  lemma {:induction false} FailedReadGoesStale(ttl: nat, table: seq<Task>, query: ListQuery, t1: Task, t2: Task)
    requires Selects(query, t2)
    ensures exists s :: CanReach(ForLists(CacheCoherence.BumpsCanRead), Initial(ttl, table), s) && StaleAtRest(s, query)
  {
    hide CanReach, ListKey, Answer, Selects, StaleAtRest;
    var s0, w := Initial(ttl, table), ForLists(CacheCoherence.BumpsCanRead);
    var s1 := FillVersionOne(w, s0, query, t1);
    CacheCoherence.ListKeyIsNotVersionKey(1, query);
    var s2 := CommitCreate(w, s0, s1, 2, t2);
    Then(w, s0, s2, BumpRead(2, false));
    var s3 := Do(s2, BumpRead(2, false));
    var s4 := FinishBump(w, s0, s3, 2);
    CreateMakesStale(s4, query, t2, s1.table);
  }

  /** An evicted version is read as 0, and makes the lists stored under version 0 current again. */
  lemma {:induction false} EvictedVersionGoesStale(ttl: nat, table: seq<Task>, query: ListQuery, task: Task)
    requires Selects(query, task)
    ensures exists s :: CanReach(ForLists(CacheCoherence.VersionIsKept), Initial(ttl, table), s)
              && StaleAtRest(s, query)
  {
    hide CanReach, ListKey, Answer, Selects, StaleAtRest;
    var s0, w := Initial(ttl, table), ForLists(CacheCoherence.VersionIsKept);
    Nothing(w, s0);
    var s1 := FillEntry(w, s0, s0, 0, query);
    CacheCoherence.ListKeyIsNotVersionKey(0, query);
    var s2 := CommitAndRead(w, s0, s1, 0, task);
    var s3 := FinishBump(w, s0, s2, 0);
    Then(w, s0, s3, Evict(VERSION_KEY));
    var s4 := Do(s3, Evict(VERSION_KEY));
    CreateMakesStale(s4, query, task, table);
  }

  /** One writer that overlaps two others moves the version back to a list stored between them. */
  lemma {:induction false} OverlapMovesVersionBack(ttl: nat, table: seq<Task>, query: ListQuery, t1: Task, t2: Task,
                                                   t3: Task)
    requires Selects(query, t3)
    ensures exists s :: CanReach(ForLists(CacheCoherence.VersionNeverFalls), Initial(ttl, table), s)
              && StaleAtRest(s, query)
  {
    hide CanReach, ListKey, Answer, Selects, StaleAtRest;
    var s0, w := Initial(ttl, table), ForLists(CacheCoherence.VersionNeverFalls);
    var s4 := StoreBetween(w, s0, query, t1, t2);
    var s5 := CommitAndRead(w, s0, s4, 3, t3);
    var s6 := FinishBump(w, s0, s5, 3);
    var s7 := FinishBump(w, s0, s6, 1);
    CacheCoherence.ListKeyIsNotVersionKey(1, query);
    CreateMakesStale(s7, query, t3, s4.table);
  }

  /** Writer 1 has read version 0 and waits; writer 2 has bumped to 1, and a list is stored under 1. */
  lemma StoreBetween(w: Waived, s0: State, query: ListQuery, t1: Task, t2: Task) returns (s: State)
    requires w.ForLists? && s0 == Initial(s0.ttl, s0.table)
    ensures CanReach(w, s0, s)
    ensures s.writers == map[1 := Writer(None, ToWrite(0)), 2 := Writer(None, Bumped)] && s.lists == map[]
    ensures CurrentVersion(s) == 1
    ensures ListKey(1, query) in s.cache && s.cache[ListKey(1, query)].value == Listed(Answer(query, s.table))
  {
    hide CanReach, ListKey, Answer;
    Nothing(w, s0);
    CacheCoherence.ListKeyIsNotVersionKey(1, query);
    var s1 := CommitAndRead(w, s0, s0, 1, t1);
    var s2 := CommitAndRead(w, s0, s1, 2, t2);
    var s3 := FinishBump(w, s0, s2, 2);
    s := FillEntry(w, s0, s3, 0, query);
  }

  // ----- single tasks -----

  /** With nobody reading or writing, the by-id cache serves a task that is not in the table. */
  ghost predicate StaleEntryAtRest(s: State, id: Uuid, task: Task) {
    var hit := LookUp(s, TaskKey(id), true);
    && !CacheCoherence.Bumping(s) && !EntryCoherence.Owes(s, id) && s.tasks == map[]
    && hit.Some? && hit.value.value == Single(task) && Find(s.table, id) != Some(task)
  }

  /** A reader up to its miss. */
  lemma MissOne(w: Waived, from: State, s: State, n: nat, id: Uuid)
    requires w.ForEntry? && CanReach(w, from, s) && n !in s.tasks && TaskKey(id) !in s.cache
    ensures CanReach(w, from, s.(tasks := s.tasks[n := TaskMissed(id, None, s.now)]))
  {
    hide CanReach, TaskKey, ListKey, Find;
    Then(w, from, s, StartTask(n, id, None));
    var s1 := s.(tasks := s.tasks[n := TaskStarted(id, None, s.now)]);
    Then(w, from, s1, LookUpTask(n, true));
    assert s.tasks[n := TaskMissed(id, None, s.now)] == s1.tasks[n := TaskMissed(id, None, s.now)];
  }

  /** A reader that has its row. */
  lemma ReadOne(w: Waived, from: State, s: State, n: nat, id: Uuid, task: Task) returns (s': State)
    requires w.ForEntry? && CanReach(w, from, s)
    requires n !in s.tasks && TaskKey(id) !in s.cache && Find(s.table, id) == Some(task)
    ensures CanReach(w, from, s')
    ensures s' == s.(tasks := s.tasks[n := TaskRead(id, None, s.now, task)], fetched := s'.fetched)
  {
    hide CanReach, TaskKey, ListKey, Find;
    MissOne(w, from, s, n, id);
    var s1 := s.(tasks := s.tasks[n := TaskMissed(id, None, s.now)]);
    Then(w, from, s1, ReadTask(n));
    s' := Do(s1, ReadTask(n));
    assert s'.tasks == s.tasks[n := TaskRead(id, None, s.now, task)];
  }

  /** It stores what it read. */
  lemma StoreOne(w: Waived, from: State, s: State, n: nat, r: TaskReader) returns (s': State)
    requires w.ForEntry? && CanReach(w, from, s) && r.TaskRead? && s.tasks == map[n := r]
    ensures CanReach(w, from, s')
    ensures s' == s.(cache := s.cache[TaskKey(r.id) := Entry(Single(r.task), r.since, s.now, Some(s.now + s.ttl))],
                     tasks := map[], given := s'.given)
  {
    hide CanReach, TaskKey, ListKey, Find;
    Then(w, from, s, StoreTask(n, true));
    s' := Do(s, StoreTask(n, true));
    assert s'.tasks == map[];
  }

  function Renaming(id: Uuid, title: string): Write { Update(id, Some(title), None, None, None) }

  lemma RenamedRow(was: Task, id: Uuid, title: string)
    requires was.id == id
    ensures EditedRows([was], Renaming(id, title)) == [was.(title := title)]
  {
  }

  /** An update up to the delete of the by-id entry, which succeeds or not. */
  lemma UpdateTitle(w: Waived, from: State, s: State, n: nat, id: Uuid, title: string, ok: bool) returns (s': State)
    requires w.ForEntry? && w.id == id && CanReach(w, from, s) && n !in s.writers
    requires w.entry.ReadersCaughtUp? || s.tasks == map[]
    requires ok || w.entry.DeleteTakes?
    ensures CanReach(w, from, s')
    ensures s' == s.(table := EditedRows(s.table, Renaming(id, title)),
                     cache := if ok then s.cache - {TaskKey(id)} else s.cache,
                     writers := s.writers[n := Writer(None, ToRead)])
  {
    hide CanReach, EditedRows, ListKey, TaskKey, WithoutId;
    var edit := Renaming(id, title);
    Then(w, from, s, Commit(n, edit));
    var s1 := Do(s, Commit(n, edit));
    Then(w, from, s1, DeleteEntry(n, ok));
    s' := Do(s1, DeleteEntry(n, ok));
    assert s'.writers == s.writers[n := Writer(None, ToRead)];
  }

  /** The bump of a writer that owes nothing else. */
  lemma Bump(w: Waived, from: State, s: State, n: nat) returns (s': State)
    requires w.ForEntry? && CanReach(w, from, s) && n in s.writers && s.writers[n] == Writer(None, ToRead)
    ensures CanReach(w, from, s')
    ensures s'.writers == s.writers[n := Writer(None, Bumped)]
    ensures s' == s.(cache := s'.cache, writers := s'.writers)
    ensures forall id: Uuid {:trigger TaskKey(id)} ::
              && (TaskKey(id) in s'.cache <==> TaskKey(id) in s.cache)
              && (TaskKey(id) in s.cache ==> s'.cache[TaskKey(id)] == s.cache[TaskKey(id)])
  {
    hide CanReach, ListKey, TaskKey, Find;
    Then(w, from, s, BumpRead(n, true));
    var s1 := Do(s, BumpRead(n, true));
    s' := FinishBump(w, from, s1, n);
    forall id: Uuid {:trigger TaskKey(id)} ensures TaskKey(id) != VERSION_KEY {
      CacheCoherence.TaskKeyElsewhere(id);
    }
  }

  /** A read that an update overtakes stores the old row after the update's delete. */
  lemma {:induction false} ReadUpdateRaceKeepsOldRow(ttl: nat, id: Uuid, was: Task, newTitle: string)
    requires ttl > 0 && was.id == id && was.title != newTitle
    ensures exists s :: CanReach(ForEntry(EntryCoherence.ReadersCaughtUp, id), Initial(ttl, [was]), s)
              && s.table == [was.(title := newTitle)] && StaleEntryAtRest(s, id, was)
  {
    hide CanReach, ListKey, TaskKey, EditedRows;
    var s0, w := Initial(ttl, [was]), ForEntry(EntryCoherence.ReadersCaughtUp, id);
    Nothing(w, s0);
    RenamedRow(was, id, newTitle);
    var s1 := ReadOne(w, s0, s0, 0, id, was);
    var s2 := UpdateTitle(w, s0, s1, 1, id, newTitle, true);
    var s3 := Bump(w, s0, s2, 1);
    var s4 := StoreOne(w, s0, s3, 0, TaskRead(id, None, 0, was));
    assert StaleEntryAtRest(s4, id, was);
  }

  /** A swallowed failure of the delete leaves the old row. */
  lemma {:induction false} FailedDeleteKeepsOldRow(ttl: nat, id: Uuid, was: Task, newTitle: string)
    requires ttl > 0 && was.id == id && was.title != newTitle
    ensures exists s :: CanReach(ForEntry(EntryCoherence.DeleteTakes, id), Initial(ttl, [was]), s)
              && s.table == [was.(title := newTitle)] && StaleEntryAtRest(s, id, was)
  {
    hide CanReach, ListKey, TaskKey, EditedRows;
    var s0, w := Initial(ttl, [was]), ForEntry(EntryCoherence.DeleteTakes, id);
    Nothing(w, s0);
    RenamedRow(was, id, newTitle);
    var s1 := ReadOne(w, s0, s0, 0, id, was);
    var s2 := StoreOne(w, s0, s1, 0, TaskRead(id, None, 0, was));
    var s3 := UpdateTitle(w, s0, s2, 1, id, newTitle, false);
    var s4 := Bump(w, s0, s3, 1);
    assert StaleEntryAtRest(s4, id, was);
  }

  /** The purge of an account deletes its private tasks from the table and no entry from the cache. */
  lemma {:induction false} PurgeKeepsEntry(ttl: nat, id: Uuid, task: Task)
    requires ttl > 0 && task.id == id && task.owner.Some?
    ensures exists s :: CanReach(ForEntry(EntryCoherence.OthersLeaveRow, id), Initial(ttl, [task]), s)
                        && s.table == [] && StaleEntryAtRest(s, id, task)
  {
    hide CanReach, ListKey, TaskKey;
    var s0, w := Initial(ttl, [task]), ForEntry(EntryCoherence.OthersLeaveRow, id);
    Nothing(w, s0);
    var s1 := ReadOne(w, s0, s0, 0, id, task);
    var s2 := StoreOne(w, s0, s1, 0, TaskRead(id, None, 0, task));
    Then(w, s0, s2, PurgePrivate(task.owner.value));
    var s3 := Do(s2, PurgePrivate(task.owner.value));
    assert [task][1..] == [] && WithoutOwner([task][1..], task.owner.value) == [];
    assert s3.table == [];
    assert StaleEntryAtRest(s3, id, task);
  }
}

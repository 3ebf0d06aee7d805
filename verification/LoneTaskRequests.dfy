/**
 * What a read or a write of the task library does when no other request falls between its steps: the answer,
 * and what it leaves in the cache.
 */
module LoneTaskRequests {
  import opened Outcomes
  import opened TaskCache
  import opened TaskLibrary
  import opened TaskQueries

  // ----- findAll -----

  /** The request begins and reads the version. */
  function ListBegun(s: State, n: nat, query: ListQuery, ok: bool): State
    requires n !in s.lists
  {
    Do(Do(s, StartList(n, query)), ReadVersion(n, ok))
  }

  lemma ListBegins(s: State, n: nat, query: ListQuery, ok: bool)
    requires n !in s.lists
    ensures ListBegun(s, n, query, ok) ==
            s.(lists := s.lists[n := ListKeyed(query, s.now, VersionOr0(LookUp(s, VERSION_KEY, ok)))])
  {
    hide ListKey;
    var s1 := Do(s, StartList(n, query));
    assert LookUp(s1, VERSION_KEY, ok) == LookUp(s, VERSION_KEY, ok);
  }

  lemma ListLookedUp(s: State, n: nat, ok: bool)
    requires n in s.lists && s.lists[n].ListKeyed?
    ensures var r, hit := s.lists[n], LookUp(s, ListKey(s.lists[n].version, s.lists[n].query), ok);
            Do(s, LookUpList(n, ok)) ==
              if hit.Some? && hit.value.value.Listed?
              then s.(lists := s.lists - {n},
                      given := s.given + [GivenList(r.query, hit.value.value.page, s.now, hit.value.since,
                                                    Some(hit.value.stored))])
              else s.(lists := s.lists[n := ListReading(r.query, r.since, r.version, None, None)])
  {
    hide ListKey;
  }

  /** It has missed, and next reads the table. */
  predicate Missed(s: State, n: nat) {
    n in s.lists && s.lists[n].ListReading? && s.lists[n].rows == None && s.lists[n].total == None
  }

  /** It reads rows and total and stores the page. */
  function ListRead(s: State, n: nat, ok: bool): State
    requires Missed(s, n)
  {
    Do(Do(Do(s, ReadRows(n)), ReadTotal(n)), StoreList(n, ok))
  }

  lemma BothRead(s: State, n: nat)
    requires Missed(s, n)
    ensures var r, t := s.lists[n], Do(Do(s, ReadRows(n)), ReadTotal(n));
            && t == s.(lists := t.lists, fetched := t.fetched)
            && t.lists == s.lists[n := r.(rows := Some(Rows(r.query, s.table)), total := Some(Total(r.query, s.table)))]
  {
    hide ListKey, Rows, Total;
  }

  lemma ListIsRead(s: State, n: nat, ok: bool)
    requires Missed(s, n)
    ensures var r, t, page := s.lists[n], ListRead(s, n, ok), Answer(s.lists[n].query, s.table);
            && t == s.(lists := s.lists - {n}, fetched := t.fetched, cache := t.cache,
                       given := s.given + [GivenList(r.query, page, s.now, r.since, None)])
            && t.cache == if ok then s.cache[ListKey(r.version, r.query) :=
                                               Entry(Listed(page), r.since, s.now, Some(s.now + s.ttl))]
                          else s.cache
  {
    hide ListKey, Rows, Total, Assemble;
    BothRead(s, n);
    AnswerIsRead(s.lists[n].query, s.table);
  }

  lemma AnswerIsRead(query: ListQuery, table: seq<Task>)
    ensures Answer(query, table) == Assemble(query, Rows(query, table), Total(query, table))
  {
  }

  /** The steps of findAll; the flags say which of its cache calls succeed. */
  function FindAll(s: State, n: nat, query: ListQuery, versionOk: bool, lookOk: bool, storeOk: bool): State
    requires n !in s.lists
  {
    ListBegins(s, n, query, versionOk);
    var begun := ListBegun(s, n, query, versionOk);
    ListLookedUp(begun, n, lookOk);
    var looked := Do(begun, LookUpList(n, lookOk));
    if n in looked.lists then ListRead(looked, n, storeOk) else looked
  }

  /** The key of the query under the version as it is read. */
  function KeyNow(s: State, query: ListQuery, versionOk: bool): string {
    ListKey(VersionOr0(LookUp(s, VERSION_KEY, versionOk)), query)
  }

  /** findAll answers with the page it finds, or else with the page of the table, which it stores under that
      key for one time to live. Nothing else changes. */
  lemma {:induction false} FindAllAlone(s: State, n: nat, query: ListQuery, versionOk: bool, lookOk: bool,
                                        storeOk: bool)
    requires n !in s.lists
    ensures var t := FindAll(s, n, query, versionOk, lookOk, storeOk);
            var hit := LookUp(s, KeyNow(s, query, versionOk), lookOk);
            && t == s.(fetched := t.fetched, cache := t.cache, given := t.given)
            && exists g :: t.given == s.given + [g] && g.GivenList? && g.query == query && g.at == s.now
                 && if hit.Some? && hit.value.value.Listed?
                    then g.page == hit.value.value.page && t.cache == s.cache
                    else
                      && IsPage(query, s.table, g.page)
                      && t.cache == if storeOk then s.cache[KeyNow(s, query, versionOk) :=
                                                             Entry(Listed(g.page), s.now, s.now, Some(s.now + s.ttl))]
                                    else s.cache
  {
    hide Do, ListKey, Answer, IsPage, ListBegun, ListRead;
    ListBegins(s, n, query, versionOk);
    var begun := ListBegun(s, n, query, versionOk);
    ListLookedUp(begun, n, lookOk);
    assert begun.lists - {n} == s.lists;
    var hit := LookUp(s, KeyNow(s, query, versionOk), lookOk);
    assert hit == LookUp(begun, KeyNow(s, query, versionOk), lookOk);
    var looked := Do(begun, LookUpList(n, lookOk));
    if n in looked.lists {
      ListIsRead(looked, n, storeOk);
      AnswerIsPage(query, s.table);
      assert looked.lists - {n} == s.lists;
      assert IsPage(query, s.table, GivenList(query, Answer(query, s.table), s.now, s.now, None).page);
    }
  }

  // ----- findById -----

  function TaskLookedUp(s: State, n: nat, id: Uuid, user: Option<string>, ok: bool): State
    requires n !in s.tasks
  {
    Do(Do(s, StartTask(n, id, user)), LookUpTask(n, ok))
  }

  lemma TaskIsLookedUp(s: State, n: nat, id: Uuid, user: Option<string>, ok: bool)
    requires n !in s.tasks
    ensures var t, hit := TaskLookedUp(s, n, id, user, ok), LookUp(s, TaskKey(id), ok);
            if hit.Some? && hit.value.value.Single?
            then t == GiveTask(s, id, user, hit.value.value.task, hit.value.since, Some(hit.value.stored))
            else t == s.(tasks := s.tasks[n := TaskMissed(id, user, s.now)])
  {
    hide TaskKey;
    var s1 := Do(s, StartTask(n, id, user));
    assert LookUp(s1, TaskKey(id), ok) == LookUp(s, TaskKey(id), ok);
    assert s1.tasks - {n} == s.tasks;
  }

  function TaskRead(s: State, n: nat, ok: bool): State
    requires n in s.tasks && s.tasks[n].TaskMissed?
  {
    var read := Do(s, ReadTask(n));
    if n in read.tasks then Do(read, StoreTask(n, ok)) else read
  }

  lemma TaskIsRead(s: State, n: nat, ok: bool)
    requires n in s.tasks && s.tasks[n].TaskMissed?
    ensures var r, t, row := s.tasks[n], TaskRead(s, n, ok), Find(s.table, s.tasks[n].id);
            var ended := s.(tasks := s.tasks - {n}, fetched := t.fetched, cache := t.cache);
            && t.cache == (if row.Some? && ok
                           then s.cache[TaskKey(r.id) := Entry(Single(row.value), r.since, s.now, Some(s.now + s.ttl))]
                           else s.cache)
            && t == if row.Some? then GiveTask(ended, r.id, r.user, row.value, r.since, None) else ended
  {
    hide TaskKey, Find;
    var read := Do(s, ReadTask(n));
    assert Find(s.table, s.tasks[n].id).Some? ==> read.tasks - {n} == s.tasks - {n};
  }

  /** The steps of findById. */
  function FindById(s: State, n: nat, id: Uuid, user: Option<string>, lookOk: bool, storeOk: bool): State
    requires n !in s.tasks
  {
    TaskIsLookedUp(s, n, id, user, lookOk);
    var looked := TaskLookedUp(s, n, id, user, lookOk);
    if n in looked.tasks then TaskRead(looked, n, storeOk) else looked
  }

  /** The task that findById finds: the cached one, or else the row with the id. */
  function Found(s: State, id: Uuid, lookOk: bool): Option<Task> {
    var hit := LookUp(s, TaskKey(id), lookOk);
    if hit.Some? && hit.value.value.Single? then Some(hit.value.value.task) else Find(s.table, id)
  }

  /** findById answers with the task it finds if it is shared or the user's own, and with nothing else. A row
      from the table it keeps for one time to live, whoever may see it. */
  lemma {:induction false} FindByIdAlone(s: State, n: nat, id: Uuid, user: Option<string>, lookOk: bool, storeOk: bool)
    requires n !in s.tasks
    ensures var t, found := FindById(s, n, id, user, lookOk, storeOk), Found(s, id, lookOk);
            && t == s.(fetched := t.fetched, cache := t.cache, given := t.given)
            && if found.Some? && (user == None || found.value.owner == None || found.value.owner == user)
               then exists g :: t.given == s.given + [g] &&
                      g.GivenTask? && g.id == id && g.user == user && g.task == found.value && g.at == s.now
               else t.given == s.given
    ensures var t, hit := FindById(s, n, id, user, lookOk, storeOk), LookUp(s, TaskKey(id), lookOk);
            t.cache == if !(hit.Some? && hit.value.value.Single?) && Find(s.table, id).Some? && storeOk
                       then s.cache[TaskKey(id) :=
                                      Entry(Single(Find(s.table, id).value), s.now, s.now, Some(s.now + s.ttl))]
                       else s.cache
  {
    hide TaskKey, Find, Do, TaskLookedUp, TaskRead, GiveTask;
    TaskIsLookedUp(s, n, id, user, lookOk);
    var looked := TaskLookedUp(s, n, id, user, lookOk);
    var hit := LookUp(s, TaskKey(id), lookOk);
    if hit.Some? && hit.value.value.Single? {
      GivenIff(s, id, user, hit.value.value.task, hit.value.since, Some(hit.value.stored));
    } else {
      TaskIsRead(looked, n, storeOk);
      assert looked.tasks - {n} == s.tasks;
      var t := TaskRead(looked, n, storeOk);
      if Find(s.table, id).Some? {
        GivenIff(looked.(tasks := looked.tasks - {n}, fetched := t.fetched, cache := t.cache), id, user,
                 Find(s.table, id).value, s.now, None);
      }
    }
  }

  lemma GivenIff(s: State, id: Uuid, user: Option<string>, task: Task, since: nat, stored: Option<nat>)
    ensures GiveTask(s, id, user, task, since, stored) ==
              if user == None || task.owner == None || task.owner == user
              then s.(given := s.given + [GivenTask(id, user, task, s.now, since, stored)]) else s
  {
  }

  // ----- writes -----

  function Committed(s: State, n: nat, w: TaskCache.Write): State
    requires n !in s.writers
  {
    var committed := Do(s, Commit(n, w));
    if committed.writers[n].toDelete.Some? then Do(committed, DeleteEntry(n, true)) else committed
  }

  lemma IsCommitted(s: State, n: nat, w: TaskCache.Write)
    requires n !in s.writers
    ensures Committed(s, n, w) ==
            s.(writers := s.writers[n := Writer(None, ToRead)], table := Written(s.table, w),
               cache := if w.Update? || w.Remove? then s.cache - {TaskKey(w.id)} else s.cache)
  {
    hide Written, TaskKey;
  }

  function VersionBumped(s: State, n: nat): State
    requires n in s.writers && s.writers[n].bump == ToRead
  {
    Do(Do(s, BumpRead(n, true)), BumpWrite(n, true))
  }

  lemma IsBumped(s: State, n: nat)
    requires n in s.writers && s.writers[n] == Writer(None, ToRead)
    ensures VersionBumped(s, n) ==
            s.(writers := s.writers[n := Writer(None, Bumped)],
               cache := s.cache[VERSION_KEY := Entry(Version(CurrentVersion(s) + 1), s.now, s.now, None)])
  {
    assert s.writers[n := Writer(None, Bumped)] ==
        s.writers[n := Writer(None, ToWrite(CurrentVersion(s)))][n := Writer(None, Bumped)];
  }

  /** A write with its delete and its bump. */
  function Write(s: State, n: nat, w: TaskCache.Write): State
    requires n !in s.writers
  {
    IsCommitted(s, n, w);
    VersionBumped(Committed(s, n, w), n)
  }

  /** A write whose cache calls succeed leaves the next version, for ever, and no entry of the row it changed;
      every other entry stays. */
  lemma {:induction false} WriteAlone(s: State, n: nat, w: TaskCache.Write)
    requires n !in s.writers
    ensures var t := Write(s, n, w);
            && t == s.(writers := s.writers[n := Writer(None, Bumped)], table := Written(s.table, w), cache := t.cache)
            && VERSION_KEY in t.cache && t.cache[VERSION_KEY].value == Version(CurrentVersion(s) + 1)
            && t.cache[VERSION_KEY].expires == None
            && (w.Update? || w.Remove? ==> TaskKey(w.id) !in t.cache)
            && (forall key :: key != VERSION_KEY && ((w.Update? || w.Remove?) ==> key != TaskKey(w.id)) ==>
                  (key in t.cache <==> key in s.cache) && (key in s.cache ==> t.cache[key] == s.cache[key]))
  {
    hide Written, TaskKey, Do, Committed, VersionBumped;
    IsCommitted(s, n, w);
    var committed := Committed(s, n, w);
    IsBumped(committed, n);
    assert s.writers[n := Writer(None, ToRead)][n := Writer(None, Bumped)] == s.writers[n := Writer(None, Bumped)];
    if w.Update? || w.Remove? { KeyKindsDiffer(0, Query(None, None, None, None, None), w.id); }
    assert CurrentVersion(committed) == CurrentVersion(s);
  }
}

/**
 * Bounded staleness, with no assumption on scheduling or on the cache: whatever fails, whatever is
 * evicted and however the version moves, an answer was read from the table for its query while the
 * request that produced it ran, and a cached one was stored less than one time to live before.
 */
module CacheStaleness {
  import opened Outcomes
  import opened TaskQueries
  import opened TaskCache
  import TaskLibrary

  ghost predicate RowsReadBetween(fetched: seq<TableRead>, query: ListQuery, rows: seq<Task>, since: nat, until: nat) {
    exists r :: r in fetched && r.RowsRead? && Alike(r.query, query) && rows == Rows(query, r.table)
        && since <= r.at <= until
  }

  ghost predicate TotalReadBetween(fetched: seq<TableRead>, query: ListQuery, total: nat, since: nat, until: nat) {
    exists r :: r in fetched && r.TotalRead? && Alike(r.query, query) && total == Total(query, r.table)
        && since <= r.at <= until
  }

  /** The page's rows and total were read in that time for this query, or one that differs from it at
      most in the case of its search text. */
  ghost predicate PageReadBetween(fetched: seq<TableRead>, query: ListQuery, page: Page, since: nat, until: nat) {
    && RowsReadBetween(fetched, query, page.data, since, until)
    && TotalReadBetween(fetched, query, page.total, since, until)
    && page == Assemble(query, page.data, page.total)
  }

  ghost predicate TaskReadBetween(fetched: seq<TableRead>, id: Uuid, task: Task, since: nat, until: nat) {
    exists r :: r in fetched && r.SingleRead? && r.id == id && Find(r.table, id) == Some(task) && since <= r.at <= until
  }

  predicate Bounded(e: Entry, now: nat, ttl: nat) {
    e.stored <= now && e.expires == Some(e.stored + ttl)
  }

  ghost predicate ListEntryRead(fetched: seq<TableRead>, query: ListQuery, e: Entry) {
    e.value.Listed? && PageReadBetween(fetched, query, e.value.page, e.since, e.stored)
  }

  ghost predicate TaskEntryRead(fetched: seq<TableRead>, id: Uuid, e: Entry) {
    e.value.Single? && TaskReadBetween(fetched, id, e.value.task, e.since, e.stored)
  }

  ghost predicate CacheRead(cache: map<string, Entry>, fetched: seq<TableRead>) {
    && (forall v: nat, query: ListQuery {:trigger ListKey(v, query)} :: ListKey(v, query) in cache ==>
          ListEntryRead(fetched, query, cache[ListKey(v, query)]))
    && (forall id: Uuid {:trigger TaskKey(id)} :: TaskKey(id) in cache ==>
        TaskEntryRead(fetched, id, cache[TaskKey(id)]))
  }

  ghost predicate CacheBounded(cache: map<string, Entry>, now: nat, ttl: nat) {
    forall k :: k in cache && k != VERSION_KEY ==> Bounded(cache[k], now, ttl)
  }

  ghost predicate ListReaderOk(s: State, r: ListReader) {
    && r.since <= s.now
    && (r.ListReading? ==>
          && (r.rows.Some? ==> RowsReadBetween(s.fetched, r.query, r.rows.value, r.since, s.now))
          && (r.total.Some? ==> TotalReadBetween(s.fetched, r.query, r.total.value, r.since, s.now)))
  }

  ghost predicate TaskReaderOk(s: State, r: TaskReader) {
    && r.since <= s.now
    && (r.TaskRead? ==> TaskReadBetween(s.fetched, r.id, r.task, r.since, s.now))
  }

  ghost predicate ReadersRead(s: State) {
    && (forall n :: n in s.lists ==> ListReaderOk(s, s.lists[n]))
    && (forall n :: n in s.tasks ==> TaskReaderOk(s, s.tasks[n]))
  }

  /** When the answer was produced: when it was stored, or when it was given. */
  function ProducedAt(g: Given): nat { if g.stored.Some? then g.stored.value else g.at }

  ghost predicate GivenRead(s: State, g: Given) {
    && ProducedAt(g) <= g.at <= s.now
    && (g.stored.Some? ==> g.at < g.stored.value + s.ttl)
    && match g
       case GivenList(query, page, _, since, _) => PageReadBetween(s.fetched, query, page, since, ProducedAt(g))
       case GivenTask(id, user, task, _, since, _) =>
         TaskReadBetween(s.fetched, id, task, since, ProducedAt(g)) && MaySee(task, user)
  }

  ghost predicate Inv(s: State) {
    && CacheRead(s.cache, s.fetched)
    && CacheBounded(s.cache, s.now, s.ttl)
    && ReadersRead(s)
    && forall g :: g in s.given ==> GivenRead(s, g)
  }

  // ----- what was read stays read -----

  ghost predicate Includes(longer: seq<TableRead>, fetched: seq<TableRead>) { forall r :: r in fetched ==> r in longer }

  lemma CacheStaysRead(cache: map<string, Entry>, fetched: seq<TableRead>, longer: seq<TableRead>)
    requires CacheRead(cache, fetched) && Includes(longer, fetched)
    ensures CacheRead(cache, longer)
  {
    forall v: nat, query: ListQuery {:trigger ListKey(v, query)} | ListKey(v, query) in cache
      ensures ListEntryRead(longer, query, cache[ListKey(v, query)])
    {
      assert ListEntryRead(fetched, query, cache[ListKey(v, query)]);
    }
    forall id: Uuid {:trigger TaskKey(id)} | TaskKey(id) in cache
      ensures TaskEntryRead(longer, id, cache[TaskKey(id)])
    {
      assert TaskEntryRead(fetched, id, cache[TaskKey(id)]);
    }
  }

  // ----- stores -----

  lemma StoreListKeeps(cache: map<string, Entry>, fetched: seq<TableRead>, v0: nat, q0: ListQuery, e: Entry)
    requires CacheRead(cache, fetched) && ListEntryRead(fetched, q0, e)
    ensures CacheRead(cache[ListKey(v0, q0) := e], fetched)
  {
    forall v: nat, query: ListQuery {:trigger ListKey(v, query)} | ListKey(v, query) == ListKey(v0, q0)
      ensures ListEntryRead(fetched, query, e)
    {
      SamePageWasRead(fetched, v, query, v0, q0, e.value.page, e.since, e.stored);
    }
    forall id: Uuid {:trigger TaskKey(id)} ensures TaskKey(id) != ListKey(v0, q0) {
      KeyKindsDiffer(v0, q0, id);
    }
  }

  /** Queries that share a key read the same things. */
  lemma SameRowsWereRead(fetched: seq<TableRead>, p: ListQuery, q: ListQuery, rows: seq<Task>, since: nat, until: nat)
    requires Alike(p, q) && RowsReadBetween(fetched, q, rows, since, until)
    ensures RowsReadBetween(fetched, p, rows, since, until)
  {
    hide Rows, Total, ListKey;
    var r :| r in fetched && r.RowsRead? && Alike(r.query, q) && rows == Rows(q, r.table) && since <= r.at <= until;
    AlikeSame(p, q, r.table);
  }

  lemma SameTotalWasRead(fetched: seq<TableRead>, p: ListQuery, q: ListQuery, total: nat, since: nat, until: nat)
    requires Alike(p, q) && TotalReadBetween(fetched, q, total, since, until)
    ensures TotalReadBetween(fetched, p, total, since, until)
  {
    hide Rows, Total, ListKey;
    var r :| r in fetched && r.TotalRead? && Alike(r.query, q) && total == Total(q, r.table) && since <= r.at <= until;
    AlikeSame(p, q, r.table);
  }

  lemma AlikeSame(p: ListQuery, q: ListQuery, table: seq<Task>)
    requires Alike(p, q)
    ensures Rows(p, table) == Rows(q, table) && Total(p, table) == Total(q, table)
  {
    hide Rows, Total, ListKey;
    ListKeysAreFaithful(0, p, 0, q);
    SharedKeySameAnswer(0, p, 0, q, table);
  }

  lemma SamePageWasRead(fetched: seq<TableRead>, v: nat, query: ListQuery, v0: nat, q0: ListQuery, page: Page,
                        since: nat, until: nat)
    requires ListKey(v, query) == ListKey(v0, q0) && PageReadBetween(fetched, q0, page, since, until)
    ensures PageReadBetween(fetched, query, page, since, until)
  {
    hide ListKey, RowsReadBetween, TotalReadBetween;
    ListKeysAreFaithful(v, query, v0, q0);
    SameRowsWereRead(fetched, query, q0, page.data, since, until);
    SameTotalWasRead(fetched, query, q0, page.total, since, until);
  }

  lemma StoreTaskKeeps(cache: map<string, Entry>, fetched: seq<TableRead>, id0: Uuid, e: Entry)
    requires CacheRead(cache, fetched) && TaskEntryRead(fetched, id0, e)
    ensures CacheRead(cache[TaskKey(id0) := e], fetched)
  {
    forall v: nat, query: ListQuery {:trigger ListKey(v, query)} ensures TaskKey(id0) != ListKey(v, query) {
      KeyKindsDiffer(v, query, id0);
    }
    forall id: Uuid {:trigger TaskKey(id)} | TaskKey(id) == TaskKey(id0) ensures id == id0 {
      TaskKeysDiffer(id, id0);
    }
  }

  lemma StoreVersionKeeps(cache: map<string, Entry>, fetched: seq<TableRead>, e: Entry)
    requires CacheRead(cache, fetched)
    ensures CacheRead(cache[VERSION_KEY := e], fetched)
  {
    forall v: nat, query: ListQuery {:trigger ListKey(v, query)} ensures ListKey(v, query) != VERSION_KEY {
      KeyKindsDiffer(v, query, SOME_UUID);
    }
    forall id: Uuid {:trigger TaskKey(id)} ensures TaskKey(id) != VERSION_KEY {
      KeyKindsDiffer(0, Query(None, None, None, None, None), id);
    }
  }

  // ----- the steps -----

  predicate StoresList(step: Step) { step.StoreList? && step.ok }

  predicate StoresTask(step: Step) { step.StoreTask? && step.ok }

  predicate StoresVersion(step: Step) { step.BumpWrite? && step.ok }

  /** History only grows, and so do the clock and the time to live not at all. */
  lemma HistoryGrows(s: State, step: Step)
    requires Enabled(s, step)
    ensures Includes(Do(s, step).fetched, s.fetched) && s.now <= Do(s, step).now && Do(s, step).ttl == s.ttl
  {
    hide ListKey, TaskKey, Find, Rows, Total, Written, WithoutOwner, Assemble, MaySee, LookUp;
  }

  lemma CacheKept(s: State, step: Step)
    requires Inv(s) && Enabled(s, step)
    ensures CacheRead(Do(s, step).cache, Do(s, step).fetched)
  {
    hide CacheRead, CacheBounded, GivenRead;
    if StoresList(step) {
      ListStoreKept(s, step.n);
    } else if StoresTask(step) {
      TaskStoreKept(s, step.n);
    } else if StoresVersion(step) {
      StoreVersionKeeps(s.cache, s.fetched, Entry(Version(s.writers[step.n].bump.read + 1), s.now, s.now, None));
    } else {
      OthersStoreNothing(s, step);
      HistoryGrows(s, step);
      CacheStaysRead(Do(s, step).cache, s.fetched, Do(s, step).fetched);
    }
  }

  lemma ListStoreKept(s: State, n: nat)
    requires CacheRead(s.cache, s.fetched) && ReadersRead(s) && Enabled(s, StoreList(n, true))
    ensures CacheRead(Do(s, StoreList(n, true)).cache, s.fetched)
  {
    hide CacheRead, RowsReadBetween, TotalReadBetween, ListKey;
    var r := s.lists[n];
    assert ListReaderOk(s, r);
    var page := Assemble(r.query, r.rows.value, r.total.value);
    StoreListKeeps(s.cache, s.fetched, r.version, r.query, Entry(Listed(page), r.since, s.now, Some(s.now + s.ttl)));
  }

  lemma TaskStoreKept(s: State, n: nat)
    requires CacheRead(s.cache, s.fetched) && ReadersRead(s) && Enabled(s, StoreTask(n, true))
    ensures CacheRead(Do(s, StoreTask(n, true)).cache, s.fetched)
  {
    hide CacheRead;
    var r := s.tasks[n];
    assert TaskReaderOk(s, r);
    StoreTaskKeeps(s.cache, s.fetched, r.id, Entry(Single(r.task), r.since, s.now, Some(s.now + s.ttl)));
  }

  /** Every other step only drops entries. */
  lemma OthersStoreNothing(s: State, step: Step)
    requires Enabled(s, step) && !StoresList(step) && !StoresTask(step) && !StoresVersion(step)
    requires CacheRead(s.cache, s.fetched)
    ensures forall k :: k in Do(s, step).cache ==> k in s.cache && Do(s, step).cache[k] == s.cache[k]
    ensures CacheRead(Do(s, step).cache, s.fetched)
  {
  }

  lemma BoundsKept(s: State, step: Step)
    requires CacheRead(s.cache, s.fetched) && CacheBounded(s.cache, s.now, s.ttl) && Enabled(s, step)
    ensures CacheBounded(Do(s, step).cache, Do(s, step).now, Do(s, step).ttl)
  {
    hide CacheRead, ListKey, TaskKey;
    if !StoresList(step) && !StoresTask(step) && !StoresVersion(step) {
      OthersStoreNothing(s, step);
      HistoryGrows(s, step);
    }
  }

  /** What held of a reader still does when more has been read and time has passed. */
  lemma ReaderStaysOk(s: State, t: State)
    requires Includes(t.fetched, s.fetched) && s.now <= t.now
    ensures forall r :: ListReaderOk(s, r) ==> ListReaderOk(t, r)
    ensures forall r :: TaskReaderOk(s, r) ==> TaskReaderOk(t, r)
  {
  }

  lemma ReadersKept(s: State, step: Step)
    requires ReadersRead(s) && Enabled(s, step)
    ensures ReadersRead(Do(s, step))
  {
    hide ListReaderOk, TaskReaderOk;
    var t := Do(s, step);
    HistoryGrows(s, step);
    ReaderStaysOk(s, t);
    forall n | n in t.lists ensures ListReaderOk(t, t.lists[n]) {
      if n in s.lists && t.lists[n] == s.lists[n] {
        assert ListReaderOk(s, s.lists[n]);
      } else {
        ListReaderKept(s, step, n);
      }
    }
    forall n | n in t.tasks ensures TaskReaderOk(t, t.tasks[n]) {
      if n in s.tasks && t.tasks[n] == s.tasks[n] {
        assert TaskReaderOk(s, s.tasks[n]);
      } else {
        TaskReaderKept(s, step, n);
      }
    }
  }

  lemma ListReadStays(s: State, t: State, r: ListReader)
    requires ListReaderOk(s, r) && Includes(t.fetched, s.fetched) && s.now <= t.now
    ensures ListReaderOk(t, r)
  {
  }

  lemma JustRead(fetched: seq<TableRead>, query: ListQuery, id: Uuid, since: nat, now: nat, table: seq<Task>)
    requires since <= now
    ensures RowsReadBetween(fetched + [RowsRead(query, now, table)], query, Rows(query, table), since, now)
    ensures TotalReadBetween(fetched + [TotalRead(query, now, table)], query, Total(query, table), since, now)
    ensures Find(table, id).Some? ==>
              TaskReadBetween(fetched + [SingleRead(id, now, table)], id, Find(table, id).value, since, now)
  {
    assert (fetched + [RowsRead(query, now, table)])[|fetched|] == RowsRead(query, now, table);
    assert (fetched + [TotalRead(query, now, table)])[|fetched|] == TotalRead(query, now, table);
    assert (fetched + [SingleRead(id, now, table)])[|fetched|] == SingleRead(id, now, table);
  }

  lemma ListReaderKept(s: State, step: Step, n: nat)
    requires ReadersRead(s) && Enabled(s, step)
    requires n in Do(s, step).lists && (n !in s.lists || Do(s, step).lists[n] != s.lists[n])
    ensures ListReaderOk(Do(s, step), Do(s, step).lists[n])
  {
    hide Do, ListReaderOk, TaskReaderOk, ReadersRead;
    if step.ReadRows? || step.ReadTotal? {
      OnlyReaderMoves(s, step, n);
      FetchingReaderKept(s, step, n);
    } else {
      OnlyReaderMoves(s, step, n);
      OtherReaderKept(s, step, n);
    }
  }

  /** The step that moves list reader `n` is one of that reader's own. */
  lemma OnlyReaderMoves(s: State, step: Step, n: nat)
    requires Enabled(s, step) && n in Do(s, step).lists && (n !in s.lists || Do(s, step).lists[n] != s.lists[n])
    ensures step.StartList? || step.ReadVersion? || step.LookUpList? || step.ReadRows? || step.ReadTotal?
    ensures step.n == n
  {
    hide ListKey, TaskKey, Find, Written, WithoutOwner, Rows, Total, LookUp;
  }

  lemma FetchingReaderKept(s: State, step: Step, n: nat)
    requires ReadersRead(s) && Enabled(s, step) && (step.ReadRows? || step.ReadTotal?) && step.n == n
    ensures ListReaderOk(Do(s, step), Do(s, step).lists[n])
  {
    hide RowsReadBetween, TotalReadBetween, TaskReadBetween, ListKey, TaskKey, Rows, Total, Find;
    var r := s.lists[n];
    assert ListReaderOk(s, r);
    ListReadStays(s, Do(s, step), r);
    JustRead(s.fetched, r.query, SOME_UUID, r.since, s.now, s.table);
  }

  lemma OtherReaderKept(s: State, step: Step, n: nat)
    requires ReadersRead(s) && Enabled(s, step)
    requires (step.StartList? || step.ReadVersion? || step.LookUpList?) && step.n == n
    requires n in Do(s, step).lists
    ensures ListReaderOk(Do(s, step), Do(s, step).lists[n])
  {
    hide RowsReadBetween, TotalReadBetween, TaskReadBetween, ListKey, TaskKey, Rows, Total, Find;
    if n in s.lists { assert ListReaderOk(s, s.lists[n]); }
  }

  lemma TaskReaderKept(s: State, step: Step, n: nat)
    requires ReadersRead(s) && Enabled(s, step)
    requires n in Do(s, step).tasks && (n !in s.tasks || Do(s, step).tasks[n] != s.tasks[n])
    ensures TaskReaderOk(Do(s, step), Do(s, step).tasks[n])
  {
    hide Do, ListReaderOk, TaskReaderOk, ReadersRead;
    OnlyTaskReaderMoves(s, step, n);
    if step.ReadTask? {
      FetchingTaskReaderKept(s, n);
    } else {
      OtherTaskReaderKept(s, step, n);
    }
  }

  lemma OnlyTaskReaderMoves(s: State, step: Step, n: nat)
    requires Enabled(s, step) && n in Do(s, step).tasks && (n !in s.tasks || Do(s, step).tasks[n] != s.tasks[n])
    ensures (step.StartTask? || step.LookUpTask? || step.ReadTask?) && step.n == n
  {
    hide ListKey, TaskKey, Find, Written, WithoutOwner, Rows, Total, LookUp;
  }

  lemma FetchingTaskReaderKept(s: State, n: nat)
    requires ReadersRead(s) && Enabled(s, ReadTask(n)) && n in Do(s, ReadTask(n)).tasks
    ensures TaskReaderOk(Do(s, ReadTask(n)), Do(s, ReadTask(n)).tasks[n])
  {
    hide RowsReadBetween, TotalReadBetween, TaskReadBetween, ListKey, TaskKey, Rows, Total, Find;
    var r := s.tasks[n];
    assert TaskReaderOk(s, r);
    JustRead(s.fetched, Query(None, None, None, None, None), r.id, r.since, s.now, s.table);
  }

  lemma OtherTaskReaderKept(s: State, step: Step, n: nat)
    requires ReadersRead(s) && Enabled(s, step) && (step.StartTask? || step.LookUpTask?) && step.n == n
    requires n in Do(s, step).tasks
    ensures TaskReaderOk(Do(s, step), Do(s, step).tasks[n])
  {
    hide RowsReadBetween, TotalReadBetween, TaskReadBetween, ListKey, TaskKey, Rows, Total, Find;
    if n in s.tasks { assert TaskReaderOk(s, s.tasks[n]); }
  }

  lemma GivenStaysRead(s: State, t: State, g: Given)
    requires GivenRead(s, g) && Includes(t.fetched, s.fetched) && s.now <= t.now && s.ttl == t.ttl
    ensures GivenRead(t, g)
  {
  }

  /** The answers given before are still justified, and so is a new one. */
  lemma GivenKept(s: State, step: Step)
    requires Inv(s) && Enabled(s, step)
    ensures forall g :: g in Do(s, step).given ==> GivenRead(Do(s, step), g)
  {
    hide GivenRead, CacheRead, CacheBounded, ReadersRead;
    var s' := Do(s, step);
    HistoryGrows(s, step);
    forall g | g in s'.given ensures GivenRead(s', g) {
      if g in s.given {
        GivenStaysRead(s, s', g);
      } else {
        NewGiven(s, step, g);
      }
    }
  }

  lemma NewGiven(s: State, step: Step, g: Given)
    requires Inv(s) && Enabled(s, step) && g in Do(s, step).given && g !in s.given
    ensures GivenRead(Do(s, step), g)
  {
    hide GivenRead, CacheRead, CacheBounded, ReadersRead;
    match step
    case LookUpList(n, ok) => ListHitGiven(s, n, ok, g);
    case StoreList(n, ok) => ListReadGiven(s, n, ok, g);
    case LookUpTask(n, ok) => TaskHitGiven(s, n, ok, g);
    case StoreTask(n, ok) => TaskReadGiven(s, n, ok, g);
    case _ =>
  }

  lemma ListHitGiven(s: State, n: nat, ok: bool, g: Given)
    requires CacheRead(s.cache, s.fetched) && CacheBounded(s.cache, s.now, s.ttl) && Enabled(s, LookUpList(n, ok))
    requires g in Do(s, LookUpList(n, ok)).given && g !in s.given
    ensures GivenRead(Do(s, LookUpList(n, ok)), g)
  {
    hide RowsReadBetween, TotalReadBetween, ListKey;
    var r := s.lists[n];
    KeyKindsDiffer(r.version, r.query, SOME_UUID);
    assert ListEntryRead(s.fetched, r.query, s.cache[ListKey(r.version, r.query)]);
  }

  lemma ListReadGiven(s: State, n: nat, ok: bool, g: Given)
    requires ReadersRead(s) && Enabled(s, StoreList(n, ok))
    requires g in Do(s, StoreList(n, ok)).given && g !in s.given
    ensures GivenRead(Do(s, StoreList(n, ok)), g)
  {
    hide RowsReadBetween, TotalReadBetween, ListKey;
    assert ListReaderOk(s, s.lists[n]);
  }

  lemma TaskHitGiven(s: State, n: nat, ok: bool, g: Given)
    requires CacheRead(s.cache, s.fetched) && CacheBounded(s.cache, s.now, s.ttl) && Enabled(s, LookUpTask(n, ok))
    requires g in Do(s, LookUpTask(n, ok)).given && g !in s.given
    ensures GivenRead(Do(s, LookUpTask(n, ok)), g)
  {
    hide TaskReadBetween, TaskKey;
    var r := s.tasks[n];
    KeyKindsDiffer(0, Query(None, None, None, None, None), r.id);
    assert TaskEntryRead(s.fetched, r.id, s.cache[TaskKey(r.id)]);
  }

  lemma TaskReadGiven(s: State, n: nat, ok: bool, g: Given)
    requires ReadersRead(s) && Enabled(s, StoreTask(n, ok))
    requires g in Do(s, StoreTask(n, ok)).given && g !in s.given
    ensures GivenRead(Do(s, StoreTask(n, ok)), g)
  {
    hide TaskReadBetween, TaskKey;
    assert TaskReaderOk(s, s.tasks[n]);
  }

  lemma StepKeepsInv(s: State, step: Step)
    requires Inv(s) && Enabled(s, step)
    ensures Inv(Do(s, step))
  {
    CacheKept(s, step);
    BoundsKept(s, step);
    ReadersKept(s, step);
    GivenKept(s, step);
  }

  lemma {:induction false} RunKeepsInv(from: State, steps: seq<Step>, to: State)
    requires Inv(from) && Reaches(from, steps, to)
    ensures Inv(to)
    decreases |steps|
  {
    if steps != [] {
      StepKeepsInv(from, steps[0]);
      RunKeepsInv(Do(from, steps[0]), steps[1..], to);
    }
  }

  /** Every answer ever given, in every run. It was produced by a request for this query, or one that
      differs at most in case, out of fetched of the table made between that request's start and the moment
      it stored or gave the answer. A cached answer was stored less than one time to live before it was
      served. And no answer is another user's private task. */
  lemma {:induction false} AnswersAreBoundedStale(ttl: nat, table: seq<Task>, steps: seq<Step>, s: State, g: Given)
    requires Reaches(Initial(ttl, table), steps, s) && g in s.given
    ensures g.stored.Some? ==> g.stored.value <= g.at < g.stored.value + ttl
    ensures g.GivenList? ==> PageReadBetween(s.fetched, g.query, g.page, g.since, ProducedAt(g))
    ensures g.GivenTask? ==> TaskReadBetween(s.fetched, g.id, g.task, g.since, ProducedAt(g)) && MaySee(g.task, g.user)
  {
    RunKeepsInv(Initial(ttl, table), steps, s);
    TtlIsConstant(Initial(ttl, table), steps, s);
    assert GivenRead(s, g);
  }

  // ----- who is given what -----

  /** No answer ever shows a user a task that is another's: a single task that has an owner has the asking
      user as owner, and is the one asked for; and every task of a list is shared. */
  lemma {:induction false} PrivateTasksStayPrivate(ttl: nat, table: seq<Task>, steps: seq<Step>, s: State, g: Given)
    requires Reaches(Initial(ttl, table), steps, s) && g in s.given
    ensures g.GivenTask? ==> g.task.id == g.id
    ensures g.GivenTask? && g.user.Some? && g.task.owner.Some? ==> g.task.owner.value == g.user.value
    ensures g.GivenList? ==> forall task :: task in g.page.data ==> task.owner == None
  {
    AnswersAreBoundedStale(ttl, table, steps, s, g);
    if g.GivenTask? {
      var r :| r in s.fetched && r.SingleRead? && r.id == g.id && Find(r.table, g.id) == Some(g.task);
      TaskLibrary.FindIsFirst(r.table, g.id);
    } else {
      var r :| r in s.fetched && r.RowsRead? && g.page.data == Rows(g.query, r.table);
      TaskLibrary.RowsAreShared(g.query, r.table);
    }
  }

  /** Conversely, a reader that has read or found a task is given it if it is shared or the user's own, or if
      the reader is one that may see all; and only then. */
  lemma {:induction false} EntitledReadersAreGiven(s: State, n: nat, ok: bool)
    requires n in s.tasks
    ensures var r := s.tasks[n];
            Enabled(s, StoreTask(n, ok)) ==>
              Do(s, StoreTask(n, ok)).given == s.given +
                if r.user == None || r.task.owner == None || r.task.owner == r.user
                then [GivenTask(r.id, r.user, r.task, s.now, r.since, None)] else []
    ensures var r, hit := s.tasks[n], LookUp(s, TaskKey(s.tasks[n].id), ok);
            Enabled(s, LookUpTask(n, ok)) && hit.Some? && hit.value.value.Single? ==>
              var task := hit.value.value.task;
              Do(s, LookUpTask(n, ok)).given == s.given +
                if r.user == None || task.owner == None || task.owner == r.user
                then [GivenTask(r.id, r.user, task, s.now, hit.value.since, Some(hit.value.stored))] else []
  {
    hide TaskKey;
  }

  lemma {:induction false} TtlIsConstant(from: State, steps: seq<Step>, to: State)
    requires Reaches(from, steps, to)
    ensures to.ttl == from.ttl
    decreases |steps|
  {
    if steps != [] { TtlIsConstant(Do(from, steps[0]), steps[1..], to); }
  }
}

/**
 * List cache coherence. Readers may interleave at every await and their cache calls may fail. What the
 * writers need is that their version reads and writes succeed, that the version is not evicted and that
 * no bump moves it backwards; writers that do not overlap never move it backwards.
 */
module CacheCoherence {
  import opened Outcomes
  import opened TaskQueries
  import opened TaskCache
  import TaskLibrary

  /** The four conditions on a coherent run, one step at a time. */
  datatype Condition = VersionIsKept | BumpsCanRead | BumpsCanWrite | VersionNeverFalls

  predicate Meets(c: Condition, s: State, step: Step)
    requires Enabled(s, step)
  {
    match c
    case VersionIsKept => step.Evict? ==> step.key != VERSION_KEY
    case BumpsCanRead => step.BumpRead? ==> step.ok
    case BumpsCanWrite => step.BumpWrite? ==> step.ok
    case VersionNeverFalls => step.BumpWrite? && step.ok ==> s.writers[step.n].bump.read + 1 >= CurrentVersion(s)
  }

  /** A step that may be part of a coherent run. */
  predicate Sound(s: State, step: Step)
    requires Enabled(s, step)
  {
    && Meets(VersionIsKept, s, step) && Meets(BumpsCanRead, s, step)
    && Meets(BumpsCanWrite, s, step) && Meets(VersionNeverFalls, s, step)
  }

  ghost predicate ReachesSoundly(from: State, steps: seq<Step>, to: State)
    decreases |steps|
  {
    if steps == [] then from == to
    else Enabled(from, steps[0]) && Sound(from, steps[0]) && ReachesSoundly(Do(from, steps[0]), steps[1..], to)
  }

  /** Some writer will still move the version past the current one. */
  predicate Overdue(s: State) {
    exists n :: n in s.writers && WillPass(s.writers[n].bump, CurrentVersion(s))
  }

  predicate WillPass(b: Bump, version: nat) {
    b.ToRead? || (b.ToWrite? && b.read >= version)
  }

  /** A writer is between its commit and its bump. */
  predicate Bumping(s: State) {
    exists n :: n in s.writers && !s.writers[n].bump.Bumped?
  }

  ghost predicate VersionStored(cache: map<string, Entry>) {
    VERSION_KEY in cache ==> cache[VERSION_KEY].value.Version? && cache[VERSION_KEY].expires.None?
  }

  function ReaderVersion(r: ListReader): nat { if r.ListStarted? then 0 else r.version }

  /** Nobody has read, and nothing is stored under, a version still to come. */
  ghost predicate VersionsReached(cache: map<string, Entry>, lists: map<nat, ListReader>, current: nat) {
    && (forall v: nat, query: ListQuery {:trigger ListKey(v, query)} :: ListKey(v, query) in cache ==> v <= current)
    && (forall n :: n in lists ==> ReaderVersion(lists[n]) <= current)
  }

  /** Under `current`, everything stored is the answer of `table`. */
  ghost predicate EntriesCurrent(cache: map<string, Entry>, table: seq<Task>, current: nat) {
    forall query: ListQuery {:trigger ListKey(current, query)} :: ListKey(current, query) in cache ==>
      cache[ListKey(current, query)].value == Listed(Answer(query, table))
  }

  /** Whoever is about to store under `current` has read only `table`. */
  ghost predicate ReadersCurrent(lists: map<nat, ListReader>, table: seq<Task>, current: nat) {
    forall n :: n in lists && lists[n].ListReading? && lists[n].version == current ==>
      && (lists[n].rows.Some? ==> lists[n].rows.value == Rows(lists[n].query, table))
      && (lists[n].total.Some? ==> lists[n].total.value == Total(lists[n].query, table))
  }

  ghost predicate Inv(s: State) {
    && VersionStored(s.cache)
    && VersionsReached(s.cache, s.lists, CurrentVersion(s))
    && (!Overdue(s) ==> EntriesCurrent(s.cache, s.table, CurrentVersion(s)))
    && (!Overdue(s) ==> ReadersCurrent(s.lists, s.table, CurrentVersion(s)))
  }

  // ----- steps that leave the version and the writers alone -----

  lemma StoreElsewhere(cache: map<string, Entry>, key: string, e: Entry)
    requires forall v: nat, query: ListQuery {:trigger ListKey(v, query)} :: ListKey(v, query) != key
    requires key != VERSION_KEY
    ensures forall lists, current: nat :: VersionsReached(cache, lists, current) ==>
              VersionsReached(cache[key := e], lists, current)
    ensures forall table, current: nat :: EntriesCurrent(cache, table, current) ==>
              EntriesCurrent(cache[key := e], table, current)
    ensures VersionStored(cache) ==> VersionStored(cache[key := e])
  {
  }

  lemma DropEntry(cache: map<string, Entry>, key: string)
    requires key != VERSION_KEY
    ensures forall lists, current: nat :: VersionsReached(cache, lists, current) ==>
              VersionsReached(cache - {key}, lists, current)
    ensures forall table, current: nat :: EntriesCurrent(cache, table, current) ==>
              EntriesCurrent(cache - {key}, table, current)
    ensures VersionStored(cache) ==> VersionStored(cache - {key})
  {
  }

  lemma TaskKeyElsewhere(id: Uuid)
    ensures forall v: nat, query: ListQuery {:trigger ListKey(v, query)} :: ListKey(v, query) != TaskKey(id)
    ensures TaskKey(id) != VERSION_KEY
  {
    forall v: nat, query: ListQuery {:trigger ListKey(v, query)} ensures ListKey(v, query) != TaskKey(id) {
      KeyKindsDiffer(v, query, id);
    }
    KeyKindsDiffer(0, Query(None, None, None, None, None), id);
  }

  lemma ListKeyIsNotVersionKey(v: nat, query: ListQuery)
    ensures ListKey(v, query) != VERSION_KEY
  {
    KeyKindsDiffer(v, query, SOME_UUID);
  }

  /** A reader stores what it read under the version it read. */
  lemma StorePage(cache: map<string, Entry>, table: seq<Task>, v0: nat, q0: ListQuery, e: Entry, current: nat)
    requires EntriesCurrent(cache, table, current)
    requires v0 == current ==> e.value == Listed(Answer(q0, table))
    ensures EntriesCurrent(cache[ListKey(v0, q0) := e], table, current)
  {
    forall query: ListQuery {:trigger ListKey(current, query)} | ListKey(current, query) == ListKey(v0, q0)
      ensures e.value == Listed(Answer(query, table))
    {
      SharedKeySameAnswer(current, query, v0, q0, table);
    }
  }

  lemma StorePageReached(cache: map<string, Entry>, lists: map<nat, ListReader>, v0: nat, q0: ListQuery, e: Entry,
                         current: nat)
    requires VersionsReached(cache, lists, current) && v0 <= current
    ensures VersionsReached(cache[ListKey(v0, q0) := e], lists, current)
  {
    forall v: nat, query: ListQuery {:trigger ListKey(v, query)} | ListKey(v, query) == ListKey(v0, q0)
      ensures v <= current
    {
      ListKeysAreFaithful(v, query, v0, q0);
    }
  }

  predicate MovesReader(step: Step) {
    step.StartList? || step.ReadVersion? || step.LookUpList? || step.ReadRows? || step.ReadTotal?
  }

  lemma MovingReaderKeepsInv(s: State, step: Step)
    requires Inv(s) && Enabled(s, step) && MovesReader(step)
    ensures Inv(Do(s, step))
  {
    var s' := Do(s, step);
    assert s'.cache == s.cache && s'.writers == s.writers && s'.now == s.now && s'.table == s.table;
    assert CurrentVersion(s') == CurrentVersion(s);
    assert Overdue(s') == Overdue(s);
    ReaderStaysBehind(s, step);
    if !Overdue(s) { ReaderReadsTable(s, step); }
  }

  lemma ReaderStaysBehind(s: State, step: Step)
    requires VersionStored(s.cache) && VersionsReached(s.cache, s.lists, CurrentVersion(s))
    requires Enabled(s, step) && MovesReader(step)
    ensures VersionsReached(s.cache, Do(s, step).lists, CurrentVersion(s))
  {
  }

  lemma ReaderReadsTable(s: State, step: Step)
    requires Enabled(s, step) && MovesReader(step)
    requires ReadersCurrent(s.lists, s.table, CurrentVersion(s))
    ensures ReadersCurrent(Do(s, step).lists, s.table, CurrentVersion(s))
  {
    hide ListKey, TaskKey, Find, Written, WithoutOwner;
  }

  lemma StoreListKeepsInv(s: State, n: nat, ok: bool)
    requires Inv(s) && Enabled(s, StoreList(n, ok))
    ensures Inv(Do(s, StoreList(n, ok)))
  {
    var s', r, current := Do(s, StoreList(n, ok)), s.lists[n], CurrentVersion(s);
    var page := Assemble(r.query, r.rows.value, r.total.value);
    var e := Entry(Listed(page), r.since, s.now, Some(s.now + s.ttl));
    ListKeyIsNotVersionKey(r.version, r.query);
    assert CurrentVersion(s') == current && s'.writers == s.writers;
    if ok {
      assert ReaderVersion(r) <= current;
      StorePageReached(s.cache, s.lists, r.version, r.query, e, current);
      if !Overdue(s) { StorePage(s.cache, s.table, r.version, r.query, e, current); }
    }
  }

  lemma TaskStepKeepsInv(s: State, step: Step)
    requires Inv(s) && Enabled(s, step)
    requires step.StartTask? || step.LookUpTask? || step.ReadTask?
    ensures Inv(Do(s, step))
  {
    hide VersionsReached, EntriesCurrent, ReadersCurrent, ListKey, TaskKey, Find, MaySee;
    var s' := Do(s, step);
    assert CurrentVersion(s') == CurrentVersion(s) && s'.writers == s.writers && s'.lists == s.lists
        && s'.table == s.table && s'.cache == s.cache;
  }

  lemma StoreTaskKeepsInv(s: State, n: nat, ok: bool)
    requires Inv(s) && Enabled(s, StoreTask(n, ok))
    ensures Inv(Do(s, StoreTask(n, ok)))
  {
    hide VersionsReached, EntriesCurrent, ReadersCurrent, ListKey, TaskKey, Find, MaySee;
    var s', r := Do(s, StoreTask(n, ok)), s.tasks[n];
    TaskKeyElsewhere(r.id);
    StoreElsewhere(s.cache, TaskKey(r.id), Entry(Single(r.task), r.since, s.now, Some(s.now + s.ttl)));
    assert CurrentVersion(s') == CurrentVersion(s) && s'.writers == s.writers && s'.lists == s.lists
        && s'.table == s.table;
  }

  lemma DroppingKeepsInv(s: State, step: Step)
    requires Inv(s) && Enabled(s, step) && Sound(s, step)
    requires step.Evict? || step.DeleteEntry?
    ensures Inv(Do(s, step))
  {
    var s' := Do(s, step);
    if step.Evict? {
      DropEntry(s.cache, step.key);
    } else {
      TaskKeyElsewhere(s.writers[step.n].toDelete.value);
      DropEntry(s.cache, TaskKey(s.writers[step.n].toDelete.value));
    }
    assert CurrentVersion(s') == CurrentVersion(s) && s'.lists == s.lists && s'.table == s.table;
    SameBumpsSameOverdue(s, s');
  }

  lemma SameBumpsSameOverdue(s: State, s': State)
    requires s.writers.Keys == s'.writers.Keys && CurrentVersion(s) == CurrentVersion(s')
    requires forall n :: n in s.writers ==> s'.writers[n].bump == s.writers[n].bump
    ensures Overdue(s) <==> Overdue(s')
  {
  }

  /** The waiting clock touches neither the version, which never expires, nor anything else. */
  lemma WaitKeepsInv(s: State, ms: nat)
    requires Inv(s)
    ensures Inv(Do(s, Wait(ms)))
  {
    assert CurrentVersion(Do(s, Wait(ms))) == CurrentVersion(s);
  }

  // ----- steps that change the table -----

  lemma CommitKeepsInv(s: State, n: nat, w: Write)
    requires Inv(s) && Enabled(s, Commit(n, w))
    ensures Inv(Do(s, Commit(n, w)))
  {
    var s' := Do(s, Commit(n, w));
    assert s'.writers[n].bump.ToRead?;
    assert CurrentVersion(s') == CurrentVersion(s);
  }

  /** Changes that no list query can see. */
  ghost predicate SameToLists(a: seq<Task>, b: seq<Task>) {
    forall query: ListQuery {:trigger Selected(query, a)} :: Selected(query, a) == Selected(query, b)
  }

  lemma PrivateChangeKeepsInv(s: State, step: Step)
    requires Inv(s) && Enabled(s, step)
    requires step.CreatePrivate? || step.PurgePrivate?
    ensures Inv(Do(s, step))
  {
    hide VersionsReached, EntriesCurrent, ReadersCurrent, ListKey, Selected, WithoutOwner;
    var s' := Do(s, step);
    assert SameToLists(s.table, s'.table) by {
      forall query: ListQuery {:trigger Selected(query, s.table)}
        ensures Selected(query, s.table) == Selected(query, s'.table)
      {
        if step.CreatePrivate? {
          PrivateTaskUnselected(query, [], step.task, s.table);
          assert [] + [step.task] + s.table == [step.task] + s.table && [] + s.table == s.table;
        } else {
          PurgeInvisible(query, s.table, step.owner);
        }
      }
    }
    assert CurrentVersion(s') == CurrentVersion(s) && s'.writers == s.writers && s'.cache == s.cache
        && s'.lists == s.lists;
    if !Overdue(s) { SameAnswersStayCurrent(s.cache, s.lists, s.table, s'.table, CurrentVersion(s)); }
  }

  lemma SameAnswersStayCurrent(cache: map<string, Entry>, lists: map<nat, ListReader>, a: seq<Task>, b: seq<Task>,
                               current: nat)
    requires SameToLists(a, b) && EntriesCurrent(cache, a, current) && ReadersCurrent(lists, a, current)
    ensures EntriesCurrent(cache, b, current) && ReadersCurrent(lists, b, current)
  {
    forall query: ListQuery
      ensures Answer(query, a) == Answer(query, b) && Rows(query, a) == Rows(query, b)
                && Total(query, a) == Total(query, b) {
      assert Selected(query, a) == Selected(query, b);
    }
  }

  // ----- the bump -----

  lemma BumpReadKeepsInv(s: State, n: nat)
    requires Inv(s) && Enabled(s, BumpRead(n, true))
    ensures Inv(Do(s, BumpRead(n, true)))
  {
    var s' := Do(s, BumpRead(n, true));
    assert CurrentVersion(s') == CurrentVersion(s);
    assert s'.writers[n].bump == ToWrite(CurrentVersion(s));
    assert Overdue(s');
  }

  lemma BumpWriteKeepsInv(s: State, n: nat)
    requires Inv(s) && Enabled(s, BumpWrite(n, true)) && Sound(s, BumpWrite(n, true))
    ensures Inv(Do(s, BumpWrite(n, true)))
  {
    var s', current := Do(s, BumpWrite(n, true)), CurrentVersion(s);
    var next := s.writers[n].bump.read + 1;
    assert CurrentVersion(s') == next;
    NewVersionReached(s.cache, s.lists, current, next, s'.cache);
    if !Overdue(s') {
      if next == current {
        assert !Overdue(s) by {
          forall m | m in s.writers ensures !WillPass(s.writers[m].bump, current) {
            if m != n { assert s'.writers[m] == s.writers[m]; }
          }
        }
        VersionEntryIsNoList(s.cache, s.table, current, s'.cache);
      } else {
        NothingUnderNewVersion(s.cache, s.lists, s.table, current, next, s'.cache);
      }
    }
  }

  lemma NewVersionReached(cache: map<string, Entry>, lists: map<nat, ListReader>, current: nat, next: nat,
                          cache': map<string, Entry>)
    requires VersionsReached(cache, lists, current) && current <= next
    requires forall k :: k in cache' && k != VERSION_KEY ==> k in cache
    ensures VersionsReached(cache', lists, next)
  {
    forall v: nat, query: ListQuery {:trigger ListKey(v, query)} ensures ListKey(v, query) != VERSION_KEY {
      ListKeyIsNotVersionKey(v, query);
    }
  }

  lemma VersionEntryIsNoList(cache: map<string, Entry>, table: seq<Task>, current: nat, cache': map<string, Entry>)
    requires EntriesCurrent(cache, table, current)
    requires forall k :: k in cache' && k != VERSION_KEY ==> k in cache && cache'[k] == cache[k]
    ensures EntriesCurrent(cache', table, current)
  {
    forall query: ListQuery {:trigger ListKey(current, query)} ensures ListKey(current, query) != VERSION_KEY {
      ListKeyIsNotVersionKey(current, query);
    }
  }

  lemma NothingUnderNewVersion(cache: map<string, Entry>, lists: map<nat, ListReader>, table: seq<Task>, current: nat,
                               next: nat,
                               cache': map<string, Entry>)
    requires VersionsReached(cache, lists, current) && current < next
    requires forall k :: k in cache' && k != VERSION_KEY ==> k in cache
    ensures EntriesCurrent(cache', table, next) && ReadersCurrent(lists, table, next)
  {
    forall query: ListQuery {:trigger ListKey(next, query)} ensures ListKey(next, query) !in cache' {
      ListKeyIsNotVersionKey(next, query);
    }
    forall n | n in lists ensures ReaderVersion(lists[n]) <= current { }
  }

  // ----- all runs -----

  lemma StepKeepsInv(s: State, step: Step)
    requires Inv(s) && Enabled(s, step) && Sound(s, step)
    ensures Inv(Do(s, step))
  {
    hide Inv;
    match step
    case Wait(ms) => WaitKeepsInv(s, ms);
    case Evict(_) => DroppingKeepsInv(s, step);
    case DeleteEntry(_, _) => DroppingKeepsInv(s, step);
    case StoreList(n, ok) => StoreListKeepsInv(s, n, ok);
    case StoreTask(n, ok) => StoreTaskKeepsInv(s, n, ok);
    case Commit(n, w) => CommitKeepsInv(s, n, w);
    case BumpRead(n, _) => BumpReadKeepsInv(s, n);
    case BumpWrite(n, _) => BumpWriteKeepsInv(s, n);
    case CreatePrivate(_) => PrivateChangeKeepsInv(s, step);
    case PurgePrivate(_) => PrivateChangeKeepsInv(s, step);
    case _ => if MovesReader(step) { MovingReaderKeepsInv(s, step); } else { TaskStepKeepsInv(s, step); }
  }

  lemma {:induction false} RunKeepsInv(from: State, steps: seq<Step>, to: State)
    requires Inv(from) && ReachesSoundly(from, steps, to)
    ensures Inv(to)
    decreases |steps|
  {
    if steps != [] {
      StepKeepsInv(from, steps[0]);
      RunKeepsInv(Do(from, steps[0]), steps[1..], to);
    }
  }

  /** Whenever no writer is between its commit and its bump, every list stored under the current version
      is that query's answer on the current table. */
  lemma {:induction false} ListsAreCoherent(ttl: nat, table: seq<Task>, steps: seq<Step>, s: State, query: ListQuery)
    requires ReachesSoundly(Initial(ttl, table), steps, s) && !Bumping(s)
    requires ListKey(CurrentVersion(s), query) in s.cache
    ensures s.cache[ListKey(CurrentVersion(s), query)].value == Listed(Answer(query, s.table))
    ensures TaskLibrary.IsPage(query, s.table, s.cache[ListKey(CurrentVersion(s), query)].value.page)
  {
    RunKeepsInv(Initial(ttl, table), steps, s);
    assert !Overdue(s);
    TaskLibrary.AnswerIsPage(query, s.table);
  }

  /** So a request that reads the version and finds a page while no writer is bumping is given the
      current answer. */
  lemma {:induction false} HitIsCurrent(ttl: nat, table: seq<Task>, steps: seq<Step>, s: State, n: nat)
    requires ReachesSoundly(Initial(ttl, table), steps, s) && !Bumping(s)
    requires Enabled(s, LookUpList(n, true)) && s.lists[n].version == CurrentVersion(s)
    ensures var hit := LookUp(s, ListKey(s.lists[n].version, s.lists[n].query), true);
            var answer := Answer(s.lists[n].query, s.table);
            hit.Some? ==>
              && TaskLibrary.IsPage(s.lists[n].query, s.table, answer)
              && Do(s, LookUpList(n, true)).given ==
                 s.given + [GivenList(s.lists[n].query, answer, s.now, hit.value.since, Some(hit.value.stored))]
  {
    if ListKey(s.lists[n].version, s.lists[n].query) in s.cache {
      ListsAreCoherent(ttl, table, steps, s, s.lists[n].query);
    }
  }

  // ----- writers that do not overlap -----

  /** No commit while another writer is bumping, and a cache that answers the writers. */
  predicate Separate(s: State, step: Step)
    requires Enabled(s, step)
  {
    match step
    case Commit(_, _) => !Bumping(s)
    case Evict(key) => key != VERSION_KEY
    case BumpRead(_, ok) => ok
    case BumpWrite(_, ok) => ok
    case _ => true
  }

  ghost predicate ReachesSeparately(from: State, steps: seq<Step>, to: State)
    decreases |steps|
  {
    if steps == [] then from == to
    else Enabled(from, steps[0]) && Separate(from, steps[0]) && ReachesSeparately(Do(from, steps[0]), steps[1..], to)
  }

  /** At most one writer is bumping, and the version is still what it read. */
  ghost predicate OneBumps(s: State) {
    && VersionStored(s.cache)
    && (forall m, n :: m in s.writers && n in s.writers ==>
          s.writers[m].bump.Bumped? || s.writers[n].bump.Bumped? || m == n)
    && (forall n :: n in s.writers && s.writers[n].bump.ToWrite? ==> s.writers[n].bump.read == CurrentVersion(s))
  }

  lemma SeparateStep(s: State, step: Step)
    requires OneBumps(s) && Enabled(s, step) && Separate(s, step)
    ensures Sound(s, step) && OneBumps(Do(s, step))
  {
    if step.Commit? || step.BumpRead? || step.BumpWrite? {
      WriterStep(s, step);
    } else {
      VersionUntouched(s, step);
    }
  }

  lemma WriterStep(s: State, step: Step)
    requires OneBumps(s) && Enabled(s, step) && Separate(s, step)
    requires step.Commit? || step.BumpRead? || step.BumpWrite?
    ensures OneBumps(Do(s, step))
  {
    if step.Commit? {
      assert CurrentVersion(Do(s, step)) == CurrentVersion(s);
    }
  }

  lemma VersionUntouched(s: State, step: Step)
    requires OneBumps(s) && Enabled(s, step) && Separate(s, step)
    requires !step.Commit? && !step.BumpRead? && !step.BumpWrite?
    ensures OneBumps(Do(s, step))
  {
    hide OneBumps, Do;
    VersionEntryUntouched(s, step);
    BumpsUntouched(s, step);
    SameVersion(s, Do(s, step));
  }

  lemma VersionEntryUntouched(s: State, step: Step)
    requires Enabled(s, step) && Separate(s, step) && !step.BumpWrite?
    ensures VERSION_KEY in Do(s, step).cache <==> VERSION_KEY in s.cache
    ensures VERSION_KEY in s.cache ==> Do(s, step).cache[VERSION_KEY] == s.cache[VERSION_KEY]
  {
    hide ListKey, TaskKey, Find, Written, WithoutOwner, Rows, Total;
    match step
    case StoreList(n, _) => ListKeyIsNotVersionKey(s.lists[n].version, s.lists[n].query);
    case StoreTask(n, _) => TaskKeyElsewhere(s.tasks[n].id);
    case DeleteEntry(n, _) => TaskKeyElsewhere(s.writers[n].toDelete.value);
    case _ =>
  }

  lemma BumpsUntouched(s: State, step: Step)
    requires Enabled(s, step) && !step.Commit? && !step.BumpRead? && !step.BumpWrite?
    ensures s.writers.Keys == Do(s, step).writers.Keys
    ensures forall n :: n in s.writers ==> Do(s, step).writers[n].bump == s.writers[n].bump
  {
    hide ListKey, TaskKey, Find, Written, WithoutOwner, Rows, Total;
  }

  lemma SameVersion(s: State, s': State)
    requires OneBumps(s)
    requires VERSION_KEY in s'.cache <==> VERSION_KEY in s.cache
    requires VERSION_KEY in s.cache ==> s'.cache[VERSION_KEY] == s.cache[VERSION_KEY]
    requires s.writers.Keys == s'.writers.Keys && forall n :: n in s.writers ==> s'.writers[n].bump == s.writers[n].bump
    ensures OneBumps(s') && CurrentVersion(s') == CurrentVersion(s)
  {
  }

  /** Runs without overlapping writers are sound, so everything above holds for them. */
  lemma {:induction false} SeparateWritersAreSound(from: State, steps: seq<Step>, to: State)
    requires OneBumps(from) && ReachesSeparately(from, steps, to)
    ensures ReachesSoundly(from, steps, to)
    decreases |steps|
  {
    if steps != [] {
      SeparateStep(from, steps[0]);
      SeparateWritersAreSound(Do(from, steps[0]), steps[1..], to);
    }
  }

  /** Coherence as the version scheme intends it: writers one after the other, any number of readers. */
  lemma {:induction false} SeparateWritersCohere(ttl: nat, table: seq<Task>, steps: seq<Step>, s: State,
                                                 query: ListQuery)
    requires ReachesSeparately(Initial(ttl, table), steps, s) && !Bumping(s)
    requires ListKey(CurrentVersion(s), query) in s.cache
    ensures s.cache[ListKey(CurrentVersion(s), query)].value == Listed(Answer(query, s.table))
    ensures TaskLibrary.IsPage(query, s.table, s.cache[ListKey(CurrentVersion(s), query)].value.page)
  {
    SeparateWritersAreSound(Initial(ttl, table), steps, s);
    ListsAreCoherent(ttl, table, steps, s, query);
  }
}

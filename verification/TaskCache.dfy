/**
 * TasksService over the task table and the Redis cache, one awaited call at a time: cache-aside reads
 * of lists and single tasks, writers that delete and bump after their commit, and a cache in which any
 * call may fail and any entry may be evicted.
 */
module TaskCache {
  import opened Outcomes
  import opened TaskQueries

  datatype Cached = Version(n: nat) | Listed(page: Page) | Single(task: Task)

  /** `since` is when the request that stored the value began, or for the version when it was stored;
      `expires` is None for the version, which is stored with a time to live of 0: for ever. */
  datatype Entry = Entry(value: Cached, since: nat, stored: nat, expires: Option<nat>)

  /** findAll, by what it has done since it began. Rows and total are two reads that run side by side. */
  datatype ListReader =
    | ListStarted(query: ListQuery, since: nat)
    | ListKeyed(query: ListQuery, since: nat, version: nat)
    | ListReading(query: ListQuery, since: nat, version: nat, rows: Option<seq<Task>>, total: Option<nat>)

  /** findById; `user` is absent on the internal paths that may see every task. */
  datatype TaskReader =
    | TaskStarted(id: Uuid, user: Option<string>, since: nat)
    | TaskMissed(id: Uuid, user: Option<string>, since: nat)
    | TaskRead(id: Uuid, user: Option<string>, since: nat, task: Task)

  /** A writer after its commit: the by-id delete and the bump run side by side. */
  datatype Bump = ToRead | ToWrite(read: nat) | Bumped

  datatype Writer = Writer(toDelete: Option<Uuid>, bump: Bump)

  /** A read of the table: what was asked, when, and the table that answered. */
  datatype TableRead =
    | RowsRead(query: ListQuery, at: nat, table: seq<Task>)
    | TotalRead(query: ListQuery, at: nat, table: seq<Task>)
    | SingleRead(id: Uuid, at: nat, table: seq<Task>)

  /** What requests were given at a time. The answer was produced by a request that began at `since`: this
      one, or the one that stored it in the cache at `stored`. */
  datatype Given =
    | GivenList(query: ListQuery, page: Page, at: nat, since: nat, stored: Option<nat>)
    | GivenTask(id: Uuid, user: Option<string>, task: Task, at: nat, since: nat, stored: Option<nat>)

  /** `fetched` and `given` are history: every read of the table and every answer so far. */
  datatype State = State(now: nat, ttl: nat, table: seq<Task>, fetched: seq<TableRead>, cache: map<string, Entry>,
                         lists: map<nat, ListReader>, tasks: map<nat, TaskReader>, writers: map<nat, Writer>,
                         given: seq<Given>)

  /** The committed effect of create, createMany, update and remove. */
  datatype Write =
    | Create(task: Task)
    | CreateMany(tasks: seq<Task>)
    | Update(id: Uuid, title: Option<string>, category: Option<Option<Category>>,
             difficulty: Option<Option<Difficulty>>, details: Option<string>)
    | Remove(id: Uuid)

  datatype Step =
    | Wait(ms: nat)
    | Evict(key: string)
    | StartList(n: nat, query: ListQuery)
    | ReadVersion(n: nat, ok: bool)
    | LookUpList(n: nat, ok: bool)
    | ReadRows(n: nat)
    | ReadTotal(n: nat)
    | StoreList(n: nat, ok: bool)
    | StartTask(n: nat, id: Uuid, user: Option<string>)
    | LookUpTask(n: nat, ok: bool)
    | ReadTask(n: nat)
    | StoreTask(n: nat, ok: bool)
    | Commit(n: nat, write: Write)
    | DeleteEntry(n: nat, ok: bool)
    | BumpRead(n: nat, ok: bool)
    | BumpWrite(n: nat, ok: bool)
    | CreatePrivate(task: Task)
    | PurgePrivate(owner: string)

  // ----- the table -----

  function Edited(task: Task, w: Write): Task
    requires w.Update?
  {
    task.(title := if w.title.Some? then w.title.value else task.title,
          category := if w.category.Some? then w.category.value else task.category,
          difficulty := if w.difficulty.Some? then w.difficulty.value else task.difficulty,
          details := if w.details.Some? then w.details.value else task.details)
  }

  function EditedRows(table: seq<Task>, w: Write): seq<Task>
    requires w.Update?
  {
    seq(|table|, i requires 0 <= i < |table| => if table[i].id == w.id then Edited(table[i], w) else table[i])
  }

  function WithoutId(table: seq<Task>, id: string): seq<Task> {
    if table == [] then [] else (if table[0].id == id then [] else [table[0]]) + WithoutId(table[1..], id)
  }

  /** Rows are newest first. */
  function Written(table: seq<Task>, w: Write): seq<Task> {
    match w
    case Create(task) => [task] + table
    case CreateMany(tasks) => tasks + table
    case Update(_, _, _, _, _) => EditedRows(table, w)
    case Remove(id) => WithoutId(table, id)
  }

  // ----- the cache -----

  function LookUp(s: State, key: string, ok: bool): Option<Entry> {
    if ok && key in s.cache
        && (s.cache[key].expires.None? || s.now < s.cache[key].expires.value) then Some(s.cache[key])
    else None
  }

  /** The version as a successful get returns it: 0 when the key is absent. */
  function CurrentVersion(s: State): nat {
    VersionOr0(LookUp(s, VERSION_KEY, true))
  }

  function VersionOr0(e: Option<Entry>): nat {
    if e.Some? && e.value.value.Version? then e.value.value.n else 0
  }

  function Put(s: State, key: string, value: Cached, since: nat, expires: Option<nat>, ok: bool): State {
    if ok then s.(cache := s.cache[key := Entry(value, since, s.now, expires)]) else s
  }

  function Find(table: seq<Task>, id: string): Option<Task> {
    if table == [] then None else if table[0].id == id then Some(table[0]) else Find(table[1..], id)
  }

  /** The check findById makes after the cache, which is keyed by id alone. */
  predicate MaySee(task: Task, user: Option<string>) {
    user.None? || task.owner.None? || task.owner == user
  }

  // ----- the steps -----

  predicate Enabled(s: State, step: Step) {
    match step
    case Wait(_) => true
    case Evict(_) => true
    case StartList(n, _) => n !in s.lists
    case ReadVersion(n, _) => n in s.lists && s.lists[n].ListStarted?
    case LookUpList(n, _) => n in s.lists && s.lists[n].ListKeyed?
    case ReadRows(n) => n in s.lists && s.lists[n].ListReading? && s.lists[n].rows.None?
    case ReadTotal(n) => n in s.lists && s.lists[n].ListReading? && s.lists[n].total.None?
    case StoreList(n, _) => n in s.lists && s.lists[n].ListReading? && s.lists[n].rows.Some? && s.lists[n].total.Some?
    case StartTask(n, _, _) => n !in s.tasks
    case LookUpTask(n, _) => n in s.tasks && s.tasks[n].TaskStarted?
    case ReadTask(n) => n in s.tasks && s.tasks[n].TaskMissed?
    case StoreTask(n, _) => n in s.tasks && s.tasks[n].TaskRead?
    case Commit(n, _) => n !in s.writers
    case DeleteEntry(n, _) => n in s.writers && s.writers[n].toDelete.Some?
    case BumpRead(n, _) => n in s.writers && s.writers[n].bump.ToRead?
    case BumpWrite(n, _) => n in s.writers && s.writers[n].bump.ToWrite?
    case CreatePrivate(task) => task.owner.Some?
    case PurgePrivate(_) => true
  }

  function Do(s: State, step: Step): State
    requires Enabled(s, step)
  {
    match step
    case Wait(ms) => s.(now := s.now + ms)
    case Evict(key) => s.(cache := s.cache - {key})
    case StartList(n, query) => s.(lists := s.lists[n := ListStarted(query, s.now)])
    case ReadVersion(n, ok) =>
      var r := s.lists[n];
      s.(lists := s.lists[n := ListKeyed(r.query, r.since, VersionOr0(LookUp(s, VERSION_KEY, ok)))])
    case LookUpList(n, ok) => DoLookUpList(s, n, ok)
    case ReadRows(n) =>
      var r := s.lists[n];
      s.(lists := s.lists[n := r.(rows := Some(Rows(r.query, s.table)))],
         fetched := s.fetched + [RowsRead(r.query, s.now, s.table)])
    case ReadTotal(n) =>
      var r := s.lists[n];
      s.(lists := s.lists[n := r.(total := Some(Total(r.query, s.table)))],
         fetched := s.fetched + [TotalRead(r.query, s.now, s.table)])
    case StoreList(n, ok) => DoStoreList(s, n, ok)
    case StartTask(n, id, user) => s.(tasks := s.tasks[n := TaskStarted(id, user, s.now)])
    case LookUpTask(n, ok) => DoLookUpTask(s, n, ok)
    case ReadTask(n) =>
      var r := s.tasks[n];
      var row := Find(s.table, r.id);
      s.(tasks := if row.Some? then s.tasks[n := TaskRead(r.id, r.user, r.since, row.value)] else s.tasks - {n},
         fetched := s.fetched + [SingleRead(r.id, s.now, s.table)])
    case StoreTask(n, ok) =>
      var r := s.tasks[n];
      var stored := Put(s, TaskKey(r.id), Single(r.task), r.since, Some(s.now + s.ttl), ok);
      GiveTask(stored.(tasks := s.tasks - {n}), r.id, r.user, r.task, r.since, None)
    case Commit(n, w) =>
      s.(writers := s.writers[n := Writer(if w.Update? || w.Remove? then Some(w.id) else None, ToRead)],
         table := Written(s.table, w))
    case DeleteEntry(n, ok) =>
      var w := s.writers[n];
      s.(cache := if ok then s.cache - {TaskKey(w.toDelete.value)} else s.cache,
         writers := s.writers[n := w.(toDelete := None)])
    case BumpRead(n, ok) =>
      s.(writers := s.writers[n := s.writers[n].(bump := ToWrite(VersionOr0(LookUp(s, VERSION_KEY, ok))))])
    case BumpWrite(n, ok) =>
      var w := s.writers[n];
      Put(s, VERSION_KEY, Version(w.bump.read + 1), s.now, None, ok).(writers := s.writers[n := w.(bump := Bumped)])
    case CreatePrivate(task) => s.(table := [task] + s.table)
    case PurgePrivate(owner) => s.(table := WithoutOwner(s.table, owner))
  }

  function DoLookUpList(s: State, n: nat, ok: bool): State
    requires Enabled(s, LookUpList(n, ok))
  {
    var r := s.lists[n];
    var hit := LookUp(s, ListKey(r.version, r.query), ok);
    if hit.Some? && hit.value.value.Listed? then
      s.(lists := s.lists - {n},
         given := s.given + [GivenList(r.query, hit.value.value.page, s.now, hit.value.since, Some(hit.value.stored))])
    else s.(lists := s.lists[n := ListReading(r.query, r.since, r.version, None, None)])
  }

  function DoStoreList(s: State, n: nat, ok: bool): State
    requires Enabled(s, StoreList(n, ok))
  {
    var r := s.lists[n];
    var page := Assemble(r.query, r.rows.value, r.total.value);
    Put(s, ListKey(r.version, r.query), Listed(page), r.since, Some(s.now + s.ttl), ok)
      .(lists := s.lists - {n}, given := s.given + [GivenList(r.query, page, s.now, r.since, None)])
  }

  function DoLookUpTask(s: State, n: nat, ok: bool): State
    requires Enabled(s, LookUpTask(n, ok))
  {
    var r := s.tasks[n];
    var hit := LookUp(s, TaskKey(r.id), ok);
    if hit.Some? && hit.value.value.Single? then
      GiveTask(s.(tasks := s.tasks - {n}), r.id, r.user, hit.value.value.task, hit.value.since, Some(hit.value.stored))
    else s.(tasks := s.tasks[n := TaskMissed(r.id, r.user, r.since)])
  }

  /** A task of another user is answered like a missing one: with nothing. */
  function GiveTask(s: State, id: Uuid, user: Option<string>, task: Task, since: nat, stored: Option<nat>): State {
    if MaySee(task, user) then s.(given := s.given + [GivenTask(id, user, task, s.now, since, stored)]) else s
  }

  function Initial(ttl: nat, table: seq<Task>): State {
    State(0, ttl, table, [], map[], map[], map[], map[], [])
  }

  ghost predicate Reaches(from: State, steps: seq<Step>, to: State)
    decreases |steps|
  {
    if steps == [] then from == to
    else Enabled(from, steps[0]) && Reaches(Do(from, steps[0]), steps[1..], to)
  }
}

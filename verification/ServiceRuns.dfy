/**
 * Every interleaving of the operations that write routines, tasks, sessions and recordings.
 * Each awaited database or Redis call is one step, so another client's step can fall between any
 * check and the write that relies on it. A transaction is one step.
 */
module ServiceRuns {
  import opened Outcomes
  import opened Database
  import opened Ownership
  import opened RoutineOrdering
  import opened AccountPurge
  import RedisLock

  /** A request and how far it has got: the constructor names what it does next. */
  datatype Request =
    // addTask: findById, assertTasksVisible, nextPosition, insert
    | Add(user: Id, routine: Id, task: Id, position: Option<int>, duration: Option<nat>)
    | AddOwned(user: Id, routine: Id, task: Id, position: Option<int>, duration: Option<nat>)
    | AddVisible(user: Id, routine: Id, task: Id, position: Option<int>, duration: Option<nat>)
    | AddPlaced(user: Id, routine: Id, task: Id, row: Assignment)
    // updateTask and removeTask: findById, write
    | Update(user: Id, routine: Id, task: Id, patch: Patch)
    | UpdateOwned(user: Id, routine: Id, task: Id, patch: Patch)
    | Remove(user: Id, routine: Id, task: Id)
    | RemoveOwned(user: Id, routine: Id, task: Id)
    // reorderTasks: findById, acquire (at `since`), read and test, transaction, read back, release
    | Reorder(user: Id, routine: Id, ids: seq<Id>)
    | ReorderOwned(user: Id, routine: Id, ids: seq<Id>)
    | ReorderLocked(user: Id, routine: Id, ids: seq<Id>, token: string, since: nat)
    | ReorderTested(user: Id, routine: Id, ids: seq<Id>, token: string, since: nat)
    | ReorderCommitted(user: Id, routine: Id, ids: seq<Id>, token: string, since: nat)
    | ReorderOver(user: Id, routine: Id, token: string, since: nat, answer: Option<seq<Id>>)
    // PracticeSessionsService.create: findById of the routine, assertTasksVisible, nested create
    | Log(user: Id, session: Session, tasks: seq<Id>)
    | LogOwned(user: Id, session: Session, tasks: seq<Id>)
    | LogVisible(user: Id, session: Session, tasks: seq<Id>)
    // RecordingsService.upload and remove: findById, write
    | Upload(user: Id, sessionId: Id, objectName: string)
    | UploadOwned(user: Id, sessionId: Id, objectName: string)
    | Drop(user: Id, recording: Id)
    | DropFound(user: Id, recording: Id)

  /** `used` holds every row id ever handed out: ids are UUIDs and are never handed out twice. */
  datatype State = State(db: Tables, used: set<Id>, requests: map<nat, Request>, locks: RedisLock.LockStore, now: nat)

  datatype Step =
    | Submit(n: nat, request: Request)
    | Advance(n: nat, newId: Id)
    | Abort(n: nat)                       // a crash or an infrastructure error ends the request
    | Wait(ms: nat)
    | SignUp(user: Id)
    | SetImage(user: Id, image: Option<string>)
    | CreateRoutine(user: Id, newId: Id)
    | RemoveRoutine(user: Id, routine: Id)
    | CreateTask(owner: Option<Id>, newId: Id)
    | RemoveTask(task: Id)
    | DeleteByTitle(user: Id, title: string)
    | PurgeUser(user: Id)

  const REORDER_LOCK_TTL_MS := 5000

  function LockKey(routine: Id): string { "lock:routine:" + routine + ":reorder" }

  /** Two routines never share a lock. */
  lemma {:induction false} LockKeysDiffer(a: Id, b: Id)
    requires LockKey(a) == LockKey(b)
    ensures a == b
  {
    assert |"lock:routine:"| == 13;
    assert LockKey(a)[13..13 + |a|] == a && LockKey(b)[13..13 + |b|] == b;
  }

  /** What the DTOs let through, and the program points at which requests arrive. */
  predicate Submittable(r: Request) {
    match r
    case Add(_, _, _, position, _) => position.Some? ==> position.value >= 1
    case Update(_, _, _, patch) => patch.position.Some? ==> patch.position.value >= 1
    case Remove(_, _, _) => true
    case Reorder(_, _, ids) => ids != []
    case Log(user, session, _) => session.user == user
    case Upload(_, _, _) => true
    case Drop(_, _) => true
    case _ => false
  }

  predicate Enabled(s: State, step: Step) {
    match step
    case Submit(n, r) => n !in s.requests && Submittable(r)
    case Advance(n, newId) => n in s.requests && newId !in s.used
    case Abort(n) => n in s.requests
    case SignUp(user) => user !in s.used
    case CreateRoutine(_, newId) => newId !in s.used
    case CreateTask(_, newId) => newId !in s.used
    case _ => true
  }

  // ----- the single-transaction operations -----

  /** RoutinesService.remove: refused while tasks are assigned, and for routines of other users. */
  function RemovingRoutine(db: Tables, user: Id, routine: Id): Tables {
    if routine in db.routines && db.routines[routine] == user then Keep(db, DeleteRoutines(db, {routine})) else db
  }

  /** TasksService.remove: refused while a routine or a logged session uses the task. */
  function RemovingTask(db: Tables, task: Id): Tables {
    Keep(db, DeleteTasks(db, {task}))
  }

  /** The three deletes of deleteByTitle; a session without a title never matches. */
  function TitledSessions(db: Tables, user: Id, title: string): set<Id> {
    set x | x in db.sessions && db.sessions[x].user == user && db.sessions[x].title == Some(title)
  }

  function DeletingByTitle(db: Tables, user: Id, title: string): Tables {
    var ids := TitledSessions(db, user, title);
    var d1 := db.(recordings := map c | c in db.recordings && db.recordings[c].session !in ids :: db.recordings[c]);
    var d2 := d1.(sessionTasks := set k | k in d1.sessionTasks && k.0 !in ids :: k);
    Keep(db, DeleteSessions(d2, ids))
  }

  /** A failed statement or transaction leaves the tables as they were. */
  function Keep(db: Tables, outcome: Result<Tables, DbError>): Tables {
    if outcome.Ok? then outcome.value else db
  }

  // ----- one step of a request -----

  predicate OwnsRoutine(db: Tables, user: Id, routine: Id) {
    routine in db.routines && db.routines[routine] == user
  }

  /** The request's next program point (None when it is finished) and the tables and locks after the step. */
  function Progress(s: State, r: Request, newId: Id): (Option<Request>, Tables, RedisLock.LockStore) {
    var db, locks := s.db, s.locks;
    match r
    case Add(u, x, t, p, d) => (if OwnsRoutine(db, u, x) then Some(AddOwned(u, x, t, p, d)) else None, db, locks)
    case AddOwned(u, x, t, p, d) =>
      (if TasksVisible(db, u, [t]) then Some(AddVisible(u, x, t, p, d)) else None, db, locks)
    case AddVisible(u, x, t, p, d) =>
      var position := if p.Some? then p.value else NextPosition(db.assignments, x);
      (Some(AddPlaced(u, x, t, Assignment(position, d))), db, locks)
    case AddPlaced(u, x, t, row) => (None, Keep(db, InsertAssignment(db, x, t, row)), locks)
    case Update(u, x, t, patch) =>
      (if OwnsRoutine(db, u, x) then Some(UpdateOwned(u, x, t, patch)) else None, db, locks)
    case UpdateOwned(u, x, t, patch) => (None, KeepRows(db, UpdateAssignment(db.assignments, x, t, patch)), locks)
    case Remove(u, x, t) => (if OwnsRoutine(db, u, x) then Some(RemoveOwned(u, x, t)) else None, db, locks)
    case RemoveOwned(u, x, t) => (None, KeepRows(db, DeleteAssignment(db.assignments, x, t)), locks)
    case Reorder(u, x, ids) => (if OwnsRoutine(db, u, x) then Some(ReorderOwned(u, x, ids)) else None, db, locks)
    case ReorderOwned(u, x, ids) =>
      var (locks', ok) := RedisLock.Acquired(locks, LockKey(x), newId, REORDER_LOCK_TTL_MS, s.now);
      (if ok then Some(ReorderLocked(u, x, ids, newId, s.now)) else None, db, locks')
    case ReorderLocked(u, x, ids, token, since) =>
      (Some(if IsSameSet(ids, TasksOf(db.assignments, x)) then ReorderTested(u, x, ids, token, since)
            else ReorderOver(u, x, token, since, None)), db, locks)
    case ReorderTested(u, x, ids, token, since) =>
      var outcome := RunScript(db.assignments, x, ReorderScript(ids));
      (Some(if outcome.Ok? then ReorderCommitted(u, x, ids, token, since) else ReorderOver(u, x, token, since, None)),
       KeepRows(db, outcome), locks)
    case ReorderCommitted(u, x, ids, token, since) =>
      (Some(ReorderOver(u, x, token, since, Some(ReadBack(db.assignments, x)))), db, locks)
    case ReorderOver(u, x, token, _, _) => (None, db, RedisLock.Released(locks, LockKey(x), token, s.now))
    case Log(u, session, tasks) =>
      (if session.routine.Some? && !OwnsRoutine(db, u, session.routine.value) then None
       else Some(LogOwned(u, session, tasks)), db, locks)
    case LogOwned(u, session, tasks) =>
      (if tasks == [] || TasksVisible(db, u, tasks) then Some(LogVisible(u, session, tasks)) else None, db, locks)
    case LogVisible(u, session, tasks) => (None, Keep(db, InsertSession(db, newId, session, tasks)), locks)
    case Upload(u, x, name) =>
      (if x in db.sessions && db.sessions[x].user == u then Some(UploadOwned(u, x, name)) else None, db, locks)
    case UploadOwned(u, x, name) => (None, Keep(db, InsertRecording(db, newId, Recording(u, x, name))), locks)
    case Drop(u, c) =>
      (if c in db.recordings && db.recordings[c].user == u then Some(DropFound(u, c)) else None, db, locks)
    case DropFound(u, c) => (None, db.(recordings := db.recordings - {c}), locks)
  }

  /** The rows ordered by position; the unique index makes the order the only one. */
  function ReadBack(rows: Assignments, routine: Id): seq<Id> {
    if UniquePositions(rows) then Listing(rows, routine) else []
  }

  function KeepRows(db: Tables, outcome: Result<Assignments, DbError>): Tables {
    if outcome.Ok? then db.(assignments := outcome.value) else db
  }

  function Do(s: State, step: Step): State
    requires Enabled(s, step)
  {
    match step
    case Submit(n, r) => s.(requests := s.requests[n := r])
    case Advance(n, newId) =>
      var (next, db, locks) := Progress(s, s.requests[n], newId);
      s.(db := db, locks := locks, used := s.used + {newId},
         requests := if next.Some? then s.requests[n := next.value] else s.requests - {n})
    case Abort(n) => s.(requests := s.requests - {n})
    case Wait(ms) => s.(now := s.now + ms)
    case SignUp(user) => s.(db := s.db.(users := s.db.users[user := None]), used := s.used + {user})
    case SetImage(user, image) =>
      if user in s.db.users then s.(db := s.db.(users := s.db.users[user := image])) else s
    case CreateRoutine(user, newId) => s.(db := Keep(s.db, InsertRoutine(s.db, newId, user)), used := s.used + {newId})
    case RemoveRoutine(user, routine) => s.(db := RemovingRoutine(s.db, user, routine))
    case CreateTask(owner, newId) => s.(db := Keep(s.db, InsertTask(s.db, newId, owner)), used := s.used + {newId})
    case RemoveTask(task) => s.(db := RemovingTask(s.db, task))
    case DeleteByTitle(user, title) => s.(db := DeletingByTitle(s.db, user, title))
    case PurgeUser(user) => s.(db := Keep(s.db, Purge(s.db, user)))
  }

  const INITIAL := State(Tables(map[], map[], map[], map[], map[], {}, map[]), {}, map[], map[], 0)

  ghost predicate Reaches(from: State, steps: seq<Step>, to: State)
    decreases |steps|
  {
    if steps == [] then from == to
    else Enabled(from, steps[0]) && Reaches(Do(from, steps[0]), steps[1..], to)
  }

  // ----- what a check established and a later step may rely on -----

  /** The id was handed out, and if its row still exists it is the user's. */
  ghost predicate StillRoutineOf(s: State, routine: Id, user: Id) {
    routine in s.used && (routine in s.db.routines ==> s.db.routines[routine] == user)
  }

  ghost predicate StillVisible(s: State, task: Id, user: Id) {
    task in s.used && (task in s.db.tasks ==> VisibleTo(s.db.tasks[task], user))
  }

  ghost predicate StillSessionOf(s: State, session: Id, user: Id) {
    session in s.used && (session in s.db.sessions ==> s.db.sessions[session].user == user)
  }

  ghost predicate StillRecordingOf(s: State, recording: Id, user: Id) {
    recording in s.used && (recording in s.db.recordings ==> s.db.recordings[recording].user == user)
  }

  ghost predicate Justified(s: State, r: Request) {
    match r
    case AddOwned(u, x, _, p, _) => StillRoutineOf(s, x, u) && (p.Some? ==> p.value >= 1)
    case AddVisible(u, x, t, p, _) => StillRoutineOf(s, x, u) && StillVisible(s, t, u) && (p.Some? ==> p.value >= 1)
    case AddPlaced(u, x, t, row) => StillRoutineOf(s, x, u) && StillVisible(s, t, u) && row.position >= 1
    case UpdateOwned(u, x, _, patch) => StillRoutineOf(s, x, u) && (patch.position.Some? ==> patch.position.value >= 1)
    case RemoveOwned(u, x, _) => StillRoutineOf(s, x, u)
    case ReorderOwned(u, x, _) => StillRoutineOf(s, x, u)
    case ReorderLocked(u, x, _, _, _) => StillRoutineOf(s, x, u)
    case ReorderTested(u, x, ids, _, _) => StillRoutineOf(s, x, u) && Distinct(ids)
    case ReorderCommitted(u, x, _, _, _) => StillRoutineOf(s, x, u)
    case ReorderOver(u, x, _, _, _) => StillRoutineOf(s, x, u)
    case LogOwned(u, session, _) => session.user == u
        && (session.routine.Some? ==> StillRoutineOf(s, session.routine.value, u))
    case LogVisible(u, session, tasks) =>
      && session.user == u
      && (session.routine.Some? ==> StillRoutineOf(s, session.routine.value, u))
      && (forall t :: t in tasks ==> StillVisible(s, t, u))
    case UploadOwned(u, x, _) => StillSessionOf(s, x, u)
    case DropFound(u, c) => StillRecordingOf(s, c, u)
    case _ => Submittable(r)
  }

  ghost predicate IdsUsed(s: State) {
    && s.db.users.Keys <= s.used && s.db.tasks.Keys <= s.used && s.db.routines.Keys <= s.used
    && s.db.sessions.Keys <= s.used && s.db.recordings.Keys <= s.used
  }

  ghost predicate Inv(s: State) {
    && Ordered(s.db.assignments)
    && Owned(s.db)
    && IdsUsed(s)
    && forall n :: n in s.requests ==> Justified(s, s.requests[n])
  }

  /** Rows are never re-owned and ids never come back, so what was established stays established. */
  ghost predicate Evolves(s: State, s': State) {
    && s.used <= s'.used
    && (forall r :: r in s'.db.routines && r in s.used ==> r in s.db.routines && s'.db.routines[r] == s.db.routines[r])
    && (forall t :: t in s'.db.tasks && t in s.used ==> t in s.db.tasks && s'.db.tasks[t] == s.db.tasks[t])
    && (forall x :: x in s'.db.sessions && x in s.used ==>
        x in s.db.sessions && s'.db.sessions[x].user == s.db.sessions[x].user)
    && (forall c :: c in s'.db.recordings && c in s.used ==>
        c in s.db.recordings && s'.db.recordings[c].user == s.db.recordings[c].user)
  }

  lemma EvolvesKeepsJustified(s: State, s': State, r: Request)
    requires Evolves(s, s') && Justified(s, r)
    ensures Justified(s', r)
  {
  }

  // ----- each table operation keeps order and ownership -----

  lemma InsertAssignmentKeeps(db: Tables, x: Id, t: Id, row: Assignment)
    requires Ordered(db.assignments) && Owned(db) && row.position >= 1
    requires x in db.routines && t in db.tasks ==> VisibleTo(db.tasks[t], db.routines[x])
    ensures var db' := Keep(db, InsertAssignment(db, x, t, row)); Ordered(db'.assignments) && Owned(db')
  {
  }

  lemma UpdateAssignmentKeeps(db: Tables, x: Id, t: Id, patch: Patch)
    requires Ordered(db.assignments) && Owned(db) && (patch.position.Some? ==> patch.position.value >= 1)
    ensures var db' := KeepRows(db, UpdateAssignment(db.assignments, x, t, patch));
              Ordered(db'.assignments) && Owned(db')
  {
  }

  lemma ReorderKeeps(db: Tables, x: Id, ids: seq<Id>)
    requires Ordered(db.assignments) && Owned(db) && Distinct(ids)
    ensures var db' := KeepRows(db, RunScript(db.assignments, x, ReorderScript(ids)));
              Ordered(db'.assignments) && Owned(db')
  {
    ReorderKeepsOrder(db.assignments, x, ids);
    ReorderOutcome(db.assignments, x, ids);
    var db' := KeepRows(db, RunScript(db.assignments, x, ReorderScript(ids)));
    assert db'.assignments.Keys == db.assignments.Keys;
    assert AssignmentsOwned(db') by {
      forall k | k in db'.assignments ensures k in db.assignments { }
    }
  }

  lemma InsertSessionKeeps(db: Tables, id: Id, session: Session, tasks: seq<Id>)
    requires Owned(db)
    requires session.routine.Some? && session.routine.value in db.routines ==>
              db.routines[session.routine.value] == session.user
    requires forall t :: t in tasks && t in db.tasks ==> VisibleTo(db.tasks[t], session.user)
    ensures Owned(Keep(db, InsertSession(db, id, session, tasks)))
  {
  }

  lemma RemovingRoutineKeeps(db: Tables, user: Id, routine: Id)
    requires Ordered(db.assignments) && Owned(db)
    ensures var db' := RemovingRoutine(db, user, routine); Ordered(db'.assignments) && Owned(db')
  {
  }

  lemma DeletingByTitleKeeps(db: Tables, user: Id, title: string)
    requires Ordered(db.assignments) && Owned(db)
    ensures var db' := DeletingByTitle(db, user, title);
            && Ordered(db'.assignments) && Owned(db')
            && db'.sessions == db.sessions - TitledSessions(db, user, title)
  {
  }

  lemma InsertRecordingKeeps(db: Tables, id: Id, recording: Recording)
    requires Owned(db)
    requires recording.session in db.sessions ==> db.sessions[recording.session].user == recording.user
    ensures Owned(Keep(db, InsertRecording(db, id, recording)))
  {
  }

  lemma DropRecordingKeeps(db: Tables, id: Id)
    requires Owned(db)
    ensures Owned(db.(recordings := db.recordings - {id}))
  {
  }

  lemma SignUpKeeps(db: Tables, user: Id)
    requires Owned(db)
    ensures Owned(db.(users := db.users[user := None]))
  {
  }

  lemma SetImageKeeps(db: Tables, user: Id, image: Option<string>)
    requires Owned(db)
    ensures Owned(db.(users := db.users[user := image]))
  {
  }

  lemma InsertRoutineKeeps(db: Tables, id: Id, user: Id)
    requires Owned(db)
    ensures Owned(Keep(db, InsertRoutine(db, id, user)))
  {
  }

  lemma InsertTaskKeeps(db: Tables, id: Id, owner: Option<Id>)
    requires Owned(db)
    ensures Owned(Keep(db, InsertTask(db, id, owner)))
  {
  }

  lemma RemovingTaskKeeps(db: Tables, task: Id)
    requires Owned(db)
    ensures Owned(RemovingTask(db, task))
  {
  }

  lemma PurgeKeeps(db: Tables, user: Id)
    requires Ordered(db.assignments) && Owned(db)
    ensures var db' := Keep(db, Purge(db, user)); Ordered(db'.assignments) && Owned(db')
  {
    if user in db.users { PurgeIsExact(db, user); }
  }

  /** The steps of a request that only read the tables. */
  predicate OnlyReads(r: Request) {
    !r.AddPlaced? && !r.UpdateOwned? && !r.RemoveOwned? && !r.ReorderTested? && !r.LogVisible? && !r.UploadOwned?
        && !r.DropFound?
  }

  /** What a check saw is what the next step may rely on. */
  lemma ChecksJustify(s: State, r: Request, newId: Id)
    requires Inv(s) && Justified(s, r) && OnlyReads(r)
    ensures var (next, db, locks) := Progress(s, r, newId);
            db == s.db && (next.Some? ==> Justified(s, next.value))
  {
    if r.AddOwned? || r.LogOwned? {
      VisibilityJustifies(s, r, newId);
    } else if r.AddVisible? || r.ReorderLocked? {
      RowsJustify(s, r, newId);
    } else {
      OwnerJustifies(s, r, newId);
    }
  }

  lemma RowsJustify(s: State, r: Request, newId: Id)
    requires Ordered(s.db.assignments) && Justified(s, r) && (r.AddVisible? || r.ReorderLocked?)
    ensures var next := Progress(s, r, newId).0; next.Some? ==> Justified(s, next.value)
  {
    if r.AddVisible? {
      NextPositionIsPositive(s.db.assignments, r.routine);
    } else {
      SameSetIffPermutation(r.ids, TasksOf(s.db.assignments, r.routine));
    }
  }

  lemma OwnerJustifies(s: State, r: Request, newId: Id)
    requires IdsUsed(s) && Justified(s, r) && OnlyReads(r)
    requires !r.AddOwned? && !r.LogOwned? && !r.AddVisible? && !r.ReorderLocked?
    ensures var next := Progress(s, r, newId).0; next.Some? ==> Justified(s, next.value)
  {
  }

  lemma VisibilityJustifies(s: State, r: Request, newId: Id)
    requires IdsUsed(s) && Justified(s, r) && (r.AddOwned? || r.LogOwned?)
    ensures var next := Progress(s, r, newId).0; next.Some? ==> Justified(s, next.value)
  {
    if r.AddOwned? {
      TasksVisibleIffEachVisible(s.db, r.user, [r.task]);
      assert r.task in [r.task];
    } else {
      TasksVisibleIffEachVisible(s.db, r.user, r.tasks);
    }
  }

  /** The writes keep order and ownership. */
  lemma WritesKeepOwned(s: State, r: Request, newId: Id)
    requires Inv(s) && Justified(s, r) && !OnlyReads(r)
    ensures var db := Progress(s, r, newId).1; Ordered(db.assignments) && Owned(db)
  {
    match r
    case AddPlaced(u, x, t, row) => InsertAssignmentKeeps(s.db, x, t, row);
    case UpdateOwned(u, x, t, patch) => UpdateAssignmentKeeps(s.db, x, t, patch);
    case ReorderTested(u, x, ids, _, _) => ReorderKeeps(s.db, x, ids);
    case LogVisible(u, session, tasks) => InsertSessionKeeps(s.db, newId, session, tasks);
    case UploadOwned(u, x, name) => InsertRecordingKeeps(s.db, newId, Recording(u, x, name));
    case DropFound(u, c) => DropRecordingKeeps(s.db, c);
    case RemoveOwned(u, x, t) =>
  }

  /** What a request's step does to owners: rows are created under the new id only, none is re-owned, and the
      request is left at a justified point. */
  ghost predicate StepEvolves(s: State, r: Request, newId: Id) {
    var (next, db, locks) := Progress(s, r, newId);
    var s' := s.(db := db, locks := locks, used := s.used + {newId});
    IdsUsed(s') && Evolves(s, s') && (next.Some? ==> Justified(s, next.value))
  }

  predicate WritesRows(r: Request) { r.AddPlaced? || r.UpdateOwned? || r.RemoveOwned? || r.ReorderTested? }

  lemma OnlyRowsChange(s: State, r: Request, newId: Id)
    requires WritesRows(r)
    ensures Progress(s, r, newId).1 == s.db.(assignments := Progress(s, r, newId).1.assignments)
    ensures if !r.ReorderTested? then Progress(s, r, newId).0.None?
            else
              || Progress(s, r, newId).0 == Some(ReorderCommitted(r.user, r.routine, r.ids, r.token, r.since))
              || Progress(s, r, newId).0 == Some(ReorderOver(r.user, r.routine, r.token, r.since, None))
  {
    hide PositionTaken, RunScript, ReorderScript, TasksVisible, NextPosition, IsSameSet, OwnsRoutine;
  }

  lemma SameOwnersEvolve(s: State, s': State)
    requires IdsUsed(s) && s.used <= s'.used && s'.db == s.db.(assignments := s'.db.assignments)
    ensures IdsUsed(s') && Evolves(s, s')
  {
  }

  /** A write to routine_tasks only. */
  lemma RowsEvolve(s: State, r: Request, newId: Id)
    requires IdsUsed(s) && Justified(s, r) && WritesRows(r)
    ensures StepEvolves(s, r, newId)
  {
    hide Progress, Evolves, IdsUsed, StillRoutineOf, Distinct;
    OnlyRowsChange(s, r, newId);
    var (next, db, locks) := Progress(s, r, newId);
    SameOwnersEvolve(s, s.(db := db, locks := locks, used := s.used + {newId}));
  }

  lemma LogEvolves(s: State, r: Request, newId: Id)
    requires IdsUsed(s) && Justified(s, r) && newId !in s.used && r.LogVisible?
    ensures StepEvolves(s, r, newId)
  {
    hide PositionTaken, RunScript, ReorderScript, TasksVisible, NextPosition, IsSameSet, Distinct;
  }

  lemma UploadEvolves(s: State, r: Request, newId: Id)
    requires IdsUsed(s) && Justified(s, r) && newId !in s.used && (r.UploadOwned? || r.DropFound?)
    ensures StepEvolves(s, r, newId)
  {
    hide PositionTaken, RunScript, ReorderScript, TasksVisible, NextPosition, IsSameSet, Distinct;
  }

  /** A request's step keeps the tables in order, and leaves the request at a justified point. */
  lemma ProgressKeeps(s: State, r: Request, newId: Id)
    requires Inv(s) && Justified(s, r) && newId !in s.used
    ensures var (next, db, locks) := Progress(s, r, newId);
            var s' := s.(db := db, locks := locks, used := s.used + {newId});
            && Ordered(db.assignments) && Owned(db) && IdsUsed(s') && Evolves(s, s')
            && (next.Some? ==> Justified(s, next.value))
  {
    if OnlyReads(r) {
      ChecksJustify(s, r, newId);
    } else {
      WritesKeepOwned(s, r, newId);
      if r.LogVisible? {
        LogEvolves(s, r, newId);
      } else if r.UploadOwned? || r.DropFound? {
        UploadEvolves(s, r, newId);
      } else {
        RowsEvolve(s, r, newId);
      }
    }
  }

  lemma StepKeepsInv(s: State, step: Step)
    requires Inv(s) && Enabled(s, step)
    ensures Inv(Do(s, step))
  {
    hide Inv, Justified, Progress;
    if step.Advance? {
      AdvanceKeepsInv(s, step.n, step.newId);
    } else if step.Submit? || step.Abort? || step.Wait? {
      TablesUntouched(s, step);
    } else {
      TransactionKeepsInv(s, step);
    }
  }

  lemma TablesUntouched(s: State, step: Step)
    requires Inv(s) && Enabled(s, step) && (step.Submit? || step.Abort? || step.Wait?)
    ensures Inv(Do(s, step))
  {
    hide Ordered, Owned, Progress;
    var s' := Do(s, step);
    forall m | m in s'.requests ensures Justified(s', s'.requests[m]) {
      if m in s.requests && s'.requests[m] == s.requests[m] { assert Justified(s, s.requests[m]); }
    }
  }

  lemma AdvanceKeepsInv(s: State, n: nat, newId: Id)
    requires Inv(s) && Enabled(s, Advance(n, newId))
    ensures Inv(Do(s, Advance(n, newId)))
  {
    var s' := Do(s, Advance(n, newId));
    ProgressKeeps(s, s.requests[n], newId);
    var next := Progress(s, s.requests[n], newId).0;
    if next.Some? { EvolvesKeepsJustified(s, s', next.value); }
    forall m | m in s'.requests ensures Justified(s', s'.requests[m]) {
      if m != n { EvolvesKeepsJustified(s, s', s.requests[m]); }
    }
  }

  lemma TransactionKeepsInv(s: State, step: Step)
    requires Inv(s) && Enabled(s, step)
    requires !step.Submit? && !step.Advance? && !step.Abort? && !step.Wait?
    ensures Inv(Do(s, step))
  {
    var s' := Do(s, step);
    TransactionKeeps(s, step);
    TransactionEvolves(s, step);
    forall m | m in s'.requests ensures Justified(s', s'.requests[m]) {
      EvolvesKeepsJustified(s, s', s.requests[m]);
    }
  }

  lemma TransactionKeeps(s: State, step: Step)
    requires Inv(s) && Enabled(s, step)
    requires !step.Submit? && !step.Advance? && !step.Abort? && !step.Wait?
    ensures var s' := Do(s, step); Ordered(s'.db.assignments) && Owned(s'.db)
  {
    match step
    case SignUp(user) => SignUpKeeps(s.db, user);
    case SetImage(user, image) => SetImageKeeps(s.db, user, image);
    case CreateRoutine(user, newId) => InsertRoutineKeeps(s.db, newId, user);
    case RemoveRoutine(user, routine) => RemovingRoutineKeeps(s.db, user, routine);
    case CreateTask(owner, newId) => InsertTaskKeeps(s.db, newId, owner);
    case RemoveTask(task) => RemovingTaskKeeps(s.db, task);
    case DeleteByTitle(user, title) => DeletingByTitleKeeps(s.db, user, title);
    case PurgeUser(user) => PurgeKeeps(s.db, user);
  }

  lemma TransactionEvolves(s: State, step: Step)
    requires Inv(s) && Enabled(s, step)
    requires !step.Submit? && !step.Advance? && !step.Abort? && !step.Wait?
    ensures var s' := Do(s, step); s'.requests == s.requests && Evolves(s, s') && IdsUsed(s')
  {
    if step.RemoveRoutine? || step.RemoveTask? || step.DeleteByTitle? || step.PurgeUser? {
      DeleteEvolves(s, step);
    } else {
      InsertEvolves(s, step);
    }
  }

  lemma InsertEvolves(s: State, step: Step)
    requires IdsUsed(s) && Enabled(s, step)
    requires step.SignUp? || step.SetImage? || step.CreateRoutine? || step.CreateTask?
    ensures var s' := Do(s, step); s'.requests == s.requests && Evolves(s, s') && IdsUsed(s')
  {
    hide Evolves, IdsUsed, InsertRoutine, InsertTask, Keep;
    var s' := Do(s, step);
    assert s.db.users.Keys <= s.used by { IdsOfUsers(s); }
    match step
    case SignUp(user) => UsersEvolve(s, s.db.users[user := None], s'.used);
    case SetImage(user, image) =>
      assert s' == s.(db := s.db.(users := s'.db.users), used := s.used);
      UsersEvolve(s, s'.db.users, s.used);
    case CreateRoutine(user, newId) => NewRoutineEvolves(s, newId, user);
    case CreateTask(owner, newId) => NewTaskEvolves(s, newId, owner);
  }

  lemma IdsOfUsers(s: State)
    requires IdsUsed(s)
    ensures s.db.users.Keys <= s.used
  {
  }

  lemma UsersEvolve(s: State, users: map<Id, Option<string>>, used: set<Id>)
    requires IdsUsed(s) && s.used <= used && users.Keys <= used
    ensures var s' := s.(db := s.db.(users := users), used := used); Evolves(s, s') && IdsUsed(s')
  {
  }

  lemma NewRoutineEvolves(s: State, newId: Id, user: Id)
    requires IdsUsed(s) && newId !in s.used
    ensures var s' := s.(db := Keep(s.db, InsertRoutine(s.db, newId, user)), used := s.used + {newId});
            Evolves(s, s') && IdsUsed(s')
  {
  }

  lemma NewTaskEvolves(s: State, newId: Id, owner: Option<Id>)
    requires IdsUsed(s) && newId !in s.used
    ensures var s' := s.(db := Keep(s.db, InsertTask(s.db, newId, owner)), used := s.used + {newId});
            Evolves(s, s') && IdsUsed(s')
  {
  }

  lemma DeleteEvolves(s: State, step: Step)
    requires Inv(s) && Enabled(s, step)
    requires step.RemoveRoutine? || step.RemoveTask? || step.DeleteByTitle? || step.PurgeUser?
    ensures var s' := Do(s, step); s'.requests == s.requests && Evolves(s, s') && IdsUsed(s')
  {
    hide Evolves, IdsUsed, Ordered, Owned, Justified, Purge, RemovingRoutine, RemovingTask, DeletingByTitle;
    match step
    case RemoveRoutine(user, routine) =>
      RemovalShrinks(s.db, user, routine);
      ShrinkingEvolves(s, RemovingRoutine(s.db, user, routine));
    case RemoveTask(task) =>
      RemovalOfTaskShrinks(s.db, task);
      ShrinkingEvolves(s, RemovingTask(s.db, task));
    case DeleteByTitle(user, title) =>
      TitleDeletionShrinks(s.db, user, title);
      ShrinkingEvolves(s, DeletingByTitle(s.db, user, title));
    case PurgeUser(user) => PurgeEvolves(s, user);
  }

  /** Rows were only deleted, or unlinked. */
  ghost predicate Shrinks(before: Tables, after: Tables) {
    && after.users.Keys <= before.users.Keys
    && (forall r :: r in after.routines ==> r in before.routines && after.routines[r] == before.routines[r])
    && (forall t :: t in after.tasks ==> t in before.tasks && after.tasks[t] == before.tasks[t])
    && (forall x :: x in after.sessions ==> x in before.sessions && after.sessions[x].user == before.sessions[x].user)
    && (forall c :: c in after.recordings ==> c in before.recordings && after.recordings[c] == before.recordings[c])
  }

  lemma RemovalShrinks(db: Tables, user: Id, routine: Id)
    ensures Shrinks(db, RemovingRoutine(db, user, routine))
  {
  }

  lemma RemovalOfTaskShrinks(db: Tables, task: Id)
    ensures Shrinks(db, RemovingTask(db, task))
  {
  }

  lemma TitleDeletionShrinks(db: Tables, user: Id, title: string)
    ensures Shrinks(db, DeletingByTitle(db, user, title))
  {
  }

  lemma PurgeEvolves(s: State, user: Id)
    requires Inv(s)
    ensures Evolves(s, s.(db := Keep(s.db, Purge(s.db, user)))) && IdsUsed(s.(db := Keep(s.db, Purge(s.db, user))))
  {
    if user in s.db.users {
      PurgeIsExact(s.db, user);
      ShrinkingEvolves(s, Without(s.db, user));
    }
  }

  lemma ShrinkingEvolves(s: State, db: Tables)
    requires IdsUsed(s) && Shrinks(s.db, db)
    ensures Evolves(s, s.(db := db)) && IdsUsed(s.(db := db))
  {
  }

  lemma {:induction false} RunKeepsInv(from: State, steps: seq<Step>, to: State)
    requires Inv(from) && Reaches(from, steps, to)
    ensures Inv(to)
    decreases |steps|
  {
    if steps != [] {
      StepKeepsInv(from, steps[0]);
      RunKeepsInv(Do(from, steps[0]), steps[1..], to);
    }
  }

  // ----- the theorems -----

  /** Ordering safety: in every reachable state the (routine, position) pairs are unique and every
      position is at least 1, so no placeholder is ever visible. The (routine, task) pairs are the keys. */
  lemma {:induction false} OrderingSafety(steps: seq<Step>, s: State)
    requires Reaches(INITIAL, steps, s)
    ensures UniquePositions(s.db.assignments)
    ensures forall k :: k in s.db.assignments ==> s.db.assignments[k].position >= 1
  {
    RunKeepsInv(INITIAL, steps, s);
  }

  /** Ownership closure: no run leads to a row that points at another user's data. */
  lemma {:induction false} OwnershipClosure(steps: seq<Step>, s: State)
    requires Reaches(INITIAL, steps, s)
    ensures Owned(s.db)
  {
    RunKeepsInv(INITIAL, steps, s);
  }

  /** From any reachable state a purge of an existing user commits, and is exact. */
  lemma {:induction false} PurgeAlwaysSucceeds(steps: seq<Step>, s: State, user: Id)
    requires Reaches(INITIAL, steps, s) && user in s.db.users
    ensures Purge(s.db, user) == Ok(Without(s.db, user))
    ensures Do(s, PurgeUser(user)) == s.(db := Without(s.db, user))
    ensures var after := Without(s.db, user);
            Owned(after) && NothingOf(after, user) && OthersUnchanged(s.db, after, user)
  {
    hide Do, Purge, Without, Owned, NothingOf, OthersUnchanged, Ordered;
    ReachableInv(steps, s);
    PurgeIsExact(s.db, user);
    PurgeStep(s, user);
  }

  lemma ReachableInv(steps: seq<Step>, s: State)
    requires Reaches(INITIAL, steps, s)
    ensures Inv(s)
  {
    RunKeepsInv(INITIAL, steps, s);
  }

  lemma PurgeStep(s: State, user: Id)
    ensures Do(s, PurgeUser(user)) == s.(db := Keep(s.db, Purge(s.db, user)))
  {
    hide Purge;
  }

  /** Of the sessions, exactly the user's with that title are gone; recordings and session tasks went with
      them, and only those; what is left is as it was. */
  ghost predicate WithoutTitle(before: Tables, after: Tables, user: Id, title: string) {
    && after == before.(recordings := after.recordings, sessionTasks := after.sessionTasks, sessions := after.sessions)
    && (forall x :: x in after.sessions <==>
        x in before.sessions && !(before.sessions[x].user == user && before.sessions[x].title == Some(title)))
    && (forall x :: x in after.sessions ==> after.sessions[x] == before.sessions[x])
    && (forall c :: c in after.recordings <==>
        c in before.recordings && before.recordings[c].session in after.sessions)
    && (forall c :: c in after.recordings ==> after.recordings[c] == before.recordings[c])
    && (forall k :: k in after.sessionTasks <==> k in before.sessionTasks && k.0 in after.sessions)
  }

  /** Removing a routine takes out its row and the sessions' links to it, and only for its owner and while no
      task is assigned. */
  lemma {:induction false} RemovingRoutineIsExact(s: State, user: Id, routine: Id)
    ensures var db, after := s.db, Do(s, RemoveRoutine(user, routine)).db;
            if
              || routine !in db.routines || db.routines[routine] != user
              || exists k :: k in db.assignments && k.0 == routine
            then after == db
            else
              && after == db.(routines := db.routines - {routine}, sessions := after.sessions)
              && after.sessions.Keys == db.sessions.Keys
              && forall x :: x in db.sessions ==>
                   after.sessions[x] == db.sessions[x].(routine := if db.sessions[x].routine == Some(routine) then None
                                                                   else db.sessions[x].routine)
  {
    if k :| k in s.db.assignments && k.0 == routine { assert k.0 in {routine}; }
  }

  /** Removing a task takes out its row alone, and only if no routine and no logged session uses it. */
  lemma {:induction false} RemovingTaskIsExact(s: State, task: Id)
    ensures var db := s.db;
            Do(s, RemoveTask(task)).db ==
              if (exists k :: k in db.assignments && k.1 == task) || (exists k :: k in db.sessionTasks && k.1 == task)
              then db else db.(tasks := db.tasks - {task})
  {
    if k :| k in s.db.assignments && k.1 == task { assert k.1 in {task}; }
    if k :| k in s.db.sessionTasks && k.1 == task { assert k.1 in {task}; }
  }

  /** The rows that the single inserts and the image update leave. A routine or private task of a user who is
      gone is not created. */
  lemma {:induction false} InsertsAreExact(s: State, user: Id, image: Option<string>, newId: Id)
    requires newId !in s.used && IdsUsed(s)
    ensures user !in s.used ==> Do(s, SignUp(user)).db == s.db.(users := s.db.users[user := None])
    ensures Do(s, SetImage(user, image)).db ==
              if user in s.db.users then s.db.(users := s.db.users[user := image]) else s.db
    ensures Do(s, CreateRoutine(user, newId)).db ==
              if user in s.db.users then s.db.(routines := s.db.routines[newId := user]) else s.db
    ensures Do(s, CreateTask(Some(user), newId)).db ==
              if user in s.db.users then s.db.(tasks := s.db.tasks[newId := Some(user)]) else s.db
    ensures Do(s, CreateTask(None, newId)).db == s.db.(tasks := s.db.tasks[newId := None])
  {
  }

  /** deleteByTitle never trips over a foreign key either: the titled sessions go with their recordings and
      session tasks, and everything else stays. */
  lemma {:induction false} DeleteByTitleAlwaysSucceeds(steps: seq<Step>, s: State, user: Id, title: string)
    requires Reaches(INITIAL, steps, s)
    ensures var ids := TitledSessions(s.db, user, title);
            DeletingByTitle(s.db, user, title) ==
              s.db.(recordings := map c | c in s.db.recordings && s.db.recordings[c].session !in ids ::
                                      s.db.recordings[c],
                    sessionTasks := set k | k in s.db.sessionTasks && k.0 !in ids :: k,
                    sessions := s.db.sessions - ids)
    ensures OthersUnchanged(s.db, DeletingByTitle(s.db, user, title), user)
    ensures WithoutTitle(s.db, Do(s, DeleteByTitle(user, title)).db, user, title)
  {
    hide Do, OthersUnchanged, Ordered, Owned, DeletingByTitle, TitledSessions, WithoutTitle;
    ReachableInv(steps, s);
    TitleDeletionIsExact(s.db, user, title);
    TitleStep(s, user, title);
  }

  lemma TitleDeletionIsExact(db: Tables, user: Id, title: string)
    requires Ordered(db.assignments) && Owned(db)
    ensures var ids, after := TitledSessions(db, user, title), DeletingByTitle(db, user, title);
            after == db.(recordings := map c | c in db.recordings && db.recordings[c].session !in ids ::
                                       db.recordings[c],
                         sessionTasks := set k | k in db.sessionTasks && k.0 !in ids :: k,
                         sessions := db.sessions - ids)
    ensures OthersUnchanged(db, DeletingByTitle(db, user, title), user)
    ensures WithoutTitle(db, DeletingByTitle(db, user, title), user, title)
  {
    DeletingByTitleKeeps(db, user, title);
  }

  lemma TitleStep(s: State, user: Id, title: string)
    ensures Do(s, DeleteByTitle(user, title)) == s.(db := DeletingByTitle(s.db, user, title))
  {
    hide DeletingByTitle;
  }

  /** A reorder whose test any other write may have overtaken: its transaction either leaves the tables
      as they are, or puts exactly its ids at 1..n in the requested order, in front of every other row
      of the routine, and changes nothing else. */
  lemma {:induction false} OvertakenReorder(steps: seq<Step>, s: State, n: nat, newId: Id)
    requires Reaches(INITIAL, steps, s) && Enabled(s, Advance(n, newId)) && s.requests[n].ReorderTested?
    ensures var r, after := s.requests[n], Do(s, Advance(n, newId)).db;
            after == s.db ||
            (&& after == s.db.(assignments := after.assignments)
             && Moved(s.db.assignments, after.assignments, r.routine, r.ids, FinalPositions(|r.ids|))
             && (forall k :: k in after.assignments && k.0 == r.routine && k.1 !in r.ids ==>
                   after.assignments[k].position > |r.ids|))
  {
    RunKeepsInv(INITIAL, steps, s);
    var r := s.requests[n];
    var rows := s.db.assignments;
    ReorderOutcome(rows, r.routine, r.ids);
    if RunScript(rows, r.routine, ReorderScript(r.ids)).Ok? {
      var after := RunScript(rows, r.routine, ReorderScript(r.ids)).value;
      forall k | k in after && k.0 == r.routine && k.1 !in r.ids ensures after[k].position > |r.ids| {
        assert rows[k].position >= 1;
      }
    }
  }

  /** When the transaction commits, the requested tasks are in front. */
  lemma {:induction false} CommitPutsInFront(steps: seq<Step>, s: State, n: nat, newId: Id)
    requires Reaches(INITIAL, steps, s) && Enabled(s, Advance(n, newId)) && s.requests[n].ReorderTested?
    ensures var r, t := s.requests[n], Do(s, Advance(n, newId));
            t.requests[n].ReorderCommitted? ==> InFront(t.db.assignments, r.routine, r.ids)
  {
    hide RunScript, ReorderScript, InFront, Distinct, SlotsFree;
    RunKeepsInv(INITIAL, steps, s);
    var r, t := s.requests[n], Do(s, Advance(n, newId));
    assert Justified(s, r);
    ReorderOutcome(s.db.assignments, r.routine, r.ids);
    if t.requests[n].ReorderCommitted? {
      ReorderKeepsOrder(s.db.assignments, r.routine, r.ids);
      FirstPositionsAreInFront(t.db.assignments, r.routine, r.ids);
    }
  }

  /** What a committed reorder answers, after whatever other writes fell between its commit and its read:
      the routine's tasks by position at the read. The answer starts with the request if and only if the
      requested tasks are still in front, and is the request if nothing else is assigned. */
  lemma {:induction false} ReadBackAnswers(steps: seq<Step>, s: State, n: nat, newId: Id)
    requires Reaches(INITIAL, steps, s) && Enabled(s, Advance(n, newId)) && s.requests[n].ReorderCommitted?
    ensures var r, t, rows := s.requests[n], Do(s, Advance(n, newId)), s.db.assignments;
            && t.db == s.db && t.requests[n].ReorderOver? && t.requests[n].answer.Some?
            && var answer := t.requests[n].answer.value;
               && IsListing(rows, r.routine, answer)
               && (r.ids <= answer <==> InFront(rows, r.routine, r.ids))
               && (r.ids == answer <==> InFront(rows, r.routine, r.ids) && |answer| == |r.ids|)
  {
    hide InFront, IsListing;
    RunKeepsInv(INITIAL, steps, s);
    var r, rows := s.requests[n], s.db.assignments;
    ListingStartsWithIff(rows, r.routine, r.ids, Listing(rows, r.routine));
  }

  /** A request never touches another user's rows, at any of its steps and however late they come. */
  lemma {:induction false} RequestsAreIsolated(steps: seq<Step>, s: State, n: nat, newId: Id)
    requires Reaches(INITIAL, steps, s) && Enabled(s, Advance(n, newId))
    ensures OthersUnchanged(s.db, Do(s, Advance(n, newId)).db, s.requests[n].user)
  {
    RunKeepsInv(INITIAL, steps, s);
    WriteIsIsolated(s, s.requests[n], newId);
  }

  /** Whatever a step does, the rows of other users are the same after it. */
  ghost predicate StepIsIsolated(s: State, r: Request, newId: Id) {
    OthersUnchanged(s.db, Progress(s, r, newId).1, r.user)
  }

  lemma WriteIsIsolated(s: State, r: Request, newId: Id)
    requires Inv(s) && Justified(s, r) && newId !in s.used
    ensures StepIsIsolated(s, r, newId)
  {
    hide Progress, StepIsIsolated, Owned, Justified;
    if OnlyReads(r) {
      ReadIsIsolated(s, r, newId);
    } else if r.ReorderTested? {
      ReorderIsIsolated(s, r, newId);
    } else if r.LogVisible? {
      LogIsIsolated(s, r, newId);
    } else if r.UploadOwned? || r.DropFound? {
      RecordingIsIsolated(s, r, newId);
    } else {
      AssignmentIsIsolated(s, r, newId);
    }
  }

  lemma ReadIsIsolated(s: State, r: Request, newId: Id)
    requires Inv(s) && Justified(s, r) && OnlyReads(r)
    ensures StepIsIsolated(s, r, newId)
  {
    hide Progress, Inv, Justified;
    ChecksJustify(s, r, newId);
  }

  lemma ReorderIsIsolated(s: State, r: Request, newId: Id)
    requires Inv(s) && Justified(s, r) && r.ReorderTested?
    ensures StepIsIsolated(s, r, newId)
  {
    hide OthersUnchanged, RunScript, ReorderScript, Ordered, Owned, Distinct;
    ReorderOutcome(s.db.assignments, r.routine, r.ids);
    RowsOfOneRoutine(s.db, Progress(s, r, newId).1, r.routine, r.user);
  }

  lemma AssignmentIsIsolated(s: State, r: Request, newId: Id)
    requires Justified(s, r) && (r.AddPlaced? || r.UpdateOwned? || r.RemoveOwned?)
    ensures StepIsIsolated(s, r, newId)
  {
    hide OthersUnchanged, PositionTaken, RunScript, ReorderScript, TasksVisible, NextPosition, IsSameSet;
    RowsOfOneRoutine(s.db, Progress(s, r, newId).1, r.routine, r.user);
  }

  lemma LogIsIsolated(s: State, r: Request, newId: Id)
    requires Justified(s, r) && r.LogVisible?
    ensures StepIsIsolated(s, r, newId)
  {
    hide OthersUnchanged, InsertSession, StillRoutineOf, StillVisible;
    NewSessionIsIsolated(s.db, newId, r.session, r.tasks);
  }

  lemma RecordingIsIsolated(s: State, r: Request, newId: Id)
    requires Justified(s, r) && (r.UploadOwned? || r.DropFound?)
    ensures StepIsIsolated(s, r, newId)
  {
    hide OthersUnchanged, InsertRecording;
    if r.UploadOwned? {
      NewRecordingIsIsolated(s.db, newId, Recording(r.user, r.sessionId, r.objectName));
    } else {
      DroppedRecordingIsIsolated(s.db, r.recording, r.user);
    }
  }

  lemma NewSessionIsIsolated(db: Tables, id: Id, session: Session, tasks: seq<Id>)
    ensures OthersUnchanged(db, Keep(db, InsertSession(db, id, session, tasks)), session.user)
  {
  }

  lemma NewRecordingIsIsolated(db: Tables, id: Id, recording: Recording)
    ensures OthersUnchanged(db, Keep(db, InsertRecording(db, id, recording)), recording.user)
  {
  }

  lemma DroppedRecordingIsIsolated(db: Tables, id: Id, user: Id)
    requires id in db.recordings ==> db.recordings[id].user == user
    ensures OthersUnchanged(db, db.(recordings := db.recordings - {id}), user)
  {
  }

  lemma RowsOfOneRoutine(before: Tables, after: Tables, routine: Id, user: Id)
    requires after == before.(assignments := after.assignments)
    requires routine in before.routines ==> before.routines[routine] == user
    requires forall k: (Id, Id) :: k.0 != routine ==> (k in before.assignments <==> k in after.assignments)
    requires forall k: (Id, Id) :: k.0 != routine && k in before.assignments ==>
              after.assignments[k] == before.assignments[k]
    ensures OthersUnchanged(before, after, user)
  {
  }
}

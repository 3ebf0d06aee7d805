/**
 * The PostgreSQL tables behind the services, with the constraints of prisma/schema.prisma.
 * A statement is a function that returns the new tables, or the constraint it violates.
 * Unique and foreign-key constraints are checked at the end of every statement.
 */
module Database {
  import opened Outcomes

  type Id = string

  /** P2002, P2025 and P2003 in Prisma's numbering. */
  datatype DbError = UniqueViolation | RecordNotFound | ForeignKeyViolation

  /** A routine_tasks row without its key; `duration` is the optional target in minutes. */
  datatype Assignment = Assignment(position: int, duration: Option<nat>)

  /** routine_tasks, keyed by its primary key (routineId, taskId). */
  type Assignments = map<(Id, Id), Assignment>

  datatype Session = Session(user: Id, routine: Option<Id>, title: Option<string>)

  datatype Recording = Recording(user: Id, session: Id, objectName: string)

  datatype Tables = Tables(
    users: map<Id, Option<string>>,     // the image column
    tasks: map<Id, Option<Id>>,         // the ownerId column, None for a shared task
    routines: map<Id, Id>,              // the userId column
    assignments: Assignments,
    sessions: map<Id, Session>,
    sessionTasks: set<(Id, Id)>,        // (practiceSessionId, taskId)
    recordings: map<Id, Recording>)

  // ----- routine_tasks -----

  /** The unique index on (routineId, position). */
  predicate UniquePositions(rows: Assignments) {
    forall k, l :: k in rows && l in rows && k.0 == l.0 && rows[k].position == rows[l].position ==> k == l
  }

  /** Some row of `routine` other than `task`'s already has `position`. */
  predicate PositionTaken(rows: Assignments, routine: Id, task: Id, position: int) {
    exists k :: k in rows && k.0 == routine && k.1 != task && rows[k].position == position
  }

  /** An UPDATE's data: an absent field is left unchanged, `Some(None)` clears the duration. */
  datatype Patch = Patch(position: Option<int>, duration: Option<Option<nat>>)

  function Patched(a: Assignment, patch: Patch): Assignment {
    Assignment(if patch.position.Some? then patch.position.value else a.position,
               if patch.duration.Some? then patch.duration.value else a.duration)
  }

  function UpdateAssignment(rows: Assignments, routine: Id, task: Id, patch: Patch): Result<Assignments, DbError> {
    if (routine, task) !in rows then Err(RecordNotFound)
    else
      var row := Patched(rows[(routine, task)], patch);
      if PositionTaken(rows, routine, task, row.position) then Err(UniqueViolation)
      else Ok(rows[(routine, task) := row])
  }

  function InsertAssignment(db: Tables, routine: Id, task: Id, row: Assignment): Result<Tables, DbError> {
    if (routine, task) in db.assignments || PositionTaken(db.assignments, routine, task, row.position) then
      Err(UniqueViolation)
    else if routine !in db.routines || task !in db.tasks then Err(ForeignKeyViolation)
    else Ok(db.(assignments := db.assignments[(routine, task) := row]))
  }

  function DeleteAssignment(rows: Assignments, routine: Id, task: Id): Result<Assignments, DbError> {
    if (routine, task) !in rows then Err(RecordNotFound) else Ok(rows - {(routine, task)})
  }

  // ----- deletes under ON DELETE RESTRICT -----

  /** DELETE FROM users. Tasks, routines, sessions and recordings all restrict it. */
  function DeleteUser(db: Tables, user: Id): Result<Tables, DbError> {
    if user !in db.users then Err(RecordNotFound)
    else if
      || (exists t :: t in db.tasks && db.tasks[t] == Some(user))
      || (exists r :: r in db.routines && db.routines[r] == user)
      || (exists s :: s in db.sessions && db.sessions[s].user == user)
      || (exists c :: c in db.recordings && db.recordings[c].user == user)
    then Err(ForeignKeyViolation)
    else Ok(db.(users := db.users - {user}))
  }

  /** DELETE FROM tasks for a set of ids. Both join tables restrict it. */
  function DeleteTasks(db: Tables, ids: set<Id>): Result<Tables, DbError> {
    if (exists k :: k in db.assignments && k.1 in ids) || (exists k :: k in db.sessionTasks && k.1 in ids) then
      Err(ForeignKeyViolation)
    else Ok(db.(tasks := db.tasks - ids))
  }

  /** DELETE FROM routines for a set of ids. routine_tasks restricts it; sessions are unlinked (SET NULL). */
  function DeleteRoutines(db: Tables, ids: set<Id>): Result<Tables, DbError> {
    if exists k :: k in db.assignments && k.0 in ids then Err(ForeignKeyViolation)
    else Ok(db.(routines := db.routines - ids,
                sessions := map s | s in db.sessions :: Unlinked(db.sessions[s], ids)))
  }

  function Unlinked(session: Session, routines: set<Id>): Session {
    if session.routine.Some? && session.routine.value in routines then session.(routine := None) else session
  }

  /** DELETE FROM practice_sessions for a set of ids. Session tasks and recordings restrict it. */
  function DeleteSessions(db: Tables, ids: set<Id>): Result<Tables, DbError> {
    if
      || (exists k :: k in db.sessionTasks && k.0 in ids)
      || (exists c :: c in db.recordings && db.recordings[c].session in ids)
    then Err(ForeignKeyViolation)
    else Ok(db.(sessions := db.sessions - ids))
  }

  // ----- inserts -----

  function InsertRoutine(db: Tables, id: Id, user: Id): Result<Tables, DbError> {
    if id in db.routines then Err(UniqueViolation)
    else if user !in db.users then Err(ForeignKeyViolation)
    else Ok(db.(routines := db.routines[id := user]))
  }

  function InsertTask(db: Tables, id: Id, owner: Option<Id>): Result<Tables, DbError> {
    if id in db.tasks then Err(UniqueViolation)
    else if owner.Some? && owner.value !in db.users then Err(ForeignKeyViolation)
    else Ok(db.(tasks := db.tasks[id := owner]))
  }

  /** The nested create: the session row and one session-task row per id, all or nothing. */
  function InsertSession(db: Tables, id: Id, session: Session, tasks: seq<Id>): Result<Tables, DbError> {
    if id in db.sessions || (exists i, j :: 0 <= i < j < |tasks| && tasks[i] == tasks[j]) then Err(UniqueViolation)
    else if
      || session.user !in db.users
      || (session.routine.Some? && session.routine.value !in db.routines)
      || (exists t :: t in tasks && t !in db.tasks)
    then Err(ForeignKeyViolation)
    else Ok(db.(sessions := db.sessions[id := session],
                sessionTasks := db.sessionTasks + set t | t in tasks :: (id, t)))
  }

  function InsertRecording(db: Tables, id: Id, recording: Recording): Result<Tables, DbError> {
    if id in db.recordings then Err(UniqueViolation)
    else if recording.user !in db.users || recording.session !in db.sessions then Err(ForeignKeyViolation)
    else Ok(db.(recordings := db.recordings[id := recording]))
  }
}

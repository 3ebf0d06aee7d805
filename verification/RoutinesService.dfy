/**
 * RoutinesService as a client sees it when nobody interferes: each method with its error cases,
 * over the tables and the Redis lock it updates in place.
 */
module RoutinesService {
  import opened Outcomes
  import opened Database
  import opened Ownership
  import opened RoutineOrdering
  import opened ServiceRuns
  import RedisLock

  datatype ServiceError = NotFound | Conflict | BadRequest | Failure(error: DbError)

  /** Where addTask puts the row: at the position asked for, or after the last one. */
  function Slot(rows: Assignments, routine: Id, position: Option<int>): int {
    if position.Some? then position.value else NextPosition(rows, routine)
  }

  /** The new row has the position and duration asked for; without a position it comes after all of its
      routine, first in an empty one. */
  ghost predicate AsAsked(rows: Assignments, routine: Id, position: Option<int>, duration: Option<nat>,
                          row: Assignment) {
    && row.duration == duration
    && (position.Some? ==> row.position == position.value)
    && (position.None? ==>
          && (forall k :: k in rows && k.0 == routine ==> rows[k].position < row.position)
          && if exists k :: k in rows && k.0 == routine
             then exists k :: k in rows && k.0 == routine && rows[k].position + 1 == row.position
             else row.position == 1)
  }

  lemma {:induction false} SlotIsAsAsked(rows: Assignments, routine: Id, position: Option<int>, duration: Option<nat>)
    ensures AsAsked(rows, routine, position, duration, Assignment(Slot(rows, routine, position), duration))
  {
    if position.None? {
      var last := NextPosition(rows, routine) - 1;
      if k :| k in rows && k.0 == routine {
        assert rows[k].position in PositionsOf(rows, routine);
        assert last in PositionsOf(rows, routine);
      } else {
        assert PositionsOf(rows, routine) == {};
      }
    }
  }

  /** A field that the patch leaves out is as before; the duration can also be cleared. */
  ghost predicate TakesPatch(before: Assignment, after: Assignment, patch: Patch) {
    && (match patch.position case None => after.position == before.position case Some(p) => after.position == p)
    && (match patch.duration case None => after.duration == before.duration case Some(d) => after.duration == d)
  }

  /** The request is refused as missing: not the user's routine, or a task they may not see. */
  predicate Hidden(db: Tables, user: Id, routine: Id, task: Id) {
    !OwnsRoutine(db, user, routine) || task !in db.tasks || !VisibleTo(db.tasks[task], user)
  }

  /** What addTask does: nothing if the request is refused or the place is taken, and else the one new row. */
  ghost predicate TaskAdded(before: Tables, after: Tables, user: Id, routine: Id, task: Id, position: Option<int>,
                            duration: Option<nat>) {
    var rows := before.assignments;
    if
      || routine !in before.routines || before.routines[routine] != user
      || task !in before.tasks || (before.tasks[task] != None && before.tasks[task] != Some(user))
      || (routine, task) in rows
      || exists k :: k in rows && k.0 == routine && Some(rows[k].position) == position
    then after == before
    else
      && (routine, task) in after.assignments
      && after == before.(assignments := rows[(routine, task) := after.assignments[(routine, task)]])
      && AsAsked(rows, routine, position, duration, after.assignments[(routine, task)])
  }

  /** What updateTask does: nothing if the row is not the user's or another row has the position asked for,
      and else the patch of the one row. */
  ghost predicate TaskUpdated(before: Tables, after: Tables, user: Id, routine: Id, task: Id, patch: Patch) {
    var rows := before.assignments;
    if
      || routine !in before.routines || before.routines[routine] != user || (routine, task) !in rows
      || exists k :: k in rows && k.0 == routine && k.1 != task && Some(rows[k].position) == patch.position
    then after == before
    else
      && (routine, task) in after.assignments
      && after == before.(assignments := rows[(routine, task) := after.assignments[(routine, task)]])
      && TakesPatch(rows[(routine, task)], after.assignments[(routine, task)], patch)
  }

  /** What removeTask does. */
  ghost predicate TaskRemoved(before: Tables, after: Tables, user: Id, routine: Id, task: Id) {
    if routine in before.routines && before.routines[routine] == user
    then after == before.(assignments := before.assignments - {(routine, task)})
    else after == before
  }

  /** The routine reads back as `ids`; durations, the assigned tasks and all else are as before. */
  ghost predicate Reordered(before: Tables, after: Tables, routine: Id, ids: seq<Id>) {
    && after == before.(assignments := after.assignments)
    && Ordered(after.assignments)
    && IsListing(after.assignments, routine, ids)
    && after.assignments.Keys == before.assignments.Keys
    && (forall k :: k in before.assignments ==> after.assignments[k].duration == before.assignments[k].duration)
    && (forall k :: k in before.assignments && k.0 != routine ==> after.assignments[k] == before.assignments[k])
  }

  class RoutinesService {
    var db: Tables
    const redis: RedisLock.RedisLockService

    constructor (db: Tables, redis: RedisLock.RedisLockService)
      ensures this.db == db && this.redis == redis
    {
      this.db := db;
      this.redis := redis;
    }

    /** create: the row's foreign key to the user is the only way it fails. */
    method Create(user: Id, newId: Id) returns (outcome: Result<Id, ServiceError>)
      modifies this`db
      ensures newId !in old(db).routines ==>
                (outcome == if user in old(db).users then Ok(newId) else Err(Failure(ForeignKeyViolation)))
      ensures db == if outcome.Ok? then old(db).(routines := old(db).routines[newId := user]) else old(db)
    {
      var inserted := InsertRoutine(db, newId, user);
      match inserted
      case Ok(after) => db := after; return Ok(newId);
      case Err(e) => return Err(Failure(e));
    }

    method AddTask(user: Id, routine: Id, task: Id, position: Option<int>, duration: Option<nat>)
      returns (outcome: Result<Assignment, ServiceError>)
      modifies this`db
      ensures Hidden(old(db), user, routine, task) ==> outcome == Err(NotFound)
      ensures !Hidden(old(db), user, routine, task) ==>
                var rows, slot := old(db).assignments, Slot(old(db).assignments, routine, position);
                outcome == if (routine, task) in rows || PositionTaken(rows, routine, task, slot) then Err(Conflict)
                           else Ok(Assignment(slot, duration))
      ensures outcome.Ok? ==> AsAsked(old(db).assignments, routine, position, duration, outcome.value)
      ensures TaskAdded(old(db), db, user, routine, task, position, duration)
      ensures db == if outcome.Ok? then old(db).(assignments := old(db).assignments[(routine, task) := outcome.value])
                else old(db)
    {
      TasksVisibleIffEachVisible(db, user, [task]);
      assert task in [task];
      if !OwnsRoutine(db, user, routine) { return Err(NotFound); }
      if !TasksVisible(db, user, [task]) { return Err(NotFound); }
      var row := Assignment(Slot(db.assignments, routine, position), duration);
      SlotIsAsAsked(db.assignments, routine, position, duration);
      var inserted := InsertAssignment(db, routine, task, row);
      match inserted
      case Ok(after) => db := after; return Ok(row);
      case Err(UniqueViolation) => return Err(Conflict);
      case Err(ForeignKeyViolation) => return Err(NotFound);
      case Err(e) => return Err(Failure(e));
    }

    method UpdateTask(user: Id, routine: Id, task: Id, patch: Patch) returns (outcome: Result<Assignment, ServiceError>)
      modifies this`db
      ensures var rows := old(db).assignments;
              outcome == if !OwnsRoutine(old(db), user, routine) || (routine, task) !in rows then Err(NotFound)
                         else if PositionTaken(rows, routine, task, Patched(rows[(routine, task)], patch).position)
                         then Err(Conflict)
                         else Ok(Patched(rows[(routine, task)], patch))
      ensures outcome.Ok? ==> TakesPatch(old(db).assignments[(routine, task)], outcome.value, patch)
      ensures Ordered(old(db).assignments) ==> TaskUpdated(old(db), db, user, routine, task, patch)
      ensures db == if outcome.Ok? then old(db).(assignments := old(db).assignments[(routine, task) := outcome.value])
                else old(db)
    {
      if !OwnsRoutine(db, user, routine) { return Err(NotFound); }
      var updated := UpdateAssignment(db.assignments, routine, task, patch);
      match updated
      case Ok(rows) => db := db.(assignments := rows); return Ok(rows[(routine, task)]);
      case Err(RecordNotFound) => return Err(NotFound);
      case Err(UniqueViolation) => return Err(Conflict);
      case Err(e) => return Err(Failure(e));
    }

    method RemoveTask(user: Id, routine: Id, task: Id) returns (error: Option<ServiceError>)
      modifies this`db
      ensures error == if OwnsRoutine(old(db), user, routine) && (routine, task) in old(db).assignments then None
                else Some(NotFound)
      ensures db == if error.None? then old(db).(assignments := old(db).assignments - {(routine, task)}) else old(db)
      ensures TaskRemoved(old(db), db, user, routine, task)
    {
      if !OwnsRoutine(db, user, routine) { return Some(NotFound); }
      var deleted := DeleteAssignment(db.assignments, routine, task);
      match deleted
      case Ok(rows) => db := db.(assignments := rows); return None;
      case Err(_) => return Some(NotFound);
    }

    /** remove: the explicit count first, so a routine with tasks is a conflict only to its owner. */
    method RemoveRoutine(user: Id, routine: Id) returns (error: Option<ServiceError>)
      modifies this`db
      ensures OwnsRoutine(old(db), user, routine) ==>
                error == if TasksOf(old(db).assignments, routine) == {} then None else Some(Conflict)
      ensures !OwnsRoutine(old(db), user, routine) ==> error == Some(NotFound)
      ensures db == if error.None? then RemovingRoutine(old(db), user, routine) else old(db)
      ensures error.None? ==>
                db == old(db).(routines := old(db).routines - {routine},
                               sessions := map x | x in old(db).sessions :: Unlinked(old(db).sessions[x], {routine}))
    {
      if TasksOf(db.assignments, routine) != {} {
        return Some(if OwnsRoutine(db, user, routine) then Conflict else NotFound);
      }
      if !OwnsRoutine(db, user, routine) { return Some(NotFound); }
      assert forall k :: k in db.assignments && k.0 == routine ==> k.1 in TasksOf(db.assignments, routine);
      var deleted := DeleteRoutines(db, {routine});
      match deleted
      case Ok(after) => db := after; return None;
      case Err(_) => return Some(Conflict);
    }

    /** reorderTasks. `token` is the fresh lock token. The listing returned is the request itself. */
    method ReorderTasks(user: Id, routine: Id, ids: seq<Id>, token: string)
      returns (outcome: Result<seq<Id>, ServiceError>)
      requires Ordered(db.assignments)
      modifies this`db, redis`store
      ensures outcome == if !OwnsRoutine(old(db), user, routine) then Err(NotFound)
                         else if RedisLock.Held(old(redis.store), LockKey(routine), redis.now) then Err(Conflict)
                         else if multiset(ids) != multiset(TasksOf(old(db).assignments, routine)) then Err(BadRequest)
                         else Ok(ids)
      ensures if outcome.Ok? then Reordered(old(db), db, routine, ids) else db == old(db)
      ensures outcome == Err(NotFound) || outcome == Err(Conflict) ||
                !RedisLock.Held(redis.store, LockKey(routine), redis.now)
      ensures forall key :: key != LockKey(routine) ==>
                (RedisLock.Held(redis.store, key, redis.now) <==> RedisLock.Held(old(redis.store), key, redis.now))
    {
      if !OwnsRoutine(db, user, routine) { return Err(NotFound); }
      var holder := redis.Acquire(LockKey(routine), REORDER_LOCK_TTL_MS, token);
      if holder.None? { return Err(Conflict); }
      outcome := ReorderUnderLock(routine, ids);
      redis.Release(LockKey(routine), token);
    }

    /** The guarded part: read and test, transaction, read back. */
    method ReorderUnderLock(routine: Id, ids: seq<Id>) returns (outcome: Result<seq<Id>, ServiceError>)
      requires Ordered(db.assignments)
      modifies this`db
      ensures outcome == if multiset(ids) == multiset(TasksOf(old(db).assignments, routine)) then Ok(ids)
                else Err(BadRequest)
      ensures if outcome.Ok? then Reordered(old(db), db, routine, ids) else db == old(db)
    {
      SameSetIffPermutation(ids, TasksOf(db.assignments, routine));
      if !IsSameSet(ids, TasksOf(db.assignments, routine)) { return Err(BadRequest); }
      ReorderIsCorrect(db.assignments, routine, ids);
      var committed := RunTransaction(routine, ReorderScript(ids));
      ListingIsUnique(db.assignments, routine, ids, Listing(db.assignments, routine));
      outcome := Ok(Listing(db.assignments, routine));
    }

    /** $transaction: one UPDATE after the other on a working copy, kept only if all succeed. */
    method RunTransaction(routine: Id, script: seq<Move>) returns (outcome: Result<Assignments, DbError>)
      modifies this`db
      ensures outcome == RunScript(old(db).assignments, routine, script)
      ensures db == if outcome.Ok? then old(db).(assignments := outcome.value) else old(db)
    {
      var tx, i := db.assignments, 0;
      while i < |script|
        invariant 0 <= i <= |script|
        invariant RunScript(db.assignments, routine, script[..i]) == Ok(tx)
        invariant db == old(db)
      {
        LastOfPrefix(db.assignments, routine, script, i);
        var moved := RunMove(tx, routine, script[i]);
        if moved.Err? {
          ErrorsStick(db.assignments, routine, script, i + 1);
          return moved;
        }
        tx := moved.value;
        i := i + 1;
      }
      assert script[..i] == script;
      db := db.(assignments := tx);
      outcome := Ok(tx);
    }
  }
}

/**
 * The constraints of the schema as conditions on the tables, and the statements measured against them: each
 * succeeds exactly when the tables that it would leave meet every constraint.
 */
module Constraints {
  import opened Database
  import opened Outcomes

  /** Every foreign key names a row. */
  ghost predicate ForeignKeys(db: Tables) {
    && (forall t :: t in db.tasks && db.tasks[t].Some? ==> db.tasks[t].value in db.users)
    && (forall r :: r in db.routines ==> db.routines[r] in db.users)
    && (forall k :: k in db.assignments ==> k.0 in db.routines && k.1 in db.tasks)
    && (forall s :: s in db.sessions ==> db.sessions[s].user in db.users)
    && (forall s :: s in db.sessions && db.sessions[s].routine.Some? ==> db.sessions[s].routine.value in db.routines)
    && (forall k :: k in db.sessionTasks ==> k.0 in db.sessions && k.1 in db.tasks)
    && (forall c :: c in db.recordings ==> db.recordings[c].user in db.users && db.recordings[c].session in db.sessions)
  }

  /** A statement that leaves `after` if it may, and otherwise fails on a foreign key. */
  ghost predicate AllowedIff(outcome: Result<Tables, DbError>, after: Tables) {
    outcome == if ForeignKeys(after) then Ok(after) else Err(ForeignKeyViolation)
  }

  // ----- deletes -----

  lemma {:induction false} DeleteUserIff(db: Tables, user: Id)
    requires ForeignKeys(db) && user in db.users
    ensures AllowedIff(DeleteUser(db, user), db.(users := db.users - {user}))
  {
  }

  lemma {:induction false} DeleteTasksIff(db: Tables, ids: set<Id>)
    requires ForeignKeys(db)
    ensures AllowedIff(DeleteTasks(db, ids), db.(tasks := db.tasks - ids))
  {
  }

  /** Sessions of a deleted routine stay, without it. */
  ghost predicate Unlinks(before: map<Id, Session>, after: map<Id, Session>, ids: set<Id>) {
    && after.Keys == before.Keys
    && forall s :: s in before ==>
         && after[s].user == before[s].user && after[s].title == before[s].title
         && (if before[s].routine.Some? && before[s].routine.value in ids then after[s].routine == None
             else after[s].routine == before[s].routine)
  }

  lemma UnlinkedSessions(before: map<Id, Session>, after: map<Id, Session>, ids: set<Id>)
    requires Unlinks(before, after, ids)
    ensures after == map s | s in before :: Unlinked(before[s], ids)
  {
    assert forall s :: s in before ==> after[s] == Unlinked(before[s], ids);
  }

  /** Unlinked sessions refer to no deleted routine; assignments may. */
  lemma RoutinesAreFree(db: Tables, ids: set<Id>, sessions: map<Id, Session>)
    requires ForeignKeys(db) && Unlinks(db.sessions, sessions, ids)
    ensures ForeignKeys(db.(routines := db.routines - ids, sessions := sessions)) <==>
            forall k :: k in db.assignments ==> k.0 !in ids
  {
    var after := db.(routines := db.routines - ids, sessions := sessions);
    assert forall k :: k in after.assignments ==> (k.0 in after.routines <==> k.0 !in ids);
  }

  lemma {:induction false} DeleteRoutinesIff(db: Tables, ids: set<Id>, sessions: map<Id, Session>)
    requires ForeignKeys(db) && Unlinks(db.sessions, sessions, ids)
    ensures AllowedIff(DeleteRoutines(db, ids), db.(routines := db.routines - ids, sessions := sessions))
  {
    hide ForeignKeys, Unlinks, Unlinked;
    UnlinkedSessions(db.sessions, sessions, ids);
    RoutinesAreFree(db, ids, sessions);
  }

  lemma {:induction false} DeleteSessionsIff(db: Tables, ids: set<Id>)
    requires ForeignKeys(db)
    ensures AllowedIff(DeleteSessions(db, ids), db.(sessions := db.sessions - ids))
  {
  }

  // ----- inserts and updates -----

  lemma {:induction false} InsertRoutineIff(db: Tables, id: Id, user: Id)
    requires ForeignKeys(db)
    ensures id in db.routines ==> InsertRoutine(db, id, user) == Err(UniqueViolation)
    ensures id !in db.routines ==>
              AllowedIff(InsertRoutine(db, id, user), db.(routines := db.routines[id := user]))
  {
    var after := db.(routines := db.routines[id := user]);
    assert id in after.routines;
  }

  lemma {:induction false} InsertTaskIff(db: Tables, id: Id, owner: Option<Id>)
    requires ForeignKeys(db)
    ensures id in db.tasks ==> InsertTask(db, id, owner) == Err(UniqueViolation)
    ensures id !in db.tasks ==> AllowedIff(InsertTask(db, id, owner), db.(tasks := db.tasks[id := owner]))
  {
    var after := db.(tasks := db.tasks[id := owner]);
    assert id in after.tasks;
  }

  /** The primary key is new and the position is the row's alone. */
  lemma {:induction false} InsertAssignmentIff(db: Tables, routine: Id, task: Id, row: Assignment)
    requires ForeignKeys(db) && UniquePositions(db.assignments)
    ensures var rows := db.assignments[(routine, task) := row];
            if (routine, task) in db.assignments || !UniquePositions(rows)
            then InsertAssignment(db, routine, task, row) == Err(UniqueViolation)
            else AllowedIff(InsertAssignment(db, routine, task, row), db.(assignments := rows))
  {
    var rows := db.assignments[(routine, task) := row];
    assert (routine, task) in rows;
    if k :| k in db.assignments && k.0 == routine && k.1 != task && db.assignments[k].position == row.position {
      assert k in rows && rows[k].position == rows[(routine, task)].position;
    }
  }

  lemma {:induction false} UpdateAssignmentIff(rows: Assignments, routine: Id, task: Id, patch: Patch)
    requires UniquePositions(rows) && (routine, task) in rows
    ensures var after := rows[(routine, task) := Patched(rows[(routine, task)], patch)];
            UpdateAssignment(rows, routine, task, patch) ==
              if UniquePositions(after) then Ok(after) else Err(UniqueViolation)
  {
    var after := rows[(routine, task) := Patched(rows[(routine, task)], patch)];
    assert (routine, task) in after;
    if k :| k in rows && k.0 == routine && k.1 != task && rows[k].position == after[(routine, task)].position {
      assert k in after;
    }
  }

  lemma {:induction false} InsertSessionIff(db: Tables, id: Id, session: Session, tasks: seq<Id>)
    requires ForeignKeys(db)
    ensures if id in db.sessions || !(forall i, j :: 0 <= i < j < |tasks| ==> tasks[i] != tasks[j])
            then InsertSession(db, id, session, tasks) == Err(UniqueViolation)
            else AllowedIff(InsertSession(db, id, session, tasks),
                            db.(sessions := db.sessions[id := session],
                                sessionTasks := db.sessionTasks + set t | t in tasks :: (id, t)))
  {
    var rows := set t | t in tasks :: (id, t);
    assert forall t :: t in tasks ==> (id, t) in rows;
    var after := db.(sessions := db.sessions[id := session], sessionTasks := db.sessionTasks + rows);
    assert id in after.sessions;
  }

  lemma {:induction false} InsertRecordingIff(db: Tables, id: Id, recording: Recording)
    requires ForeignKeys(db)
    ensures id in db.recordings ==> InsertRecording(db, id, recording) == Err(UniqueViolation)
    ensures id !in db.recordings ==>
              AllowedIff(InsertRecording(db, id, recording), db.(recordings := db.recordings[id := recording]))
  {
    var after := db.(recordings := db.recordings[id := recording]);
    assert id in after.recordings;
  }
}

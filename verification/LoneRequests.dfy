/**
 * What each request of the machine does when no other step falls between its own: the same as the methods of
 * RoutinesService, and for sessions and recordings what their services promise.
 */
module LoneRequests {
  import opened Database
  import opened Outcomes
  import opened Ownership
  import opened RoutineOrdering
  import opened RoutinesService
  import opened ServiceRuns
  import RedisLock

  ghost predicate Unused(s: State, ids: seq<Id>) { Distinct(ids) && forall id :: id in ids ==> id !in s.used }

  /** Request `n` alone takes its steps until it is finished, or the ids are used up. */
  ghost function Alone(s: State, n: nat, ids: seq<Id>): State
    requires Unused(s, ids)
    decreases |ids|
  {
    if n !in s.requests || ids == [] then s
    else
      LaterUnused(s, n, ids);
      Alone(Do(s, Advance(n, ids[0])), n, ids[1..])
  }

  lemma LaterUnused(s: State, n: nat, ids: seq<Id>)
    requires Unused(s, ids) && n in s.requests && ids != []
    ensures Enabled(s, Advance(n, ids[0])) && Unused(Do(s, Advance(n, ids[0])), ids[1..])
  {
    assert ids[0] in ids && forall i :: 0 <= i < |ids[1..]| ==> ids[1..][i] == ids[i + 1];
  }

  lemma OneStepAlone(s: State, n: nat, ids: seq<Id>)
    requires Unused(s, ids) && n in s.requests && ids != []
    ensures Enabled(s, Advance(n, ids[0])) && Unused(Do(s, Advance(n, ids[0])), ids[1..])
    ensures Alone(s, n, ids) == Alone(Do(s, Advance(n, ids[0])), n, ids[1..])
  {
    LaterUnused(s, n, ids);
  }

  /** An unused id is no row's. */
  lemma UnusedIsNew(s: State, ids: seq<Id>, k: nat)
    requires Unused(s, ids) && k < |ids| && IdsUsed(s)
    ensures ids[k] !in s.db.sessions && ids[k] !in s.db.recordings
  {
    assert ids[k] in ids;
  }

  // ----- the rows of a routine -----

  lemma {:induction false} AddAlone(s: State, n: nat, ids: seq<Id>)
    requires Unused(s, ids) && |ids| >= 4 && n in s.requests && s.requests[n].Add?
    ensures var r, t := s.requests[n], Alone(s, n, ids);
            n !in t.requests && t.locks == s.locks
            && TaskAdded(s.db, t.db, r.user, r.routine, r.task, r.position, r.duration)
  {
    var r := s.requests[n];
    OneStepAlone(s, n, ids);
    if OwnsRoutine(s.db, r.user, r.routine) {
      AddOwnedAlone(Do(s, Advance(n, ids[0])), n, ids[1..]);
    }
  }

  lemma AddOwnedAlone(s: State, n: nat, ids: seq<Id>)
    requires Unused(s, ids) && |ids| >= 3 && n in s.requests && s.requests[n].AddOwned?
    requires OwnsRoutine(s.db, s.requests[n].user, s.requests[n].routine)
    ensures var r, t := s.requests[n], Alone(s, n, ids);
            n !in t.requests && t.locks == s.locks
            && TaskAdded(s.db, t.db, r.user, r.routine, r.task, r.position, r.duration)
  {
    hide TaskAdded;
    var r := s.requests[n];
    OneStepAlone(s, n, ids);
    TasksVisibleIffEachVisible(s.db, r.user, [r.task]);
    assert r.task in [r.task];
    if TasksVisible(s.db, r.user, [r.task]) {
      var s1 := Do(s, Advance(n, ids[0]));
      OneStepAlone(s1, n, ids[1..]);
      OneStepAlone(Do(s1, Advance(n, ids[1..][0])), n, ids[1..][1..]);
      PlacedIsAdded(s.db, r.user, r.routine, r.task, r.position, r.duration);
    } else {
      InvisibleAddsNothing(s.db, r.user, r.routine, r.task, r.position, r.duration);
    }
  }

  lemma PlacedIsAdded(db: Tables, user: Id, routine: Id, task: Id, position: Option<int>, duration: Option<nat>)
    requires OwnsRoutine(db, user, routine) && task in db.tasks && VisibleTo(db.tasks[task], user)
    ensures var slot := if position.Some? then position.value else NextPosition(db.assignments, routine);
            var after := Keep(db, InsertAssignment(db, routine, task, Assignment(slot, duration)));
            TaskAdded(db, after, user, routine, task, position, duration)
  {
    SlotIsAsAsked(db.assignments, routine, position, duration);
  }

  lemma InvisibleAddsNothing(db: Tables, user: Id, routine: Id, task: Id, position: Option<int>, duration: Option<nat>)
    requires task !in db.tasks || !VisibleTo(db.tasks[task], user)
    ensures TaskAdded(db, db, user, routine, task, position, duration)
  {
  }

  lemma {:induction false} UpdateAlone(s: State, n: nat, ids: seq<Id>)
    requires Unused(s, ids) && |ids| >= 2 && n in s.requests && s.requests[n].Update? && Ordered(s.db.assignments)
    ensures var r, t := s.requests[n], Alone(s, n, ids);
            n !in t.requests && t.locks == s.locks && TaskUpdated(s.db, t.db, r.user, r.routine, r.task, r.patch)
  {
    hide Unused;
    var r := s.requests[n];
    OneStepAlone(s, n, ids);
    if OwnsRoutine(s.db, r.user, r.routine) {
      OneStepAlone(Do(s, Advance(n, ids[0])), n, ids[1..]);
    }
  }

  lemma {:induction false} RemoveAlone(s: State, n: nat, ids: seq<Id>)
    requires Unused(s, ids) && |ids| >= 2 && n in s.requests && s.requests[n].Remove?
    ensures var r, t := s.requests[n], Alone(s, n, ids);
            n !in t.requests && t.locks == s.locks && TaskRemoved(s.db, t.db, r.user, r.routine, r.task)
  {
    hide Unused;
    var r := s.requests[n];
    OneStepAlone(s, n, ids);
    if OwnsRoutine(s.db, r.user, r.routine) {
      OneStepAlone(Do(s, Advance(n, ids[0])), n, ids[1..]);
    }
  }

  /** A reorder whose lock is free reads back as asked, or changes nothing if the ids are not the routine's tasks;
      either way the lock is free again. With the lock taken, or in another user's routine, it does nothing. */
  lemma {:induction false} ReorderAlone(s: State, n: nat, ids: seq<Id>)
    requires Unused(s, ids) && |ids| >= 6 && n in s.requests && s.requests[n].Reorder? && Ordered(s.db.assignments)
    ensures var r, t := s.requests[n], Alone(s, n, ids);
            && n !in t.requests && t.now == s.now
            && (if
                  || !OwnsRoutine(s.db, r.user, r.routine) || RedisLock.Held(s.locks, LockKey(r.routine), s.now)
                  || multiset(r.ids) != multiset(TasksOf(s.db.assignments, r.routine))
                then t.db == s.db else Reordered(s.db, t.db, r.routine, r.ids))
            && (!RedisLock.Held(s.locks, LockKey(r.routine), s.now) ==>
                  !RedisLock.Held(t.locks, LockKey(r.routine), s.now))
  {
    var r := s.requests[n];
    OneStepAlone(s, n, ids);
    if OwnsRoutine(s.db, r.user, r.routine) {
      ReorderOwnedAlone(Do(s, Advance(n, ids[0])), n, ids[1..]);
    }
  }

  lemma ReorderOwnedAlone(s: State, n: nat, ids: seq<Id>)
    requires Unused(s, ids) && |ids| >= 5 && n in s.requests && s.requests[n].ReorderOwned? && Ordered(s.db.assignments)
    ensures var r, t := s.requests[n], Alone(s, n, ids);
            && n !in t.requests && t.now == s.now
            && (if
                  || RedisLock.Held(s.locks, LockKey(r.routine), s.now)
                  || multiset(r.ids) != multiset(TasksOf(s.db.assignments, r.routine))
                then t.db == s.db else Reordered(s.db, t.db, r.routine, r.ids))
            && (!RedisLock.Held(s.locks, LockKey(r.routine), s.now) ==>
                  !RedisLock.Held(t.locks, LockKey(r.routine), s.now))
  {
    hide Reordered, Ordered, RunScript, ReorderScript, IsSameSet, ReadBack, LockKey;
    OneStepAlone(s, n, ids);
    if !RedisLock.Held(s.locks, LockKey(s.requests[n].routine), s.now) {
      LockedAlone(Do(s, Advance(n, ids[0])), n, ids[1..]);
    }
  }

  lemma LockedAlone(s: State, n: nat, ids: seq<Id>)
    requires Unused(s, ids) && |ids| >= 4 && n in s.requests && s.requests[n].ReorderLocked?
    requires Ordered(s.db.assignments)
    requires HoldsLock(s, s.requests[n].routine, s.requests[n].token)
    ensures var r, t := s.requests[n], Alone(s, n, ids);
            && n !in t.requests && t.now == s.now
            && (if multiset(r.ids) != multiset(TasksOf(s.db.assignments, r.routine)) then t.db == s.db
                else Reordered(s.db, t.db, r.routine, r.ids))
            && !RedisLock.Held(t.locks, LockKey(r.routine), s.now)
  {
    hide Reordered, Ordered, RunScript, ReorderScript, IsSameSet, ReadBack, LockKey, Unused;
    var r := s.requests[n];
    SameSetIffPermutation(r.ids, TasksOf(s.db.assignments, r.routine));
    OneStepAlone(s, n, ids);
    if IsSameSet(r.ids, TasksOf(s.db.assignments, r.routine)) {
      TestedAlone(Do(s, Advance(n, ids[0])), n, ids[1..]);
    } else {
      OverAlone(Do(s, Advance(n, ids[0])), n, ids[1..]);
    }
  }

  ghost predicate HoldsLock(s: State, routine: Id, token: string) {
    LockKey(routine) in s.locks && s.locks[LockKey(routine)].token == token
  }

  lemma TestedAlone(s: State, n: nat, ids: seq<Id>)
    requires Unused(s, ids) && |ids| >= 3 && n in s.requests && s.requests[n].ReorderTested?
    requires Ordered(s.db.assignments)
    requires HoldsLock(s, s.requests[n].routine, s.requests[n].token)
    requires IsSameSet(s.requests[n].ids, TasksOf(s.db.assignments, s.requests[n].routine))
    ensures var r, t := s.requests[n], Alone(s, n, ids);
            && n !in t.requests && t.now == s.now && Reordered(s.db, t.db, r.routine, r.ids)
            && !RedisLock.Held(t.locks, LockKey(r.routine), s.now)
  {
    hide Reordered, Ordered, RunScript, ReorderScript, IsSameSet, ReadBack, LockKey, Unused;
    OneStepAlone(s, n, ids);
    CommitIsReordered(s.db, s.requests[n].routine, s.requests[n].ids);
    var s1 := Do(s, Advance(n, ids[0]));
    OneStepAlone(s1, n, ids[1..]);
    OverAlone(Do(s1, Advance(n, ids[1..][0])), n, ids[1..][1..]);
  }

  lemma OverAlone(s: State, n: nat, ids: seq<Id>)
    requires Unused(s, ids) && ids != [] && n in s.requests && s.requests[n].ReorderOver?
    requires HoldsLock(s, s.requests[n].routine, s.requests[n].token)
    ensures var t := Alone(s, n, ids);
            && n !in t.requests && t.now == s.now && t.db == s.db
            && !RedisLock.Held(t.locks, LockKey(s.requests[n].routine), s.now)
  {
    hide LockKey, Unused;
    OneStepAlone(s, n, ids);
  }

  lemma CommitIsReordered(db: Tables, routine: Id, ids: seq<Id>)
    requires Ordered(db.assignments) && IsSameSet(ids, TasksOf(db.assignments, routine))
    ensures var outcome := RunScript(db.assignments, routine, ReorderScript(ids));
            outcome.Ok? && Reordered(db, KeepRows(db, outcome), routine, ids)
  {
    ReorderIsCorrect(db.assignments, routine, ids);
  }

  // ----- sessions and recordings -----

  /** What logging a session does: nothing if the routine is not the user's, a task is hidden or named twice or
      the user is gone, and else the session under the new id with exactly the tasks of the request. */
  ghost predicate SessionLogged(before: Tables, after: Tables, session: Session, tasks: seq<Id>, id: Id) {
    var user := session.user;
    if
      || user !in before.users || !Distinct(tasks)
      || (session.routine.Some? &&
            (session.routine.value !in before.routines || before.routines[session.routine.value] != user))
      || exists t :: t in tasks &&
           (t !in before.tasks || (before.tasks[t] != None && before.tasks[t] != Some(user)))
    then after == before
    else
      && after == before.(sessions := before.sessions[id := session], sessionTasks := after.sessionTasks)
      && (forall k :: k in after.sessionTasks <==> k in before.sessionTasks || (k.0 == id && k.1 in tasks))
  }

  lemma {:induction false} LogAlone(s: State, n: nat, ids: seq<Id>)
    requires Unused(s, ids) && |ids| >= 3 && n in s.requests && s.requests[n].Log?
    requires IdsUsed(s) && s.requests[n].session.user == s.requests[n].user
    ensures var r, t := s.requests[n], Alone(s, n, ids);
            n !in t.requests && t.locks == s.locks && SessionLogged(s.db, t.db, r.session, r.tasks, ids[2])
  {
    hide SessionLogged, TasksVisible, Distinct, Unused;
    var r := s.requests[n];
    OneStepAlone(s, n, ids);
    if r.session.routine.Some? && !OwnsRoutine(s.db, r.user, r.session.routine.value) {
      NothingLogged(s.db, r.session, r.tasks, ids[2]);
    } else {
      LogOwnedAlone(Do(s, Advance(n, ids[0])), n, ids[1..]);
    }
  }

  lemma LogOwnedAlone(s: State, n: nat, ids: seq<Id>)
    requires Unused(s, ids) && |ids| >= 2 && n in s.requests && s.requests[n].LogOwned? && IdsUsed(s)
    requires var r := s.requests[n];
             && r.session.user == r.user
             && (r.session.routine.Some? ==> OwnsRoutine(s.db, r.user, r.session.routine.value))
    ensures var r, t := s.requests[n], Alone(s, n, ids);
            n !in t.requests && t.locks == s.locks && SessionLogged(s.db, t.db, r.session, r.tasks, ids[1])
  {
    hide SessionLogged, TasksVisible, InsertSession, Distinct, Unused, IdsUsed;
    var r := s.requests[n];
    OneStepAlone(s, n, ids);
    TasksVisibleIffEachVisible(s.db, r.user, r.tasks);
    if r.tasks == [] || TasksVisible(s.db, r.user, r.tasks) {
      UnusedIsNew(s, ids, 1);
      LogVisibleAlone(Do(s, Advance(n, ids[0])), n, ids[1..]);
    } else {
      NothingLogged(s.db, r.session, r.tasks, ids[1]);
    }
  }

  lemma LogVisibleAlone(s: State, n: nat, ids: seq<Id>)
    requires Unused(s, ids) && ids != [] && n in s.requests && s.requests[n].LogVisible?
    requires ids[0] !in s.db.sessions
    requires var session := s.requests[n].session;
             && (session.routine.Some? ==> OwnsRoutine(s.db, session.user, session.routine.value))
             && forall t :: t in s.requests[n].tasks ==> t in s.db.tasks && VisibleTo(s.db.tasks[t], session.user)
    ensures var r, t := s.requests[n], Alone(s, n, ids);
            n !in t.requests && t.locks == s.locks && SessionLogged(s.db, t.db, r.session, r.tasks, ids[0])
  {
    hide SessionLogged, InsertSession, Unused;
    OneStepAlone(s, n, ids);
    InsertIsLogged(s.db, s.requests[n].session, s.requests[n].tasks, ids[0]);
  }

  lemma NothingLogged(db: Tables, session: Session, tasks: seq<Id>, id: Id)
    requires
      || (session.routine.Some? && !OwnsRoutine(db, session.user, session.routine.value))
      || exists t :: t in tasks && (t !in db.tasks || !VisibleTo(db.tasks[t], session.user))
    ensures SessionLogged(db, db, session, tasks, id)
  {
  }

  lemma InsertIsLogged(db: Tables, session: Session, tasks: seq<Id>, id: Id)
    requires id !in db.sessions
    requires session.routine.Some? ==> OwnsRoutine(db, session.user, session.routine.value)
    requires forall t :: t in tasks ==> t in db.tasks && VisibleTo(db.tasks[t], session.user)
    ensures SessionLogged(db, Keep(db, InsertSession(db, id, session, tasks)), session, tasks, id)
  {
  }

  lemma {:induction false} UploadAlone(s: State, n: nat, ids: seq<Id>)
    requires Unused(s, ids) && |ids| >= 2 && n in s.requests && s.requests[n].Upload? && IdsUsed(s)
    ensures var r, t := s.requests[n], Alone(s, n, ids);
            && n !in t.requests && t.locks == s.locks
            && t.db == if
                         && r.sessionId in s.db.sessions && s.db.sessions[r.sessionId].user == r.user
                         && r.user in s.db.users
                       then s.db.(recordings :=
                                    s.db.recordings[ids[1] := Recording(r.user, r.sessionId, r.objectName)])
                       else s.db
  {
    hide Unused, IdsUsed;
    var r := s.requests[n];
    OneStepAlone(s, n, ids);
    UnusedIsNew(s, ids, 1);
    if r.sessionId in s.db.sessions && s.db.sessions[r.sessionId].user == r.user {
      OneStepAlone(Do(s, Advance(n, ids[0])), n, ids[1..]);
    }
  }

  lemma {:induction false} DropAlone(s: State, n: nat, ids: seq<Id>)
    requires Unused(s, ids) && |ids| >= 2 && n in s.requests && s.requests[n].Drop?
    ensures var r, t := s.requests[n], Alone(s, n, ids);
            && n !in t.requests && t.locks == s.locks
            && t.db == if r.recording in s.db.recordings && s.db.recordings[r.recording].user == r.user
                       then s.db.(recordings := s.db.recordings - {r.recording}) else s.db
  {
    hide Unused;
    var r := s.requests[n];
    OneStepAlone(s, n, ids);
    if r.recording in s.db.recordings && s.db.recordings[r.recording].user == r.user {
      OneStepAlone(Do(s, Advance(n, ids[0])), n, ids[1..]);
    }
  }
}

/**
 * Who owns what across the tables: foreign keys plus the cross-table ownership rules that no
 * constraint of the schema states, and on which deleting a user under RESTRICT depends.
 */
module Ownership {
  import opened Outcomes
  import opened Database

  /** `visibleTo(user)`: the shared library, plus the user's own private tasks. */
  predicate VisibleTo(owner: Option<Id>, user: Id) {
    owner.None? || owner.value == user
  }

  /** The query behind assertTasksVisible, which counts the visible rows among the distinct ids. */
  function VisibleAmong(db: Tables, user: Id, ids: set<Id>): set<Id> {
    set t | t in ids && t in db.tasks && VisibleTo(db.tasks[t], user)
  }

  predicate TasksVisible(db: Tables, user: Id, ids: seq<Id>) {
    var unique := set t | t in ids;
    |VisibleAmong(db, user, unique)| == |unique|
  }

  /** Counting is enough: the test passes exactly when every id is a task the user may see. */
  lemma {:induction false} TasksVisibleIffEachVisible(db: Tables, user: Id, ids: seq<Id>)
    ensures TasksVisible(db, user, ids) <==> forall t :: t in ids ==> t in db.tasks && VisibleTo(db.tasks[t], user)
  {
    var unique := set t | t in ids;
    var visible := VisibleAmong(db, user, unique);
    assert visible <= unique;
    assert |unique - visible| == |unique| - |visible|;
    if TasksVisible(db, user, ids) {
      assert unique - visible == {};
      forall t | t in ids ensures t in visible {
        assert t in unique;
      }
    }
    if forall t :: t in ids ==> t in db.tasks && VisibleTo(db.tasks[t], user) {
      assert unique == visible;
    }
  }

  ghost predicate AssignmentsOwned(db: Tables) {
    forall k :: k in db.assignments ==>
      k.0 in db.routines && k.1 in db.tasks && VisibleTo(db.tasks[k.1], db.routines[k.0])
  }

  ghost predicate SessionTasksOwned(db: Tables) {
    forall k :: k in db.sessionTasks ==>
      k.0 in db.sessions && k.1 in db.tasks && VisibleTo(db.tasks[k.1], db.sessions[k.0].user)
  }

  ghost predicate RecordingsOwned(db: Tables) {
    forall c :: c in db.recordings ==>
      db.recordings[c].session in db.sessions && db.sessions[db.recordings[c].session].user == db.recordings[c].user
  }

  ghost predicate SessionsOwned(db: Tables) {
    forall s :: s in db.sessions && db.sessions[s].routine.Some? ==>
      db.sessions[s].routine.value in db.routines && db.routines[db.sessions[s].routine.value] == db.sessions[s].user
  }

  /** Every owner column names a user. */
  ghost predicate OwnersExist(db: Tables) {
    && (forall t :: t in db.tasks && db.tasks[t].Some? ==> db.tasks[t].value in db.users)
    && (forall r :: r in db.routines ==> db.routines[r] in db.users)
    && (forall s :: s in db.sessions ==> db.sessions[s].user in db.users)
    && (forall c :: c in db.recordings ==> db.recordings[c].user in db.users)
  }

  ghost predicate Owned(db: Tables) {
    && AssignmentsOwned(db)
    && SessionTasksOwned(db)
    && RecordingsOwned(db)
    && SessionsOwned(db)
    && OwnersExist(db)
  }

  /** Nothing of `user`'s is left. */
  ghost predicate NothingOf(db: Tables, user: Id) {
    && user !in db.users
    && (forall t :: t in db.tasks ==> db.tasks[t] != Some(user))
    && (forall r :: r in db.routines ==> db.routines[r] != user)
    && (forall s :: s in db.sessions ==> db.sessions[s].user != user)
    && (forall c :: c in db.recordings ==> db.recordings[c].user != user)
  }

  /** Rows that belong to somebody else, and the shared library, are the same in both. */
  ghost predicate OthersUnchanged(before: Tables, after: Tables, user: Id) {
    && after.users - {user} == before.users - {user}
    && (forall t :: (t in before.tasks && before.tasks[t] != Some(user)) <==>
        (t in after.tasks && after.tasks[t] != Some(user)))
    && (forall t :: t in before.tasks && before.tasks[t] != Some(user) ==> after.tasks[t] == before.tasks[t])
    && (forall r :: (r in before.routines && before.routines[r] != user) <==>
        (r in after.routines && after.routines[r] != user))
    && (forall r :: r in before.routines && before.routines[r] != user ==> after.routines[r] == before.routines[r])
    && (forall s :: (s in before.sessions && before.sessions[s].user != user) <==>
        (s in after.sessions && after.sessions[s].user != user))
    && (forall s :: s in before.sessions && before.sessions[s].user != user ==> after.sessions[s] == before.sessions[s])
    && (forall c :: (c in before.recordings && before.recordings[c].user != user) <==>
        (c in after.recordings && after.recordings[c].user != user))
    && (forall c :: c in before.recordings && before.recordings[c].user != user ==>
        after.recordings[c] == before.recordings[c])
    && (forall k: (Id, Id) :: k.0 in before.routines && before.routines[k.0] != user ==>
          (k in before.assignments <==> k in after.assignments))
    && (forall k: (Id, Id) :: k.0 in before.routines && before.routines[k.0] != user && k in before.assignments ==>
          after.assignments[k] == before.assignments[k])
    && (forall k: (Id, Id) :: k.0 in before.sessions && before.sessions[k.0].user != user ==>
          (k in before.sessionTasks <==> k in after.sessionTasks))
  }
}

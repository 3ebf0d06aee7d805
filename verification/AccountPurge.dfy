/**
 * UsersService.purge: the transaction that deletes a user and everything they own, statement by
 * statement under RESTRICT, and the deletion of their storage objects after the commit.
 */
module AccountPurge {
  import opened Outcomes
  import opened Database
  import opened Ownership

  function RecordingsBy(db: Tables, user: Id): set<Id> {
    set c | c in db.recordings && db.recordings[c].user == user
  }

  function SessionsBy(db: Tables, user: Id): set<Id> {
    set s | s in db.sessions && db.sessions[s].user == user
  }

  function RoutinesBy(db: Tables, user: Id): set<Id> {
    set r | r in db.routines && db.routines[r] == user
  }

  function TasksBy(db: Tables, user: Id): set<Id> {
    set t | t in db.tasks && db.tasks[t] == Some(user)
  }

  /** The seven deletes in the source's order; the first violated constraint rolls everything back. */
  function Purge(db: Tables, user: Id): Result<Tables, DbError> {
    if user !in db.users then Err(RecordNotFound)
    else
      var d1 := db.(recordings := db.recordings - RecordingsBy(db, user));
      var d2 := d1.(sessionTasks := set k | k in d1.sessionTasks && k.0 !in SessionsBy(d1, user) :: k);
      match DeleteSessions(d2, SessionsBy(d2, user))
      case Err(e) => Err(e)
      case Ok(d3) =>
        var d4 := d3.(assignments := map k | k in d3.assignments && k.0 !in RoutinesBy(d3, user) :: d3.assignments[k]);
        match DeleteRoutines(d4, RoutinesBy(d4, user))
        case Err(e) => Err(e)
        case Ok(d5) =>
          match DeleteTasks(d5, TasksBy(d5, user))
          case Err(e) => Err(e)
          case Ok(d6) => DeleteUser(d6, user)
  }

  /** The tables without `user`'s rows: what a purge should leave. */
  function Without(db: Tables, user: Id): Tables {
    Tables(db.users - {user},
           db.tasks - TasksBy(db, user),
           db.routines - RoutinesBy(db, user),
           map k | k in db.assignments && k.0 !in RoutinesBy(db, user) :: db.assignments[k],
           db.sessions - SessionsBy(db, user),
           set k | k in db.sessionTasks && k.0 !in SessionsBy(db, user) :: k,
           db.recordings - RecordingsBy(db, user))
  }

  lemma {:induction false} SessionsCanGo(db: Tables, user: Id)
    requires Owned(db)
    ensures var d1 := db.(recordings := db.recordings - RecordingsBy(db, user));
            var d2 := d1.(sessionTasks := set k | k in d1.sessionTasks && k.0 !in SessionsBy(d1, user) :: k);
            DeleteSessions(d2, SessionsBy(d2, user)) ==
            Ok(db.(recordings := db.recordings - RecordingsBy(db, user),
                   sessionTasks := set k | k in db.sessionTasks && k.0 !in SessionsBy(db, user) :: k,
                   sessions := db.sessions - SessionsBy(db, user)))
  {
    var d1 := db.(recordings := db.recordings - RecordingsBy(db, user));
    var d2 := d1.(sessionTasks := set k | k in d1.sessionTasks && k.0 !in SessionsBy(d1, user) :: k);
    assert SessionsBy(d1, user) == SessionsBy(db, user) == SessionsBy(d2, user);
    assert forall c :: c in d2.recordings ==> d2.recordings[c].session !in SessionsBy(db, user);
  }

  lemma {:induction false} RoutinesCanGo(db: Tables, d3: Tables, user: Id)
    requires Owned(db)
    requires d3.routines == db.routines && d3.assignments == db.assignments
    requires d3.sessions == db.sessions - SessionsBy(db, user)
    ensures var d4 := d3.(assignments := map k | k in d3.assignments && k.0 !in RoutinesBy(d3, user) ::
                                 d3.assignments[k]);
            DeleteRoutines(d4, RoutinesBy(d4, user)) ==
            Ok(d3.(assignments := map k | k in db.assignments && k.0 !in RoutinesBy(db, user) :: db.assignments[k],
                   routines := db.routines - RoutinesBy(db, user)))
  {
    var d4 := d3.(assignments := map k | k in d3.assignments && k.0 !in RoutinesBy(d3, user) :: d3.assignments[k]);
    var ids := RoutinesBy(db, user);
    assert RoutinesBy(d3, user) == ids == RoutinesBy(d4, user);
    forall s | s in d3.sessions ensures Unlinked(d3.sessions[s], ids) == d3.sessions[s] {
      assert s in db.sessions && db.sessions[s].user != user;
    }
    assert (map s | s in d4.sessions :: Unlinked(d4.sessions[s], ids)) == d3.sessions;
  }

  lemma {:induction false} TasksAndUserCanGo(db: Tables, d5: Tables, user: Id)
    requires Owned(db) && user in db.users
    requires d5 == db.(recordings := db.recordings - RecordingsBy(db, user),
                       sessionTasks := set k | k in db.sessionTasks && k.0 !in SessionsBy(db, user) :: k,
                       sessions := db.sessions - SessionsBy(db, user),
                       assignments := map k | k in db.assignments && k.0 !in RoutinesBy(db, user) :: db.assignments[k],
                       routines := db.routines - RoutinesBy(db, user))
    ensures DeleteTasks(d5, TasksBy(d5, user)).Ok?
    ensures DeleteUser(DeleteTasks(d5, TasksBy(d5, user)).value, user) == Ok(Without(db, user))
  {
    var ids := TasksBy(db, user);
    assert TasksBy(d5, user) == ids;
    forall k | k in d5.assignments ensures k.1 !in ids {
      assert VisibleTo(db.tasks[k.1], db.routines[k.0]);
    }
    forall k | k in d5.sessionTasks ensures k.1 !in ids {
      assert VisibleTo(db.tasks[k.1], db.sessions[k.0].user);
    }
  }

  /** From any state in which ownership is closed, every statement passes its constraints and the
      transaction leaves exactly the other users' rows. */
  lemma {:induction false} PurgeIsExact(db: Tables, user: Id)
    requires Owned(db) && user in db.users
    ensures Purge(db, user) == Ok(Without(db, user))
    ensures NothingOf(Without(db, user), user)
    ensures Owned(Without(db, user))
    ensures OthersUnchanged(db, Without(db, user), user)
  {
    SessionsCanGo(db, user);
    var d3 := db.(recordings := db.recordings - RecordingsBy(db, user),
                  sessionTasks := set k | k in db.sessionTasks && k.0 !in SessionsBy(db, user) :: k,
                  sessions := db.sessions - SessionsBy(db, user));
    RoutinesCanGo(db, d3, user);
    var d5 := d3.(assignments := map k | k in db.assignments && k.0 !in RoutinesBy(db, user) :: db.assignments[k],
                  routines := db.routines - RoutinesBy(db, user));
    TasksAndUserCanGo(db, d5, user);
    WithoutIsOwned(db, user);
    WithoutSparesOthers(db, user);
  }

  lemma WithoutIsOwned(db: Tables, user: Id)
    requires Owned(db)
    ensures Owned(Without(db, user))
  {
    var after := Without(db, user);
    forall k | k in after.assignments ensures k.1 in after.tasks {
      assert VisibleTo(db.tasks[k.1], db.routines[k.0]);
    }
    forall k | k in after.sessionTasks ensures k.1 in after.tasks {
      assert VisibleTo(db.tasks[k.1], db.sessions[k.0].user);
    }
  }

  lemma WithoutSparesOthers(db: Tables, user: Id)
    ensures NothingOf(Without(db, user), user)
    ensures OthersUnchanged(db, Without(db, user), user)
  {
    var after := Without(db, user);
    assert after.users - {user} == db.users - {user};
  }

  /** No other user's row depends on a row that the purge deletes under RESTRICT. */
  predicate NothingDependsOn(db: Tables, user: Id) {
    && (forall c :: c in db.recordings && db.recordings[c].session in SessionsBy(db, user) ==>
        db.recordings[c].user == user)
    && (forall k :: k in db.assignments && k.1 in TasksBy(db, user) ==> k.0 in RoutinesBy(db, user))
    && (forall k :: k in db.sessionTasks && k.1 in TasksBy(db, user) ==> k.0 in SessionsBy(db, user))
  }

  /** The tables after the sessions statement, if nothing restricts it. */
  function SessionsGone(db: Tables, user: Id): Tables {
    db.(recordings := db.recordings - RecordingsBy(db, user),
        sessionTasks := set k | k in db.sessionTasks && k.0 !in SessionsBy(db, user) :: k,
        sessions := db.sessions - SessionsBy(db, user))
  }

  lemma SessionsGoIff(db: Tables, user: Id)
    ensures var d1 := db.(recordings := db.recordings - RecordingsBy(db, user));
            var d2 := d1.(sessionTasks := set k | k in d1.sessionTasks && k.0 !in SessionsBy(d1, user) :: k);
            DeleteSessions(d2, SessionsBy(d2, user)) ==
              if forall c :: c in db.recordings && db.recordings[c].session in SessionsBy(db, user) ==>
                  db.recordings[c].user == user
              then Ok(SessionsGone(db, user)) else Err(ForeignKeyViolation)
  {
    var d1 := db.(recordings := db.recordings - RecordingsBy(db, user));
    var d2 := d1.(sessionTasks := set k | k in d1.sessionTasks && k.0 !in SessionsBy(d1, user) :: k);
    assert SessionsBy(d1, user) == SessionsBy(db, user) == SessionsBy(d2, user);
    if c :| c in db.recordings && db.recordings[c].session in SessionsBy(db, user) && db.recordings[c].user != user {
      assert c in d2.recordings;
    }
  }

  lemma RoutinesAlwaysGo(d3: Tables, user: Id)
    ensures var d4 := d3.(assignments := map k | k in d3.assignments && k.0 !in RoutinesBy(d3, user) ::
                                 d3.assignments[k]);
            var d5 := DeleteRoutines(d4, RoutinesBy(d4, user));
            && d5.Ok? && d5.value.(sessions := d3.sessions) == d4.(routines := d3.routines - RoutinesBy(d3, user))
            && d5.value.sessions.Keys == d3.sessions.Keys
            && (forall s :: s in d3.sessions ==> d5.value.sessions[s].user == d3.sessions[s].user)
  {
    var d4 := d3.(assignments := map k | k in d3.assignments && k.0 !in RoutinesBy(d3, user) :: d3.assignments[k]);
    assert RoutinesBy(d4, user) == RoutinesBy(d3, user);
  }

  /** The tasks go exactly when no row left uses one. */
  lemma TasksGoIff(db: Tables, d5: Tables, user: Id)
    requires d5.tasks == db.tasks
    requires forall k :: k in d5.assignments <==> k in db.assignments && k.0 !in RoutinesBy(db, user)
    requires forall k :: k in d5.sessionTasks <==> k in db.sessionTasks && k.0 !in SessionsBy(db, user)
    ensures TasksBy(d5, user) == TasksBy(db, user)
    ensures DeleteTasks(d5, TasksBy(d5, user)) ==
              if (forall k :: k in db.assignments && k.1 in TasksBy(db, user) ==> k.0 in RoutinesBy(db, user))
                 && (forall k :: k in db.sessionTasks && k.1 in TasksBy(db, user) ==> k.0 in SessionsBy(db, user))
              then Ok(d5.(tasks := d5.tasks - TasksBy(db, user))) else Err(ForeignKeyViolation)
  {
    assert TasksBy(d5, user) == TasksBy(db, user);
    if k :| k in db.assignments && k.1 in TasksBy(db, user) && k.0 !in RoutinesBy(db, user) {
      assert k in d5.assignments;
    }
    if k :| k in db.sessionTasks && k.1 in TasksBy(db, user) && k.0 !in SessionsBy(db, user) {
      assert k in d5.sessionTasks;
    }
  }

  /** Then nothing keeps the user's row. */
  lemma UserGoes(db: Tables, user: Id)
    requires user in db.users && RoutinesBy(db, user) == {} && RecordingsBy(db, user) == {} && TasksBy(db, user) == {}
    requires SessionsBy(db, user) == {}
    ensures DeleteUser(db, user).Ok?
  {
    assert forall t :: t in db.tasks ==> t !in TasksBy(db, user);
    assert forall r :: r in db.routines ==> r !in RoutinesBy(db, user);
    assert forall s :: s in db.sessions ==> s !in SessionsBy(db, user);
    assert forall c :: c in db.recordings ==> c !in RecordingsBy(db, user);
  }

  /** The last two statements: the tasks go exactly when no row left uses one, and then the user goes. */
  lemma TasksAndUserGoIff(db: Tables, d5: Tables, user: Id)
    requires user in db.users && d5.users == db.users && d5.tasks == db.tasks
    requires d5.routines == db.routines - RoutinesBy(db, user)
    requires d5.recordings == db.recordings - RecordingsBy(db, user)
    requires forall s :: s in d5.sessions ==> d5.sessions[s].user != user
    requires forall k :: k in d5.assignments <==> k in db.assignments && k.0 !in RoutinesBy(db, user)
    requires forall k :: k in d5.sessionTasks <==> k in db.sessionTasks && k.0 !in SessionsBy(db, user)
    ensures var d6 := DeleteTasks(d5, TasksBy(d5, user));
            if (forall k :: k in db.assignments && k.1 in TasksBy(db, user) ==> k.0 in RoutinesBy(db, user))
               && (forall k :: k in db.sessionTasks && k.1 in TasksBy(db, user) ==> k.0 in SessionsBy(db, user))
            then d6.Ok? && DeleteUser(d6.value, user).Ok?
            else d6 == Err(ForeignKeyViolation)
  {
    hide DeleteTasks, DeleteUser;
    TasksGoIff(db, d5, user);
    UserGoes(d5.(tasks := d5.tasks - TasksBy(db, user)), user);
  }

  /** From any tables at all: the purge of a user commits if and only if nobody else's row depends on one
      of theirs, and otherwise rolls back on a foreign key. */
  lemma {:induction false} PurgeSucceedsIff(db: Tables, user: Id)
    requires user in db.users
    ensures Purge(db, user).Ok? <==> NothingDependsOn(db, user)
    ensures Purge(db, user).Err? ==> Purge(db, user).error == ForeignKeyViolation
  {
    hide DeleteSessions, DeleteRoutines, DeleteTasks, DeleteUser;
    SessionsGoIff(db, user);
    var d3 := SessionsGone(db, user);
    RoutinesAlwaysGo(d3, user);
    var d4 := d3.(assignments := map k | k in d3.assignments && k.0 !in RoutinesBy(d3, user) :: d3.assignments[k]);
    assert RoutinesBy(d3, user) == RoutinesBy(db, user);
    TasksAndUserGoIff(db, DeleteRoutines(d4, RoutinesBy(d4, user)).value, user);
  }

  /** Ownership is what makes it work. A routine of one user that holds another user's private task
      stops that user's purge at the tasks statement: nothing is deleted. */
  lemma {:induction false} ForeignTaskBlocksPurge(owner: Id, other: Id, routine: Id, task: Id)
    requires owner != other
    ensures Purge(Tables(map[owner := None, other := None], map[task := Some(owner)], map[routine := other],
                         map[(routine, task) := Assignment(1, None)], map[], {}, map[]), owner) ==
                             Err(ForeignKeyViolation)
  {
    var db := Tables(map[owner := None, other := None], map[task := Some(owner)], map[routine := other],
                     map[(routine, task) := Assignment(1, None)], map[], {}, map[]);
    var d3 := db.(recordings := db.recordings - {}, sessionTasks := {}, sessions := map[]);
    assert d3 == db;
    var d4 := db.(assignments := map k | k in db.assignments && k.0 !in RoutinesBy(db, owner) :: db.assignments[k]);
    assert RoutinesBy(db, owner) == {};
    assert d4.assignments == db.assignments;
    assert (routine, task) in d4.assignments && task in TasksBy(d4, owner);
  }

  // ----- the storage objects -----

  /** A user's avatar object, or nothing when the image column holds something else. */
  function OwnAvatar(user: Id, image: Option<string>): Option<string> {
    if image.Some? && AvatarPrefix(user) <= image.value then image else None
  }

  function AvatarPrefix(user: Id): string {
    "users/" + user + "/avatar/"
  }

  /** Nobody's avatar object is another's: ids have no slash in them. */
  lemma {:induction false} AvatarsAreApart(user: Id, other: Id, name: string)
    requires '/' !in user && '/' !in other
    requires OwnAvatar(user, Some(name)).Some? && OwnAvatar(other, Some(name)).Some?
    ensures user == other
  {
    var u, o := AvatarPrefix(user), AvatarPrefix(other);
    assert "users/"[5] == '/' && name[..|u|] == u && name[..|o|] == o;
    assert name[6 + |user|] == '/' && name[6 + |other|] == '/';
    assert forall k :: 0 <= k < |user| ==> name[6 + k] == user[k] && user[k] in user;
    assert forall k :: 0 <= k < |other| ==> name[6 + k] == other[k] && other[k] in other;
    assert |user| == |other|;
    assert user == u[6..6 + |user|] == name[6..6 + |user|];
    assert other == o[6..6 + |other|] == name[6..6 + |other|];
  }

  /** The names of `batch` whose deletion failed, in order. */
  function Failed(names: seq<string>, fails: seq<bool>): seq<string>
    requires |names| == |fails|
  {
    if names == [] then []
    else Failed(names[..|names| - 1], fails[..|names| - 1]) +
         (if fails[|names| - 1] then [names[|names| - 1]] else [])
  }

  lemma {:induction false} FailedAppends(a: seq<string>, b: seq<string>, f: seq<bool>, g: seq<bool>)
    requires |a| == |f| && |b| == |g|
    ensures Failed(a + b, f + g) == Failed(a, f) + Failed(b, g)
  {
    if b == [] {
      assert a + b == a && f + g == f;
    } else {
      var n := |b| - 1;
      FailedAppends(a, b[..n], f, g[..n]);
      assert (a + b)[..|a| + n] == a + b[..n] && (f + g)[..|a| + n] == f + g[..n];
    }
  }

  /** The first `n` names that the storage agrees to delete. */
  function Accepted(names: seq<string>, fails: seq<bool>, n: nat): set<string>
    requires n <= |names| == |fails|
  {
    set k | 0 <= k < n && !fails[k] :: names[k]
  }

  lemma FailedNext(names: seq<string>, fails: seq<bool>, j: nat)
    requires j < |names| == |fails|
    ensures Failed(names[..j + 1], fails[..j + 1]) == Failed(names[..j], fails[..j])
              + (if fails[j] then [names[j]] else [])
  {
    assert names[..j + 1][..j] == names[..j] && fails[..j + 1][..j] == fails[..j];
  }

  lemma NoneFailed()
    ensures Failed([], []) == []
  {
  }

  const CONCURRENCY := 5

  class ObjectStore {
    var objects: set<string>

    constructor (objects: set<string>)
      ensures this.objects == objects
    {
      this.objects := objects;
    }

    /** Deleting an object that is not there counts as success; a failed delete changes nothing. */
    method Delete(name: string, fails: bool) returns (rejected: bool)
      modifies this
      ensures rejected == fails
      ensures objects == if fails then old(objects) else old(objects) - {name}
    {
      rejected := fails;
      if !fails { objects := objects - {name}; }
    }

    /** deleteObjects: batches of five, every outcome settled, every rejection logged. `fails[i]` says
        whether the storage rejects the i-th delete. */
    method DeleteObjects(names: seq<string>, fails: seq<bool>) returns (attempts: seq<string>, logged: seq<string>)
      requires |fails| == |names|
      modifies this
      ensures attempts == names
      ensures logged == Failed(names, fails)
      ensures objects == old(objects) - Accepted(names, fails, |names|)
    {
      hide Failed;
      attempts, logged := [], [];
      NoneFailed();
      var i := 0;
      while i < |names|
        invariant 0 <= i
        invariant i <= |names| ==> attempts == names[..i] && logged == Failed(names[..i], fails[..i])
        invariant i <= |names| ==> objects == old(objects) - Accepted(names, fails, i)
        invariant i > |names| ==> attempts == names && logged == Failed(names, fails)
        invariant i > |names| ==> objects == old(objects) - Accepted(names, fails, |names|)
      {
        var end := if i + CONCURRENCY <= |names| then i + CONCURRENCY else |names|;
        var j := i;
        while j < end
          invariant i <= j <= end
          invariant attempts == names[..j] && logged == Failed(names[..i], fails[..i])
          invariant objects == old(objects) - Accepted(names, fails, j)
        {
          var _ := Delete(names[j], fails[j]);
          attempts := attempts + [names[j]];
          j := j + 1;
        }
        var batch, results := names[i..end], fails[i..end];
        assert attempts == names[..end];
        assert batch[..0] == [] && results[..0] == [];
        j := 0;
        while j < |batch|
          invariant 0 <= j <= |batch| && objects == old(objects) - Accepted(names, fails, end)
          invariant logged == Failed(names[..i], fails[..i]) + Failed(batch[..j], results[..j])
        {
          FailedNext(batch, results, j);
          if results[j] { logged := logged + [batch[j]]; }
          j := j + 1;
        }
        assert batch[..j] == batch && results[..j] == results;
        FailedAppends(names[..i], batch, fails[..i], results);
        assert names[..end] == names[..i] + batch && fails[..end] == fails[..i] + results;
        assert logged == Failed(names[..end], fails[..end]);
        i := i + CONCURRENCY;
        assert i > |names| ==> names[..end] == names && fails[..end] == fails;
      }
      assert i == |names| ==> names[..i] == names && fails[..i] == fails;
    }

    /** The same with the storage's answers given by `fails`. */
    method DeleteAll(names: seq<string>, fails: nat -> bool) returns (logged: seq<string>)
      modifies this
      ensures DeletedOrLogged(old(objects), objects, names, logged)
      ensures (forall i: nat :: !fails(i)) ==> logged == []
    {
      var results := seq(|names|, i requires 0 <= i < |names| => fails(i));
      SettledMeansDeletedOrLogged(objects, names, results);
      FailedAreNames(names, results);
      var attempts: seq<string>;
      attempts, logged := DeleteObjects(names, results);
    }
  }
  /** The objects to delete: the recordings' in the order the query returned them, then the avatar's. */
  function ObjectNames(db: Tables, user: Id, listing: seq<Id>): seq<string>
    requires user in db.users && forall c :: c in listing ==> c in db.recordings
  {
    seq(|listing|, i requires 0 <= i < |listing| =>
      assert listing[i] in listing;
      db.recordings[listing[i]].objectName) +
    (var avatar := OwnAvatar(user, db.users[user]); if avatar.Some? then [avatar.value] else [])
  }

  class UsersService {
    var db: Tables
    const storage: ObjectStore

    constructor (db: Tables, storage: ObjectStore)
      ensures this.db == db && this.storage == storage
    {
      this.db := db;
      this.storage := storage;
    }

    /** The transaction: one delete after the other on a working copy, kept only if all succeed. */
    method DeleteRows(user: Id) returns (outcome: Result<Tables, DbError>)
      modifies this`db
      ensures outcome == Purge(old(db), user)
      ensures db == if outcome.Ok? then outcome.value else old(db)
      ensures Owned(old(db)) ==>
                outcome == if user in old(db).users then Ok(Without(old(db), user)) else Err(RecordNotFound)
    {
      ghost var before := db;
      if Owned(before) && user in before.users { PurgeIsExact(before, user); }
      if user !in db.users { return Err(RecordNotFound); }
      var tx := db.(recordings := db.recordings - RecordingsBy(db, user));
      tx := tx.(sessionTasks := set k | k in tx.sessionTasks && k.0 !in SessionsBy(tx, user) :: k);
      outcome := DeleteSessions(tx, SessionsBy(tx, user));
      if outcome.Err? { return; }
      tx := outcome.value;
      tx := tx.(assignments := map k | k in tx.assignments && k.0 !in RoutinesBy(tx, user) :: tx.assignments[k]);
      outcome := DeleteRoutines(tx, RoutinesBy(tx, user));
      if outcome.Err? { return; }
      tx := outcome.value;
      outcome := DeleteTasks(tx, TasksBy(tx, user));
      if outcome.Err? { return; }
      tx := outcome.value;
      outcome := DeleteUser(tx, user);
      if outcome.Ok? { db := outcome.value; }
    }

    /** The whole of purge, from tables in which ownership is closed. `listing` is the order in which
        the user's recordings come back and `fails(i)` says whether the storage rejects the i-th delete. */
    method PurgeAccount(user: Id, listing: seq<Id>, fails: nat -> bool)
      returns (outcome: Result<seq<string>, DbError>, logged: seq<string>)
      requires Owned(db)
      requires multiset(listing) == multiset(RecordingsBy(db, user))
      modifies this`db, storage
      ensures outcome.Ok? <==> user in old(db).users
      ensures outcome.Err? ==>
                outcome.error == RecordNotFound && db == old(db) && storage.objects == old(storage.objects)
      ensures outcome.Ok? ==> db == Without(old(db), user) && AllNamed(old(db), user, outcome.value)
      ensures outcome.Ok? ==> Lists(old(db), user, listing) && outcome.value == ObjectNames(old(db), user, listing)
      ensures outcome.Ok? ==> NamesExactly(old(db), user, listing, outcome.value)
      ensures outcome.Ok? ==> DeletedOrLogged(old(storage.objects), storage.objects, outcome.value, logged)
      ensures outcome.Ok? && (forall i: nat :: !fails(i)) ==> logged == []
      ensures outcome.Ok? ==>
                forall name :: !IsOfAccount(old(db), user, name) ==>
                  (name in storage.objects <==> name in old(storage.objects))
    {
      var names := CollectNames(user, listing);
      var committed := DeleteRows(user);
      if committed.Err? {
        return Err(committed.error), [];
      }
      logged := storage.DeleteAll(names, fails);
      NamesAreOfAccount(old(db), user, listing, names);
      outcome := Ok(names);
    }

    /** The reads of the transaction: the recordings' object names and the user's own avatar. */
    method CollectNames(user: Id, listing: seq<Id>) returns (names: seq<string>)
      requires multiset(listing) == multiset(RecordingsBy(db, user))
      ensures user in db.users ==> AllNamed(db, user, names)
      ensures user in db.users ==> Lists(db, user, listing) && names == ObjectNames(db, user, listing)
      ensures user in db.users ==> NamesExactly(db, user, listing, names)
    {
      if user !in db.users { return []; }
      forall c ensures c in listing <==> c in RecordingsBy(db, user) {
        assert c in multiset(listing) <==> c in multiset(RecordingsBy(db, user));
      }
      AllRecordingsNamed(db, user, listing);
      names := ObjectNames(db, user, listing);
    }
  }

  /** The listing holds recordings, the user's and no others. */
  predicate Lists(db: Tables, user: Id, listing: seq<Id>) {
    forall c :: c in listing ==> c in db.recordings && db.recordings[c].user == user
  }

  /** An object of a recording of the user, or what the user's image column names if it stands under the
      user's own prefix: the only objects that deleting the account may touch. */
  ghost predicate IsOfAccount(db: Tables, user: Id, name: string)
    requires user in db.users
  {
    || (exists c :: c in db.recordings && db.recordings[c].user == user && db.recordings[c].objectName == name)
    || (db.users[user] == Some(name) && "users/" + user + "/avatar/" <= name)
  }

  /** One name for each recording of the listing, in its order, and one more exactly if the image is the user's
      own avatar. */
  ghost predicate NamesExactly(db: Tables, user: Id, listing: seq<Id>, names: seq<string>)
    requires user in db.users
  {
    var image := db.users[user];
    var own := image.Some? && "users/" + user + "/avatar/" <= image.value;
    && |names| == |listing| + (if own then 1 else 0)
    && (own ==> names[|listing|] == image.value)
    && forall i :: 0 <= i < |listing| ==>
         && listing[i] in db.recordings && db.recordings[listing[i]].user == user
         && names[i] == db.recordings[listing[i]].objectName
  }

  lemma {:induction false} NamesAreOfAccount(db: Tables, user: Id, listing: seq<Id>, names: seq<string>)
    requires user in db.users && multiset(listing) == multiset(RecordingsBy(db, user))
    requires NamesExactly(db, user, listing, names)
    ensures forall name :: name in names <==> IsOfAccount(db, user, name)
  {
    forall name | IsOfAccount(db, user, name) ensures name in names {
      if c :| c in db.recordings && db.recordings[c].user == user && db.recordings[c].objectName == name {
        assert c in multiset(RecordingsBy(db, user));
        assert c in listing;
        var i :| 0 <= i < |listing| && listing[i] == c;
        assert names[i] == name;
      } else {
        assert names[|listing|] == name;
      }
    }
  }

  /** Every object of the user's recordings, and the avatar if it is one, is on the list. */
  ghost predicate AllNamed(db: Tables, user: Id, names: seq<string>)
    requires user in db.users
  {
    && (forall c :: c in db.recordings && db.recordings[c].user == user ==> db.recordings[c].objectName in names)
    && (OwnAvatar(user, db.users[user]).Some? ==> OwnAvatar(user, db.users[user]).value in names)
  }

  /** Every listed object is gone or logged, and no other object was touched. */
  ghost predicate DeletedOrLogged(before: set<string>, after: set<string>, names: seq<string>, logged: seq<string>) {
    && (forall name :: name in names ==> name !in after || name in logged)
    && (forall name :: name !in names ==> (name in before <==> name in after))
    && forall name :: name in logged ==> name in names
  }

  lemma SettledMeansDeletedOrLogged(before: set<string>, names: seq<string>, fails: seq<bool>)
    requires |names| == |fails|
    ensures DeletedOrLogged(before, before - Accepted(names, fails, |names|), names, Failed(names, fails))
  {
    forall name | name in names
      ensures name !in before - Accepted(names, fails, |names|) || name in Failed(names, fails)
    {
      var i :| 0 <= i < |names| && names[i] == name;
      FailedCovers(names, fails, i);
    }
    FailedAreNames(names, fails);
  }

  lemma {:induction false} FailedAreNames(names: seq<string>, fails: seq<bool>)
    requires |names| == |fails|
    ensures forall name :: name in Failed(names, fails) ==> name in names
    ensures (forall i :: 0 <= i < |fails| ==> !fails[i]) ==> Failed(names, fails) == []
  {
    if names != [] { FailedAreNames(names[..|names| - 1], fails[..|names| - 1]); }
  }

  lemma AllRecordingsNamed(db: Tables, user: Id, listing: seq<Id>)
    requires user in db.users && forall c :: c in listing <==> c in RecordingsBy(db, user)
    ensures AllNamed(db, user, ObjectNames(db, user, listing))
  {
    var names := ObjectNames(db, user, listing);
    forall c | c in db.recordings && db.recordings[c].user == user ensures db.recordings[c].objectName in names {
      assert c in RecordingsBy(db, user) && c in listing;
      var i :| 0 <= i < |listing| && listing[i] == c;
      assert names[i] == db.recordings[c].objectName;
    }
    if OwnAvatar(user, db.users[user]).Some? {
      assert names[|listing|] == OwnAvatar(user, db.users[user]).value;
    }
  }

  lemma {:induction false} FailedCovers(names: seq<string>, fails: seq<bool>, i: nat)
    requires i < |names| == |fails|
    ensures fails[i] ==> names[i] in Failed(names, fails)
  {
    if i < |names| - 1 { FailedCovers(names[..|names| - 1], fails[..|names| - 1], i); }
  }
}

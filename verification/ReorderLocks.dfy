/**
 * The lock seen from the requests: of the reorders of one routine that are between their acquire and
 * their release, at most one is still within its time to live.
 */
module ReorderLocks {
  import opened Database
  import opened ServiceRuns
  import RedisLock

  /** Between acquire and release. */
  predicate InSection(r: Request) { r.ReorderLocked? || r.ReorderTested? || r.ReorderCommitted? || r.ReorderOver? }

  predicate Timely(s: State, r: Request)
    requires InSection(r)
  {
    s.now < r.since + REORDER_LOCK_TTL_MS
  }

  /** The request has a token of its own, and until its time runs out the key holds it. */
  predicate SectionOk(s: State, r: Request)
    requires InSection(r)
  {
    && r.since <= s.now && r.token in s.used
    && (Timely(s, r) ==>
          LockKey(r.routine) in s.locks &&
          s.locks[LockKey(r.routine)] == RedisLock.Lock(r.token, r.since + REORDER_LOCK_TTL_MS))
  }

  predicate SameToken(q: Request, r: Request) { InSection(q) && InSection(r) && q.token == r.token }

  ghost predicate LocksOk(s: State) {
    && (forall n :: n in s.requests && InSection(s.requests[n]) ==> SectionOk(s, s.requests[n]))
    && (forall m, n :: m in s.requests && n in s.requests && m != n ==> !SameToken(s.requests[m], s.requests[n]))
  }

  /** Steps that move no request into, inside or out of a section. */
  lemma OutsideKeeps(s: State, step: Step)
    requires LocksOk(s) && Enabled(s, step) && !step.Advance?
    ensures LocksOk(Do(s, step))
  {
    hide LockKey, RemovingRoutine, RemovingTask, DeletingByTitle;
    var s' := Do(s, step);
    assert s'.locks == s.locks && s.used <= s'.used && s.now <= s'.now;
    forall n | n in s'.requests && InSection(s'.requests[n]) ensures SectionOk(s', s'.requests[n]) {
      assert n in s.requests && s'.requests[n] == s.requests[n] && SectionOk(s, s.requests[n]);
    }
    forall m, n | m in s'.requests && n in s'.requests && m != n ensures !SameToken(s'.requests[m], s'.requests[n]) {
      if m in s.requests && n in s.requests {
        assert !SameToken(s.requests[m], s.requests[n]);
      }
    }
  }

  /** A lock handed out is nobody else's: its key was free, so no timely section held it. */
  lemma AcquireKeeps(s: State, n: nat, token: Id)
    requires LocksOk(s) && Enabled(s, Advance(n, token)) && s.requests[n].ReorderOwned?
    ensures LocksOk(Do(s, Advance(n, token)))
  {
    hide LockKey;
    var s', x := Do(s, Advance(n, token)), s.requests[n].routine;
    forall m | m in s'.requests && InSection(s'.requests[m]) ensures SectionOk(s', s'.requests[m]) {
      if m != n {
        var r := s.requests[m];
        assert s'.requests[m] == r && SectionOk(s, r);
        if LockKey(r.routine) != LockKey(x) || RedisLock.Held(s.locks, LockKey(x), s.now) {
          assert Timely(s, r) ==> s'.locks[LockKey(r.routine)] == s.locks[LockKey(r.routine)];
        }
      }
    }
    forall l, m | l in s'.requests && m in s'.requests && l != m ensures !SameToken(s'.requests[l], s'.requests[m]) {
      TokensStayApart(s, s', n, token, l, m);
    }
  }

  lemma TokensStayApart(s: State, s': State, n: nat, token: Id, l: nat, m: nat)
    requires LocksOk(s) && token !in s.used && n in s.requests && l in s'.requests && m in s'.requests && l != m
    requires forall k :: k in s'.requests && k != n ==> k in s.requests && s'.requests[k] == s.requests[k]
    requires n in s'.requests && InSection(s'.requests[n]) ==>
               s'.requests[n].token == token ||
               (InSection(s.requests[n]) && s'.requests[n].token == s.requests[n].token)
    ensures !SameToken(s'.requests[l], s'.requests[m])
  {
    var other := if l == n then m else l;
    assert !SameToken(s.requests[l], s.requests[m]);
    if InSection(s.requests[other]) { assert SectionOk(s, s.requests[other]); }
  }

  /** A release frees its own lock or none. */
  lemma ReleaseKeeps(s: State, n: nat, newId: Id)
    requires LocksOk(s) && Enabled(s, Advance(n, newId)) && s.requests[n].ReorderOver?
    ensures LocksOk(Do(s, Advance(n, newId)))
  {
    hide LockKey;
    var s', over := Do(s, Advance(n, newId)), s.requests[n];
    forall m | m in s'.requests && InSection(s'.requests[m]) ensures SectionOk(s', s'.requests[m]) {
      var r := s.requests[m];
      assert m != n && s'.requests[m] == r && SectionOk(s, r) && !SameToken(over, r);
    }
    forall l, m | l in s'.requests && m in s'.requests && l != m ensures !SameToken(s'.requests[l], s'.requests[m]) {
      TokensStayApart(s, s', n, newId, l, m);
    }
  }

  lemma LocksOnlyHere(s: State, r: Request, newId: Id)
    requires !r.ReorderOwned? && !r.ReorderOver?
    ensures var (next, db, locks) := Progress(s, r, newId);
            && locks == s.locks
            && (next.Some? && InSection(next.value) ==>
                  InSection(r) && next.value.routine == r.routine && next.value.token == r.token
                      && next.value.since == r.since)
  {
  }

  lemma OtherAdvanceKeeps(s: State, n: nat, newId: Id)
    requires LocksOk(s) && Enabled(s, Advance(n, newId)) && !s.requests[n].ReorderOwned? && !s.requests[n].ReorderOver?
    ensures LocksOk(Do(s, Advance(n, newId)))
  {
    hide LockKey, Progress;
    var s' := Do(s, Advance(n, newId));
    LocksOnlyHere(s, s.requests[n], newId);
    forall m | m in s'.requests && InSection(s'.requests[m]) ensures SectionOk(s', s'.requests[m]) {
      assert SectionOk(s, s.requests[m]);
    }
    forall l, m | l in s'.requests && m in s'.requests && l != m ensures !SameToken(s'.requests[l], s'.requests[m]) {
      TokensStayApart(s, s', n, newId, l, m);
    }
  }

  lemma StepKeepsLocks(s: State, step: Step)
    requires LocksOk(s) && Enabled(s, step)
    ensures LocksOk(Do(s, step))
  {
    hide LocksOk, Do, Progress;
    if !step.Advance? {
      OutsideKeeps(s, step);
    } else if s.requests[step.n].ReorderOwned? {
      AcquireKeeps(s, step.n, step.newId);
    } else if s.requests[step.n].ReorderOver? {
      ReleaseKeeps(s, step.n, step.newId);
    } else {
      OtherAdvanceKeeps(s, step.n, step.newId);
    }
  }

  lemma {:induction false} RunKeepsLocks(from: State, steps: seq<Step>, to: State)
    requires LocksOk(from) && Reaches(from, steps, to)
    ensures LocksOk(to)
    decreases |steps|
  {
    hide LocksOk, Do;
    if steps != [] {
      StepKeepsLocks(from, steps[0]);
      RunKeepsLocks(Do(from, steps[0]), steps[1..], to);
    }
  }

  /** Two reorders of one routine are never inside at once while both are within their time to live. */
  lemma {:induction false} TimelyReordersNeverOverlap(steps: seq<Step>, s: State, m: nat, n: nat)
    requires Reaches(INITIAL, steps, s) && m in s.requests && n in s.requests && m != n
    requires InSection(s.requests[m]) && InSection(s.requests[n]) && s.requests[m].routine == s.requests[n].routine
    ensures !(Timely(s, s.requests[m]) && Timely(s, s.requests[n]))
  {
    hide LockKey;
    RunKeepsLocks(INITIAL, steps, s);
    assert SectionOk(s, s.requests[m]) && SectionOk(s, s.requests[n]);
    assert !SameToken(s.requests[m], s.requests[n]);
  }

  /** And a timely reorder keeps its lock: until it is released nobody else can acquire it. */
  lemma {:induction false} TimelyReorderHoldsLock(steps: seq<Step>, s: State, n: nat)
    requires Reaches(INITIAL, steps, s) && n in s.requests && InSection(s.requests[n]) && Timely(s, s.requests[n])
    ensures RedisLock.Held(s.locks, LockKey(s.requests[n].routine), s.now)
    ensures s.locks[LockKey(s.requests[n].routine)].token == s.requests[n].token
  {
    hide LockKey;
    RunKeepsLocks(INITIAL, steps, s);
    assert SectionOk(s, s.requests[n]);
  }
}

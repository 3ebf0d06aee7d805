/**
 * RedisLockService: SET NX PX and the compare-and-delete release script, as a class over the
 * store and as a timed protocol over all runs of acquire, release, failed release, crash and expiry.
 */
module RedisLock {
  import opened Outcomes

  datatype Lock = Lock(token: string, expires: nat)

  type LockStore = map<string, Lock>

  /** Redis treats an expired key as absent. Times are in milliseconds. */
  predicate Held(store: LockStore, key: string, now: nat) {
    key in store && now < store[key].expires
  }

  function Acquired(store: LockStore, key: string, token: string, ttl: nat, now: nat): (LockStore, bool) {
    if Held(store, key, now) then (store, false) else (store[key := Lock(token, now + ttl)], true)
  }

  function Released(store: LockStore, key: string, token: string, now: nat): LockStore {
    if Held(store, key, now) && store[key].token == token then store - {key} else store
  }

  class RedisLockService {
    var store: LockStore
    var now: nat

    constructor ()
      ensures store == map[] && now == 0
    {
      store, now := map[], 0;
    }

    /** `token` is the fresh UUID; the result is it, or nothing when somebody else holds the key. */
    method Acquire(key: string, ttl: nat, token: string) returns (holder: Option<string>)
      modifies this`store
      ensures holder == if old(Held(store, key, now)) then None else Some(token)
      ensures (store, holder.Some?) == Acquired(old(store), key, token, ttl, now)
      ensures holder.Some? && ttl > 0 ==> Held(store, key, now) && store[key].token == token
    {
      if key in store && now < store[key].expires {
        return None;
      }
      store := store[key := Lock(token, now + ttl)];
      holder := Some(token);
    }

    /** A no-op unless `token` is the one now stored under the key. */
    method Release(key: string, token: string)
      modifies this`store
      ensures store == Released(old(store), key, token, now)
      ensures old(Held(store, key, now) && store[key].token != token) ==> store == old(store)
      ensures old(Held(store, key, now) && store[key].token == token) ==> !Held(store, key, now)
    {
      if key in store && now < store[key].expires && store[key].token == token {
        store := store - {key};
      }
    }
  }

  // ----- all runs -----

  /** One critical section: an acquire that succeeded, and how it ended if it did. A crashed holder
      stays `Open` for ever; `Lost` is a section that finished but whose release call failed. */
  datatype Ending = Open | Freed(at: nat) | Lost(at: nat)

  datatype Section = Section(key: string, token: string, ttl: nat, start: nat, ending: Ending)

  datatype State = State(now: nat, store: LockStore, sections: seq<Section>)

  datatype Step =
    | Wait(ms: nat)
    | TryAcquire(key: string, token: string, ttl: nat)
    | Finish(section: nat)
    | FinishUnreleased(section: nat)

  predicate Enabled(s: State, step: Step) {
    match step
    case Wait(_) => true
    case TryAcquire(_, token, _) => forall c :: c in s.sections ==> c.token != token
    case Finish(i) => i < |s.sections| && s.sections[i].ending.Open?
    case FinishUnreleased(i) => i < |s.sections| && s.sections[i].ending.Open?
  }

  function Do(s: State, step: Step): State
    requires Enabled(s, step)
  {
    match step
    case Wait(ms) => s.(now := s.now + ms)
    case TryAcquire(key, token, ttl) =>
      var (store, ok) := Acquired(s.store, key, token, ttl, s.now);
      s.(store := store,
         sections := if ok then s.sections + [Section(key, token, ttl, s.now, Open)] else s.sections)
    case Finish(i) =>
      var c := s.sections[i];
      s.(store := Released(s.store, c.key, c.token, s.now), sections := s.sections[i := c.(ending := Freed(s.now))])
    case FinishUnreleased(i) => s.(sections := s.sections[i := s.sections[i].(ending := Lost(s.now))])
  }

  const INITIAL := State(0, map[], [])

  /** `steps` lead from one state to another. */
  ghost predicate Reaches(from: State, steps: seq<Step>, to: State)
    decreases |steps|
  {
    if steps == [] then from == to
    else Enabled(from, steps[0]) && Reaches(Do(from, steps[0]), steps[1..], to)
  }

  /** The lock of `c` cannot have been freed yet, unless `c` itself freed it. */
  predicate Pending(c: Section, now: nat) {
    !c.ending.Freed? && now < c.start + c.ttl
  }

  /** Every stored lock is some section's. */
  ghost predicate Witnessed(s: State) {
    forall k :: k in s.store ==>
      exists c :: c in s.sections && c.key == k && s.store[k] == Lock(c.token, c.start + c.ttl)
  }

  ghost predicate Inv(s: State) {
    && (forall i, j :: 0 <= i < j < |s.sections| ==> s.sections[i].token != s.sections[j].token)
    && (forall c :: c in s.sections ==> c.start <= s.now && (!c.ending.Open? ==> c.ending.at <= s.now))
    && (forall c :: c in s.sections && Pending(c, s.now) ==>
          c.key in s.store && s.store[c.key] == Lock(c.token, c.start + c.ttl))
    && Witnessed(s)
    && (forall i, j :: 0 <= i < j < |s.sections| && s.sections[i].key == s.sections[j].key ==>
          Before(s.sections[i], s.sections[j]))
  }

  /** `d` took the key only after `c` freed it or `c`'s time to live ran out. */
  predicate Before(c: Section, d: Section) {
    (c.ending.Freed? && c.ending.at <= d.start) || c.start + c.ttl <= d.start
  }

  lemma StepKeepsInv(s: State, step: Step)
    requires Inv(s) && Enabled(s, step)
    ensures Inv(Do(s, step))
  {
    match step
    case Wait(_) =>
    case TryAcquire(key, token, ttl) => AcquireKeepsInv(s, key, token, ttl);
    case Finish(i) => FinishKeepsInv(s, i);
    case FinishUnreleased(i) => LostKeepsInv(s, i);
  }

  lemma AcquireKeepsInv(s: State, key: string, token: string, ttl: nat)
    requires Inv(s) && Enabled(s, TryAcquire(key, token, ttl))
    ensures Inv(Do(s, TryAcquire(key, token, ttl)))
  {
    var s' := Do(s, TryAcquire(key, token, ttl));
    if !Held(s.store, key, s.now) {
      var d := Section(key, token, ttl, s.now, Open);
      assert s'.sections[|s.sections|] == d;
      forall c | c in s'.sections && Pending(c, s'.now)
        ensures c.key in s'.store && s'.store[c.key] == Lock(c.token, c.start + c.ttl)
      {
        assert c != d ==> c in s.sections;
      }
      forall k | k in s'.store
        ensures exists c :: c in s'.sections && c.key == k && s'.store[k] == Lock(c.token, c.start + c.ttl)
      {
        if k == key {
          assert d in s'.sections;
        } else {
          var c :| c in s.sections && c.key == k && s.store[k] == Lock(c.token, c.start + c.ttl);
          assert c in s'.sections;
        }
      }
      forall i, j | 0 <= i < j < |s'.sections| && s'.sections[i].key == s'.sections[j].key
        ensures Before(s'.sections[i], s'.sections[j])
      {
        assert s'.sections[i] == s.sections[i] && s.sections[i] in s.sections;
        if j < |s.sections| { assert s'.sections[j] == s.sections[j]; }
      }
    }
  }

  lemma SectionsAt(s: State, i: nat, e: Ending, c: Section)
    requires i < |s.sections|
    requires c in s.sections[i := s.sections[i].(ending := e)]
    ensures c == s.sections[i].(ending := e) ||
            exists j :: 0 <= j < |s.sections| && j != i && s.sections[j] == c
  {
    var sections := s.sections[i := s.sections[i].(ending := e)];
    var j :| 0 <= j < |sections| && sections[j] == c;
    if j != i { assert s.sections[j] == c; }
  }

  lemma FinishKeepsInv(s: State, i: nat)
    requires Inv(s) && Enabled(s, Finish(i))
    ensures Inv(Do(s, Finish(i)))
  {
    var s', d := Do(s, Finish(i)), s.sections[i];
    forall c | c in s'.sections
      ensures c.start <= s'.now && (!c.ending.Open? ==> c.ending.at <= s'.now)
      ensures Pending(c, s'.now) ==> c.key in s'.store && s'.store[c.key] == Lock(c.token, c.start + c.ttl)
    {
      SectionsAt(s, i, Freed(s.now), c);
      assert d in s.sections;
      if c != d.(ending := Freed(s.now)) {
        var j :| 0 <= j < |s.sections| && j != i && s.sections[j] == c;
        assert c.token != d.token;
      }
    }
    EndingKeepsWitnesses(s, s', i, Freed(s.now));
    forall a, b | 0 <= a < b < |s'.sections| && s'.sections[a].key == s'.sections[b].key
      ensures Before(s'.sections[a], s'.sections[b])
    {
      assert Before(s.sections[a], s.sections[b]);
    }
  }

  lemma EndingKeepsWitnesses(s: State, s': State, i: nat, e: Ending)
    requires Witnessed(s) && i < |s.sections|
    requires s'.sections == s.sections[i := s.sections[i].(ending := e)]
    requires forall k :: k in s'.store ==> k in s.store && s'.store[k] == s.store[k]
    ensures Witnessed(s')
  {
    forall k | k in s'.store
      ensures exists c :: c in s'.sections && c.key == k && s'.store[k] == Lock(c.token, c.start + c.ttl)
    {
      var c :| c in s.sections && c.key == k && s.store[k] == Lock(c.token, c.start + c.ttl);
      var j :| 0 <= j < |s.sections| && s.sections[j] == c;
      assert s'.sections[j] in s'.sections;
    }
  }

  lemma LostKeepsInv(s: State, i: nat)
    requires Inv(s) && Enabled(s, FinishUnreleased(i))
    ensures Inv(Do(s, FinishUnreleased(i)))
  {
    var s', d := Do(s, FinishUnreleased(i)), s.sections[i];
    forall c | c in s'.sections
      ensures c.start <= s'.now && (!c.ending.Open? ==> c.ending.at <= s'.now)
      ensures Pending(c, s'.now) ==> c.key in s'.store && s'.store[c.key] == Lock(c.token, c.start + c.ttl)
    {
      SectionsAt(s, i, Lost(s.now), c);
      assert d in s.sections;
    }
    EndingKeepsWitnesses(s, s', i, Lost(s.now));
    forall a, b | 0 <= a < b < |s'.sections| && s'.sections[a].key == s'.sections[b].key
      ensures Before(s'.sections[a], s'.sections[b])
    {
      assert Before(s.sections[a], s.sections[b]);
    }
  }

  lemma {:induction false} RunKeepsInv(from: State, steps: seq<Step>, to: State)
    requires Inv(from) && Reaches(from, steps, to)
    ensures Inv(to)
    decreases |steps|
  {
    if steps != [] {
      StepKeepsInv(from, steps[0]);
      RunKeepsInv(Do(from, steps[0]), steps[1..], to);
    }
  }

  /** A holder whose time to live has not run out and who has not finished. */
  predicate LiveHolder(s: State, i: nat) {
    i < |s.sections| && s.sections[i].ending.Open? && s.now < s.sections[i].start + s.sections[i].ttl
  }

  /** Mutual exclusion: two live holders of one key are the same holder, and the key is held for it. */
  lemma {:induction false} OneLiveHolder(steps: seq<Step>, s: State, i: nat, j: nat)
    requires Reaches(INITIAL, steps, s)
    requires LiveHolder(s, i) && LiveHolder(s, j) && s.sections[i].key == s.sections[j].key
    ensures i == j
    ensures Held(s.store, s.sections[i].key, s.now) && s.store[s.sections[i].key].token == s.sections[i].token
  {
    RunKeepsInv(INITIAL, steps, s);
    assert s.sections[i] in s.sections && s.sections[j] in s.sections;
  }

  /** Finishing a section never removes the lock of a different live holder, however late it comes. */
  lemma {:induction false} ReleaseSparesOthers(steps: seq<Step>, s: State, i: nat, j: nat)
    requires Reaches(INITIAL, steps, s) && Enabled(s, Finish(i)) && i != j && LiveHolder(s, j)
    ensures Held(Do(s, Finish(i)).store, s.sections[j].key, s.now)
    ensures Do(s, Finish(i)).store[s.sections[j].key] == s.store[s.sections[j].key]
  {
    RunKeepsInv(INITIAL, steps, s);
    assert s.sections[j] in s.sections;
    assert s.sections[i].token != s.sections[j].token;
  }

  /** A section that finished within its time to live does not overlap any later one on the key. */
  lemma {:induction false} TimelySectionsNeverOverlap(steps: seq<Step>, s: State, i: nat, j: nat)
    requires Reaches(INITIAL, steps, s)
    requires i < j < |s.sections| && s.sections[i].key == s.sections[j].key
    requires !s.sections[i].ending.Open? && s.sections[i].ending.at <= s.sections[i].start + s.sections[i].ttl
    ensures s.sections[i].ending.at <= s.sections[j].start
  {
    RunKeepsInv(INITIAL, steps, s);
    assert Before(s.sections[i], s.sections[j]);
  }

  /** A crashed or slow holder blocks the key for at most its time to live. */
  lemma {:induction false} FreeAfterTtl(steps: seq<Step>, s: State, key: string)
    requires Reaches(INITIAL, steps, s)
    requires forall c :: c in s.sections && c.key == key ==> c.start + c.ttl <= s.now
    ensures !Held(s.store, key, s.now)
  {
    RunKeepsInv(INITIAL, steps, s);
  }

  lemma FirstStep(from: State, steps: seq<Step>, to: State)
    requires steps != [] && Enabled(from, steps[0]) && Reaches(Do(from, steps[0]), steps[1..], to)
    ensures Reaches(from, steps, to)
  {
  }

  /** The time-to-live condition is needed: a section that overruns overlaps the next holder's. */
  lemma {:induction false} OverrunOverlaps(key: string, ttl: nat)
    ensures exists steps, s :: Reaches(INITIAL, steps, s) && |s.sections| == 2 &&
              s.sections[0] == Section(key, "a", ttl, 0, Freed(ttl + 1)) &&
              s.sections[1] == Section(key, "b", ttl + 2, ttl, Open)
  {
    hide Reaches;
    var steps := [TryAcquire(key, "a", ttl), Wait(ttl), TryAcquire(key, "b", ttl + 2), Wait(1), Finish(0)];
    var s1 := Do(INITIAL, steps[0]);
    var s2 := Do(s1, steps[1]);
    var s3 := Do(s2, steps[2]);
    var s4 := Do(s3, steps[3]);
    var s5 := Do(s4, steps[4]);
    assert s5.sections == [Section(key, "a", ttl, 0, Freed(ttl + 1)), Section(key, "b", ttl + 2, ttl, Open)];
    FirstStep(s4, steps[4..], s5);
    FirstStep(s3, steps[3..], s5);
    FirstStep(s2, steps[2..], s5);
    FirstStep(s1, steps[1..], s5);
    FirstStep(INITIAL, steps, s5);
  }
}

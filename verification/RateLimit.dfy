/**
 * redis-rate-limit-storage.ts: the fixed-window counter behind sign-in and sign-up. The clock counts
 * whole seconds, each key has one fixed rule, and Redis answers every call.
 */
module RateLimit {
  import opened Outcomes

  type Seconds = w: int | 1 <= w witness 1

  datatype Rule = Rule(window: Seconds, max: int)

  type Rules = string -> Rule

  /** A Redis integer key. Without `expires` it would live for ever. */
  datatype Counter = Counter(count: nat, expires: Option<int>)

  type Store = map<string, Counter>

  predicate Live(store: Store, key: string, now: int) {
    key in store && (store[key].expires.Some? ==> now < store[key].expires.value)
  }

  function LiveCount(store: Store, key: string, now: int): nat {
    if Live(store, key, now) then store[key].count else 0
  }

  datatype Verdict = Verdict(allowed: bool, retryAfter: Option<int>)

  /** The counter after a call: one more in the running lifetime, or a new lifetime of one window. */
  function Counted(store: Store, key: string, rule: Rule, now: int): Counter {
    if Live(store, key, now) && store[key].count > 0 then store[key].(count := store[key].count + 1)
    else Counter(1, Some(now + rule.window))
  }

  function Judged(c: Counter, rule: Rule, now: int): Verdict {
    if c.count <= rule.max then Verdict(true, None)
    else if c.expires.Some? && c.expires.value > now then Verdict(false, Some(c.expires.value - now))
    else Verdict(false, Some(rule.window))
  }

  class RedisRateLimitStorage {
    var store: Store

    constructor ()
      ensures store == map[]
    {
      store := map[];
    }

    method Incr(key: string, now: int) returns (count: nat)
      modifies this
      ensures count == LiveCount(old(store), key, now) + 1
      ensures store == old(store)[key := 
                Counter(count, if Live(old(store), key, now) then old(store)[key].expires else None)]
    {
      var expires := if Live(store, key, now) then store[key].expires else None;
      count := LiveCount(store, key, now) + 1;
      store := store[key := Counter(count, expires)];
    }

    method Expire(key: string, seconds: Seconds, now: int)
      requires key in store
      modifies this
      ensures store == old(store)[key := old(store)[key].(expires := Some(now + seconds))]
    {
      store := store[key := store[key].(expires := Some(now + seconds))];
    }

    /** TTL: seconds left, -1 for a key that never expires, -2 for no key. */
    method Ttl(key: string, now: int) returns (ttl: int)
      ensures Live(store, key, now) && store[key].expires.Some? ==> ttl == store[key].expires.value - now
      ensures Live(store, key, now) && store[key].expires.None? ==> ttl == -1
      ensures !Live(store, key, now) ==> ttl == -2
    {
      if !Live(store, key, now) {
        ttl := -2;
      } else if store[key].expires.None? {
        ttl := -1;
      } else {
        ttl := store[key].expires.value - now;
      }
    }

    /** consume, the script being one atomic step. */
    method Consume(key: string, rule: Rule, now: int) returns (verdict: Verdict)
      modifies this
      ensures store == old(store)[key := Counted(old(store), key, rule, now)]
      ensures verdict == Judged(store[key], rule, now)
    {
      var count := Incr(key, now);
      if count == 1 {
        Expire(key, rule.window, now);
      }
      var ttl := Ttl(key, now);
      if count <= rule.max {
        return Verdict(true, None);
      }
      return Verdict(false, Some(if ttl > 0 then ttl else rule.window));
    }
  }

  // ----- runs -----

  /** An answered call, with the counter it left: `count` calls so far in the lifetime ending at `expires`. */
  datatype Call = Call(key: string, at: int, count: nat, expires: int, verdict: Verdict)

  datatype State = State(now: int, store: Store, log: seq<Call>)

  datatype Step = Wait(seconds: nat) | Consume(key: string)

  function Apply(s: State, step: Step, rules: Rules): State {
    match step
    case Wait(seconds) => s.(now := s.now + seconds)
    case Consume(key) =>
      var c := Counted(s.store, key, rules(key), s.now);
      var call := Call(key, s.now, c.count, if c.expires.Some? then c.expires.value else s.now,
                       Judged(c, rules(key), s.now));
      s.(store := s.store[key := c], log := s.log + [call])
  }

  function Run(s: State, steps: seq<Step>, rules: Rules): State
    decreases |steps|
  {
    if steps == [] then s else Apply(Run(s, steps[..|steps| - 1], rules), steps[|steps| - 1], rules)
  }

  const START := State(0, map[], [])

  /** Calls counted in the lifetime of `key`'s counter that ends at `expires`. */
  function CallsIn(log: seq<Call>, key: string, expires: int): nat
    decreases |log|
  {
    if log == [] then 0
    else
      var c := log[|log| - 1];
      CallsIn(log[..|log| - 1], key, expires) + if c.key == key && c.expires == expires then 1 else 0
  }

  // ----- the invariant -----

  ghost predicate CounterOk(s: State, key: string, rules: Rules) {
    key in s.store ==>
      && s.store[key].expires.Some? && s.store[key].expires.value <= s.now + rules(key).window
      && s.store[key].count == CallsIn(s.log, key, s.store[key].expires.value) > 0
  }

  /** The call's time lies in the lifetime it was counted in, and opened it if it was the first. */
  predicate CallOk(c: Call, rule: Rule) {
    && c.expires - rule.window <= c.at < c.expires
    && (c.count == 1 ==> c.at == c.expires - rule.window)
    && c.verdict == Judged(Counter(c.count, Some(c.expires)), rule, c.at)
  }

  /** No lifetime is later than the stored one; another one ended before the stored one began. */
  ghost predicate Earlier(s: State, c: Call, rules: Rules) {
    && c.key in s.store && s.store[c.key].expires.Some?
    && c.at <= s.now
    && var e := s.store[c.key].expires.value;
       c.expires == e || c.expires <= e - rules(c.key).window
  }

  predicate Apart(c: Call, d: Call, window: int) {
    c.expires == d.expires || c.expires <= d.expires - window || d.expires <= c.expires - window
  }

  ghost predicate CountersOk(s: State, rules: Rules) { forall key :: key in s.store ==> CounterOk(s, key, rules) }

  ghost predicate CallsOk(s: State, rules: Rules) {
    forall i :: 0 <= i < |s.log| ==> CallOk(s.log[i], rules(s.log[i].key)) && Earlier(s, s.log[i], rules)
  }

  ghost predicate Numbered(log: seq<Call>) {
    forall i :: 0 <= i < |log| ==> log[i].count == CallsIn(log[..i], log[i].key, log[i].expires) + 1
  }

  ghost predicate LifetimesApart(log: seq<Call>, rules: Rules) {
    forall i, j :: 0 <= i < j < |log| && log[i].key == log[j].key ==> Apart(log[i], log[j], rules(log[i].key).window)
  }

  ghost predicate Inv(s: State, rules: Rules) {
    CountersOk(s, rules) && CallsOk(s, rules) && Numbered(s.log) && LifetimesApart(s.log, rules)
  }

  lemma NoCallsYet(s: State, key: string, rules: Rules, expires: int)
    requires CallsOk(s, rules)
    requires !Live(s.store, key, s.now) && CountersOk(s, rules) && expires > s.now
    ensures CallsIn(s.log, key, expires) == 0
  {
    forall i | 0 <= i < |s.log| && s.log[i].key == key
      ensures s.log[i].expires != expires
    {
      assert Earlier(s, s.log[i], rules);
    }
    Absent(s.log, key, expires);
  }

  lemma {:induction false} Absent(log: seq<Call>, key: string, expires: int)
    requires forall i :: 0 <= i < |log| && log[i].key == key ==> log[i].expires != expires
    ensures CallsIn(log, key, expires) == 0
    decreases |log|
  {
    if log != [] {
      Absent(log[..|log| - 1], key, expires);
    }
  }

  lemma CallsInAppend(log: seq<Call>, c: Call, key: string, expires: int)
    ensures CallsIn(log + [c], key, expires) ==
            CallsIn(log, key, expires) + if c.key == key && c.expires == expires then 1 else 0
  {
    assert (log + [c])[..|log|] == log;
  }

  /** The call is in the stored counter's lifetime, or in one that began when that had ended. */
  predicate Follows(stored: Counter, c: Call, rule: Rule) {
    && stored.expires.Some?
    && (c.expires == stored.expires.value || stored.expires.value <= c.expires - rule.window)
  }

  /** What one call does: it extends the running lifetime, or opens a fresh one. */
  lemma ConsumeLifetime(s: State, key: string, rules: Rules)
    requires Inv(s, rules)
    ensures var t := Apply(s, Consume(key), rules); var c := t.log[|s.log|];
            && t.log == s.log + [c] && c.key == key && c.at == s.now == t.now
            && t.store == s.store[key := Counter(c.count, Some(c.expires))]
            && c.count == CallsIn(s.log, key, c.expires) + 1 && CallOk(c, rules(key))
            && (key in s.store ==> Follows(s.store[key], c, rules(key)))
  {
    if Live(s.store, key, s.now) {
      assert CounterOk(s, key, rules);
      var e := s.store[key].expires.value;
      if s.store[key].count == 0 { assert false; }
    } else {
      if key in s.store { assert CounterOk(s, key, rules); }
      NoCallsYet(s, key, rules, s.now + rules(key).window);
    }
  }

  lemma ConsumeKeepsCounters(s: State, key: string, rules: Rules)
    requires Inv(s, rules)
    ensures CountersOk(Apply(s, Consume(key), rules), rules)
  {
    ConsumeLifetime(s, key, rules);
    var t := Apply(s, Consume(key), rules);
    var c := t.log[|s.log|];
    forall k | k in t.store
      ensures CounterOk(t, k, rules)
    {
      var e := if k == key then c.expires else if s.store[k].expires.Some? then s.store[k].expires.value else 0;
      CallsInAppend(s.log, c, k, e);
      if k != key { assert CounterOk(s, k, rules); }
    }
  }

  lemma ConsumeKeepsCalls(s: State, key: string, rules: Rules)
    requires Inv(s, rules)
    ensures CallsOk(Apply(s, Consume(key), rules), rules)
  {
    hide Counted, CallOk, Judged;
    ConsumeLifetime(s, key, rules);
    var t := Apply(s, Consume(key), rules);
    forall i | 0 <= i < |t.log|
      ensures CallOk(t.log[i], rules(t.log[i].key)) && Earlier(t, t.log[i], rules)
    {
      if i < |s.log| {
        assert t.log[i] == s.log[i] && Earlier(s, s.log[i], rules);
      }
    }
  }

  lemma ConsumeKeepsNumbers(s: State, key: string, rules: Rules)
    requires Inv(s, rules)
    ensures Numbered(Apply(s, Consume(key), rules).log)
  {
    hide Counted, CallOk, Judged;
    ConsumeLifetime(s, key, rules);
    var log := Apply(s, Consume(key), rules).log;
    forall i | 0 <= i < |log|
      ensures log[i].count == CallsIn(log[..i], log[i].key, log[i].expires) + 1
    {
      assert i < |s.log| ==> log[..i] == s.log[..i];
      assert log[..|s.log|] == s.log;
    }
  }

  lemma ConsumeKeepsLifetimesApart(s: State, key: string, rules: Rules)
    requires Inv(s, rules)
    ensures LifetimesApart(Apply(s, Consume(key), rules).log, rules)
  {
    hide Counted, CallOk, Judged;
    ConsumeLifetime(s, key, rules);
    var log := Apply(s, Consume(key), rules).log;
    forall i, j | 0 <= i < j < |log| && log[i].key == log[j].key
      ensures Apart(log[i], log[j], rules(log[i].key).window)
    {
      if j == |s.log| {
        assert Earlier(s, s.log[i], rules);
      }
    }
  }

  lemma WaitKeepsInv(s: State, seconds: nat, rules: Rules)
    requires Inv(s, rules)
    ensures Inv(Apply(s, Wait(seconds), rules), rules)
  {
    var t := Apply(s, Wait(seconds), rules);
    forall key | key in t.store
      ensures CounterOk(t, key, rules)
    {
      assert CounterOk(s, key, rules);
    }
    forall i | 0 <= i < |t.log|
      ensures Earlier(t, t.log[i], rules)
    {
      assert Earlier(s, s.log[i], rules);
    }
  }

  lemma {:induction false} RunKeepsInv(s: State, steps: seq<Step>, rules: Rules)
    requires Inv(s, rules)
    ensures Inv(Run(s, steps, rules), rules)
    decreases |steps|
  {
    if steps != [] {
      var front, last := steps[..|steps| - 1], steps[|steps| - 1];
      RunKeepsInv(s, front, rules);
      var t := Run(s, front, rules);
      match last
      case Wait(seconds) => WaitKeepsInv(t, seconds, rules);
      case Consume(key) =>
        ConsumeKeepsCounters(t, key, rules);
        ConsumeKeepsCalls(t, key, rules);
        ConsumeKeepsNumbers(t, key, rules);
        ConsumeKeepsLifetimesApart(t, key, rules);
    }
  }

  lemma StartInv(rules: Rules)
    ensures Inv(START, rules)
  {
  }

  // ----- what a run guarantees -----

  /** A counter that answers calls always has an end, at most one window away. */
  lemma {:induction false} LiveCountersExpire(steps: seq<Step>, rules: Rules, key: string)
    ensures var s := Run(START, steps, rules);
            Live(s.store, key, s.now) ==>
              s.store[key].expires.Some? && s.now < s.store[key].expires.value <= s.now + rules(key).window
  {
    RunKeepsInv(START, steps, rules);
    var s := Run(START, steps, rules);
    if key in s.store { assert CounterOk(s, key, rules); }
  }

  /** Exactly the first `max` calls of each counter lifetime are allowed. */
  lemma {:induction false} FirstMaxAllowed(steps: seq<Step>, rules: Rules, i: nat)
    requires i < |Run(START, steps, rules).log|
    ensures var log := Run(START, steps, rules).log;
            log[i].verdict.allowed <==> CallsIn(log[..i], log[i].key, log[i].expires) < rules(log[i].key).max
  {
    RunKeepsInv(START, steps, rules);
    var s := Run(START, steps, rules);
    assert CallOk(s.log[i], rules(s.log[i].key));
  }

  /** A denial names a delay of 1 to `window` seconds. */
  lemma {:induction false} DenialNamesDelay(steps: seq<Step>, rules: Rules, i: nat)
    requires i < |Run(START, steps, rules).log|
    ensures var c := Run(START, steps, rules).log[i];
            && (c.verdict.allowed <==> c.verdict.retryAfter.None?)
            && (!c.verdict.allowed ==> 1 <= c.verdict.retryAfter.value <= rules(c.key).window)
  {
    RunKeepsInv(START, steps, rules);
    var s := Run(START, steps, rules);
    assert CallOk(s.log[i], rules(s.log[i].key));
  }

  lemma {:induction false} OthersLeaveCounter(s: State, steps: seq<Step>, rules: Rules, key: string)
    requires Consume(key) !in steps
    ensures var t := Run(s, steps, rules);
            t.now >= s.now && (key in t.store <==> key in s.store) && (key in s.store ==> t.store[key] == s.store[key])
    decreases |steps|
  {
    if steps != [] {
      OthersLeaveCounter(s, steps[..|steps| - 1], rules, key);
    }
  }

  /** After a denied call, once the delay has passed with no other call on the key, the next call is
      allowed; unless the rule allows none at all. */
  lemma {:induction false} RetryAfterWorks(steps: seq<Step>, rules: Rules, key: string, pause: seq<Step>)
    requires Consume(key) !in pause
    ensures var s := Apply(Run(START, steps, rules), Consume(key), rules); var verdict := s.log[|s.log| - 1].verdict;
            var t := Run(s, pause, rules); var u := Apply(t, Consume(key), rules);
            !verdict.allowed && verdict.retryAfter.Some? && t.now >= s.now + verdict.retryAfter.value ==>
              (u.log[|u.log| - 1].verdict.allowed <==> rules(key).max >= 1)
  {
    var r := Run(START, steps, rules);
    RunKeepsInv(START, steps, rules);
    ConsumeLifetime(r, key, rules);
    var s := Apply(r, Consume(key), rules);
    OthersLeaveCounter(s, pause, rules, key);
  }

  // ----- the bound over any window -----

  function AllowedIn(log: seq<Call>, key: string, expires: int): nat
    decreases |log|
  {
    if log == [] then 0
    else
      var c := log[|log| - 1];
      AllowedIn(log[..|log| - 1], key, expires)
      + if c.key == key && c.expires == expires && c.verdict.allowed then 1 else 0
  }

  /** Allowed calls on `key` at times from `from` on and before `to`. */
  function AllowedBetween(log: seq<Call>, key: string, from: int, to: int): nat
    decreases |log|
  {
    if log == [] then 0
    else
      var c := log[|log| - 1];
      AllowedBetween(log[..|log| - 1], key, from, to)
      + if c.key == key && from <= c.at < to && c.verdict.allowed then 1 else 0
  }

  /** The part of AllowedBetween that falls in one lifetime. */
  function AllowedBoth(log: seq<Call>, key: string, from: int, to: int, expires: int): nat
    decreases |log|
  {
    if log == [] then 0
    else
      var c := log[|log| - 1];
      AllowedBoth(log[..|log| - 1], key, from, to, expires)
      + if c.key == key && from <= c.at < to && c.expires == expires && c.verdict.allowed then 1 else 0
  }

  ghost predicate WellKept(log: seq<Call>, key: string, rule: Rule) {
    && Numbered(log)
    && forall i :: 0 <= i < |log| && log[i].key == key ==> CallOk(log[i], rule)
  }

  lemma WellKeptPrefix(log: seq<Call>, key: string, rule: Rule)
    requires WellKept(log, key, rule) && log != []
    ensures WellKept(log[..|log| - 1], key, rule)
  {
    var front := log[..|log| - 1];
    forall i | 0 <= i < |front|
      ensures front[i].count == CallsIn(front[..i], front[i].key, front[i].expires) + 1
    {
      assert front[..i] == log[..i] && front[i] == log[i];
    }
  }

  function Min(a: int, b: int): int { if a < b then a else b }

  lemma {:induction false} AllowedInLifetime(log: seq<Call>, key: string, rule: Rule, expires: int)
    requires WellKept(log, key, rule) && rule.max >= 0
    ensures AllowedIn(log, key, expires) == Min(CallsIn(log, key, expires), rule.max)
    decreases |log|
  {
    if log != [] {
      WellKeptPrefix(log, key, rule);
      AllowedInLifetime(log[..|log| - 1], key, rule, expires);
      var c := log[|log| - 1];
      assert c.key == key ==> CallOk(c, rule);
    }
  }

  lemma {:induction false} BothAtMostIn(log: seq<Call>, key: string, from: int, to: int, expires: int)
    ensures AllowedBoth(log, key, from, to, expires) <= AllowedIn(log, key, expires)
    decreases |log|
  {
    if log != [] {
      BothAtMostIn(log[..|log| - 1], key, from, to, expires);
    }
  }

  /** A lifetime that began before `from` has spent a call there. */
  lemma {:induction false} OpeningCallIsOutside(log: seq<Call>, key: string, rule: Rule, from: int, to: int,
                                                expires: int)
    requires WellKept(log, key, rule) && rule.max >= 1 && expires - rule.window < from
    ensures AllowedIn(log, key, expires) == 0 ==> AllowedBoth(log, key, from, to, expires) == 0
    ensures AllowedIn(log, key, expires) > 0 ==>
              AllowedBoth(log, key, from, to, expires) + 1 <= AllowedIn(log, key, expires)
    decreases |log|
  {
    if log != [] {
      var front, c := log[..|log| - 1], log[|log| - 1];
      WellKeptPrefix(log, key, rule);
      OpeningCallIsOutside(front, key, rule, from, to, expires);
      AllowedInLifetime(front, key, rule, expires);
      if c.key == key && c.expires == expires {
        assert CallOk(c, rule) && c.count == CallsIn(front, key, expires) + 1;
      }
    }
  }

  ghost predicate TwoLifetimes(log: seq<Call>, key: string, from: int, to: int, first: int, second: int) {
    forall i :: 0 <= i < |log| && log[i].key == key && from <= log[i].at < to ==>
        log[i].expires == first || log[i].expires == second
  }

  lemma {:induction false} SplitByLifetime(log: seq<Call>, key: string, from: int, to: int, first: int, second: int)
    requires TwoLifetimes(log, key, from, to, first, second)
    ensures AllowedBetween(log, key, from, to) <=
            AllowedBoth(log, key, from, to, first)
            + if first == second then 0 else AllowedBoth(log, key, from, to, second)
    decreases |log|
  {
    if log != [] {
      var front := log[..|log| - 1];
      assert TwoLifetimes(front, key, from, to, first, second) by {
        forall i | 0 <= i < |front| && front[i].key == key && from <= front[i].at < to
          ensures front[i].expires == first || front[i].expires == second
        {
          assert front[i] == log[i];
        }
      }
      SplitByLifetime(front, key, from, to, first, second);
    }
  }

  predicate Within(c: Call, key: string, from: int, to: int) { c.key == key && from <= c.at < to }

  /** A stretch one window long meets at most two lifetimes; if it meets two, the first began before it. */
  lemma FindLifetimes(log: seq<Call>, key: string, rules: Rules, from: int) returns (first: int, second: int)
    requires WellKept(log, key, rules(key)) && LifetimesApart(log, rules)
    ensures TwoLifetimes(log, key, from, from + rules(key).window, first, second)
    ensures first == second || first - rules(key).window < from
  {
    var w := rules(key).window;
    var to := from + w;
    if i, j :| 0 <= i < |log| && 0 <= j < |log| && Within(log[i], key, from, to) && Within(log[j], key, from, to)
               && log[i].expires < log[j].expires {
      first, second := log[i].expires, log[j].expires;
      assert CallOk(log[i], rules(key)) && CallOk(log[j], rules(key));
      assert Apart(log[i], log[j], w) by { if i < j {} else { assert Apart(log[j], log[i], w); } }
      forall k | 0 <= k < |log| && log[k].key == key && from <= log[k].at < to
        ensures log[k].expires == first || log[k].expires == second
      {
        assert CallOk(log[k], rules(key));
        if k != i { assert Apart(log[if k < i then k else i], log[if k < i then i else k], w); }
        if k != j { assert Apart(log[if k < j then k else j], log[if k < j then j else k], w); }
      }
    } else if i :| 0 <= i < |log| && Within(log[i], key, from, to) {
      first, second := log[i].expires, log[i].expires;
      forall k | 0 <= k < |log| && log[k].key == key && from <= log[k].at < to
        ensures log[k].expires == first
      {
        assert Within(log[k], key, from, to);
      }
    } else {
      first, second := 0, 0;
      assert forall k :: 0 <= k < |log| ==> !Within(log[k], key, from, to);
    }
  }

  lemma LifetimeBound(log: seq<Call>, key: string, rule: Rule, from: int, to: int, expires: int)
    requires WellKept(log, key, rule) && rule.max >= 1
    ensures AllowedBoth(log, key, from, to, expires) <= rule.max
    ensures expires - rule.window < from ==> AllowedBoth(log, key, from, to, expires) <= rule.max - 1
  {
    hide AllowedIn, AllowedBoth, CallsIn, WellKept;
    AllowedInLifetime(log, key, rule, expires);
    BothAtMostIn(log, key, from, to, expires);
    if expires - rule.window < from {
      OpeningCallIsOutside(log, key, rule, from, to, expires);
    }
  }

  lemma RunIsWellKept(steps: seq<Step>, rules: Rules, key: string)
    ensures var log := Run(START, steps, rules).log;
            WellKept(log, key, rules(key)) && LifetimesApart(log, rules)
  {
    RunKeepsInv(START, steps, rules);
  }

  /** In any stretch of time as long as the window, at most 2 * max - 1 calls on a key are allowed. */
  lemma {:induction false} WindowBound(steps: seq<Step>, rules: Rules, key: string, from: int)
    requires rules(key).max >= 1
    ensures AllowedBetween(Run(START, steps, rules).log, key, from, from + rules(key).window) <= 2 * rules(key).max - 1
  {
    hide Run, AllowedBetween, AllowedBoth, WellKept, LifetimesApart, TwoLifetimes;
    RunIsWellKept(steps, rules, key);
    var log, to := Run(START, steps, rules).log, from + rules(key).window;
    var first, second := FindLifetimes(log, key, rules, from);
    SplitByLifetime(log, key, from, to, first, second);
    LifetimeBound(log, key, rules(key), from, to, first);
    LifetimeBound(log, key, rules(key), from, to, second);
  }

  /** With a window of one second no two lifetimes meet one stretch. */
  lemma {:induction false} OneSecondBound(steps: seq<Step>, rules: Rules, key: string, from: int)
    requires rules(key).max >= 1 && rules(key).window == 1
    ensures AllowedBetween(Run(START, steps, rules).log, key, from, from + 1) <= rules(key).max
  {
    hide Run, AllowedBetween, AllowedBoth, LifetimesApart, CallsIn, Numbered;
    RunIsWellKept(steps, rules, key);
    var log := Run(START, steps, rules).log;
    forall i | 0 <= i < |log| && log[i].key == key && from <= log[i].at < from + 1
      ensures log[i].expires == from + 1
    {
      assert CallOk(log[i], rules(key));
    }
    SplitByLifetime(log, key, from, from + 1, from + 1, from + 1);
    LifetimeBound(log, key, rules(key), from, from + 1, from + 1);
  }

  // ----- the bound is reached -----

  function Calls(key: string, n: nat): seq<Step> { seq(n, i => Consume(key)) }

  predicate Has(s: State, key: string, count: int, expires: int) {
    key in s.store && s.store[key].expires == Some(expires) && s.store[key].count == count
  }

  lemma OneMore(s: State, key: string, rules: Rules, from: int, to: int)
    requires key in s.store && s.store[key].expires.Some? && s.now < s.store[key].expires.value
    requires 0 < s.store[key].count < rules(key).max && from <= s.now < to
    ensures var t := Apply(s, Consume(key), rules);
            && t.now == s.now && Has(t, key, s.store[key].count + 1, s.store[key].expires.value)
            && AllowedBetween(t.log, key, from, to) == AllowedBetween(s.log, key, from, to) + 1
  {
    var t := Apply(s, Consume(key), rules);
    assert t.log[..|s.log|] == s.log;
  }

  /** `n` calls in one second on a running counter with room for them. */
  lemma {:induction false} Burst(s: State, key: string, n: nat, rules: Rules, from: int, to: int)
    requires key in s.store && s.store[key].expires.Some? && s.now < s.store[key].expires.value
              && s.store[key].count > 0
    requires s.store[key].count + n <= rules(key).max && from <= s.now < to
    ensures var t := Run(s, Calls(key, n), rules);
            && t.now == s.now && Has(t, key, s.store[key].count + n, s.store[key].expires.value)
            && AllowedBetween(t.log, key, from, to) == AllowedBetween(s.log, key, from, to) + n
  {
    hide Apply, AllowedBetween;
    if n > 0 {
      Burst(s, key, n - 1, rules, from, to);
      var steps := Calls(key, n);
      assert steps[..n - 1] == Calls(key, n - 1);
      OneMore(Run(s, Calls(key, n - 1), rules), key, rules, from, to);
    }
  }

  lemma {:induction false} RunAppend(s: State, a: seq<Step>, b: seq<Step>, rules: Rules)
    ensures Run(s, a + b, rules) == Run(Run(s, a, rules), b, rules)
    decreases |b|
  {
    if b == [] {
      assert a + b == a;
    } else {
      RunAppend(s, a, b[..|b| - 1], rules);
      assert (a + b)[..|a + b| - 1] == a + b[..|b| - 1];
    }
  }

  lemma Opening(s: State, key: string, rules: Rules, from: int, to: int)
    requires !Live(s.store, key, s.now) && rules(key).max >= 1
    ensures var t := Run(s, [Consume(key)], rules);
            && t.now == s.now && Has(t, key, 1, s.now + rules(key).window)
            && AllowedBetween(t.log, key, from, to) == AllowedBetween(s.log, key, from, to)
                + if from <= s.now < to then 1 else 0
  {
    assert [Consume(key)][..0] == [];
    assert Run(s, [], rules) == s;
    var t := Apply(s, Consume(key), rules);
    assert t.log[..|s.log|] == s.log;
  }

  lemma Pausing(s: State, seconds: nat, rules: Rules)
    ensures Run(s, [Wait(seconds)], rules) == s.(now := s.now + seconds)
  {
    assert [Wait(seconds)][..0] == [];
    assert Run(s, [], rules) == s;
  }

  function WaitThenCall(seconds: nat, key: string, n: nat): seq<Step> { [Wait(seconds)] + Calls(key, n) }

  /** A pause after which a counter with room is still running, then `n` calls. */
  lemma WaitThenBurst(s: State, key: string, seconds: nat, n: nat, rules: Rules, from: int, to: int)
    requires key in s.store && s.store[key].expires.Some? && s.now + seconds < s.store[key].expires.value
              && s.store[key].count > 0
    requires s.store[key].count + n <= rules(key).max && from <= s.now + seconds < to
    ensures var t := Run(s, WaitThenCall(seconds, key, n), rules);
            && t.now == s.now + seconds && Has(t, key, s.store[key].count + n, s.store[key].expires.value)
            && AllowedBetween(t.log, key, from, to) == AllowedBetween(s.log, key, from, to) + n
  {
    hide Run, Apply, AllowedBetween, Calls;
    Pausing(s, seconds, rules);
    RunAppend(s, [Wait(seconds)], Calls(key, n), rules);
    Burst(s.(now := s.now + seconds), key, n, rules, from, to);
  }

  function WaitThenOpening(seconds: nat, key: string): seq<Step> { [Wait(seconds)] + [Consume(key)] }

  /** A pause after which no counter is running, then one call. */
  lemma WaitThenOpen(s: State, key: string, seconds: nat, rules: Rules, from: int, to: int)
    requires !Live(s.store, key, s.now + seconds) && rules(key).max >= 1
    ensures var t := Run(s, WaitThenOpening(seconds, key), rules);
            && t.now == s.now + seconds && Has(t, key, 1, t.now + rules(key).window)
            && AllowedBetween(t.log, key, from, to) == AllowedBetween(s.log, key, from, to)
                + if from <= t.now < to then 1 else 0
  {
    hide Run, Apply, AllowedBetween;
    Pausing(s, seconds, rules);
    RunAppend(s, [Wait(seconds)], [Consume(key)], rules);
    Opening(s.(now := s.now + seconds), key, rules, from, to);
  }

  /** One call, the rest of the allowance in the counter's last second, and then a full allowance as soon
      as the counter has expired. */
  function Straddling(key: string, rule: Rule): seq<Step>
    requires rule.window >= 2 && rule.max >= 1
  {
    WaitThenOpening(0, key) + WaitThenCall(rule.window - 1, key, rule.max - 1)
    + (WaitThenOpening(1, key) + WaitThenCall(0, key, rule.max - 1))
  }

  lemma StraddlingInParts(s: State, key: string, rules: Rules)
    requires rules(key).window >= 2 && rules(key).max >= 1
    ensures var rule := rules(key);
            var s1 := Run(s, WaitThenOpening(0, key), rules);
            var s2 := Run(s1, WaitThenCall(rule.window - 1, key, rule.max - 1), rules);
            var s3 := Run(s2, WaitThenOpening(1, key), rules);
            Run(s, Straddling(key, rule), rules) == Run(s3, WaitThenCall(0, key, rule.max - 1), rules)
  {
    hide Run, WaitThenOpening, WaitThenCall;
    var rule := rules(key);
    var a, b := WaitThenOpening(0, key), WaitThenCall(rule.window - 1, key, rule.max - 1);
    var c, d := WaitThenOpening(1, key), WaitThenCall(0, key, rule.max - 1);
    RunAppend(s, a, b, rules);
    RunAppend(Run(s, a + b, rules), c, d, rules);
    RunAppend(s, a + b, c + d, rules);
  }

  lemma NoneAtStart(key: string, from: int, to: int)
    ensures AllowedBetween(START.log, key, from, to) == 0
  {
  }

  lemma {:induction false} WindowBoundIsReached(rules: Rules, key: string)
    requires rules(key).window >= 2 && rules(key).max >= 1
    ensures var from, rule := rules(key).window - 1, rules(key);
            AllowedBetween(Run(START, Straddling(key, rule), rules).log, key, from, from + rule.window) ==
                2 * rule.max - 1
  {
    hide Run, AllowedBetween, WaitThenOpening, WaitThenCall, Straddling;
    var rule := rules(key);
    var from, to := rule.window - 1, rule.window - 1 + rule.window;
    NoneAtStart(key, from, to);
    StraddlingInParts(START, key, rules);
    var s1 := Run(START, WaitThenOpening(0, key), rules);
    WaitThenOpen(START, key, 0, rules, from, to);
    var s2 := Run(s1, WaitThenCall(rule.window - 1, key, rule.max - 1), rules);
    WaitThenBurst(s1, key, rule.window - 1, rule.max - 1, rules, from, to);
    var s3 := Run(s2, WaitThenOpening(1, key), rules);
    WaitThenOpen(s2, key, 1, rules, from, to);
    WaitThenBurst(s3, key, 0, rule.max - 1, rules, from, to);
  }

  /** The allowed calls of a run in the window that starts at `from`. */
  function AllowedInWindow(steps: seq<Step>, rules: Rules, key: string, from: int): nat {
    AllowedBetween(Run(START, steps, rules).log, key, from, from + rules(key).window)
  }

  ghost predicate AtMostMaxPerWindow(rules: Rules, key: string) {
    forall steps, from :: AllowedInWindow(steps, rules, key, from) <= rules(key).max
  }

  /** `max` calls per window is what the limiter enforces exactly when one call or one second is all there
      is to a window. */
  lemma {:induction false} MaxPerWindowIff(rules: Rules, key: string)
    requires rules(key).max >= 1
    ensures AtMostMaxPerWindow(rules, key) <==> rules(key).max == 1 || rules(key).window == 1
  {
    hide Run, AllowedBetween, Straddling;
    if rules(key).max == 1 || rules(key).window == 1 {
      forall steps, from ensures AllowedInWindow(steps, rules, key, from) <= rules(key).max {
        if rules(key).window == 1 {
          OneSecondBound(steps, rules, key, from);
        } else {
          WindowBound(steps, rules, key, from);
        }
      }
    } else {
      WindowBoundIsReached(rules, key);
      assert AllowedInWindow(Straddling(key, rules(key)), rules, key, rules(key).window - 1) > rules(key).max;
    }
  }
}

/**
 * The routine coach's create_routine tool: its checks, its sort, its sequential writes and the side
 * channel that records a routine only when one was really stored. The planner's tool, which creates
 * a private task for every entry, is at the end.
 */
module CoachRoutine {
  import opened Outcomes
  import opened Database
  import opened Multisets
  import opened Ownership
  import opened RoutineOrdering
  import opened RoutinesService
  import opened ServiceRuns

  datatype Entry = Entry(taskId: Id, minutes: int, order: int)

  const MAX_TASK_DURATION_MINUTES := 120
  const MAX_TOTAL_ROUTINE_DURATION_MINUTES := 240
  const MAX_TASKS_PER_ROUTINE := 20

  /** The bounds of CreateRoutineArgsSchema. */
  predicate ValidArgs(name: string, entries: seq<Entry>) {
    && 2 <= |name| <= 200
    && 1 <= |entries| <= MAX_TASKS_PER_ROUTINE
    && forall e :: e in entries ==> 1 <= e.minutes <= MAX_TASK_DURATION_MINUTES && e.order >= 1
  }

  function Ids(entries: seq<Entry>): seq<Id> { seq(|entries|, i requires 0 <= i < |entries| => entries[i].taskId) }

  function Orders(entries: seq<Entry>): seq<int> { seq(|entries|, i requires 0 <= i < |entries| => entries[i].order) }

  function TotalOf(entries: seq<Entry>): int {
    if entries == [] then 0 else TotalOf(entries[..|entries| - 1]) + entries[|entries| - 1].minutes
  }

  // ----- sorting -----

  function InsertOrder(x: int, sorted: seq<int>): seq<int> {
    if sorted == [] || sorted[|sorted| - 1] <= x then sorted + [x]
    else InsertOrder(x, sorted[..|sorted| - 1]) + [sorted[|sorted| - 1]]
  }

  /** `sort((a, b) => a - b)`, which is stable. */
  function SortOrders(s: seq<int>): seq<int> {
    if s == [] then [] else InsertOrder(s[|s| - 1], SortOrders(s[..|s| - 1]))
  }

  function InsertEntry(e: Entry, sorted: seq<Entry>): seq<Entry> {
    if sorted == [] || sorted[|sorted| - 1].order <= e.order then sorted + [e]
    else InsertEntry(e, sorted[..|sorted| - 1]) + [sorted[|sorted| - 1]]
  }

  /** `sort((a, b) => a.order - b.order)` on a copy. */
  function SortEntries(s: seq<Entry>): seq<Entry> {
    if s == [] then [] else InsertEntry(s[|s| - 1], SortEntries(s[..|s| - 1]))
  }

  ghost predicate Ascending(s: seq<int>) {
    forall i, j :: 0 <= i < j < |s| ==> s[i] <= s[j]
  }

  function OneTo(n: nat): seq<int> { seq(n, i => i + 1) }

  predicate ContiguousFromOne(sorted: seq<int>) {
    forall i :: 0 <= i < |sorted| ==> sorted[i] == i + 1
  }

  lemma {:induction false} InsertOrderCounts(x: int, sorted: seq<int>)
    ensures multiset(InsertOrder(x, sorted)) == multiset(sorted) + multiset{x}
  {
    if !(sorted == [] || sorted[|sorted| - 1] <= x) {
      InsertOrderCounts(x, sorted[..|sorted| - 1]);
      SplitLast(sorted);
    }
  }

  lemma {:induction false} InsertOrderSorts(x: int, sorted: seq<int>)
    requires Ascending(sorted)
    ensures Ascending(InsertOrder(x, sorted))
  {
    if !(sorted == [] || sorted[|sorted| - 1] <= x) {
      var n := |sorted| - 1;
      InsertOrderSorts(x, sorted[..n]);
      InsertOrderCounts(x, sorted[..n]);
      AllBelow(InsertOrder(x, sorted[..n]), sorted[..n], x, sorted[n]);
    }
  }

  lemma AllBelow(front: seq<int>, rest: seq<int>, x: int, top: int)
    requires multiset(front) == multiset(rest) + multiset{x}
    requires x <= top && forall y :: y in rest ==> y <= top
    ensures forall i :: 0 <= i < |front| ==> front[i] <= top
  {
    forall i | 0 <= i < |front| ensures front[i] <= top {
      var y := front[i];
      assert y in multiset(front);
      if y != x { assert y in rest by { assert y in multiset(rest); } }
    }
  }

  lemma {:induction false} SortOrdersSorts(s: seq<int>)
    ensures Ascending(SortOrders(s))
    ensures multiset(SortOrders(s)) == multiset(s)
  {
    if s != [] {
      var n := |s| - 1;
      SortOrdersSorts(s[..n]);
      InsertOrderSorts(s[n], SortOrders(s[..n]));
      InsertOrderCounts(s[n], SortOrders(s[..n]));
      SplitLast(s);
    }
  }

  lemma GreatestIsLast(a: seq<int>, x: int)
    requires Ascending(a) && x in a
    ensures x <= a[|a| - 1]
  {
  }

  lemma {:induction false} AscendingIsUnique(a: seq<int>, b: seq<int>)
    requires Ascending(a) && Ascending(b) && multiset(a) == multiset(b)
    ensures a == b
  {
    SameElements(a, b);
    if a != [] {
      var n := |a| - 1;
      SameLast(a, b);
      AscendingIsUnique(a[..n], b[..n]);
      assert a == a[..n] + [a[n]] && b == b[..n] + [b[n]];
    }
  }

  lemma SameLast(a: seq<int>, b: seq<int>)
    requires Ascending(a) && Ascending(b) && multiset(a) == multiset(b) && |a| == |b| > 0
    ensures a[|a| - 1] == b[|a| - 1]
    ensures multiset(a[..|a| - 1]) == multiset(b[..|a| - 1])
    ensures Ascending(a[..|a| - 1]) && Ascending(b[..|a| - 1])
  {
    SameElements(a, b);
    GreatestIsLast(a, b[|a| - 1]);
    GreatestIsLast(b, a[|a| - 1]);
    SplitLast(a);
    SplitLast(b);
  }

  /** The sorted-orders test says exactly that the orders are a permutation of 1..N. */
  lemma {:induction false} ContiguousIffPermutation(orders: seq<int>)
    ensures ContiguousFromOne(SortOrders(orders)) <==> multiset(orders) == multiset(OneTo(|orders|))
  {
    SortOrdersSorts(orders);
    SameElements(SortOrders(orders), orders);
    if ContiguousFromOne(SortOrders(orders)) {
      assert SortOrders(orders) == OneTo(|orders|);
    }
    if multiset(orders) == multiset(OneTo(|orders|)) {
      AscendingIsUnique(SortOrders(orders), OneTo(|orders|));
    }
  }

  lemma {:induction false} InsertEntryOrders(e: Entry, sorted: seq<Entry>)
    ensures Orders(InsertEntry(e, sorted)) == InsertOrder(e.order, Orders(sorted))
  {
    if sorted == [] || sorted[|sorted| - 1].order <= e.order {
      assert Orders(sorted + [e]) == Orders(sorted) + [e.order];
    } else {
      var n := |sorted| - 1;
      InsertEntryOrders(e, sorted[..n]);
      assert Orders(sorted)[..n] == Orders(sorted[..n]);
      assert Orders(InsertEntry(e, sorted[..n]) + [sorted[n]]) == Orders(InsertEntry(e, sorted[..n]))
          + [sorted[n].order];
    }
  }

  lemma {:induction false} InsertEntryCounts(e: Entry, sorted: seq<Entry>)
    ensures multiset(InsertEntry(e, sorted)) == multiset(sorted) + multiset{e}
  {
    if !(sorted == [] || sorted[|sorted| - 1].order <= e.order) {
      InsertEntryCounts(e, sorted[..|sorted| - 1]);
      SplitLast(sorted);
    }
  }

  lemma {:induction false} InsertEntryTotals(e: Entry, sorted: seq<Entry>)
    ensures TotalOf(InsertEntry(e, sorted)) == TotalOf(sorted) + e.minutes
  {
    if sorted == [] || sorted[|sorted| - 1].order <= e.order {
      assert (sorted + [e])[..|sorted|] == sorted;
    } else {
      var front := InsertEntry(e, sorted[..|sorted| - 1]);
      InsertEntryTotals(e, sorted[..|sorted| - 1]);
      assert (front + [sorted[|sorted| - 1]])[..|front|] == front;
    }
  }

  /** Sorting the entries sorts their orders. */
  lemma {:induction false} SortEntriesOrders(s: seq<Entry>)
    ensures Orders(SortEntries(s)) == SortOrders(Orders(s))
  {
    if s != [] {
      var n := |s| - 1;
      SortEntriesOrders(s[..n]);
      InsertEntryOrders(s[n], SortEntries(s[..n]));
      assert Orders(s)[..n] == Orders(s[..n]);
    }
  }

  /** Sorting the entries neither loses nor duplicates one. */
  lemma {:induction false} SortEntriesCounts(s: seq<Entry>)
    ensures multiset(SortEntries(s)) == multiset(s)
    ensures TotalOf(SortEntries(s)) == TotalOf(s)
  {
    if s != [] {
      var n := |s| - 1;
      SortEntriesCounts(s[..n]);
      InsertEntryCounts(s[n], SortEntries(s[..n]));
      InsertEntryTotals(s[n], SortEntries(s[..n]));
      SplitLast(s);
    }
  }

  lemma {:induction false} SortKeepsDistinctIds(s: seq<Entry>)
    requires Distinct(Ids(s))
    ensures Distinct(Ids(SortEntries(s)))
    ensures multiset(Ids(SortEntries(s))) == multiset(Ids(s))
  {
    SortEntriesCounts(s);
    SameEntriesSameIds(SortEntries(s), s);
    SameElements(Ids(SortEntries(s)), Ids(s));
    DistinctIffSetMultiset(Ids(s));
    DistinctIffSetMultiset(Ids(SortEntries(s)));
    assert (set id | id in Ids(s)) == (set id | id in Ids(SortEntries(s)));
  }

  lemma IdsWithout(s: seq<Entry>)
    ensures |Ids(s)| == |s| && forall i :: 0 <= i < |s| ==> Ids(s)[i] == s[i].taskId
    ensures s != [] ==> Ids(s)[..|s| - 1] == Ids(s[..|s| - 1])
    ensures forall i :: 0 <= i < |s| ==> Ids(s)[..i] + Ids(s)[i + 1..] == Ids(s[..i] + s[i + 1..])
  {
  }

  lemma {:induction false} SameEntriesSameIds(a: seq<Entry>, b: seq<Entry>)
    requires multiset(a) == multiset(b)
    ensures multiset(Ids(a)) == multiset(Ids(b))
  {
    hide Ids;
    SameElements(a, b);
    IdsWithout(a);
    IdsWithout(b);
    if a != [] {
      var n := |a| - 1;
      assert a[n] in a;
      var i :| 0 <= i < |b| && b[i] == a[n];
      SplitLast(a);
      RemoveAt(b, i);
      SameEntriesSameIds(a[..n], b[..i] + b[i + 1..]);
      SplitLast(Ids(a));
      RemoveAt(Ids(b), i);
      AddBack(multiset(Ids(a)), multiset(Ids(b)), a[n].taskId);
    }
  }

  lemma AddBack(a: multiset<Id>, b: multiset<Id>, x: Id)
    requires x in a && x in b && a - multiset{x} == b - multiset{x}
    ensures a == b
  {
    assert a == (a - multiset{x}) + multiset{x};
    assert b == (b - multiset{x}) + multiset{x};
  }

  // ----- what the writes build -----

  /** The rows a new routine gets: entry i at position i + 1. */
  ghost predicate Stored(before: Assignments, after: Assignments, routine: Id, ids: seq<Id>, minutes: seq<nat>, k: nat)
    requires k <= |ids| == |minutes|
  {
    && (forall key :: key in after <==> key in before || (key.0 == routine && key.1 in ids[..k]))
    && (forall key :: key in before ==> after[key] == before[key])
    && (forall i :: 0 <= i < k ==> (routine, ids[i]) in after)
    && (forall i :: 0 <= i < k ==> after[(routine, ids[i])] == Assignment(i + 1, Some(minutes[i])))
  }

  lemma NothingStoredYet(rows: Assignments, routine: Id, ids: seq<Id>, minutes: seq<nat>)
    requires |ids| == |minutes|
    ensures Stored(rows, rows, routine, ids, minutes, 0)
  {
  }

  lemma StoredNext(before: Assignments, after: Assignments, routine: Id, ids: seq<Id>, minutes: seq<nat>, k: nat)
    requires k < |ids| == |minutes| && Distinct(ids) && Stored(before, after, routine, ids, minutes, k)
    requires forall key :: key in before ==> key.0 != routine
    ensures (routine, ids[k]) !in after && !PositionTaken(after, routine, ids[k], k + 1)
    ensures Stored(before, after[(routine, ids[k]) := Assignment(k + 1, Some(minutes[k]))], routine, ids,
                   minutes, k + 1)
  {
    assert ids[..k + 1] == ids[..k] + [ids[k]];
    forall key | key in after && key.0 == routine ensures key.1 != ids[k] && after[key].position != k + 1 {
      assert key.1 in ids[..k];
      var i :| 0 <= i < k && ids[i] == key.1;
      assert key == (routine, ids[i]);
    }
  }

  /** Read back by position, the stored routine is the request, and its derived figures are the request's. */
  lemma {:induction false} StoredReadsBack(before: Assignments, after: Assignments, routine: Id, ids: seq<Id>,
                                           minutes: seq<nat>)
    requires |ids| == |minutes| && Stored(before, after, routine, ids, minutes, |ids|)
    requires forall key :: key in before ==> key.0 != routine
    ensures IsListing(after, routine, ids)
    ensures TotalMinutes(after, routine, ids) == SumOf(minutes)
  {
    assert ids[..|ids|] == ids;
    forall t ensures t in ids <==> (routine, t) in after {
    }
    StoredTotal(after, routine, ids, minutes);
  }

  function SumOf(minutes: seq<nat>): nat {
    if minutes == [] then 0 else SumOf(minutes[..|minutes| - 1]) + minutes[|minutes| - 1]
  }

  lemma {:induction false} StoredTotal(rows: Assignments, routine: Id, ids: seq<Id>, minutes: seq<nat>)
    requires |ids| == |minutes|
    requires forall i :: 0 <= i < |ids| ==>
              (routine, ids[i]) in rows && rows[(routine, ids[i])].duration == Some(minutes[i])
    ensures forall t :: t in ids ==> (routine, t) in rows
    ensures TotalMinutes(rows, routine, ids) == SumOf(minutes)
  {
    if ids != [] {
      var n := |ids| - 1;
      StoredTotal(rows, routine, ids[..n], minutes[..n]);
    }
  }

  function MinutesOf(entries: seq<Entry>): seq<nat>
    requires forall e :: e in entries ==> e.minutes >= 0
  {
    seq(|entries|, i requires 0 <= i < |entries| => assert entries[i] in entries; entries[i].minutes)
  }

  lemma {:induction false} SumIsTotal(entries: seq<Entry>)
    requires forall e :: e in entries ==> e.minutes >= 0
    ensures SumOf(MinutesOf(entries)) == TotalOf(entries)
  {
    if entries != [] {
      var n := |entries| - 1;
      SumIsTotal(entries[..n]);
      assert MinutesOf(entries)[..n] == MinutesOf(entries[..n]);
    }
  }

  // ----- the tool -----

  datatype Created = Created(routineId: Id, title: string, taskCount: nat)

  /** `Thrown` is an error that is not one of the three known kinds: it leaves the tool. */
  datatype CoachResult = Success(created: Created) | Rejected | Thrown(error: ServiceError)

  predicate Acceptable(name: string, entries: seq<Entry>) {
    && ValidArgs(name, entries)
    && |set id | id in Ids(entries)| == |entries|
    && ContiguousFromOne(SortOrders(Orders(entries)))
    && TotalOf(entries) <= MAX_TOTAL_ROUTINE_DURATION_MINUTES
  }

  /** A request is acceptable if and only if it is within the bounds, names no task twice and numbers its tasks
      from 1 on, each number once, in whatever order they come. */
  lemma {:induction false} AcceptableIff(name: string, entries: seq<Entry>)
    ensures Acceptable(name, entries) <==>
            && 2 <= |name| <= 200 && 1 <= |entries| <= 20
            && (forall i :: 0 <= i < |entries| ==> 1 <= entries[i].minutes <= 120)
            && (forall i, j :: 0 <= i < j < |entries| ==> entries[i].taskId != entries[j].taskId)
            && multiset(Orders(entries)) == multiset(seq(|entries|, i => i + 1))
            && TotalOf(entries) <= 240
  {
    hide SortOrders, TotalOf;
    var orders := Orders(entries);
    ContiguousIffPermutation(orders);
    assert OneTo(|entries|) == seq(|entries|, i => i + 1);
    DistinctIffFullSet(Ids(entries));
    DistinctIds(entries);
    if multiset(orders) == multiset(OneTo(|entries|)) {
      SameElements(orders, OneTo(|entries|));
      forall e | e in entries ensures e.order >= 1 {
        var i :| 0 <= i < |entries| && entries[i] == e;
        assert orders[i] in orders;
      }
    }
    assert (forall e :: e in entries ==> 1 <= e.minutes <= 120) <==>
        forall i :: 0 <= i < |entries| ==> 1 <= entries[i].minutes <= 120;
  }

  lemma DistinctIds(entries: seq<Entry>)
    ensures Distinct(Ids(entries)) <==>
            forall i, j :: 0 <= i < j < |entries| ==> entries[i].taskId != entries[j].taskId
  {
    var ids := Ids(entries);
    assert forall i :: 0 <= i < |entries| ==> ids[i] == entries[i].taskId;
    if forall i, j :: 0 <= i < j < |entries| ==> entries[i].taskId != entries[j].taskId {
      forall i, j | 0 <= i < j < |ids| ensures ids[i] != ids[j] {
        assert entries[i].taskId != entries[j].taskId;
      }
    }
    if Distinct(ids) {
      forall i, j | 0 <= i < j < |entries| ensures entries[i].taskId != entries[j].taskId {
        assert ids[i] != ids[j];
      }
    }
  }

  class RoutineCoach {
    const service: RoutinesService
    var createdRoutine: Option<Created>

    constructor (service: RoutinesService)
      ensures this.service == service && createdRoutine == None
    {
      this.service := service;
      createdRoutine := None;
    }

    /** The sequential addTask loop. It stops at the first entry the user may not use (any more), with
        the entries before it stored. */
    method StoreSorted(user: Id, sorted: seq<Entry>, routine: Id) returns (error: Option<ServiceError>, ghost k: nat)
      requires Distinct(Ids(sorted)) && Orders(sorted) == OneTo(|sorted|)
      requires forall e :: e in sorted ==> e.minutes >= 0
      requires OwnsRoutine(service.db, user, routine)
      requires forall key :: key in service.db.assignments ==> key.0 != routine
      modifies service`db
      ensures service.db == old(service.db).(assignments := service.db.assignments)
      ensures k <= |sorted|
      ensures Stored(old(service.db).assignments, service.db.assignments, routine, Ids(sorted), MinutesOf(sorted), k)
      ensures forall i :: 0 <= i < k ==> Usable(old(service.db).tasks, user, sorted[i])
      ensures error == if k == |sorted| then None else Some(NotFound)
      ensures k < |sorted| ==> !Usable(old(service.db).tasks, user, sorted[k])
    {
      hide Stored, Distinct, PositionTaken;
      ghost var before := service.db;
      NothingStoredYet(before.assignments, routine, Ids(sorted), MinutesOf(sorted));
      var i := 0;
      while i < |sorted|
        invariant 0 <= i <= |sorted|
        invariant service.db == before.(assignments := service.db.assignments)
        invariant Stored(before.assignments, service.db.assignments, routine, Ids(sorted), MinutesOf(sorted), i)
        invariant forall j :: 0 <= j < i ==> Usable(before.tasks, user, sorted[j])
      {
        StoredNext(before.assignments, service.db.assignments, routine, Ids(sorted), MinutesOf(sorted), i);
        assert Orders(sorted)[i] == i + 1;
        assert sorted[i] in sorted;
        var added := service.AddTask(user, routine, sorted[i].taskId, Some(sorted[i].order), Some(sorted[i].minutes));
        if added.Err? {
          return Some(added.error), i;
        }
        i := i + 1;
      }
      return None, i;
    }

    /** createRoutine. `newId` is the id the database gives the routine and `library` what findById
        answers for each task, which comes through a cache and may be out of date. */
    method CreateRoutine(user: Id, name: string, entries: seq<Entry>, newId: Id, library: map<Id, Option<Id>>)
      returns (result: CoachResult)
      requires Owned(service.db) && newId !in service.db.routines
      modifies this`createdRoutine, service`db
      ensures result.Success? <==>
                && Acceptable(name, entries) && user in old(service.db).users
                && (forall e :: e in entries ==> Usable(library, user, e))
                && (forall e :: e in entries ==> Usable(old(service.db).tasks, user, e))
      ensures createdRoutine == if result.Success? then Some(result.created) else old(createdRoutine)
      ensures result.Success? ==> result.created == Created(newId, name, |entries|)
      ensures result.Success? ==> HoldsRequest(old(service.db), service.db, user, newId, entries)
      ensures !result.Success? ==>
                service.db == old(service.db) || Partial(old(service.db), service.db, user, newId, entries)
    {
      if !Acceptable(name, entries) { return Rejected; }
      var i := 0;
      while i < |entries|
        invariant 0 <= i <= |entries|
        invariant forall j :: 0 <= j < i ==> Usable(library, user, entries[j])
      {
        if !Usable(library, user, entries[i]) {
          assert entries[i] in entries;
          return Rejected;
        }
        i := i + 1;
      }
      var routine := service.Create(user, newId);
      if routine.Err? { return Thrown(routine.error); }
      AcceptableSorts(name, entries);
      ghost var rows := service.db.assignments;
      assert forall key :: key in rows ==> key.0 != newId;
      var error, k := StoreSorted(user, SortEntries(entries), newId);
      StoredPrefixUsable(service.db.tasks, user, entries, k);
      if error.Some? { return Rejected; }
      StoredReadsBack(rows, service.db.assignments, newId, Ids(SortEntries(entries)), MinutesOf(SortEntries(entries)));
      createdRoutine := Some(Created(newId, name, |SortEntries(entries)|));
      result := Success(Created(newId, name, |SortEntries(entries)|));
    }
  }

  predicate Usable(tasks: map<Id, Option<Id>>, user: Id, e: Entry) {
    e.taskId in tasks && VisibleTo(tasks[e.taskId], user)
  }

  /** The new routine reads back, by position, as the entries sorted by order; its derived count is the
      number of entries and its derived total the requested one. All other rows are as before. */
  ghost predicate HoldsRequest(before: Tables, after: Tables, user: Id, routine: Id, entries: seq<Entry>) {
    var ids := Ids(SortEntries(entries));
    && after == before.(assignments := after.assignments, routines := before.routines[routine := user])
    && IsListing(after.assignments, routine, ids)
    && |ids| == |entries|
    && TotalMinutes(after.assignments, routine, ids) == TotalOf(entries) <= MAX_TOTAL_ROUTINE_DURATION_MINUTES
    && (forall key: (Id, Id) :: key.0 != routine ==> (key in after.assignments <==> key in before.assignments))
    && (forall key :: key in before.assignments ==>
        key in after.assignments && after.assignments[key] == before.assignments[key])
  }

  /** What a call that fails half-way leaves: the routine with a proper prefix of the sorted entries. */
  ghost predicate Partial(before: Tables, after: Tables, user: Id, routine: Id, entries: seq<Entry>) {
    && (forall e :: e in SortEntries(entries) ==> e.minutes >= 0)
    && after == before.(assignments := after.assignments, routines := before.routines[routine := user])
    && exists k :: 0 <= k < |entries| == |SortEntries(entries)| &&
         Stored(before.assignments, after.assignments, routine, Ids(SortEntries(entries)),
             MinutesOf(SortEntries(entries)), k)
  }

  lemma AcceptableSorts(name: string, entries: seq<Entry>)
    requires Acceptable(name, entries)
    ensures var sorted := SortEntries(entries);
            && Distinct(Ids(sorted)) && Orders(sorted) == OneTo(|sorted|) && |sorted| == |entries|
            && (forall e :: e in sorted <==> e in entries)
            && (forall e :: e in sorted ==> e.minutes >= 0)
            && SumOf(MinutesOf(sorted)) == TotalOf(entries)
  {
    hide SortEntries, SortOrders, MinutesOf, SumOf, TotalOf, Distinct;
    var sorted := SortEntries(entries);
    DistinctIffFullSet(Ids(entries));
    SortKeepsDistinctIds(entries);
    SortEntriesOrders(entries);
    SortEntriesCounts(entries);
    SameElements(sorted, entries);
    assert Orders(sorted) == OneTo(|sorted|);
    SumIsTotal(sorted);
  }

  lemma StoredPrefixUsable(tasks: map<Id, Option<Id>>, user: Id, entries: seq<Entry>, k: nat)
    requires |SortEntries(entries)| == |entries| && (forall e :: e in SortEntries(entries) <==> e in entries)
    requires k <= |entries|
    requires forall i :: 0 <= i < k ==> Usable(tasks, user, SortEntries(entries)[i])
    requires k < |entries| ==> !Usable(tasks, user, SortEntries(entries)[k])
    ensures k == |entries| <==> forall e :: e in entries ==> Usable(tasks, user, e)
  {
    if k < |entries| {
      assert SortEntries(entries)[k] in SortEntries(entries);
    }
  }

  // ----- the planner's tool -----

  /** After `k` rounds: the first `k` new tasks exist and are the user's own, stored at 1..k. */
  ghost predicate Planned(before: Tables, after: Tables, user: Id, routine: Id, newIds: seq<Id>, minutes: seq<nat>,
                          k: nat)
    requires k <= |newIds| == |minutes|
  {
    && after == before.(tasks := after.tasks, routines := before.routines[routine := user],
        assignments := after.assignments)
    && (forall t :: t in after.tasks <==> t in before.tasks || t in newIds[..k])
    && (forall t :: t in newIds[..k] && t in after.tasks ==> after.tasks[t] == Some(user))
    && (forall t :: t in before.tasks && t in after.tasks && t !in newIds[..k] ==> after.tasks[t] == before.tasks[t])
    && Stored(before.assignments, after.assignments, routine, newIds, minutes, k)
  }

  lemma PlannedAtFirst(before: Tables, user: Id, routine: Id, newIds: seq<Id>, minutes: seq<nat>)
    requires |newIds| == |minutes|
    ensures Planned(before, before.(routines := before.routines[routine := user]), user, routine, newIds, minutes, 0)
  {
  }

  lemma PlannedReadsBack(before: Tables, after: Tables, user: Id, routine: Id, newIds: seq<Id>, minutes: seq<nat>)
    requires |newIds| == |minutes| && Planned(before, after, user, routine, newIds, minutes, |newIds|)
    requires forall key :: key in before.assignments ==> key.0 != routine
    ensures IsListing(after.assignments, routine, newIds)
    ensures TotalMinutes(after.assignments, routine, newIds) == SumOf(minutes)
  {
    StoredReadsBack(before.assignments, after.assignments, routine, newIds, minutes);
  }

  lemma PlannedNext(before: Tables, after: Tables, user: Id, routine: Id, newIds: seq<Id>, minutes: seq<nat>, k: nat)
    requires k < |newIds| == |minutes| && Distinct(newIds) && Planned(before, after, user, routine, newIds, minutes, k)
    requires forall id :: id in newIds ==> id !in before.tasks
    requires forall key :: key in before.assignments ==> key.0 != routine
    ensures newIds[k] !in after.tasks && after.users == before.users && OwnsRoutine(after, user, routine)
    ensures (routine, newIds[k]) !in after.assignments && !PositionTaken(after.assignments, routine, newIds[k], k + 1)
    ensures Planned(before, after.(tasks := after.tasks[newIds[k] := Some(user)],
                                   assignments := after.assignments[(routine, newIds[k]) := 
                                     Assignment(k + 1, Some(minutes[k]))]),
                    user, routine, newIds, minutes, k + 1)
  {
    assert newIds[..k + 1] == newIds[..k] + [newIds[k]];
    assert newIds[k] in newIds;
    StoredNext(before.assignments, after.assignments, routine, newIds, minutes, k);
  }

  /** createPrivate: a task row owned by the user. */
  method CreatePrivate(service: RoutinesService, user: Id, newId: Id) returns (outcome: Result<Id, ServiceError>)
    modifies service`db
    ensures newId !in old(service.db).tasks ==>
              outcome == if user in old(service.db).users then Ok(newId) else Err(Failure(ForeignKeyViolation))
    ensures service.db == if outcome.Ok? then old(service.db).(tasks := old(service.db).tasks[newId := Some(user)])
              else old(service.db)
  {
    var inserted := InsertTask(service.db, newId, Some(user));
    match inserted
    case Ok(after) => service.db := after; return Ok(newId);
    case Err(e) => return Err(Failure(e));
  }

  /** CreateRoutineTool.execute of the practice planner, with the ids the database gives its tasks.
      Every task it adds is one it has just made the user's own, so the routine is always complete. */
  method ExecutePlan(service: RoutinesService, user: Id, minutes: seq<nat>, newId: Id, newIds: seq<Id>)
    returns (outcome: Result<Id, ServiceError>)
    requires Owned(service.db) && newId !in service.db.routines
    requires |newIds| == |minutes| && Distinct(newIds) && forall id :: id in newIds ==> id !in service.db.tasks
    modifies service`db
    ensures outcome == if user in old(service.db).users then Ok(newId) else Err(Failure(ForeignKeyViolation))
    ensures outcome.Err? ==> service.db == old(service.db)
    ensures outcome.Ok? ==> Planned(old(service.db), service.db, user, newId, newIds, minutes, |minutes|)
    ensures outcome.Ok? ==> IsListing(service.db.assignments, newId, newIds)
    ensures outcome.Ok? ==> TotalMinutes(service.db.assignments, newId, newIds) == SumOf(minutes)
  {
    hide Planned, Stored, Distinct, TotalMinutes, SumOf, IsListing, PositionTaken;
    ghost var before := service.db;
    var routine := service.Create(user, newId);
    if routine.Err? { return Err(routine.error); }
    assert forall key :: key in before.assignments ==> key.0 != newId;
    PlannedAtFirst(before, user, newId, newIds, minutes);
    var index := 0;
    while index < |minutes|
      invariant 0 <= index <= |minutes|
      invariant user in before.users
      invariant Planned(before, service.db, user, newId, newIds, minutes, index)
    {
      PlannedNext(before, service.db, user, newId, newIds, minutes, index);
      PlanEntry(service, user, newId, newIds[index], index + 1, minutes[index]);
      index := index + 1;
    }
    PlannedReadsBack(before, service.db, user, newId, newIds, minutes);
    outcome := Ok(newId);
  }

  /** One round of the loop: a private task, then its assignment. */
  method PlanEntry(service: RoutinesService, user: Id, routine: Id, task: Id, position: nat, minutes: nat)
    requires user in service.db.users && OwnsRoutine(service.db, user, routine)
    requires task !in service.db.tasks && (routine, task) !in service.db.assignments
    requires !PositionTaken(service.db.assignments, routine, task, position)
    modifies service`db
    ensures service.db == old(service.db).(tasks := old(service.db).tasks[task := Some(user)],
              assignments := old(service.db).assignments[(routine, task) := Assignment(position, Some(minutes))])
  {
    var created := CreatePrivate(service, user, task);
    var added := service.AddTask(user, routine, task, Some(position), Some(minutes));
  }
}

/**
 * RoutinesService.reorderTasks: the same-set test, the two-phase transaction and what it does to a
 * routine's rows, whatever other requests wrote between the test and the transaction.
 */
module RoutineOrdering {
  import opened Outcomes
  import opened Database
  import opened Multisets

  /** One UPDATE of the transaction: move `task` to `position`. */
  datatype Move = Move(task: Id, position: int)

  /** Placeholders -1..-n first, then the final positions 1..n. */
  function ReorderScript(ids: seq<Id>): seq<Move> {
    seq(|ids|, i requires 0 <= i < |ids| => Move(ids[i], -(i + 1))) +
    seq(|ids|, i requires 0 <= i < |ids| => Move(ids[i], i + 1))
  }

  function RunMove(rows: Assignments, routine: Id, m: Move): Result<Assignments, DbError> {
    UpdateAssignment(rows, routine, m.task, Patch(Some(m.position), None))
  }

  /** The statements in order, each against the result of the ones before; the first error stops it. */
  function RunScript(rows: Assignments, routine: Id, script: seq<Move>): Result<Assignments, DbError> {
    if script == [] then Ok(rows)
    else
      var n := |script| - 1;
      match RunScript(rows, routine, script[..n])
      case Err(e) => Err(e)
      case Ok(before) => RunMove(before, routine, script[n])
  }

  ghost predicate Distinct(ids: seq<Id>) {
    forall i, j :: 0 <= i < j < |ids| ==> ids[i] != ids[j]
  }

  function TasksOf(rows: Assignments, routine: Id): set<Id> {
    set k | k in rows && k.0 == routine :: k.1
  }

  /** What the add and update DTOs and the placeholders' rollback leave in every committed table. */
  ghost predicate Ordered(rows: Assignments) {
    UniquePositions(rows) && forall k :: k in rows ==> rows[k].position >= 1
  }

  // ----- the same-set test -----

  /** The three conjuncts of `isSameSet`, on the ids as sent and the routine's rows as read. */
  predicate IsSameSet(ids: seq<Id>, existing: set<Id>) {
    var requested := set id | id in ids;
    |ids| == |existing| && |requested| == |ids| && forall id :: id in ids ==> id in existing
  }

  lemma {:induction false} DistinctIffFullSet(ids: seq<Id>)
    ensures |set id | id in ids| <= |ids|
    ensures Distinct(ids) <==> |set id | id in ids| == |ids|
  {
    if ids != [] {
      var n := |ids| - 1;
      var front := ids[..n];
      DistinctIffFullSet(front);
      assert ids == front + [ids[n]];
      var before := set id | id in front;
      assert (set id | id in ids) == before + {ids[n]};
      if ids[n] in before {
        assert before + {ids[n]} == before;
        var i :| 0 <= i < n && front[i] == ids[n];
        assert ids[i] == ids[n];
      }
      assert Distinct(ids) ==> Distinct(front);
    }
  }

  lemma {:induction false} SameSetIffPermutation(ids: seq<Id>, existing: set<Id>)
    ensures IsSameSet(ids, existing) <==> Distinct(ids) && (set id | id in ids) == existing
    ensures IsSameSet(ids, existing) <==> multiset(ids) == multiset(existing)
  {
    var requested := set id | id in ids;
    DistinctIffFullSet(ids);
    if IsSameSet(ids, existing) {
      assert requested <= existing;
      SubsetOfEqualSize(requested, existing);
    }
    DistinctIffSetMultiset(ids);
    if multiset(ids) == multiset(existing) {
      forall id ensures id in requested <==> id in existing {
        assert id in multiset(ids) <==> id in ids;
        assert id in multiset(existing) <==> id in existing;
      }
      assert requested == existing;
    }
  }

  lemma SubsetOfEqualSize(a: set<Id>, b: set<Id>)
    requires a <= b && |a| == |b|
    ensures a == b
  {
    assert |b - a| == |b| - |a|;
  }

  lemma {:induction false} DistinctIffSetMultiset(ids: seq<Id>)
    ensures Distinct(ids) <==> multiset(ids) == multiset(set id | id in ids)
  {
    if Distinct(ids) {
      forall id ensures multiset(ids)[id] == multiset(set id | id in ids)[id] {
        DistinctCountsOnce(ids, id);
      }
    }
    if multiset(ids) == multiset(set id | id in ids) {
      assert |multiset(ids)| == |ids|;
      assert |multiset(set id | id in ids)| == |set id | id in ids|;
      DistinctIffFullSet(ids);
    }
  }

  lemma {:induction false} DistinctCountsOnce(ids: seq<Id>, id: Id)
    requires Distinct(ids)
    ensures multiset(ids)[id] == if id in ids then 1 else 0
  {
    if ids != [] {
      var n := |ids| - 1;
      DistinctCountsOnce(ids[..n], id);
      assert ids == ids[..n] + [ids[n]];
    }
  }

  // ----- the transaction -----

  /** `after` is `before` with `routine`'s ids moved to the given positions and nothing else changed. */
  ghost predicate Moved(before: Assignments, after: Assignments, routine: Id, ids: seq<Id>, at: seq<int>)
    requires |ids| == |at|
  {
    && after.Keys == before.Keys
    && (forall i :: 0 <= i < |ids| ==> (routine, ids[i]) in before)
    && (forall i :: 0 <= i < |ids| ==>
          after[(routine, ids[i])] == before[(routine, ids[i])].(position := at[i]))
    && (forall k :: k in before && !(k.0 == routine && k.1 in ids) ==> after[k] == before[k])
  }

  /** No row of `routine` outside `ids` holds one of the first `k` positions. */
  ghost predicate SlotsFree(rows: Assignments, routine: Id, ids: seq<Id>, k: nat) {
    forall key :: key in rows && key.0 == routine && key.1 !in ids ==> !(1 <= rows[key].position <= k)
  }

  function Placeholders(k: nat): seq<int> { seq(k, i => -(i + 1)) }

  function FinalPositions(n: nat): seq<int> { seq(n, i => i + 1) }

  /** Positions after `k` of the second-phase updates. */
  function Settling(n: nat, k: nat): seq<int> { seq(n, i => if i < k then i + 1 else -(i + 1)) }

  /** One more row moved, to a position nothing else in the routine holds. */
  lemma MoveNext(rows: Assignments, before: Assignments, routine: Id, ids: seq<Id>, at: seq<int>, task: Id, p: int)
    requires |ids| == |at| && Moved(rows, before, routine, ids, at)
    requires task !in ids && (routine, task) in rows && !PositionTaken(before, routine, task, p)
    ensures RunMove(before, routine, Move(task, p)).Ok?
    ensures Moved(rows, RunMove(before, routine, Move(task, p)).value, routine, ids + [task], at + [p])
  {
    var all, after := ids + [task], RunMove(before, routine, Move(task, p)).value;
    forall k | k in rows && !(k.0 == routine && k.1 in all) ensures after[k] == rows[k] {
      assert k.1 in ids ==> k.1 in all;
      assert task in all;
    }
  }

  /** A row that was moved before is moved again. */
  lemma MoveAgain(rows: Assignments, before: Assignments, routine: Id, ids: seq<Id>, at: seq<int>, i: nat, p: int)
    requires |ids| == |at| && i < |ids| && Distinct(ids) && Moved(rows, before, routine, ids, at)
    requires !PositionTaken(before, routine, ids[i], p)
    ensures RunMove(before, routine, Move(ids[i], p)).Ok?
    ensures Moved(rows, RunMove(before, routine, Move(ids[i], p)).value, routine, ids, at[i := p])
  {
    assert (routine, ids[i]) in before;
  }

  /** Nothing that was not moved holds a free position, and nothing that was moved holds a position not listed. */
  lemma PositionFree(rows: Assignments, before: Assignments, routine: Id, ids: seq<Id>, at: seq<int>, task: Id, p: int)
    requires |ids| == |at| && Moved(rows, before, routine, ids, at)
    requires forall i :: 0 <= i < |ids| && ids[i] != task ==> at[i] != p
    requires forall k :: k in rows && k.0 == routine && k.1 !in ids && k.1 != task ==> rows[k].position != p
    ensures !PositionTaken(before, routine, task, p)
  {
    forall k | k in before && k.0 == routine && k.1 != task ensures before[k].position != p {
      if k.1 in ids {
        var i :| 0 <= i < |ids| && ids[i] == k.1;
        assert k == (routine, ids[i]);
      }
    }
  }

  lemma FirstPhaseMove(rows: Assignments, before: Assignments, routine: Id, ids: seq<Id>, m: nat)
    requires Ordered(rows) && Distinct(ids) && m < |ids| && (routine, ids[m]) in rows
    requires Moved(rows, before, routine, ids[..m], Placeholders(m))
    ensures RunMove(before, routine, Move(ids[m], -(m + 1))).Ok?
    ensures Moved(rows, RunMove(before, routine, Move(ids[m], -(m + 1))).value, routine, ids[..m + 1],
              Placeholders(m + 1))
  {
    PositionFree(rows, before, routine, ids[..m], Placeholders(m), ids[m], -(m + 1));
    MoveNext(rows, before, routine, ids[..m], Placeholders(m), ids[m], -(m + 1));
    assert ids[..m + 1] == ids[..m] + [ids[m]];
    assert Placeholders(m + 1) == Placeholders(m) + [-(m + 1)];
  }

  lemma ScriptShape(ids: seq<Id>)
    ensures |ReorderScript(ids)| == 2 * |ids|
    ensures forall i :: 0 <= i < |ids| ==> ReorderScript(ids)[i] == Move(ids[i], -(i + 1))
    ensures forall i :: |ids| <= i < 2 * |ids| ==> ReorderScript(ids)[i] == Move(ids[i - |ids|], i - |ids| + 1)
  {
  }

  lemma NothingMovedYet(rows: Assignments, routine: Id, ids: seq<Id>)
    ensures RunScript(rows, routine, ReorderScript(ids)[..0]) == Ok(rows)
    ensures Moved(rows, rows, routine, ids[..0], Placeholders(0))
  {
  }

  lemma {:induction false} FirstPhase(rows: Assignments, routine: Id, ids: seq<Id>, k: nat)
    requires Ordered(rows) && Distinct(ids) && k <= |ids|
    requires forall i :: 0 <= i < k ==> (routine, ids[i]) in rows
    ensures RunScript(rows, routine, ReorderScript(ids)[..k]).Ok?
    ensures Moved(rows, RunScript(rows, routine, ReorderScript(ids)[..k]).value, routine, ids[..k], Placeholders(k))
  {
    hide Moved, RunScript, RunMove, ReorderScript, Placeholders, Ordered, Distinct;
    if k == 0 {
      NothingMovedYet(rows, routine, ids);
    } else {
      ScriptShape(ids);
      FirstPhase(rows, routine, ids, k - 1);
      LastOfPrefix(rows, routine, ReorderScript(ids), k - 1);
      FirstPhaseMove(rows, RunScript(rows, routine, ReorderScript(ids)[..k - 1]).value, routine, ids, k - 1);
    }
  }

  lemma SettlingEnds(n: nat)
    ensures Settling(n, 0) == Placeholders(n) && Settling(n, n) == FinalPositions(n)
  {
  }

  lemma SecondPhaseMove(rows: Assignments, before: Assignments, routine: Id, ids: seq<Id>, m: nat)
    requires Distinct(ids) && m < |ids| && SlotsFree(rows, routine, ids, m + 1)
    requires Moved(rows, before, routine, ids, Settling(|ids|, m))
    ensures RunMove(before, routine, Move(ids[m], m + 1)).Ok?
    ensures Moved(rows, RunMove(before, routine, Move(ids[m], m + 1)).value, routine, ids, Settling(|ids|, m + 1))
  {
    PositionFree(rows, before, routine, ids, Settling(|ids|, m), ids[m], m + 1);
    MoveAgain(rows, before, routine, ids, Settling(|ids|, m), m, m + 1);
    assert Settling(|ids|, m + 1) == Settling(|ids|, m)[m := m + 1];
  }

  lemma {:induction false} SecondPhase(rows: Assignments, routine: Id, ids: seq<Id>, k: nat)
    requires Ordered(rows) && Distinct(ids) && k <= |ids|
    requires forall i :: 0 <= i < |ids| ==> (routine, ids[i]) in rows
    requires SlotsFree(rows, routine, ids, k)
    ensures RunScript(rows, routine, ReorderScript(ids)[..|ids| + k]).Ok?
    ensures Moved(rows, RunScript(rows, routine, ReorderScript(ids)[..|ids| + k]).value, routine, ids,
              Settling(|ids|, k))
  {
    hide Moved, RunScript, RunMove, ReorderScript, Placeholders, Settling, Ordered, Distinct;
    var n := |ids|;
    ScriptShape(ids);
    if k == 0 {
      FirstPhase(rows, routine, ids, n);
      assert ids[..n] == ids;
      SettlingEnds(n);
    } else {
      SecondPhase(rows, routine, ids, k - 1);
      LastOfPrefix(rows, routine, ReorderScript(ids), n + (k - 1));
      SecondPhaseMove(rows, RunScript(rows, routine, ReorderScript(ids)[..n + (k - 1)]).value, routine, ids, k - 1);
    }
  }

  lemma LastOfPrefix(rows: Assignments, routine: Id, script: seq<Move>, m: nat)
    requires m < |script|
    ensures RunScript(rows, routine, script[..m + 1]) ==
            match RunScript(rows, routine, script[..m])
            case Err(e) => Err(e)
            case Ok(before) => RunMove(before, routine, script[m])
  {
    assert script[..m + 1][..m] == script[..m];
  }

  /** An error anywhere in a script is the script's outcome: the transaction rolls back. */
  lemma {:induction false} ErrorsStick(rows: Assignments, routine: Id, script: seq<Move>, k: nat)
    requires k <= |script| && RunScript(rows, routine, script[..k]).Err?
    ensures RunScript(rows, routine, script) == RunScript(rows, routine, script[..k])
  {
    if k == |script| {
      assert script[..k] == script;
    } else {
      var n := |script| - 1;
      assert script[..n][..k] == script[..k];
      ErrorsStick(rows, routine, script[..n], k);
    }
  }

  /** What the transaction does, from any committed table and for any distinct ids: success exactly
      when every id is still assigned and no other row of the routine sits in 1..n. */
  lemma {:induction false} ReorderOutcome(rows: Assignments, routine: Id, ids: seq<Id>)
    requires Ordered(rows) && Distinct(ids)
    ensures var outcome := RunScript(rows, routine, ReorderScript(ids));
            var present := forall i :: 0 <= i < |ids| ==> (routine, ids[i]) in rows;
            && (outcome.Ok? <==> present && SlotsFree(rows, routine, ids, |ids|))
            && (outcome == Err(RecordNotFound) <==> !present)
            && (outcome.Ok? ==> Moved(rows, outcome.value, routine, ids, FinalPositions(|ids|)))
  {
    hide Moved, RunScript, ReorderScript, Settling, Ordered, Distinct;
    var n := |ids|;
    var script := ReorderScript(ids);
    ScriptShape(ids);
    if i :| 0 <= i < n && (routine, ids[i]) !in rows {
      FirstMissing(rows, routine, ids, i);
    } else if SlotsFree(rows, routine, ids, n) {
      SecondPhase(rows, routine, ids, n);
      assert script[..n + n] == script;
      SettlingEnds(n);
    } else {
      var key :| key in rows && key.0 == routine && key.1 !in ids && 1 <= rows[key].position <= n;
      var p := rows[key].position;
      FirstOccupied(rows, routine, ids, key, p);
    }
  }

  lemma {:induction false} FirstMissing(rows: Assignments, routine: Id, ids: seq<Id>, i: nat)
    requires Ordered(rows) && Distinct(ids)
    requires i < |ids| && (routine, ids[i]) !in rows
    ensures RunScript(rows, routine, ReorderScript(ids)) == Err(RecordNotFound)
  {
    ScriptShape(ids);
    if j :| 0 <= j < i && (routine, ids[j]) !in rows {
      FirstMissing(rows, routine, ids, j);
    } else {
      FirstPhase(rows, routine, ids, i);
      LastOfPrefix(rows, routine, ReorderScript(ids), i);
      ErrorsStick(rows, routine, ReorderScript(ids), i + 1);
    }
  }

  /** A row that was not moved still blocks its position. */
  lemma OccupiedBlocks(rows: Assignments, before: Assignments, routine: Id, ids: seq<Id>, at: seq<int>, key: (Id, Id),
                       task: Id)
    requires |ids| == |at| && Moved(rows, before, routine, ids, at)
    requires key in rows && key.0 == routine && key.1 !in ids && task in ids && (routine, task) in rows
    ensures RunMove(before, routine, Move(task, rows[key].position)) == Err(UniqueViolation)
  {
    assert before[key] == rows[key];
    assert PositionTaken(before, routine, task, rows[key].position);
  }

  lemma {:induction false} FirstOccupied(rows: Assignments, routine: Id, ids: seq<Id>, key: (Id, Id), p: nat)
    requires Ordered(rows) && Distinct(ids)
    requires forall i :: 0 <= i < |ids| ==> (routine, ids[i]) in rows
    requires key in rows && key.0 == routine && key.1 !in ids && rows[key].position == p && 1 <= p <= |ids|
    ensures RunScript(rows, routine, ReorderScript(ids)) == Err(UniqueViolation)
    decreases p
  {
    hide Moved, RunScript, RunMove, ReorderScript, Ordered, Distinct;
    var n := |ids|;
    if other :| other in rows && other.0 == routine && other.1 !in ids && 1 <= rows[other].position < p {
      FirstOccupied(rows, routine, ids, other, rows[other].position);
    } else {
      SecondPhase(rows, routine, ids, p - 1);
      ScriptShape(ids);
      LastOfPrefix(rows, routine, ReorderScript(ids), n + (p - 1));
      var before := RunScript(rows, routine, ReorderScript(ids)[..n + (p - 1)]).value;
      OccupiedBlocks(rows, before, routine, ids, Settling(n, p - 1), key, ids[p - 1]);
      ErrorsStick(rows, routine, ReorderScript(ids), n + p);
    }
  }

  // ----- what clients read afterwards -----

  /** `listing` is what `findMany(orderBy: position)` returns for the routine. */
  ghost predicate IsListing(rows: Assignments, routine: Id, listing: seq<Id>) {
    && (forall t :: t in listing <==> (routine, t) in rows)
    && (forall i, j :: 0 <= i < j < |listing| ==>
          rows[(routine, listing[i])].position < rows[(routine, listing[j])].position)
  }

  lemma {:induction false} ListingIsUnique(rows: Assignments, routine: Id, a: seq<Id>, b: seq<Id>)
    requires IsListing(rows, routine, a) && IsListing(rows, routine, b)
    ensures a == b
  {
    EmptyListing(rows, routine, a);
    EmptyListing(rows, routine, b);
    if a != [] {
      var n, m := |a| - 1, |b| - 1;
      LastIsGreatest(rows, routine, a, b[m]);
      LastIsGreatest(rows, routine, b, a[n]);
      var fewer := rows - {(routine, a[n])};
      assert IsListing(fewer, routine, a[..n]) by { ListingWithoutLast(rows, routine, a); }
      assert IsListing(fewer, routine, b[..m]) by { ListingWithoutLast(rows, routine, b); }
      ListingIsUnique(fewer, routine, a[..n], b[..m]);
      assert a == a[..n] + [a[n]] && b == b[..m] + [b[m]];
    }
  }

  /** The requested tasks are assigned, in the requested order, before every other task of the routine. */
  ghost predicate InFront(rows: Assignments, routine: Id, ids: seq<Id>) {
    && (forall i :: 0 <= i < |ids| ==> (routine, ids[i]) in rows)
    && (forall i, j :: 0 <= i < j < |ids| ==> rows[(routine, ids[i])].position < rows[(routine, ids[j])].position)
    && (forall i, k :: 0 <= i < |ids| && k in rows && k.0 == routine && k.1 !in ids ==>
          rows[(routine, ids[i])].position < rows[k].position)
  }

  /** The listing starts with the request exactly then. */
  lemma {:induction false} ListingStartsWithIff(rows: Assignments, routine: Id, ids: seq<Id>, listing: seq<Id>)
    requires IsListing(rows, routine, listing)
    ensures ids <= listing <==> InFront(rows, routine, ids)
  {
    if InFront(rows, routine, ids) {
      FrontIsListed(rows, routine, ids, listing, |ids|);
      assert ids[..|ids|] == ids;
    } else if ids <= listing {
      StartIsInFront(rows, routine, ids, listing);
    }
  }

  lemma StartIsInFront(rows: Assignments, routine: Id, ids: seq<Id>, listing: seq<Id>)
    requires IsListing(rows, routine, listing) && ids <= listing
    ensures InFront(rows, routine, ids)
  {
    assert forall i :: 0 <= i < |ids| ==> ids[i] == listing[i] && listing[i] in listing;
    forall i, k | 0 <= i < |ids| && k in rows && k.0 == routine && k.1 !in ids
      ensures rows[(routine, ids[i])].position < rows[k].position
    {
      assert k == (routine, k.1) && k.1 in listing;
      var j :| 0 <= j < |listing| && listing[j] == k.1;
      assert j >= |ids|;
    }
  }

  lemma {:induction false} FrontIsListed(rows: Assignments, routine: Id, ids: seq<Id>, listing: seq<Id>, n: nat)
    requires IsListing(rows, routine, listing) && InFront(rows, routine, ids) && n <= |ids|
    ensures n <= |listing| && listing[..n] == ids[..n]
  {
    if n > 0 {
      FrontIsListed(rows, routine, ids, listing, n - 1);
      var i := n - 1;
      SameFront(ids, listing, i);
      assert ids[i] in listing;
      var j :| 0 <= j < |listing| && listing[j] == ids[i];
      assert j >= i && listing[i] in listing;
      assert listing[i] in ids;
      var m :| 0 <= m < |ids| && ids[m] == listing[i];
      assert m == i;
    }
  }

  lemma SameFront(a: seq<Id>, b: seq<Id>, n: nat)
    requires n <= |a| && n <= |b| && a[..n] == b[..n]
    ensures forall k :: 0 <= k < n ==> a[k] == b[k]
  {
    assert forall k :: 0 <= k < n ==> a[k] == a[..n][k] && b[k] == b[..n][k];
  }

  /** Nothing but a change to one of its own rows takes the front away from a request that has 1..n. */
  lemma {:induction false} FirstPositionsAreInFront(rows: Assignments, routine: Id, ids: seq<Id>)
    requires Ordered(rows)
    requires forall i :: 0 <= i < |ids| ==> (routine, ids[i]) in rows && rows[(routine, ids[i])].position == i + 1
    ensures InFront(rows, routine, ids)
  {
    forall i, k | 0 <= i < |ids| && k in rows && k.0 == routine && k.1 !in ids
      ensures rows[(routine, ids[i])].position < rows[k].position
    {
      FirstPositionsAreTaken(rows, routine, ids, k);
    }
  }

  lemma FirstPositionsAreTaken(rows: Assignments, routine: Id, ids: seq<Id>, k: (Id, Id))
    requires Ordered(rows) && k in rows && k.0 == routine
    requires forall i :: 0 <= i < |ids| ==> (routine, ids[i]) in rows && rows[(routine, ids[i])].position == i + 1
    ensures rows[k].position <= |ids| ==> k.1 in ids
  {
    var p := rows[k].position;
    if p <= |ids| {
      assert rows[(routine, ids[p - 1])].position == p;
    }
  }

  lemma EmptyListing(rows: Assignments, routine: Id, a: seq<Id>)
    requires IsListing(rows, routine, a)
    ensures a == [] <==> forall t :: (routine, t) !in rows
  {
    if a != [] { assert a[0] in a; }
  }

  lemma LastIsGreatest(rows: Assignments, routine: Id, a: seq<Id>, t: Id)
    requires IsListing(rows, routine, a) && (routine, t) in rows
    ensures a != [] && (t == a[|a| - 1] || rows[(routine, t)].position < rows[(routine, a[|a| - 1])].position)
  {
    var i :| 0 <= i < |a| && a[i] == t;
  }

  lemma ListingWithoutLast(rows: Assignments, routine: Id, a: seq<Id>)
    requires IsListing(rows, routine, a) && a != []
    ensures IsListing(rows - {(routine, a[|a| - 1])}, routine, a[..|a| - 1])
  {
    var n := |a| - 1;
    forall t ensures t in a[..n] <==> (routine, t) in rows - {(routine, a[n])} {
      if t in a[..n] {
        var i :| 0 <= i < n && a[..n][i] == t;
        assert a[i] in a;
        assert rows[(routine, a[i])].position < rows[(routine, a[n])].position;
      }
      if t in a && t != a[n] {
        var i :| 0 <= i < |a| && a[i] == t;
        assert a[..n][i] == t;
      }
    }
  }

  /** A reorder that passed the test and was not overtaken always commits, reads back as the request,
      and leaves durations and every other routine alone. */
  lemma {:induction false} ReorderIsCorrect(rows: Assignments, routine: Id, ids: seq<Id>)
    requires Ordered(rows)
    requires IsSameSet(ids, TasksOf(rows, routine))
    ensures var outcome := RunScript(rows, routine, ReorderScript(ids));
            && outcome.Ok?
            && Ordered(outcome.value)
            && IsListing(outcome.value, routine, ids)
            && outcome.value.Keys == rows.Keys
            && (forall k :: k in rows ==> outcome.value[k].duration == rows[k].duration)
            && (forall k :: k in rows && k.0 != routine ==> outcome.value[k] == rows[k])
  {
    SameSetIffPermutation(ids, TasksOf(rows, routine));
    ReorderOutcome(rows, routine, ids);
    forall i | 0 <= i < |ids| ensures (routine, ids[i]) in rows {
      assert ids[i] in TasksOf(rows, routine);
    }
    assert SlotsFree(rows, routine, ids, |ids|) by {
      forall key | key in rows && key.0 == routine ensures key.1 in ids {
        assert key.1 in TasksOf(rows, routine);
      }
    }
    ReorderKeepsOrder(rows, routine, ids);
    var after := RunScript(rows, routine, ReorderScript(ids)).value;
    MovedIsListed(rows, after, routine, ids);
    forall k | k in rows ensures after[k].duration == rows[k].duration {
      if k.0 == routine && k.1 in ids {
        var i :| 0 <= i < |ids| && ids[i] == k.1;
        assert k == (routine, ids[i]);
      }
    }
  }

  lemma MovedIsListed(rows: Assignments, after: Assignments, routine: Id, ids: seq<Id>)
    requires Moved(rows, after, routine, ids, FinalPositions(|ids|))
    requires TasksOf(rows, routine) == set id | id in ids
    ensures IsListing(after, routine, ids)
  {
    forall t ensures t in ids <==> (routine, t) in after {
      assert (routine, t) in rows ==> t in TasksOf(rows, routine);
      assert t in TasksOf(rows, routine) ==> exists k :: k in rows && k.0 == routine && k.1 == t;
    }
  }

  /** A committed reorder is ordered even when other rows were added to the routine in the meantime. */
  lemma {:induction false} ReorderKeepsOrder(rows: Assignments, routine: Id, ids: seq<Id>)
    requires Ordered(rows) && Distinct(ids)
    ensures var outcome := RunScript(rows, routine, ReorderScript(ids));
            outcome.Ok? ==> Ordered(outcome.value)
  {
    hide RunScript, ReorderScript, SlotsFree, Distinct;
    ReorderOutcome(rows, routine, ids);
    var outcome := RunScript(rows, routine, ReorderScript(ids));
    if outcome.Ok? {
      var after := outcome.value;
      forall k, l | k in after && l in after && k.0 == l.0 && after[k].position == after[l].position
        ensures k == l
      {
        PositionAfter(rows, after, routine, ids, k);
        PositionAfter(rows, after, routine, ids, l);
      }
      forall k | k in after ensures after[k].position >= 1 {
        PositionAfter(rows, after, routine, ids, k);
      }
    }
  }

  /** Where a row ends up: at its index plus one if it was requested, where it was otherwise. */
  lemma PositionAfter(rows: Assignments, after: Assignments, routine: Id, ids: seq<Id>, k: (Id, Id))
    requires Distinct(ids) && SlotsFree(rows, routine, ids, |ids|) && k in rows
    requires Moved(rows, after, routine, ids, FinalPositions(|ids|))
    ensures if k.0 == routine && k.1 in ids
            then 1 <= after[k].position <= |ids| && ids[after[k].position - 1] == k.1
            else after[k] == rows[k] && (k.0 == routine ==> !(1 <= after[k].position <= |ids|))
  {
    if k.0 == routine && k.1 in ids {
      var i :| 0 <= i < |ids| && ids[i] == k.1;
      assert k == (routine, ids[i]);
    }
  }

  // ----- the derived totals of toRoutineResponse -----

  function Minutes(a: Assignment): nat { if a.duration.Some? then a.duration.value else 0 }

  /** The reduce over the rows in whatever order the query returned them. */
  function TotalMinutes(rows: Assignments, routine: Id, listing: seq<Id>): nat
    requires forall t :: t in listing ==> (routine, t) in rows
  {
    if listing == [] then 0
    else
      var n := |listing| - 1;
      TotalMinutes(rows, routine, listing[..n]) + Minutes(rows[(routine, listing[n])])
  }

  /** One more task adds its duration, or nothing if it has none; and no tasks add up to 0. */
  lemma {:induction false} TotalGrows(rows: Assignments, routine: Id, listing: seq<Id>, t: Id)
    requires (routine, t) in rows && forall x :: x in listing ==> (routine, x) in rows
    ensures TotalMinutes(rows, routine, []) == 0
    ensures TotalMinutes(rows, routine, listing + [t]) == TotalMinutes(rows, routine, listing) +
              match rows[(routine, t)].duration case None => 0 case Some(minutes) => minutes
  {
    assert (listing + [t])[..|listing|] == listing;
  }

  lemma {:induction false} TotalOfSameRows(rows: Assignments, rows': Assignments, routine: Id, listing: seq<Id>)
    requires forall t :: t in listing ==> (routine, t) in rows && (routine, t) in rows' &&
                                           rows[(routine, t)].duration == rows'[(routine, t)].duration
    ensures TotalMinutes(rows, routine, listing) == TotalMinutes(rows', routine, listing)
  {
    if listing != [] {
      TotalOfSameRows(rows, rows', routine, listing[..|listing| - 1]);
    }
  }

  lemma {:induction false} TotalWithout(rows: Assignments, routine: Id, a: seq<Id>, i: nat)
    requires forall t :: t in a ==> (routine, t) in rows
    requires i < |a|
    ensures forall t :: t in a[..i] + a[i + 1..] ==> t in a
    ensures TotalMinutes(rows, routine, a) ==
            TotalMinutes(rows, routine, a[..i] + a[i + 1..]) + Minutes(rows[(routine, a[i])])
  {
    var n := |a| - 1;
    if i == n {
      assert a[..i] + a[i + 1..] == a[..n];
    } else {
      TotalWithout(rows, routine, a[..n], i);
      var rest := a[..i] + a[i + 1..];
      assert rest[..|rest| - 1] == a[..n][..i] + a[..n][i + 1..];
      assert rest[|rest| - 1] == a[n];
    }
  }

  /** The count and the total do not depend on the order in which the rows come back. */
  lemma {:induction false} TotalsIgnoreOrder(rows: Assignments, routine: Id, a: seq<Id>, b: seq<Id>)
    requires forall t :: t in a ==> (routine, t) in rows
    requires multiset(a) == multiset(b)
    ensures forall t :: t in b ==> (routine, t) in rows
    ensures |a| == |b| && TotalMinutes(rows, routine, a) == TotalMinutes(rows, routine, b)
  {
    assert |a| == |multiset(a)| && |b| == |multiset(b)|;
    forall t | t in b ensures t in a {
      assert t in multiset(b);
    }
    if a != [] {
      var n := |a| - 1;
      assert a[n] in multiset(a);
      var i :| 0 <= i < |b| && b[i] == a[n];
      LastAndOne(a, b, i);
      TotalsIgnoreOrder(rows, routine, a[..n], b[..i] + b[i + 1..]);
      TotalWithout(rows, routine, b, i);
    }
  }

  lemma LastAndOne(a: seq<Id>, b: seq<Id>, i: nat)
    requires a != [] && i < |b| && multiset(a) == multiset(b) && b[i] == a[|a| - 1]
    ensures multiset(a[..|a| - 1]) == multiset(b[..i] + b[i + 1..])
  {
    SplitLast(a);
    RemoveAt(b, i);
  }

  /** Reordering changes neither derived figure. */
  lemma {:induction false} ReorderKeepsTotals(rows: Assignments, routine: Id, ids: seq<Id>, listing: seq<Id>)
    requires Ordered(rows) && IsSameSet(ids, TasksOf(rows, routine))
    requires IsListing(rows, routine, listing)
    ensures var after := RunScript(rows, routine, ReorderScript(ids));
            && after.Ok? && IsListing(after.value, routine, ids)
            && |ids| == |listing|
            && TotalMinutes(after.value, routine, ids) == TotalMinutes(rows, routine, listing)
  {
    hide RunScript, ReorderScript, Ordered, IsListing, IsSameSet, TotalMinutes, TasksOf;
    ReorderIsCorrect(rows, routine, ids);
    SameSetIffPermutation(ids, TasksOf(rows, routine));
    ListingHasAllTasks(rows, routine, listing);
    ListingIsAssigned(rows, routine, listing);
    TotalsIgnoreOrder(rows, routine, listing, ids);
    TotalOfSameRows(rows, RunScript(rows, routine, ReorderScript(ids)).value, routine, ids);
  }

  lemma ListingIsAssigned(rows: Assignments, routine: Id, listing: seq<Id>)
    requires IsListing(rows, routine, listing)
    ensures forall t :: t in listing ==> (routine, t) in rows
  {
  }

  lemma ListingHasAllTasks(rows: Assignments, routine: Id, listing: seq<Id>)
    requires IsListing(rows, routine, listing)
    ensures multiset(listing) == multiset(TasksOf(rows, routine))
  {
    var listed := set id | id in listing;
    assert Distinct(listing);
    forall t ensures t in listed <==> t in TasksOf(rows, routine) {
      assert t in listed <==> (routine, t) in rows;
    }
    assert listed == TasksOf(rows, routine);
    DistinctIffSetMultiset(listing);
  }

  // ----- nextPosition -----

  lemma {:induction false} GreatestExists(ps: set<int>)
    requires ps != {}
    ensures exists m :: m in ps && forall p :: p in ps ==> p <= m
  {
    assert exists q :: q in ps by {
      if forall q :: q !in ps { assert false; }
    }
    var p :| p in ps;
    if ps == {p} {
    } else {
      GreatestExists(ps - {p});
      var m :| m in ps - {p} && forall q :: q in ps - {p} ==> q <= m;
      var top := if m < p then p else m;
      assert top in ps;
      forall q | q in ps ensures q <= top {
        assert q == p || q in ps - {p};
      }
    }
  }

  function PositionsOf(rows: Assignments, routine: Id): set<int> {
    set k | k in rows && k.0 == routine :: rows[k].position
  }

  /** One past the last position of the routine, 1 if it is empty. */
  function NextPosition(rows: Assignments, routine: Id): (p: int)
    ensures forall k :: k in rows && k.0 == routine ==> rows[k].position < p
    ensures PositionsOf(rows, routine) == {} ==> p == 1
    ensures PositionsOf(rows, routine) != {} ==> p - 1 in PositionsOf(rows, routine)
  {
    var ps := PositionsOf(rows, routine);
    assert forall k :: k in rows && k.0 == routine ==> rows[k].position in ps;
    if ps == {} then 1
    else
      GreatestExists(ps);
      var m :| m in ps && forall p :: p in ps ==> p <= m;
      m + 1
  }

  lemma NextPositionIsPositive(rows: Assignments, routine: Id)
    requires Ordered(rows)
    ensures NextPosition(rows, routine) >= 1
  {
    var p := NextPosition(rows, routine);
    if p - 1 in PositionsOf(rows, routine) {
      var k :| k in rows && k.0 == routine && rows[k].position == p - 1;
    }
  }

  /** addTask without a position appends: the new row reads back after all the others. */
  lemma {:induction false} AppendGoesLast(rows: Assignments, routine: Id, task: Id, duration: Option<nat>,
                                          listing: seq<Id>)
    requires IsListing(rows, routine, listing) && (routine, task) !in rows
    ensures !PositionTaken(rows, routine, task, NextPosition(rows, routine))
    ensures IsListing(rows[(routine, task) := Assignment(NextPosition(rows, routine), duration)], routine, listing
              + [task])
  {
    var after := rows[(routine, task) := Assignment(NextPosition(rows, routine), duration)];
    var longer := listing + [task];
    forall i, j | 0 <= i < j < |longer|
      ensures after[(routine, longer[i])].position < after[(routine, longer[j])].position
    {
      assert longer[i] == listing[i] && listing[i] in listing;
      if j < |listing| { assert longer[j] == listing[j] && listing[j] in listing; }
    }
  }

  // ----- findMany(orderBy: position) -----

  /** The routine's tasks in position order, from the last one back. */
  function Listing(rows: Assignments, routine: Id): (listing: seq<Id>)
    requires UniquePositions(rows)
    ensures IsListing(rows, routine, listing)
    decreases |rows|
  {
    if PositionsOf(rows, routine) == {} then
      NoRows(rows, routine);
      []
    else
      var last := NextPosition(rows, routine) - 1;
      LastRowExists(rows, routine);
      var k :| k in rows && k.0 == routine && rows[k].position == last;
      OneRowFewer(rows, k);
      var front := Listing(rows - {k}, routine);
      ListingWithLast(rows, routine, front, k.1);
      front + [k.1]
  }

  lemma NoRows(rows: Assignments, routine: Id)
    requires PositionsOf(rows, routine) == {}
    ensures IsListing(rows, routine, [])
  {
    assert forall k :: k in rows && k.0 == routine ==> rows[k].position in PositionsOf(rows, routine);
  }

  lemma LastRowExists(rows: Assignments, routine: Id)
    requires PositionsOf(rows, routine) != {}
    ensures exists k :: k in rows && k.0 == routine && rows[k].position == NextPosition(rows, routine) - 1
  {
    hide NextPosition;
  }

  lemma OneRowFewer(rows: Assignments, k: (Id, Id))
    requires k in rows
    ensures |rows - {k}| < |rows|
    ensures UniquePositions(rows) ==> UniquePositions(rows - {k})
  {
    var rest := rows - {k};
    assert rows.Keys == rest.Keys + {k};
  }

  lemma ListingWithLast(rows: Assignments, routine: Id, front: seq<Id>, t: Id)
    requires (routine, t) in rows && IsListing(rows - {(routine, t)}, routine, front)
    requires forall k :: k in rows && k.0 == routine && k.1 != t ==> rows[k].position < rows[(routine, t)].position
    ensures IsListing(rows, routine, front + [t])
  {
    var rest, listing := rows - {(routine, t)}, front + [t];
    forall i, j | 0 <= i < j < |listing|
      ensures (routine, listing[i]) in rows && (routine, listing[j]) in rows &&
              rows[(routine, listing[i])].position < rows[(routine, listing[j])].position
    {
      assert listing[i] == front[i] && front[i] in front;
      assert (routine, front[i]) in rest;
      if j < |front| { assert listing[j] == front[j] && front[j] in front; }
    }
    forall u ensures u in listing <==> (routine, u) in rows {
      assert u in front <==> (routine, u) in rest;
    }
  }
}

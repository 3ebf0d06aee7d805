/**
 * What redact does, told by the graph alone: its markers by the paths that lead to an object, and where it
 * ends by the cycles of arrays that paths lead to.
 */
module WalkPaths {
  import opened Outcomes
  import opened Redaction
  import opened RedactionLimits
  import opened ValueGraph

  predicate HoldsObject(g: Graph, v: Value) { v.Ref? && IsObject(g, v.id) }

  /** The value at a position: an item of an array, or what an object has under a key that is not sensitive. */
  function Child(g: Graph, v: Value, i: nat): Option<Value>
    requires InGraph(g, v)
  {
    if !v.Ref? then None
    else
      match g[v.id]
      case Items(items) => if i < |items| then Some(items[i]) else None
      case Error(_, _, _) => None
      case Object(entries) =>
        if i < |entries| && !Sensitive(entries[i].0) then Some(entries[i].1) else None
  }

  /** The objects to keep clear of below `v`: `around`, and the objects passed on the way if `simple`. */
  function Around(g: Graph, v: Value, around: set<nat>, simple: bool): set<nat> {
    if simple && HoldsObject(g, v) then around + {v.id} else around
  }

  /** The value at the end of a path of positions, if the path is there and keeps clear of `around`. */
  function Follow(g: Graph, v: Value, path: seq<nat>, around: set<nat>, simple: bool): (r: Option<Value>)
    requires Closed(g) && InGraph(g, v)
    ensures r.Some? ==> InGraph(g, r.value)
    decreases |path|
  {
    if HoldsObject(g, v) && v.id in around then None
    else if path == [] then Some(v)
    else
      var child := Child(g, v, path[0]);
      if child.None? then None else Follow(g, child.value, path[1..], Around(g, v, around, simple), simple)
  }

  ghost predicate LeadsTo(g: Graph, v: Value, path: seq<nat>, around: set<nat>, simple: bool, id: nat)
    requires Closed(g) && InGraph(g, v)
  {
    IsObject(g, id) && Follow(g, v, path, around, simple) == Some(Ref(id))
  }

  ghost predicate Leads(g: Graph, v: Value, around: set<nat>, simple: bool, id: nat)
    requires Closed(g) && InGraph(g, v)
  {
    exists path :: LeadsTo(g, v, path, around, simple, id)
  }

  /** No object is at the end of two different paths from `v`. */
  ghost predicate OneWay(g: Graph, v: Value, around: set<nat>, simple: bool)
    requires Closed(g) && InGraph(g, v)
  {
    forall id, p, q :: LeadsTo(g, v, p, around, simple, id) && LeadsTo(g, v, q, around, simple, id) ==> p == q
  }

  // ----- the paths through the first positions of a node -----

  ghost predicate LeadsToBy(g: Graph, v: Value, n: nat, path: seq<nat>, around: set<nat>, simple: bool, id: nat)
    requires Closed(g) && InGraph(g, v)
  {
    path != [] && path[0] < n && LeadsTo(g, v, path, around, simple, id)
  }

  ghost predicate LeadsBy(g: Graph, v: Value, n: nat, around: set<nat>, simple: bool, id: nat)
    requires Closed(g) && InGraph(g, v)
  {
    exists path :: LeadsToBy(g, v, n, path, around, simple, id)
  }

  ghost predicate OneWayBy(g: Graph, v: Value, n: nat, around: set<nat>, simple: bool)
    requires Closed(g) && InGraph(g, v)
  {
    forall id, p, q ::
      LeadsToBy(g, v, n, p, around, simple, id) && LeadsToBy(g, v, n, q, around, simple, id) ==> p == q
  }

  lemma PathByChild(g: Graph, v: Value, n: nat, path: seq<nat>, around: set<nat>, simple: bool, id: nat)
    requires Closed(g) && InGraph(g, v) && n > 0 && !(HoldsObject(g, v) && v.id in around)
    ensures LeadsToBy(g, v, n, path, around, simple, id) <==>
              || LeadsToBy(g, v, n - 1, path, around, simple, id)
              || (path != [] && path[0] == n - 1 && Child(g, v, n - 1).Some?
                  && LeadsTo(g, Child(g, v, n - 1).value, path[1..], Around(g, v, around, simple), simple, id))
  {
  }

  /** A position that is not there adds no paths. */
  lemma NoChild(g: Graph, v: Value, n: nat, around: set<nat>, simple: bool)
    requires Closed(g) && InGraph(g, v) && n > 0 && !(HoldsObject(g, v) && v.id in around)
    requires Child(g, v, n - 1).None?
    ensures OneWayBy(g, v, n, around, simple) <==> OneWayBy(g, v, n - 1, around, simple)
    ensures forall id :: LeadsBy(g, v, n, around, simple, id) <==> LeadsBy(g, v, n - 1, around, simple, id)
  {
    hide LeadsToBy, Child, Closed;
    var m := n - 1;
    forall id, path
      ensures LeadsToBy(g, v, n, path, around, simple, id) <==> LeadsToBy(g, v, m, path, around, simple, id)
    {
      PathByChild(g, v, n, path, around, simple, id);
    }
  }

  /** The paths through one more position are those through that child. */
  lemma OneMoreChild(g: Graph, v: Value, n: nat, around: set<nat>, simple: bool)
    requires Closed(g) && InGraph(g, v) && n > 0 && !(HoldsObject(g, v) && v.id in around)
    requires Child(g, v, n - 1).Some? && InGraph(g, Child(g, v, n - 1).value)
    ensures var child, inner := Child(g, v, n - 1).value, Around(g, v, around, simple);
            && (OneWayBy(g, v, n, around, simple) <==>
                && OneWayBy(g, v, n - 1, around, simple) && OneWay(g, child, inner, simple)
                && forall id :: !(LeadsBy(g, v, n - 1, around, simple, id) && Leads(g, child, inner, simple, id)))
            && (forall id :: LeadsBy(g, v, n, around, simple, id) <==>
                  LeadsBy(g, v, n - 1, around, simple, id) || Leads(g, child, inner, simple, id))
  {
    hide LeadsTo, LeadsToBy, Child, Closed, Around;
    var child, inner := Child(g, v, n - 1).value, Around(g, v, around, simple);
    var m := n - 1;
    forall id, path
      ensures LeadsTo(g, child, path, inner, simple, id) ==>
                LeadsToBy(g, v, n, [m] + path, around, simple, id) && ([m] + path)[1..] == path
                && !LeadsToBy(g, v, m, [m] + path, around, simple, id)
    {
      PathByChild(g, v, n, [m] + path, around, simple, id);
      assert ([m] + path)[1..] == path;
      ByBound(g, v, m, [m] + path, around, simple, id);
    }
    forall id, path
      ensures LeadsToBy(g, v, n, path, around, simple, id) ==>
                || LeadsToBy(g, v, m, path, around, simple, id)
                || (path != [] && LeadsTo(g, child, path[1..], inner, simple, id) && path == [m] + path[1..])
      ensures LeadsToBy(g, v, m, path, around, simple, id) ==> LeadsToBy(g, v, n, path, around, simple, id)
    {
      PathByChild(g, v, n, path, around, simple, id);
    }
    if OneWayBy(g, v, n, around, simple) {
      forall id, p, q | LeadsTo(g, child, p, inner, simple, id) && LeadsTo(g, child, q, inner, simple, id)
        ensures p == q
      {
        assert LeadsToBy(g, v, n, [m] + p, around, simple, id) && LeadsToBy(g, v, n, [m] + q, around, simple, id);
        assert [m] + p == [m] + q && ([m] + p)[1..] == p;
      }
    } else if OneWayBy(g, v, m, around, simple) && OneWay(g, child, inner, simple) {
      var id, p, q :| LeadsToBy(g, v, n, p, around, simple, id) && LeadsToBy(g, v, n, q, around, simple, id) && p != q;
      assert LeadsBy(g, v, m, around, simple, id) && Leads(g, child, inner, simple, id);
    }
  }

  lemma ByBound(g: Graph, v: Value, n: nat, path: seq<nat>, around: set<nat>, simple: bool, id: nat)
    requires Closed(g) && InGraph(g, v) && path != [] && path[0] >= n
    ensures !LeadsToBy(g, v, n, path, around, simple, id)
  {
  }

  // ----- what the walk meets again -----

  /** No path leads to an object that has been seen. */
  ghost predicate Unseen(g: Graph, v: Value, seen: set<nat>, around: set<nat>, simple: bool)
    requires Closed(g) && InGraph(g, v)
  {
    forall id :: Leads(g, v, around, simple, id) ==> id !in seen
  }

  ghost predicate UnseenBy(g: Graph, v: Value, n: nat, seen: set<nat>, around: set<nat>, simple: bool)
    requires Closed(g) && InGraph(g, v)
  {
    forall id :: LeadsBy(g, v, n, around, simple, id) ==> id !in seen
  }

  /** `after` has been seen once everything that paths lead to is. */
  ghost predicate SeenAfter(g: Graph, v: Value, seen: set<nat>, around: set<nat>, simple: bool, after: set<nat>)
    requires Closed(g) && InGraph(g, v)
  {
    forall id :: id in after <==> id in seen || Leads(g, v, around, simple, id)
  }

  ghost predicate SeenAfterBy(g: Graph, v: Value, n: nat, seen: set<nat>, around: set<nat>, simple: bool,
                              after: set<nat>)
    requires Closed(g) && InGraph(g, v)
  {
    forall id :: id in after <==> id in seen || LeadsBy(g, v, n, around, simple, id)
  }

  lemma NoPositions(g: Graph, v: Value, seen: set<nat>, around: set<nat>, simple: bool)
    requires Closed(g) && InGraph(g, v)
    ensures OneWayBy(g, v, 0, around, simple) && UnseenBy(g, v, 0, seen, around, simple)
    ensures SeenAfterBy(g, v, 0, seen, around, simple, seen)
  {
  }

  /** From the paths through the first positions and those of the next child, one after the other. */
  lemma OneMoreWalked(g: Graph, v: Value, n: nat, seen: set<nat>, around: set<nat>, simple: bool, before: set<nat>)
    requires Closed(g) && InGraph(g, v) && n > 0 && !(HoldsObject(g, v) && v.id in around)
    requires Child(g, v, n - 1).Some? && InGraph(g, Child(g, v, n - 1).value)
    requires SeenAfterBy(g, v, n - 1, seen, around, simple, before)
    ensures var child, inner := Child(g, v, n - 1).value, Around(g, v, around, simple);
            && (OneWayBy(g, v, n, around, simple) && UnseenBy(g, v, n, seen, around, simple) <==>
                && OneWayBy(g, v, n - 1, around, simple) && UnseenBy(g, v, n - 1, seen, around, simple)
                && OneWay(g, child, inner, simple) && Unseen(g, child, before, inner, simple))
            && forall after :: SeenAfter(g, child, before, inner, simple, after) ==>
                 SeenAfterBy(g, v, n, seen, around, simple, after)
  {
    hide OneWay, OneWayBy, Leads, LeadsBy, Closed, Child, Around;
    OneMoreChild(g, v, n, around, simple);
  }

  lemma PathByPosition(g: Graph, v: Value, n: nat, path: seq<nat>, around: set<nat>, simple: bool, id: nat)
    requires Closed(g) && InGraph(g, v) && v.Ref? && !(HoldsObject(g, v) && v.id in around)
    requires forall i :: i >= n ==> Child(g, v, i).None?
    ensures LeadsTo(g, v, path, around, simple, id) <==>
              || LeadsToBy(g, v, n, path, around, simple, id)
              || (path == [] && IsObject(g, v.id) && id == v.id)
  {
  }

  /** The paths from a node: those through its positions, and for an object the empty one. */
  lemma AllPositions(g: Graph, v: Value, n: nat, around: set<nat>, simple: bool)
    requires Closed(g) && InGraph(g, v) && v.Ref? && !(HoldsObject(g, v) && v.id in around)
    requires forall i :: i >= n ==> Child(g, v, i).None?
    ensures OneWay(g, v, around, simple) <==>
            && OneWayBy(g, v, n, around, simple)
            && (IsObject(g, v.id) ==> !LeadsBy(g, v, n, around, simple, v.id))
    ensures forall id :: Leads(g, v, around, simple, id) <==>
              LeadsBy(g, v, n, around, simple, id) || (IsObject(g, v.id) && id == v.id)
  {
    hide Closed, Child, LeadsTo, LeadsToBy, Around;
    forall id, path
      ensures LeadsTo(g, v, path, around, simple, id) <==>
                LeadsToBy(g, v, n, path, around, simple, id) || (path == [] && IsObject(g, v.id) && id == v.id)
    {
      PathByPosition(g, v, n, path, around, simple, id);
    }
    forall id ensures !LeadsToBy(g, v, n, [], around, simple, id) { NoEmptyPath(g, v, n, around, simple, id); }
    if IsObject(g, v.id) {
      assert LeadsTo(g, v, [], around, simple, v.id);
    }
    if OneWay(g, v, around, simple) {
      assert OneWayBy(g, v, n, around, simple);
      assert IsObject(g, v.id) ==> !LeadsBy(g, v, n, around, simple, v.id);
    }
  }

  lemma NoEmptyPath(g: Graph, v: Value, n: nat, around: set<nat>, simple: bool, id: nat)
    requires Closed(g) && InGraph(g, v)
    ensures !LeadsToBy(g, v, n, [], around, simple, id)
  {
  }

  /** The walk meets again only objects to keep clear of exactly when no path leads to an object that was
      seen before and no two lead to the same; then it has seen what paths lead to. */
  lemma {:induction false} WalkIsPaths(g: Graph, v: Value, seen: set<nat>, around: set<nat>, simple: bool)
    requires Fine(g) && InGraph(g, v) && around <= seen
    ensures MeetsOnly(g, v, seen, around, simple) <==>
              OneWay(g, v, around, simple) && Unseen(g, v, seen, around, simple)
    ensures MeetsOnly(g, v, seen, around, simple) ==>
              SeenAfter(g, v, seen, around, simple, Redact(g, v, seen).1)
    decreases g.Keys - seen, Depth(g, v), if v.Ref? && IsArray(g, v.id) then |g[v.id].items| + 1 else 0
  {
    if !v.Ref? || g[v.id].Error? {
      NoWay(g, v, around, simple);
    } else if g[v.id].Items? {
      AllPositions(g, v, |g[v.id].items|, around, simple);
      ItemsArePaths(g, v.id, |g[v.id].items|, seen, around, simple);
    } else if v.id !in seen {
      AllPositions(g, v, |g[v.id].entries|, around, simple);
      EntriesArePaths(g, v.id, |g[v.id].entries|, seen + {v.id}, around, simple);
    } else if v.id in around {
      NoWay(g, v, around, simple);
    } else {
      assert LeadsTo(g, v, [], around, simple, v.id);
    }
  }

  lemma NoWay(g: Graph, v: Value, around: set<nat>, simple: bool)
    requires Closed(g) && InGraph(g, v) && (!v.Ref? || g[v.id].Error? || (IsObject(g, v.id) && v.id in around))
    ensures forall path, id :: !LeadsTo(g, v, path, around, simple, id)
    ensures OneWay(g, v, around, simple) && forall id :: !Leads(g, v, around, simple, id)
  {
  }

  lemma {:induction false} ItemsArePaths(g: Graph, id: nat, n: nat, seen: set<nat>, around: set<nat>, simple: bool)
    requires Fine(g) && IsArray(g, id) && n <= |g[id].items| && around <= seen
    ensures ItemsMeetOnly(g, id, n, seen, around, simple) <==>
              OneWayBy(g, Ref(id), n, around, simple) && UnseenBy(g, Ref(id), n, seen, around, simple)
    ensures ItemsMeetOnly(g, id, n, seen, around, simple) ==>
              SeenAfterBy(g, Ref(id), n, seen, around, simple, RedactItems(g, id, n, seen).1)
    decreases g.Keys - seen, Depth(g, Ref(id)), n
  {
    if n == 0 {
      NoPositions(g, Ref(id), seen, around, simple);
    } else {
      ItemsAreShallower(g, id);
      ItemsArePaths(g, id, n - 1, seen, around, simple);
      var before := RedactItems(g, id, n - 1, seen).1;
      WalkIsPaths(g, g[id].items[n - 1], before, around, simple);
      if ItemsMeetOnly(g, id, n - 1, seen, around, simple) {
        OneMoreWalked(g, Ref(id), n, seen, around, simple, before);
      } else {
        FewerPositions(g, Ref(id), n, seen, around, simple);
      }
    }
  }

  lemma FewerPositions(g: Graph, v: Value, n: nat, seen: set<nat>, around: set<nat>, simple: bool)
    requires Closed(g) && InGraph(g, v) && n > 0
    ensures OneWayBy(g, v, n, around, simple) ==> OneWayBy(g, v, n - 1, around, simple)
    ensures UnseenBy(g, v, n, seen, around, simple) ==> UnseenBy(g, v, n - 1, seen, around, simple)
  {
    hide LeadsTo;
    var m := n - 1;
    assert forall id, path :: LeadsToBy(g, v, m, path, around, simple, id) ==>
                                LeadsToBy(g, v, n, path, around, simple, id);
  }

  lemma {:induction false} EntriesArePaths(g: Graph, id: nat, n: nat, seen: set<nat>, around: set<nat>, simple: bool)
    requires Fine(g) && IsObject(g, id) && n <= |g[id].entries| && id !in around && around + {id} <= seen
    ensures var inner := Around(g, Ref(id), around, simple);
            && (EntriesMeetOnly(g, id, n, seen, inner, simple) <==>
                  OneWayBy(g, Ref(id), n, around, simple) && UnseenBy(g, Ref(id), n, seen, around, simple))
            && (EntriesMeetOnly(g, id, n, seen, inner, simple) ==>
                  SeenAfterBy(g, Ref(id), n, seen, around, simple, RedactEntries(g, id, n, seen).1))
    decreases g.Keys - seen, |g| + 1, n
  {
    var inner := Around(g, Ref(id), around, simple);
    if n == 0 {
      NoPositions(g, Ref(id), seen, around, simple);
    } else {
      EntriesArePaths(g, id, n - 1, seen, around, simple);
      var before, entry := RedactEntries(g, id, n - 1, seen).1, g[id].entries[n - 1];
      if Sensitive(entry.0) {
        NoChild(g, Ref(id), n, around, simple);
      } else {
        DepthIsBounded(g, entry.1);
        WalkIsPaths(g, entry.1, before, inner, simple);
        if EntriesMeetOnly(g, id, n - 1, seen, inner, simple) {
          OneMoreWalked(g, Ref(id), n, seen, around, simple, before);
        } else {
          FewerPositions(g, Ref(id), n, seen, around, simple);
        }
      }
    }
  }

  /** The output has a marker if and only if some object is at the end of two different paths, cycle or
      not. */
  lemma {:induction false} NoMarkerIffOneWay(g: Graph, v: Value)
    requires Fine(g) && InGraph(g, v) && NoLiteralMarker(g) && v != Str(CIRCULAR)
    ensures !HasMarker(Redact(g, v, {}).0) <==> OneWay(g, v, {}, false)
  {
    NoMarkerIffNothingMetTwice(g, v);
    WalkIsPaths(g, v, {}, {}, false);
  }

  /** Every marker stands for an object that it is inside of if and only if no object is at the end of two
      different paths that pass no object twice. */
  lemma {:induction false} MarkersAreTrueIffOneSimpleWay(g: Graph, v: Value)
    requires Fine(g) && InGraph(g, v)
    ensures Erased(Traced(g, v, {}).0) == Redact(g, v, {}).0
    ensures MarkersFor(Traced(g, v, {}).0, {}, true) <==> OneWay(g, v, {}, true)
  {
    MarkersAreTrueIffMetInside(g, v);
    WalkIsPaths(g, v, {}, {}, true);
  }

  // ----- where redact ends -----

  ghost predicate OnArrayCycle(g: Graph, v: Value) {
    v.Ref? && exists ids :: ArrayCycle(g, ids) && ids[0] == v.id
  }

  /** No path leads to an array that is inside itself through arrays alone. */
  ghost predicate LeadsToNoCycle(g: Graph, v: Value)
    requires Closed(g) && InGraph(g, v)
  {
    forall path :: Follow(g, v, path, {}, false).Some? ==> !OnArrayCycle(g, Follow(g, v, path, {}, false).value)
  }

  /** Every object that paths clear of `seen` would come to is in `seen`, and no array on them is on a
      cycle of arrays. */
  ghost predicate Settled(g: Graph, v: Value, seen: set<nat>)
    requires Closed(g) && InGraph(g, v)
  {
    forall path :: Follow(g, v, path, seen, false).Some? ==>
      var end := Follow(g, v, path, seen, false).value;
      !HoldsObject(g, end) && !OnArrayCycle(g, end)
  }

  /** What the objects of `ids` have inside is settled. */
  ghost predicate SettledInside(g: Graph, ids: set<nat>, seen: set<nat>)
    requires Closed(g)
  {
    forall id, i :: id in ids && IsObject(g, id) && Child(g, Ref(id), i).Some? ==>
      Settled(g, Child(g, Ref(id), i).value, seen)
  }

  lemma {:induction false} FollowFarther(g: Graph, v: Value, path: seq<nat>, seen: set<nat>, more: set<nat>)
    requires Closed(g) && InGraph(g, v) && seen <= more && Follow(g, v, path, more, false).Some?
    ensures Follow(g, v, path, seen, false) == Follow(g, v, path, more, false)
    decreases |path|
  {
    if path != [] { FollowFarther(g, Child(g, v, path[0]).value, path[1..], seen, more); }
  }

  lemma StaysSettled(g: Graph, v: Value, seen: set<nat>, more: set<nat>)
    requires Closed(g) && InGraph(g, v) && seen <= more && Settled(g, v, seen)
    ensures Settled(g, v, more)
  {
    forall path | Follow(g, v, path, more, false).Some?
      ensures Follow(g, v, path, seen, false) == Follow(g, v, path, more, false)
    {
      FollowFarther(g, v, path, seen, more);
    }
  }

  lemma StaysSettledInside(g: Graph, ids: set<nat>, seen: set<nat>, more: set<nat>)
    requires Closed(g) && seen <= more && SettledInside(g, ids, seen)
    ensures SettledInside(g, ids, more)
  {
    forall id, i | id in ids && IsObject(g, id) && Child(g, Ref(id), i).Some?
      ensures Settled(g, Child(g, Ref(id), i).value, more)
    {
      StaysSettled(g, Child(g, Ref(id), i).value, seen, more);
    }
  }

  /** A walk that ended leaves its value settled, and what the objects it came to have inside. */
  lemma {:induction false} EndedIsSettled(g: Graph, v: Value, seen: set<nat>, fuel: nat)
    requires Closed(g) && InGraph(g, v) && RedactWithin(g, v, seen, fuel).Some?
    ensures var after := RedactWithin(g, v, seen, fuel).value.1;
            seen <= after && Settled(g, v, after) && SettledInside(g, after - seen, after)
    decreases fuel, 0
  {
    var after := RedactWithin(g, v, seen, fuel).value.1;
    if v.Ref? && g[v.id].Items? {
      var n := |g[v.id].items|;
      EndedItemsAreSettled(g, v.id, n, seen, fuel - 1);
      NotOnCycle(g, v, seen, fuel);
      forall path | Follow(g, v, path, after, false).Some?
        ensures var end := Follow(g, v, path, after, false).value; !HoldsObject(g, end) && !OnArrayCycle(g, end)
      {
        if path != [] { assert Settled(g, g[v.id].items[path[0]], after); }
      }
    } else if HoldsObject(g, v) && v.id !in seen {
      EndedEntriesAreSettled(g, v.id, |g[v.id].entries|, seen + {v.id}, fuel - 1);
    }
  }

  lemma NotOnCycle(g: Graph, v: Value, seen: set<nat>, fuel: nat)
    requires Closed(g) && InGraph(g, v) && RedactWithin(g, v, seen, fuel).Some?
    ensures !OnArrayCycle(g, v)
  {
    if OnArrayCycle(g, v) {
      var ids :| ArrayCycle(g, ids) && ids[0] == v.id;
      CycleRunsOut(g, ids, 0, seen, fuel);
    }
  }

  lemma {:induction false} EndedItemsAreSettled(g: Graph, id: nat, n: nat, seen: set<nat>, fuel: nat)
    requires Closed(g) && IsArray(g, id) && n <= |g[id].items| && ItemsWithin(g, id, n, seen, fuel).Some?
    ensures var after := ItemsWithin(g, id, n, seen, fuel).value.1;
            && seen <= after && SettledInside(g, after - seen, after)
            && forall i :: 0 <= i < n ==> Settled(g, g[id].items[i], after)
    decreases fuel, n + 1
  {
    if n > 0 {
      EndedItemsAreSettled(g, id, n - 1, seen, fuel);
      var before, after := ItemsWithin(g, id, n - 1, seen, fuel).value.1, ItemsWithin(g, id, n, seen, fuel).value.1;
      EndedIsSettled(g, g[id].items[n - 1], before, fuel);
      StaysSettledInside(g, before - seen, before, after);
      forall i | 0 <= i < n - 1 ensures Settled(g, g[id].items[i], after) {
        StaysSettled(g, g[id].items[i], before, after);
      }
    }
  }

  lemma {:induction false} EndedEntriesAreSettled(g: Graph, id: nat, n: nat, seen: set<nat>, fuel: nat)
    requires Closed(g) && IsObject(g, id) && n <= |g[id].entries| && EntriesWithin(g, id, n, seen, fuel).Some?
    ensures var after := EntriesWithin(g, id, n, seen, fuel).value.1;
            && seen <= after && SettledInside(g, after - seen, after)
            && forall i :: 0 <= i < n && !Sensitive(g[id].entries[i].0) ==> Settled(g, g[id].entries[i].1, after)
    decreases fuel, n + 1
  {
    if n > 0 {
      EndedEntriesAreSettled(g, id, n - 1, seen, fuel);
      var before, entry := EntriesWithin(g, id, n - 1, seen, fuel).value.1, g[id].entries[n - 1];
      if !Sensitive(entry.0) {
        var after := EntriesWithin(g, id, n, seen, fuel).value.1;
        EndedIsSettled(g, entry.1, before, fuel);
        StaysSettledInside(g, before - seen, before, after);
        forall i | 0 <= i < n - 1 && !Sensitive(g[id].entries[i].0) ensures Settled(g, g[id].entries[i].1, after) {
          StaysSettled(g, g[id].entries[i].1, before, after);
        }
      }
    }
  }

  /** From a settled value, no path at all leads to a cycle of arrays. */
  lemma {:induction false} SettledLeadsToNoCycle(g: Graph, v: Value, path: seq<nat>, seen: set<nat>)
    requires Closed(g) && InGraph(g, v) && Settled(g, v, seen) && SettledInside(g, seen, seen)
    requires Follow(g, v, path, {}, false).Some?
    ensures !OnArrayCycle(g, Follow(g, v, path, {}, false).value)
    decreases |path|
  {
    if HoldsObject(g, v) {
      assert v.id in seen by { assert v.id !in seen ==> Follow(g, v, [], seen, false) == Some(v); }
    }
    if path == [] {
      assert !HoldsObject(g, v) ==> Follow(g, v, [], seen, false) == Some(v);
    } else {
      var child := Child(g, v, path[0]).value;
      if !HoldsObject(g, v) {
        forall p | Follow(g, child, p, seen, false).Some?
          ensures Follow(g, v, [path[0]] + p, seen, false) == Follow(g, child, p, seen, false)
        {
          assert ([path[0]] + p)[1..] == p;
        }
      }
      SettledLeadsToNoCycle(g, child, path[1..], seen);
    }
  }

  // ----- the part of a graph that a walk can come to -----

  ghost predicate Comes(g: Graph, v: Value, w: Value)
    requires Closed(g) && InGraph(g, v)
  {
    exists path :: Follow(g, v, path, {}, false) == Some(w)
  }

  /** An object without what it has under sensitive keys. */
  function Bare(node: Node): Node {
    match node
    case Object(entries) => Object(seq(|entries|, i requires 0 <= i < |entries| => BareEntry(entries[i])))
    case _ => node
  }

  function BareEntry(entry: (string, Value)): (string, Value) {
    if Sensitive(entry.0) then (entry.0, Prim(UNDEFINED)) else entry
  }

  ghost function Part(g: Graph, v: Value): Graph
    requires Closed(g) && InGraph(g, v)
  {
    map id | id in g && Comes(g, v, Ref(id)) :: Bare(g[id])
  }

  lemma {:induction false} FollowOn(g: Graph, v: Value, path: seq<nat>, i: nat)
    requires Closed(g) && InGraph(g, v) && Follow(g, v, path, {}, false).Some?
    requires Child(g, Follow(g, v, path, {}, false).value, i).Some?
    ensures Follow(g, v, path + [i], {}, false) == Child(g, Follow(g, v, path, {}, false).value, i)
    decreases |path|
  {
    if path != [] {
      FollowOn(g, Child(g, v, path[0]).value, path[1..], i);
      assert (path + [i])[1..] == path[1..] + [i];
    }
  }

  lemma ChildComes(g: Graph, v: Value, id: nat, i: nat)
    requires Closed(g) && InGraph(g, v) && id in Part(g, v) && Child(g, Ref(id), i).Some?
    ensures InGraph(Part(g, v), Child(g, Ref(id), i).value)
  {
    var path :| Follow(g, v, path, {}, false) == Some(Ref(id));
    FollowOn(g, v, path, i);
  }

  lemma PartIsClosed(g: Graph, v: Value)
    requires Closed(g) && InGraph(g, v)
    ensures Closed(Part(g, v)) && InGraph(Part(g, v), v)
  {
    var part := Part(g, v);
    assert Follow(g, v, [], {}, false) == Some(v);
    forall id, i | id in part && part[id].Items? && 0 <= i < |part[id].items|
      ensures InGraph(part, part[id].items[i])
    {
      ChildComes(g, v, id, i);
    }
    forall id, i | id in part && part[id].Object? && 0 <= i < |part[id].entries|
      ensures InGraph(part, part[id].entries[i].1)
    {
      if !Sensitive(g[id].entries[i].0) { ChildComes(g, v, id, i); }
    }
  }

  lemma CycleComes(g: Graph, v: Value, ids: seq<nat>)
    requires Closed(g) && InGraph(g, v) && ArrayCycle(Part(g, v), ids)
    ensures Comes(g, v, Ref(ids[0])) && OnArrayCycle(g, Ref(ids[0]))
  {
    var part := Part(g, v);
    assert forall k :: 0 <= k < |ids| ==> IsArray(part, ids[k]) && part[ids[k]] == g[ids[k]];
    forall k | 0 < k < |ids| ensures Inside(g, ids[k], ids[k - 1]) {
      assert Inside(part, ids[k], ids[k - 1]);
    }
    assert ArrayCycle(g, ids);
  }

  /** Where no path leads to a cycle of arrays, redact ends on the part of the graph that it can come to. */
  lemma PartIsFine(g: Graph, v: Value)
    requires Closed(g) && InGraph(g, v) && LeadsToNoCycle(g, v)
    ensures Fine(Part(g, v)) && InGraph(Part(g, v), v)
  {
    PartIsClosed(g, v);
    forall ids ensures !ArrayCycle(Part(g, v), ids) {
      if ArrayCycle(Part(g, v), ids) { CycleComes(g, v, ids); }
    }
  }

  /** redact does the same on that part as on the whole. */
  lemma {:induction false} SameOnPart(g: Graph, v: Value, w: Value, seen: set<nat>, fuel: nat)
    requires Closed(g) && InGraph(g, v) && Closed(Part(g, v)) && InGraph(Part(g, v), w)
    ensures RedactWithin(Part(g, v), w, seen, fuel) == RedactWithin(g, w, seen, fuel)
    decreases fuel, 0
  {
    if fuel > 0 && w.Ref? {
      match g[w.id]
      case Items(items) => SameItemsOnPart(g, v, w.id, |items|, seen, fuel - 1);
      case Error(_, _, _) =>
      case Object(entries) =>
        if w.id !in seen { SameEntriesOnPart(g, v, w.id, |entries|, seen + {w.id}, fuel - 1); }
    }
  }

  lemma {:induction false} SameItemsOnPart(g: Graph, v: Value, id: nat, n: nat, seen: set<nat>, fuel: nat)
    requires Closed(g) && InGraph(g, v) && Closed(Part(g, v)) && IsArray(Part(g, v), id) && n <= |g[id].items|
    ensures ItemsWithin(Part(g, v), id, n, seen, fuel) == ItemsWithin(g, id, n, seen, fuel)
    decreases fuel, n + 1
  {
    if n > 0 {
      SameItemsOnPart(g, v, id, n - 1, seen, fuel);
      var front := ItemsWithin(g, id, n - 1, seen, fuel);
      if front.Some? { SameOnPart(g, v, g[id].items[n - 1], front.value.1, fuel); }
    }
  }

  lemma {:induction false} SameEntriesOnPart(g: Graph, v: Value, id: nat, n: nat, seen: set<nat>, fuel: nat)
    requires Closed(g) && InGraph(g, v) && Closed(Part(g, v)) && IsObject(Part(g, v), id) && n <= |g[id].entries|
    ensures EntriesWithin(Part(g, v), id, n, seen, fuel) == EntriesWithin(g, id, n, seen, fuel)
    decreases fuel, n + 1
  {
    if n > 0 {
      SameEntriesOnPart(g, v, id, n - 1, seen, fuel);
      var front, entry := EntriesWithin(g, id, n - 1, seen, fuel), g[id].entries[n - 1];
      assert Part(g, v)[id].entries[n - 1] == BareEntry(entry);
      if front.Some? && !Sensitive(entry.0) { SameOnPart(g, v, entry.1, front.value.1, fuel); }
    }
  }

  /** redact ends on a value if and only if no path from it leads to a cycle of arrays, whatever the rest of
      the graph holds; what it then returns is Redact's result on the part that it can come to. */
  lemma {:induction false} EndsOnIff(g: Graph, v: Value)
    requires Closed(g) && InGraph(g, v)
    ensures EndsOn(g, v) <==> LeadsToNoCycle(g, v)
    ensures EndsOn(g, v) ==> Fine(Part(g, v)) && InGraph(Part(g, v), v)
    ensures forall fuel :: RedactWithin(g, v, {}, fuel).Some? ==>
              RedactWithin(g, v, {}, fuel).value == Redact(Part(g, v), v, {})
  {
    if fuel :| RedactWithin(g, v, {}, fuel).Some? {
      var after := RedactWithin(g, v, {}, fuel).value.1;
      EndedIsSettled(g, v, {}, fuel);
      assert after - {} == after;
      forall path | Follow(g, v, path, {}, false).Some?
        ensures !OnArrayCycle(g, Follow(g, v, path, {}, false).value)
      {
        SettledLeadsToNoCycle(g, v, path, after);
      }
    }
    if LeadsToNoCycle(g, v) {
      PartIsFine(g, v);
      var enough := Ends(Part(g, v), v, {});
      SameOnPart(g, v, v, {}, enough);
      forall fuel | RedactWithin(g, v, {}, fuel).Some?
        ensures RedactWithin(g, v, {}, fuel).value == Redact(Part(g, v), v, {})
      {
        MoreFuel(g, v, {}, fuel, Max(fuel, enough));
        MoreFuel(g, v, {}, enough, Max(fuel, enough));
      }
    }
  }

  /** So whenever redact ends, cycles of arrays elsewhere or not, nothing sensitive is in its output. */
  lemma {:induction false} EndedIsComplete(g: Graph, v: Value, fuel: nat)
    requires Closed(g) && InGraph(g, v) && RedactWithin(g, v, {}, fuel).Some?
    ensures Safe(RedactWithin(g, v, {}, fuel).value.0) && KeepsSecrets(RedactWithin(g, v, {}, fuel).value.0)
  {
    EndsOnIff(g, v);
    RedactionIsComplete(Part(g, v), v);
  }
}

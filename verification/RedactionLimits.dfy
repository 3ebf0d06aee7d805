/**
 * Where redact's two simplifications end: it marks no arrays as seen, and never forgets an object it has
 * seen.
 */
module RedactionLimits {
  import opened CredentialedUrl
  import opened Outcomes
  import opened Redaction
  import opened ValueGraph

  // ----- termination: redact with a bound on the depth of its calls -----

  /** redact on any closed graph, or nothing when `fuel` nested calls are not enough. */
  function RedactWithin(g: Graph, v: Value, seen: set<nat>, fuel: nat): Option<(Tree, set<nat>)>
    requires Closed(g) && InGraph(g, v)
    decreases fuel, 0
  {
    if fuel == 0 then None
    else
      match v
      case Str(s) => Some((Text(RedactCredentialedUrl(s)), seen))
      case Prim(tag) => Some((Plain(tag), seen))
      case Ref(id) =>
        match g[id]
        case Items(items) =>
          var r := ItemsWithin(g, id, |items|, seen, fuel - 1);
          if r.None? then None else Some((List(r.value.0), r.value.1))
        case Error(_, _, _) => Some((ErrorRecord(g[id]), seen))
        case Object(entries) =>
          if id in seen then Some((Text(CIRCULAR), seen))
          else
            var r := EntriesWithin(g, id, |entries|, seen + {id}, fuel - 1);
            if r.None? then None else Some((Record(r.value.0), r.value.1))
  }

  function ItemsWithin(g: Graph, id: nat, n: nat, seen: set<nat>, fuel: nat): (r: Option<(seq<Tree>, set<nat>)>)
    requires Closed(g) && IsArray(g, id) && n <= |g[id].items|
    decreases fuel, n + 1
  {
    if n == 0 then Some(([], seen))
    else
      var front := ItemsWithin(g, id, n - 1, seen, fuel);
      if front.None? then None
      else
        var last := RedactWithin(g, g[id].items[n - 1], front.value.1, fuel);
        if last.None? then None else Some((front.value.0 + [last.value.0], last.value.1))
  }

  function EntriesWithin(g: Graph, id: nat, n: nat, seen: set<nat>,
                         fuel: nat): (r: Option<(seq<(string, Tree)>, set<nat>)>)
    requires Closed(g) && IsObject(g, id) && n <= |g[id].entries|
    decreases fuel, n + 1
  {
    if n == 0 then Some(([], seen))
    else
      var front := EntriesWithin(g, id, n - 1, seen, fuel);
      var (key, value) := g[id].entries[n - 1];
      if front.None? then None
      else if Sensitive(key) then Some((front.value.0 + [(key, Text(REDACTED))], front.value.1))
      else
        var last := RedactWithin(g, value, front.value.1, fuel);
        if last.None? then None else Some((front.value.0 + [(key, last.value.0)], last.value.1))
  }

  /** More room for calls changes no result. */
  lemma {:induction false} MoreFuel(g: Graph, v: Value, seen: set<nat>, fuel: nat, more: nat)
    requires Closed(g) && InGraph(g, v) && fuel <= more && RedactWithin(g, v, seen, fuel).Some?
    ensures RedactWithin(g, v, seen, more) == RedactWithin(g, v, seen, fuel)
    decreases fuel, 0
  {
    if v.Ref? {
      match g[v.id]
      case Items(items) => MoreFuelItems(g, v.id, |items|, seen, fuel - 1, more - 1);
      case Error(_, _, _) =>
      case Object(entries) =>
        if v.id !in seen { MoreFuelEntries(g, v.id, |entries|, seen + {v.id}, fuel - 1, more - 1); }
    }
  }

  lemma {:induction false} MoreFuelItems(g: Graph, id: nat, n: nat, seen: set<nat>, fuel: nat, more: nat)
    requires Closed(g) && IsArray(g, id) && n <= |g[id].items| && fuel <= more
              && ItemsWithin(g, id, n, seen, fuel).Some?
    ensures ItemsWithin(g, id, n, seen, more) == ItemsWithin(g, id, n, seen, fuel)
    decreases fuel, n + 1
  {
    if n > 0 {
      MoreFuelItems(g, id, n - 1, seen, fuel, more);
      MoreFuel(g, g[id].items[n - 1], ItemsWithin(g, id, n - 1, seen, fuel).value.1, fuel, more);
    }
  }

  lemma {:induction false} MoreFuelEntries(g: Graph, id: nat, n: nat, seen: set<nat>, fuel: nat, more: nat)
    requires Closed(g) && IsObject(g, id) && n <= |g[id].entries| && fuel <= more
    requires EntriesWithin(g, id, n, seen, fuel).Some?
    ensures EntriesWithin(g, id, n, seen, more) == EntriesWithin(g, id, n, seen, fuel)
    decreases fuel, n + 1
  {
    if n > 0 {
      MoreFuelEntries(g, id, n - 1, seen, fuel, more);
      var entry := g[id].entries[n - 1];
      if !Sensitive(entry.0) {
        MoreFuel(g, entry.1, EntriesWithin(g, id, n - 1, seen, fuel).value.1, fuel, more);
      }
    }
  }

  function Max(a: nat, b: nat): nat { if a < b then b else a }

  /** Without array cycles some depth of calls is enough, and the result is Redact's. */
  lemma {:induction false} Ends(g: Graph, v: Value, seen: set<nat>) returns (fuel: nat)
    requires Fine(g) && InGraph(g, v)
    ensures RedactWithin(g, v, seen, fuel) == Some(Redact(g, v, seen))
    decreases g.Keys - seen, Depth(g, v), if v.Ref? && IsArray(g, v.id) then |g[v.id].items| + 1 else 0
  {
    fuel := 1;
    if v.Ref? {
      match g[v.id]
      case Items(items) =>
        fuel := ItemsEnd(g, v.id, |items|, seen);
        fuel := fuel + 1;
      case Error(_, _, _) =>
      case Object(entries) =>
        if v.id !in seen {
          fuel := EntriesEnd(g, v.id, |entries|, seen + {v.id});
          fuel := fuel + 1;
        }
    }
  }

  lemma {:induction false} ItemsEnd(g: Graph, id: nat, n: nat, seen: set<nat>) returns (fuel: nat)
    requires Fine(g) && IsArray(g, id) && n <= |g[id].items|
    ensures ItemsWithin(g, id, n, seen, fuel) == Some(RedactItems(g, id, n, seen))
    decreases g.Keys - seen, Depth(g, Ref(id)), n
  {
    if n == 0 {
      fuel := 0;
    } else {
      ItemsAreShallower(g, id);
      var f := ItemsEnd(g, id, n - 1, seen);
      var after := RedactItems(g, id, n - 1, seen).1;
      var h := Ends(g, g[id].items[n - 1], after);
      fuel := Max(f, h);
      MoreFuelItems(g, id, n - 1, seen, f, fuel);
      MoreFuel(g, g[id].items[n - 1], after, h, fuel);
    }
  }

  lemma {:induction false} EntriesEnd(g: Graph, id: nat, n: nat, seen: set<nat>) returns (fuel: nat)
    requires Fine(g) && IsObject(g, id) && n <= |g[id].entries|
    ensures EntriesWithin(g, id, n, seen, fuel) == Some(RedactEntries(g, id, n, seen))
    decreases g.Keys - seen, |g| + 1, n
  {
    if n == 0 {
      fuel := 0;
    } else {
      fuel := EntriesEnd(g, id, n - 1, seen);
      var entry, after := g[id].entries[n - 1], RedactEntries(g, id, n - 1, seen).1;
      if !Sensitive(entry.0) {
        DepthIsBounded(g, entry.1);
        var f := fuel;
        var h := Ends(g, entry.1, after);
        fuel := Max(f, h);
        MoreFuelEntries(g, id, n - 1, seen, f, fuel);
        MoreFuel(g, entry.1, after, h, fuel);
      }
    }
  }

  lemma {:induction false} ItemsRunOut(g: Graph, id: nat, i: nat, n: nat, seen: set<nat>, fuel: nat)
    requires Closed(g) && IsArray(g, id) && i < n <= |g[id].items|
    requires forall s :: RedactWithin(g, g[id].items[i], s, fuel).None?
    ensures ItemsWithin(g, id, n, seen, fuel).None?
    decreases n
  {
    if i < n - 1 {
      ItemsRunOut(g, id, i, n - 1, seen, fuel);
    }
  }

  /** On an array cycle no depth of calls is enough, whatever has been seen. */
  lemma {:induction false} CycleRunsOut(g: Graph, ids: seq<nat>, k: nat, seen: set<nat>, fuel: nat)
    requires Closed(g) && ArrayCycle(g, ids) && k < |ids| - 1
    ensures RedactWithin(g, Ref(ids[k]), seen, fuel).None?
    decreases fuel
  {
    if fuel > 0 {
      var next := if k + 1 < |ids| - 1 then k + 1 else 0;
      assert ids[next] == ids[k + 1];
      assert Inside(g, ids[k + 1], ids[k]);
      var items := g[ids[k]].items;
      var i :| 0 <= i < |items| && items[i] == Ref(ids[next]);
      var less := fuel - 1;
      forall s ensures RedactWithin(g, items[i], s, less).None? {
        CycleRunsOut(g, ids, next, s, less);
      }
      ItemsRunOut(g, ids[k], i, |items|, seen, less);
    }
  }

  ghost predicate EndsOn(g: Graph, v: Value)
    requires Closed(g) && InGraph(g, v)
  {
    exists fuel :: RedactWithin(g, v, {}, fuel).Some?
  }

  /** redact ends on every value of a graph if and only if no cycle of the graph is made of arrays alone;
      what it then returns is Redact's result. */
  lemma {:induction false} EndsIffNoArrayCycle(g: Graph)
    requires Closed(g)
    ensures NoArrayCycle(g) <==> forall v :: InGraph(g, v) ==> EndsOn(g, v)
    ensures NoArrayCycle(g) ==>
              forall v, fuel :: InGraph(g, v) && RedactWithin(g, v, {}, fuel).Some? ==>
                RedactWithin(g, v, {}, fuel).value == Redact(g, v, {})
  {
    if NoArrayCycle(g) {
      forall v | InGraph(g, v)
        ensures EndsOn(g, v)
        ensures forall fuel :: RedactWithin(g, v, {}, fuel).Some? ==>
                  RedactWithin(g, v, {}, fuel).value == Redact(g, v, {})
      {
        var enough := Ends(g, v, {});
        forall fuel | RedactWithin(g, v, {}, fuel).Some?
          ensures RedactWithin(g, v, {}, fuel).value == Redact(g, v, {})
        {
          MoreFuel(g, v, {}, fuel, Max(fuel, enough));
          MoreFuel(g, v, {}, enough, Max(fuel, enough));
        }
      }
    } else {
      var ids :| ArrayCycle(g, ids);
      assert IsArray(g, ids[0]);
      forall fuel ensures RedactWithin(g, Ref(ids[0]), {}, fuel).None? {
        CycleRunsOut(g, ids, 0, {}, fuel);
      }
      assert !EndsOn(g, Ref(ids[0]));
    }
  }

  // ----- markers -----

  /** The output with each record labelled by its object, and each marker by the object it stands for. */
  datatype Trace =
    | Leaf(tree: Tree)
    | TraceList(items: seq<Trace>)
    | TraceRecord(id: nat, entries: seq<(string, Trace)>)
    | Met(id: nat)

  function Erased(t: Trace): Tree {
    match t
    case Leaf(tree) => tree
    case TraceList(items) => List(seq(|items|, i requires 0 <= i < |items| => Erased(items[i])))
    case TraceRecord(_, entries) =>
      Record(seq(|entries|, i requires 0 <= i < |entries| => (entries[i].0, Erased(entries[i].1))))
    case Met(_) => Text(CIRCULAR)
  }

  function Traced(g: Graph, v: Value, seen: set<nat>): (r: (Trace, set<nat>))
    requires Fine(g) && InGraph(g, v)
    ensures seen <= r.1
    decreases g.Keys - seen, Depth(g, v), if v.Ref? && IsArray(g, v.id) then |g[v.id].items| + 1 else 0
  {
    match v
    case Str(s) => (Leaf(Text(RedactCredentialedUrl(s))), seen)
    case Prim(tag) => (Leaf(Plain(tag)), seen)
    case Ref(id) =>
      match g[id]
      case Items(items) =>
        var r := TracedItems(g, id, |items|, seen);
        (TraceList(r.0), r.1)
      case Error(_, _, _) => (Leaf(ErrorRecord(g[id])), seen)
      case Object(entries) =>
        if id in seen then (Met(id), seen)
        else
          var r := TracedEntries(g, id, |entries|, seen + {id});
          (TraceRecord(id, r.0), r.1)
  }

  function TracedItems(g: Graph, id: nat, n: nat, seen: set<nat>): (r: (seq<Trace>, set<nat>))
    requires Fine(g) && IsArray(g, id) && n <= |g[id].items|
    ensures seen <= r.1 && |r.0| == n
    decreases g.Keys - seen, Depth(g, Ref(id)), n
  {
    if n == 0 then ([], seen)
    else
      ItemsAreShallower(g, id);
      var front := TracedItems(g, id, n - 1, seen);
      var last := Traced(g, g[id].items[n - 1], front.1);
      (front.0 + [last.0], last.1)
  }

  function TracedEntries(g: Graph, id: nat, n: nat, seen: set<nat>): (r: (seq<(string, Trace)>, set<nat>))
    requires Fine(g) && IsObject(g, id) && n <= |g[id].entries|
    ensures seen <= r.1 && |r.0| == n
    decreases g.Keys - seen, |g| + 1, n
  {
    if n == 0 then ([], seen)
    else
      var front := TracedEntries(g, id, n - 1, seen);
      var (key, value) := g[id].entries[n - 1];
      if Sensitive(key) then (front.0 + [(key, Leaf(Text(REDACTED)))], front.1)
      else
        DepthIsBounded(g, value);
        var last := Traced(g, value, front.1);
        (front.0 + [(key, last.0)], last.1)
  }

  /** Without its labels the trace is the output. */
  lemma {:induction false} TraceIsOutput(g: Graph, v: Value, seen: set<nat>)
    requires Fine(g) && InGraph(g, v)
    ensures Redact(g, v, seen) == (Erased(Traced(g, v, seen).0), Traced(g, v, seen).1)
    decreases g.Keys - seen, Depth(g, v), if v.Ref? && IsArray(g, v.id) then |g[v.id].items| + 1 else 0
  {
    if v.Ref? {
      match g[v.id]
      case Items(items) => TraceIsOutputItems(g, v.id, |items|, seen);
      case Error(_, _, _) =>
      case Object(entries) => if v.id !in seen { TraceIsOutputEntries(g, v.id, |entries|, seen + {v.id}); }
    }
  }

  lemma {:induction false} TraceIsOutputItems(g: Graph, id: nat, n: nat, seen: set<nat>)
    requires Fine(g) && IsArray(g, id) && n <= |g[id].items|
    ensures var r, t := RedactItems(g, id, n, seen), TracedItems(g, id, n, seen);
            List(r.0) == Erased(TraceList(t.0)) && r.1 == t.1
    decreases g.Keys - seen, Depth(g, Ref(id)), n
  {
    if n > 0 {
      ItemsAreShallower(g, id);
      TraceIsOutputItems(g, id, n - 1, seen);
      var front := TracedItems(g, id, n - 1, seen);
      TraceIsOutput(g, g[id].items[n - 1], front.1);
      ErasedItem(front.0, Traced(g, g[id].items[n - 1], front.1).0);
    }
  }

  lemma ErasedItem(front: seq<Trace>, last: Trace)
    ensures Erased(TraceList(front + [last])) == List(Erased(TraceList(front)).items + [Erased(last)])
  {
  }

  lemma {:induction false} TraceIsOutputEntries(g: Graph, id: nat, n: nat, seen: set<nat>)
    requires Fine(g) && IsObject(g, id) && n <= |g[id].entries|
    ensures var r, t := RedactEntries(g, id, n, seen), TracedEntries(g, id, n, seen);
            Record(r.0) == Erased(TraceRecord(id, t.0)) && r.1 == t.1
    decreases g.Keys - seen, |g| + 1, n
  {
    if n > 0 {
      TraceIsOutputEntries(g, id, n - 1, seen);
      var front, entry := TracedEntries(g, id, n - 1, seen), g[id].entries[n - 1];
      if Sensitive(entry.0) {
        ErasedEntry(id, front.0, entry.0, Leaf(Text(REDACTED)));
      } else {
        DepthIsBounded(g, entry.1);
        TraceIsOutput(g, entry.1, front.1);
        ErasedEntry(id, front.0, entry.0, Traced(g, entry.1, front.1).0);
      }
    }
  }

  lemma ErasedEntry(id: nat, front: seq<(string, Trace)>, key: string, last: Trace)
    ensures Erased(TraceRecord(id, front + [(key, last)])) ==
              Record(Erased(TraceRecord(id, front)).entries + [(key, Erased(last))])
  {
  }

  /** Every marker stands for an object of `around`, to which the records on the way are added if
      `nested`. */
  predicate MarkersFor(t: Trace, around: set<nat>, nested: bool) {
    match t
    case Leaf(_) => true
    case TraceList(items) => forall i :: 0 <= i < |items| ==> MarkersFor(items[i], around, nested)
    case TraceRecord(id, entries) =>
      forall i :: 0 <= i < |entries| ==> MarkersFor(entries[i].1, if nested then around + {id} else around, nested)
    case Met(id) => id in around
  }

  /** The objects that the walk of redact outside sensitive keys meets again are all in `around`, to which the
      objects it is inside of are added if `nested`. With `around` empty and not `nested`, it meets none. */
  predicate MeetsOnly(g: Graph, v: Value, seen: set<nat>, around: set<nat>, nested: bool)
    requires Fine(g) && InGraph(g, v)
    decreases g.Keys - seen, Depth(g, v), if v.Ref? && IsArray(g, v.id) then |g[v.id].items| + 1 else 0
  {
    v.Ref? ==>
      match g[v.id]
      case Items(items) => ItemsMeetOnly(g, v.id, |items|, seen, around, nested)
      case Error(_, _, _) => true
      case Object(entries) =>
        if v.id in seen then v.id in around
        else EntriesMeetOnly(g, v.id, |entries|, seen + {v.id}, if nested then around + {v.id} else around, nested)
  }

  predicate ItemsMeetOnly(g: Graph, id: nat, n: nat, seen: set<nat>, around: set<nat>, nested: bool)
    requires Fine(g) && IsArray(g, id) && n <= |g[id].items|
    decreases g.Keys - seen, Depth(g, Ref(id)), n
  {
    n > 0 ==>
      && ItemsMeetOnly(g, id, n - 1, seen, around, nested)
      && (ItemsAreShallower(g, id);
          MeetsOnly(g, g[id].items[n - 1], RedactItems(g, id, n - 1, seen).1, around, nested))
  }

  predicate EntriesMeetOnly(g: Graph, id: nat, n: nat, seen: set<nat>, around: set<nat>, nested: bool)
    requires Fine(g) && IsObject(g, id) && n <= |g[id].entries|
    decreases g.Keys - seen, |g| + 1, n
  {
    n > 0 ==>
      && EntriesMeetOnly(g, id, n - 1, seen, around, nested)
      && (DepthIsBounded(g, g[id].entries[n - 1].1);
          Sensitive(g[id].entries[n - 1].0) ||
          MeetsOnly(g, g[id].entries[n - 1].1, RedactEntries(g, id, n - 1, seen).1, around, nested))
  }

  lemma {:induction false} MarkersAreMeetings(g: Graph, v: Value, seen: set<nat>, around: set<nat>, nested: bool)
    requires Fine(g) && InGraph(g, v)
    ensures MarkersFor(Traced(g, v, seen).0, around, nested) <==> MeetsOnly(g, v, seen, around, nested)
    decreases g.Keys - seen, Depth(g, v), if v.Ref? && IsArray(g, v.id) then |g[v.id].items| + 1 else 0
  {
    if v.Ref? {
      match g[v.id]
      case Items(items) => ItemMarkersAreMeetings(g, v.id, |items|, seen, around, nested);
      case Error(_, _, _) =>
      case Object(entries) =>
        if v.id !in seen {
          var closer := if nested then around + {v.id} else around;
          EntryMarkersAreMeetings(g, v.id, |entries|, seen + {v.id}, closer, nested);
        }
    }
  }

  lemma {:induction false} ItemMarkersAreMeetings(g: Graph, id: nat, n: nat, seen: set<nat>, around: set<nat>,
                                                  nested: bool)
    requires Fine(g) && IsArray(g, id) && n <= |g[id].items|
    ensures MarkersFor(TraceList(TracedItems(g, id, n, seen).0), around, nested) <==>
              ItemsMeetOnly(g, id, n, seen, around, nested)
    decreases g.Keys - seen, Depth(g, Ref(id)), n
  {
    if n > 0 {
      ItemsAreShallower(g, id);
      ItemMarkersAreMeetings(g, id, n - 1, seen, around, nested);
      TraceIsOutputItems(g, id, n - 1, seen);
      var front := TracedItems(g, id, n - 1, seen);
      MarkersAreMeetings(g, g[id].items[n - 1], front.1, around, nested);
      OneMoreItem(front.0, Traced(g, g[id].items[n - 1], front.1).0, around, nested);
    }
  }

  lemma OneMoreItem(front: seq<Trace>, last: Trace, around: set<nat>, nested: bool)
    ensures MarkersFor(TraceList(front + [last]), around, nested) <==>
            MarkersFor(TraceList(front), around, nested) && MarkersFor(last, around, nested)
  {
    var all := front + [last];
    assert all[|front|] == last && forall i :: 0 <= i < |front| ==> all[i] == front[i];
  }

  ghost predicate EntriesMarkedFor(entries: seq<(string, Trace)>, around: set<nat>, nested: bool) {
    forall i :: 0 <= i < |entries| ==> MarkersFor(entries[i].1, around, nested)
  }

  lemma {:induction false} EntryMarkersAreMeetings(g: Graph, id: nat, n: nat, seen: set<nat>, around: set<nat>,
                                                   nested: bool)
    requires Fine(g) && IsObject(g, id) && n <= |g[id].entries|
    ensures EntriesMarkedFor(TracedEntries(g, id, n, seen).0, around, nested) <==>
              EntriesMeetOnly(g, id, n, seen, around, nested)
    decreases g.Keys - seen, |g| + 1, n
  {
    if n > 0 {
      EntryMarkersAreMeetings(g, id, n - 1, seen, around, nested);
      TraceIsOutputEntries(g, id, n - 1, seen);
      var front, entry := TracedEntries(g, id, n - 1, seen), g[id].entries[n - 1];
      if Sensitive(entry.0) {
        OneMoreEntry(front.0, entry.0, Leaf(Text(REDACTED)), around, nested);
      } else {
        DepthIsBounded(g, entry.1);
        MarkersAreMeetings(g, entry.1, front.1, around, nested);
        OneMoreEntry(front.0, entry.0, Traced(g, entry.1, front.1).0, around, nested);
      }
    }
  }

  lemma OneMoreEntry(front: seq<(string, Trace)>, key: string, last: Trace, around: set<nat>, nested: bool)
    ensures EntriesMarkedFor(front + [(key, last)], around, nested) <==>
            EntriesMarkedFor(front, around, nested) && MarkersFor(last, around, nested)
  {
    var all := front + [(key, last)];
    assert all[|front|] == (key, last) && forall i :: 0 <= i < |front| ==> all[i] == front[i];
  }

  // ----- when there is a marker -----

  predicate HasMarker(t: Tree) {
    match t
    case Text(s) => s == CIRCULAR
    case Plain(_) => false
    case List(items) => exists i :: 0 <= i < |items| && HasMarker(items[i])
    case Record(entries) => exists i :: 0 <= i < |entries| && HasMarker(entries[i].1)
  }

  /** The marker's own text occurs nowhere in the input. */
  ghost predicate NoLiteralMarker(g: Graph) {
    && (forall id, i :: id in g && g[id].Items? && 0 <= i < |g[id].items| ==> g[id].items[i] != Str(CIRCULAR))
    && (forall id, i :: id in g && g[id].Object? && 0 <= i < |g[id].entries| ==> g[id].entries[i].1 != Str(CIRCULAR))
    && (forall id :: id in g && g[id].Error? ==>
          g[id].name != CIRCULAR && g[id].message != CIRCULAR && g[id].stack != Some(CIRCULAR))
  }

  predicate LeavesUnmarked(t: Trace) {
    match t
    case Leaf(tree) => !HasMarker(tree)
    case TraceList(items) => forall i :: 0 <= i < |items| ==> LeavesUnmarked(items[i])
    case TraceRecord(_, entries) => forall i :: 0 <= i < |entries| ==> LeavesUnmarked(entries[i].1)
    case Met(_) => true
  }

  lemma {:induction false} MarkerShows(t: Trace)
    requires LeavesUnmarked(t)
    ensures HasMarker(Erased(t)) <==> !MarkersFor(t, {}, false)
  {
    match t
    case Leaf(_) =>
    case Met(_) =>
    case TraceList(items) =>
      var erased := Erased(t).items;
      forall i | 0 <= i < |items| ensures HasMarker(erased[i]) <==> !MarkersFor(items[i], {}, false) {
        MarkerShows(items[i]);
      }
    case TraceRecord(_, entries) =>
      var erased := Erased(t).entries;
      forall i | 0 <= i < |entries| ensures HasMarker(erased[i].1) <==> !MarkersFor(entries[i].1, {}, false) {
        MarkerShows(entries[i].1);
      }
  }

  /** No text is redacted into the marker. */
  lemma UrlIsNoMarker(s: string)
    requires s != CIRCULAR
    ensures RedactCredentialedUrl(s) != CIRCULAR
  {
    hide RedactCredentialedUrl, Url;
    if IsCredentialed(s) {
      var scheme, userinfo, rest := CredentialedIsUrl(s);
      UserinfoIsReplaced(scheme, userinfo, rest);
      UrlParts(scheme, REDACTED, rest);
      assert Url(scheme, REDACTED, rest)[0] == scheme[0] && CIRCULAR[0] == '[';
    } else {
      PlainTextStays(s);
    }
  }

  lemma PlainTextStays(s: string)
    requires !IsCredentialed(s)
    ensures RedactCredentialedUrl(s) == s
  {
  }

  lemma ErrorIsUnmarked(node: Node)
    requires node.Error? && node.name != CIRCULAR && node.message != CIRCULAR && node.stack != Some(CIRCULAR)
    ensures !HasMarker(ErrorRecord(node))
  {
    UrlIsNoMarker(node.message);
  }

  lemma {:induction false} TracedLeavesUnmarked(g: Graph, v: Value, seen: set<nat>)
    requires Fine(g) && InGraph(g, v) && NoLiteralMarker(g) && v != Str(CIRCULAR)
    ensures LeavesUnmarked(Traced(g, v, seen).0)
    decreases g.Keys - seen, Depth(g, v), if v.Ref? && IsArray(g, v.id) then |g[v.id].items| + 1 else 0
  {
    match v
    case Str(s) => UrlIsNoMarker(s);
    case Prim(_) =>
    case Ref(id) =>
      match g[id]
      case Items(items) => ItemLeavesUnmarked(g, id, |items|, seen);
      case Error(_, _, _) => ErrorIsUnmarked(g[id]);
      case Object(entries) => if id !in seen { EntryLeavesUnmarked(g, id, |entries|, seen + {id}); }
  }

  lemma {:induction false} ItemLeavesUnmarked(g: Graph, id: nat, n: nat, seen: set<nat>)
    requires Fine(g) && NoLiteralMarker(g) && IsArray(g, id) && n <= |g[id].items|
    ensures LeavesUnmarked(TraceList(TracedItems(g, id, n, seen).0))
    decreases g.Keys - seen, Depth(g, Ref(id)), n
  {
    if n > 0 {
      ItemsAreShallower(g, id);
      ItemLeavesUnmarked(g, id, n - 1, seen);
      var front := TracedItems(g, id, n - 1, seen);
      TracedLeavesUnmarked(g, g[id].items[n - 1], front.1);
      assert LeavesUnmarked(TraceList(front.0));
    }
  }

  lemma {:induction false} EntryLeavesUnmarked(g: Graph, id: nat, n: nat, seen: set<nat>)
    requires Fine(g) && NoLiteralMarker(g) && IsObject(g, id) && n <= |g[id].entries|
    ensures LeavesUnmarked(TraceRecord(id, TracedEntries(g, id, n, seen).0))
    decreases g.Keys - seen, |g| + 1, n
  {
    if n > 0 {
      EntryLeavesUnmarked(g, id, n - 1, seen);
      var front, entry := TracedEntries(g, id, n - 1, seen), g[id].entries[n - 1];
      if !Sensitive(entry.0) {
        DepthIsBounded(g, entry.1);
        TracedLeavesUnmarked(g, entry.1, front.1);
      }
      assert LeavesUnmarked(TraceRecord(id, front.0));
    }
  }

  /** The output has a marker if and only if the walk meets some object twice, cycle or not. */
  lemma {:induction false} NoMarkerIffNothingMetTwice(g: Graph, v: Value)
    requires Fine(g) && InGraph(g, v) && NoLiteralMarker(g) && v != Str(CIRCULAR)
    ensures !HasMarker(Redact(g, v, {}).0) <==> MeetsOnly(g, v, {}, {}, false)
  {
    TraceIsOutput(g, v, {});
    TracedLeavesUnmarked(g, v, {});
    MarkerShows(Traced(g, v, {}).0);
    MarkersAreMeetings(g, v, {}, {}, false);
  }

  /** The markers tell the truth, each standing for an object that it is inside of, if and only if each
      object that is met again is met inside itself. */
  lemma {:induction false} MarkersAreTrueIffMetInside(g: Graph, v: Value)
    requires Fine(g) && InGraph(g, v)
    ensures Erased(Traced(g, v, {}).0) == Redact(g, v, {}).0
    ensures MarkersFor(Traced(g, v, {}).0, {}, true) <==> MeetsOnly(g, v, {}, {}, true)
  {
    TraceIsOutput(g, v, {});
    MarkersAreMeetings(g, v, {}, {}, true);
  }

  /** A value that holds a tree, with no object twice in it, comes out without a marker. */
  lemma {:induction false} TreesMeetNothingAgain(g: Graph, v: Value, t: Tree, seen: set<nat>)
    requires Fine(g) && InGraph(g, v) && Clean(t) && Unfold(g, v, t, seen).Some?
    ensures MeetsOnly(g, v, seen, {}, false)
    decreases t, 1, 0
  {
    match t
    case Text(_) =>
    case Plain(_) =>
    case List(items) => TreeItemsMeetNothingAgain(g, v.id, t, |items|, seen);
    case Record(entries) => TreeEntriesMeetNothingAgain(g, v.id, t, |entries|, seen + {v.id});
  }

  lemma {:induction false} TreeItemsMeetNothingAgain(g: Graph, id: nat, t: Tree, n: nat, seen: set<nat>)
    requires Fine(g) && IsArray(g, id) && t.List? && Clean(t) && n <= |g[id].items| == |t.items|
    requires UnfoldItems(g, id, t, n, seen).Some?
    ensures ItemsMeetOnly(g, id, n, seen, {}, false)
    decreases t, 0, n
  {
    if n > 0 {
      ItemsAreShallower(g, id);
      TreeItemsMeetNothingAgain(g, id, t, n - 1, seen);
      CleanItemsUnchanged(g, id, t, n - 1, seen);
      TreesMeetNothingAgain(g, g[id].items[n - 1], t.items[n - 1], UnfoldItems(g, id, t, n - 1, seen).value);
    }
  }

  lemma {:induction false} TreeEntriesMeetNothingAgain(g: Graph, id: nat, t: Tree, n: nat, seen: set<nat>)
    requires Fine(g) && IsObject(g, id) && t.Record? && Clean(t) && n <= |g[id].entries| == |t.entries|
    requires UnfoldEntries(g, id, t, n, seen).Some?
    ensures EntriesMeetOnly(g, id, n, seen, {}, false)
    decreases t, 0, n
  {
    if n > 0 {
      TreeEntriesMeetNothingAgain(g, id, t, n - 1, seen);
      CleanEntriesUnchanged(g, id, t, n - 1, seen);
      var entry := g[id].entries[n - 1];
      if !Sensitive(entry.0) {
        DepthIsBounded(g, entry.1);
        TreesMeetNothingAgain(g, entry.1, t.entries[n - 1].1, UnfoldEntries(g, id, t, n - 1, seen).value);
      }
    }
  }

  /** Sharing is enough for a false marker: in a list that holds one object twice, the second becomes a
      marker that no record is around, even if there is no cycle anywhere. */
  lemma {:induction false} SharedObjectIsCalledCircular(g: Graph, id: nat, list: nat)
    requires Fine(g) && IsObject(g, id) && IsArray(g, list) && g[list].items == [Ref(id), Ref(id)]
    ensures var t := Redact(g, Ref(list), {}).0;
            t.List? && |t.items| == 2 && t.items[0].Record? && t.items[1] == Text(CIRCULAR)
    ensures !MeetsOnly(g, Ref(list), {}, {}, true)
  {
    ItemsAreShallower(g, list);
    assert g[list].items[0] == Ref(id) && g[list].items[1] == Ref(id);
    var first := Redact(g, Ref(id), {});
    assert first.0.Record? && id in first.1;
    assert RedactItems(g, list, 0, {}) == ([], {});
    assert RedactItems(g, list, 1, {}) == ([] + [first.0], first.1);
    assert Redact(g, Ref(id), first.1) == (Text(CIRCULAR), first.1);
    assert RedactItems(g, list, 2, {}) == ([] + [first.0] + [Text(CIRCULAR)], first.1);
    assert !MeetsOnly(g, Ref(id), first.1, {}, true);
    assert !ItemsMeetOnly(g, list, 2, {}, {}, true);
  }
}

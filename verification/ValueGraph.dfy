/**
 * JavaScript values as a graph of nodes, in which objects may be shared and cyclic, and the ranking of
 * its arrays: arrays can be ranked above the arrays inside them exactly when no cycle is made of arrays
 * alone.
 */
module ValueGraph {
  import opened Outcomes

  /** A string, another primitive (or a function), or a reference to a node. */
  datatype Value = Str(text: string) | Prim(tag: int) | Ref(id: nat)

  datatype Node =
    | Items(items: seq<Value>)
    | Error(name: string, message: string, stack: Option<string>)
    | Object(entries: seq<(string, Value)>)

  type Graph = map<nat, Node>

  predicate InGraph(g: Graph, v: Value) { v.Ref? ==> v.id in g }

  predicate IsArray(g: Graph, id: nat) { id in g && g[id].Items? }

  predicate IsObject(g: Graph, id: nat) { id in g && g[id].Object? }

  /** Every reference leads to a node. */
  ghost predicate Closed(g: Graph) {
    && (forall id, i :: id in g && g[id].Items? && 0 <= i < |g[id].items| ==> InGraph(g, g[id].items[i]))
    && (forall id, i :: id in g && g[id].Object? && 0 <= i < |g[id].entries| ==> InGraph(g, g[id].entries[i].1))
  }

  /** A chain of arrays, each inside the one before. */
  ghost predicate ArrayChain(g: Graph, ids: seq<nat>) {
    && (forall k :: 0 <= k < |ids| ==> IsArray(g, ids[k]))
    && (forall k :: 0 < k < |ids| ==> Inside(g, ids[k], ids[k - 1]))
  }

  predicate Inside(g: Graph, inner: nat, outer: nat) { IsArray(g, outer) && Ref(inner) in g[outer].items }

  ghost predicate ArrayCycle(g: Graph, ids: seq<nat>) {
    |ids| >= 2 && ArrayChain(g, ids) && ids[0] == ids[|ids| - 1]
  }

  ghost predicate NoArrayCycle(g: Graph) { forall ids :: !ArrayCycle(g, ids) }

  // ----- ranking -----

  function Arrays(g: Graph): set<nat> { set id | id in g && g[id].Items? }

  /** Arrays inside a ranked array are ranked below it. */
  ghost predicate Descends(g: Graph, depth: map<nat, nat>) {
    forall outer, inner :: outer in depth && IsArray(g, inner) && Inside(g, inner, outer) ==>
      inner in depth && depth[inner] < depth[outer]
  }

  ghost predicate Ranks(g: Graph, depth: map<nat, nat>) {
    && depth.Keys == Arrays(g) && Descends(g, depth)
    && forall id :: id in depth ==> depth[id] < |depth|
  }

  predicate HasInnerIn(g: Graph, id: nat, among: set<nat>) {
    exists inner :: inner in among && Inside(g, inner, id)
  }

  lemma SingleChain(g: Graph, id: nat)
    requires IsArray(g, id)
    ensures ArrayChain(g, [id])
  {
  }

  lemma LongerChain(g: Graph, ids: seq<nat>, inner: nat)
    requires ArrayChain(g, ids) && ids != [] && IsArray(g, inner) && Inside(g, inner, ids[|ids| - 1])
    ensures ArrayChain(g, ids + [inner])
  {
  }

  lemma RepeatIsCycle(g: Graph, ids: seq<nat>, i: nat, j: nat)
    requires ArrayChain(g, ids) && i < j < |ids| && ids[i] == ids[j]
    ensures !NoArrayCycle(g)
  {
    var part := ids[i..j + 1];
    forall k | 0 < k < |part| ensures Inside(g, part[k], part[k - 1]) {
      assert part[k] == ids[i + k] && part[k - 1] == ids[i + k - 1];
      assert Inside(g, ids[i + k], ids[i + k - 1]);
    }
    assert ArrayCycle(g, part);
  }

  /** A chain as long as wanted, among arrays that each have another of them inside. */
  lemma {:induction false} LongChain(g: Graph, among: set<nat>, start: nat, n: nat) returns (ids: seq<nat>)
    requires among <= Arrays(g) && start in among
    requires forall id :: id in among ==> HasInnerIn(g, id, among)
    ensures |ids| == n + 1 && ArrayChain(g, ids) && forall k :: 0 <= k < |ids| ==> ids[k] in among
  {
    hide ArrayChain, Inside;
    if n == 0 {
      ids := [start];
      SingleChain(g, start);
    } else {
      var front := LongChain(g, among, start, n - 1);
      assert HasInnerIn(g, front[n - 1], among);
      var inner :| inner in among && Inside(g, inner, front[n - 1]);
      LongerChain(g, front, inner);
      ids := front + [inner];
    }
  }

  /** Pigeonhole: a list longer than the set its members come from repeats one. */
  lemma {:induction false} Repeats(ids: seq<nat>, among: set<nat>) returns (i: nat, j: nat)
    requires |ids| > |among| && forall k :: 0 <= k < |ids| ==> ids[k] in among
    ensures i < j < |ids| && ids[i] == ids[j]
    decreases |ids|
  {
    var n := |ids| - 1;
    if k :| 0 <= k < n && ids[k] == ids[n] {
      i, j := k, n;
    } else {
      var rest := among - {ids[n]};
      assert |rest| == |among| - 1;
      i, j := Repeats(ids[..n], rest);
    }
  }

  /** Without cycles, among any arrays there is one with none of them inside. */
  lemma SinkExists(g: Graph, among: set<nat>)
    requires NoArrayCycle(g) && among <= Arrays(g) && among != {}
    ensures exists id :: id in among && !HasInnerIn(g, id, among)
  {
    hide ArrayChain, HasInnerIn, Arrays;
    if forall id :: id in among ==> HasInnerIn(g, id, among) {
      var start :| start in among;
      var ids := LongChain(g, among, start, |among|);
      var i, j := Repeats(ids, among);
      RepeatIsCycle(g, ids, i, j);
    }
  }

  /** Ranks the arrays that are left, one sink after the other. */
  lemma {:induction false} RankRest(g: Graph, left: set<nat>, depth: map<nat, nat>) returns (all: map<nat, nat>)
    requires NoArrayCycle(g) && left <= Arrays(g) && depth.Keys == Arrays(g) - left
    requires Descends(g, depth) && forall id :: id in depth ==> depth[id] < |depth|
    ensures Ranks(g, all)
    decreases |left|
  {
    hide Descends, HasInnerIn, NoArrayCycle, Arrays;
    if left == {} {
      all := depth;
    } else {
      SinkExists(g, left);
      var sink :| sink in left && !HasInnerIn(g, sink, left);
      RankedSink(g, left, depth, sink);
      all := RankRest(g, left - {sink}, depth[sink := |depth|]);
    }
  }

  lemma RankedSink(g: Graph, left: set<nat>, depth: map<nat, nat>, sink: nat)
    requires left <= Arrays(g) && depth.Keys == Arrays(g) - left && sink in left && !HasInnerIn(g, sink, left)
    requires Descends(g, depth) && forall id :: id in depth ==> depth[id] < |depth|
    ensures var more := depth[sink := |depth|];
            && more.Keys == Arrays(g) - (left - {sink}) && Descends(g, more)
            && forall id :: id in more ==> more[id] < |more|
  {
    var more := depth[sink := |depth|];
    assert |more| == |depth| + 1 by { assert more.Keys == depth.Keys + {sink}; }
  }

  lemma {:induction false} RankingExists(g: Graph)
    requires NoArrayCycle(g)
    ensures exists depth :: Ranks(g, depth)
  {
    var depth := RankRest(g, Arrays(g), map[]);
  }

  /** Along a chain the ranks fall. */
  lemma {:induction false} ChainDescends(g: Graph, depth: map<nat, nat>, ids: seq<nat>)
    requires Ranks(g, depth) && ArrayChain(g, ids) && |ids| >= 2
    ensures ids[0] in depth && ids[|ids| - 1] in depth && depth[ids[|ids| - 1]] < depth[ids[0]]
    decreases |ids|
  {
    var n := |ids| - 1;
    assert IsArray(g, ids[0]) && IsArray(g, ids[n]) && IsArray(g, ids[n - 1]);
    assert Inside(g, ids[n], ids[n - 1]);
    if |ids| > 2 {
      ChainDescends(g, depth, ids[..n]);
    }
  }

  /** Arrays can be ranked exactly when no cycle is made of arrays alone. */
  lemma {:induction false} RankableIffNoArrayCycle(g: Graph)
    ensures (exists depth :: Ranks(g, depth)) <==> NoArrayCycle(g)
  {
    if NoArrayCycle(g) { RankingExists(g); }
    if depth :| Ranks(g, depth) {
      forall ids ensures !ArrayCycle(g, ids) {
        if ArrayCycle(g, ids) { ChainDescends(g, depth, ids); }
      }
    }
  }

  /** The graphs on which redact ends. */
  ghost predicate Fine(g: Graph) { Closed(g) && NoArrayCycle(g) }

  ghost function Ranking(g: Graph): (depth: map<nat, nat>)
    requires Fine(g)
    ensures Ranks(g, depth)
  {
    RankingExists(g);
    var depth :| Ranks(g, depth);
    depth
  }

  /** How deep arrays nest below a value, before the next object. */
  ghost function Depth(g: Graph, v: Value): nat
    requires Fine(g) && InGraph(g, v)
  {
    if v.Ref? && g[v.id].Items? then Ranking(g)[v.id] + 1 else 0
  }

  lemma DepthIsBounded(g: Graph, v: Value)
    requires Fine(g) && InGraph(g, v)
    ensures Depth(g, v) <= |g|
  {
    SubsetIsNoLarger(Arrays(g), g.Keys);
    assert |Ranking(g)| == |Ranking(g).Keys|;
  }

  lemma ItemsAreShallower(g: Graph, id: nat)
    requires Fine(g) && IsArray(g, id)
    ensures forall i :: 0 <= i < |g[id].items| ==>
              InGraph(g, g[id].items[i]) && Depth(g, g[id].items[i]) < Depth(g, Ref(id))
  {
    forall i | 0 <= i < |g[id].items|
      ensures InGraph(g, g[id].items[i]) && Depth(g, g[id].items[i]) < Depth(g, Ref(id))
    {
      var item := g[id].items[i];
      if item.Ref? && g[item.id].Items? { assert Inside(g, item.id, id); }
    }
  }

  lemma SubsetIsNoLarger(a: set<nat>, b: set<nat>)
    requires a <= b
    ensures |a| <= |b|
  {
    assert b == a + (b - a);
  }
}

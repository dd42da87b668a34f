/** What the greedy run is worth when the two ends of an edge read different costs: the sum of the costs at which its
    positions joined, compared with any spanning tree. */
module JoiningKeys {
  import opened Graphs
  import opened SpanningTrees

  function Max(x: int, y: int): int {
    if x < y then y else x
  }

  /** The dearer of the two readings of each edge. */
  ghost function Dearer(g: Graph, cost: Costs): (r: Costs)
    requires g <= cost.Keys && Symmetric(g)
    ensures r.Keys == g && SymmetricCost(g, r)
  {
    map e | e in g :: Max(cost[e], cost[(e.1, e.0)])
  }

  /** The readings of the node at position me, where it is one of the ends; the other edges as they are. */
  ghost function OwnReadings(g: Graph, cost: Costs, me: nat): (r: Costs)
    requires g <= cost.Keys && Symmetric(g)
    ensures r.Keys == g
  {
    map e | e in g :: if e.1 == me then cost[(e.1, e.0)] else cost[e]
  }

  /** The cost at which the position of rank k joined: read from the side that had joined before. */
  ghost function Key(r: Run, cost: Costs, k: nat): int
    requires |r.via| == |r.order| && k < |r.order| && r.via[k] < |r.order|
    requires (r.order[r.via[k]], r.order[k]) in cost
  {
    cost[(r.order[r.via[k]], r.order[k])]
  }

  /** The keys of the first k ranks; the start has none. */
  ghost function KeyTotal(r: Run, g: Graph, cost: Costs, root: nat, k: nat): int
    requires g <= cost.Keys && GreedyRun(r, g, cost, root) && 1 <= k <= |r.order|
  {
    if k == 1 then 0
    else
      assert RunStep(r, g, cost, k - 1);
      KeyTotal(r, g, cost, root, k - 1) + Key(r, cost, k - 1)
  }

  /** The edge between the ends of e is the one of rank k. */
  ghost predicate JoinsAt(r: Run, e: Edge, k: nat)
    requires |r.via| == |r.order|
  {
    1 <= k < |r.order| && r.via[k] < k && RunEdge(r, k) == Norm(e.0, e.1)
  }

  /** Each edge of the run at the cost it joined for, every other edge at the dearer of its readings. */
  ghost function Mixed(r: Run, g: Graph, cost: Costs, root: nat): (m: Costs)
    requires g <= cost.Keys && Symmetric(g) && GreedyRun(r, g, cost, root)
    ensures m.Keys == g
  {
    map e | e in g :: MixedAt(r, g, cost, root, Norm(e.0, e.1))
  }

  ghost function MixedAt(r: Run, g: Graph, cost: Costs, root: nat, e: Edge): int
    requires g <= cost.Keys && Symmetric(g) && GreedyRun(r, g, cost, root) && e in g
  {
    if k: nat :| JoinsAt(r, e, k) then
      assert RunStep(r, g, cost, k);
      Key(r, cost, k)
    else Dearer(g, cost)[e]
  }

  lemma RankIsUnique(r: Run, root: nat, e: Edge, j: nat, k: nat)
    requires RunShape(r, root) && JoinsAt(r, e, j) && JoinsAt(r, e, k)
    ensures j == k
  {
  }

  lemma MixedIsKey(r: Run, g: Graph, cost: Costs, root: nat, k: nat)
    requires g <= cost.Keys && Symmetric(g) && GreedyRun(r, g, cost, root) && 1 <= k < |r.order|
    ensures RunStep(r, g, cost, k)
    ensures RunEdge(r, k) in g && MixedAt(r, g, cost, root, RunEdge(r, k)) == Key(r, cost, k)
  {
    assert RunStep(r, g, cost, k);
    var e := RunEdge(r, k);
    assert JoinsAt(r, e, k);
    var j: nat :| JoinsAt(r, e, j) && MixedAt(r, g, cost, root, e) == Key(r, cost, j);
    RankIsUnique(r, root, e, j, k);
  }

  /** Leaving the first k positions, no edge is cheaper in the mixed costs than it reads from the inside. */
  lemma MixedIsDearer(r: Run, g: Graph, cost: Costs, root: nat, k: nat, i: nat, x: nat)
    requires g <= cost.Keys && Symmetric(g) && GreedyRun(r, g, cost, root) && i < k <= |r.order|
    requires x !in r.order[..k] && (r.order[i], x) in g
    ensures (x, r.order[i]) in g && cost[(r.order[i], x)] <= Mixed(r, g, cost, root)[(r.order[i], x)]
  {
    var e := Norm(r.order[i], x);
    if j: nat :| JoinsAt(r, e, j) {
      MixedIsKey(r, g, cost, root, j);
    }
  }

  /** The run is greedy for the mixed costs as well, and these do not depend on the direction. */
  lemma MixedIsGreedy(r: Run, g: Graph, cost: Costs, root: nat)
    requires g <= cost.Keys && Symmetric(g) && GreedyRun(r, g, cost, root)
    ensures GreedyRun(r, g, Mixed(r, g, cost, root), root) && SymmetricCost(g, Mixed(r, g, cost, root))
  {
    var mixed := Mixed(r, g, cost, root);
    forall k | 1 <= k < |r.order| ensures RunStep(r, g, mixed, k) {
      MixedIsKey(r, g, cost, root, k);
      var p, v := r.order[r.via[k]], r.order[k];
      assert mixed[(p, v)] == cost[(p, v)];
      forall i, x | 0 <= i < k && x !in r.order[..k] && (r.order[i], x) in g
        ensures mixed[(r.order[i], x)] >= cost[(r.order[i], x)]
      {
        MixedIsDearer(r, g, cost, root, k, i, x);
      }
    }
  }

  lemma {:induction false} MixedTotalOfRun(r: Run, g: Graph, cost: Costs, root: nat, k: nat)
    requires g <= cost.Keys && Symmetric(g) && GreedyRun(r, g, cost, root) && 1 <= k <= |r.order|
    ensures RunEdges(r, k) <= g
    ensures Total(RunEdges(r, k), Mixed(r, g, cost, root)) == KeyTotal(r, g, cost, root, k)
  {
    var mixed := Mixed(r, g, cost, root);
    if k == 1 {
      assert RunEdges(r, 1) == {};
    } else {
      MixedTotalOfRun(r, g, cost, root, k - 1);
      MixedIsKey(r, g, cost, root, k - 1);
      RunEdgesStep(r, root, k - 1);
      var e := RunEdge(r, k - 1);
      assert e !in RunEdges(r, k - 1) by {
        RunBuildsTree(r, g, cost, root, k - 1);
      }
      TotalPlus(RunEdges(r, k - 1), mixed, e);
    }
  }

  lemma {:induction false} TotalMonotone(edges: set<Edge>, cost: Costs, dear: Costs)
    requires edges <= cost.Keys && edges <= dear.Keys && forall e :: e in edges ==> cost[e] <= dear[e]
    ensures Total(edges, cost) <= Total(edges, dear)
  {
    if edges != {} {
      var e :| e in edges;
      TotalMinus(edges, cost, e);
      TotalMinus(edges, dear, e);
      TotalMonotone(edges - {e}, cost, dear);
    }
  }

  lemma MixedIsBelowDearer(r: Run, g: Graph, cost: Costs, root: nat, e: Edge)
    requires g <= cost.Keys && Symmetric(g) && GreedyRun(r, g, cost, root) && e in g && e.0 < e.1
    ensures Mixed(r, g, cost, root)[e] <= Dearer(g, cost)[e]
  {
    if k: nat :| JoinsAt(r, e, k) {
      MixedIsKey(r, g, cost, root, k);
    }
  }

  /** Whatever the two ends of an edge read: the keys of the greedy tree add up to no more than any spanning tree
      costs when each of its edges is charged the dearer of its two readings. */
  lemma KeysAreCheapest(r: Run, g: Graph, cost: Costs, root: nat, other: set<Edge>)
    requires g <= cost.Keys && Symmetric(g) && GreedyRun(r, g, cost, root) && Exhausted(r, g)
    requires IsSpanningTree(other, g, root, Joined(r, |r.order|))
    ensures IsSpanningTree(RunEdges(r, |r.order|), g, root, Joined(r, |r.order|))
    ensures KeyTotal(r, g, cost, root, |r.order|) <= Total(other, Dearer(g, cost))
  {
    var mixed := Mixed(r, g, cost, root);
    MixedIsGreedy(r, g, cost, root);
    RunIsCheapest(r, g, mixed, root, other);
    MixedTotalOfRun(r, g, cost, root, |r.order|);
    forall e | e in other ensures mixed[e] <= Dearer(g, cost)[e] {
      MixedIsBelowDearer(r, g, cost, root, e);
    }
    TotalMonotone(other, mixed, Dearer(g, cost));
  }
}

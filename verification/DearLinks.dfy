/** What one dear link does to the greedy run when all other links cost the same. */
module DearLinks {
  import opened Graphs
  import opened SpanningTrees
  import opened JoiningKeys
  import opened Routing
  import opened OwnTrees

  /** All links cost the same. */
  ghost function Flat(g: Graph): Costs {
    map e | e in g :: 0
  }

  /** ... unless they are read from x. */
  ghost predicate FlatApart(g: Graph, cost: Costs, x: nat) {
    cost.Keys == g && forall a, b :: (a, b) in g && a != x ==> cost[(a, b)] == 0
  }

  // ---------------------------------------------------------------- runs with different costs

  /** The two costs agree on what is read from the first m ranks. */
  ghost predicate AgreeUpto(r: Run, g: Graph, cost: Costs, other: Costs, m: nat)
    requires g <= cost.Keys && g <= other.Keys && m <= |r.order|
  {
    forall i, v :: 0 <= i < m && v !in r.order[..m] && (r.order[i], v) in g ==>
      cost[(r.order[i], v)] == other[(r.order[i], v)]
  }

  lemma PrefixIsGreedy(r: Run, g: Graph, cost: Costs, other: Costs, m: nat)
    requires g <= cost.Keys && g <= other.Keys && GreedyRun(r, g, cost, 0) && 1 <= m <= |r.order|
    requires forall k :: 1 <= k < m ==> AgreeUpto(r, g, cost, other, k)
    ensures GreedyRun(Run(r.order[..m], r.via[..m]), g, other, 0)
  {
    var q := Run(r.order[..m], r.via[..m]);
    forall k | 1 <= k < m ensures RunStep(q, g, other, k) {
      assert RunStep(r, g, cost, k) && AgreeUpto(r, g, cost, other, k);
      assert q.order[..k] == r.order[..k] && r.order[k] !in r.order[..k];
      forall i, x | 0 <= i < k && x !in r.order[..k] && (r.order[i], x) in g
        ensures cost[(r.order[i], x)] == other[(r.order[i], x)]
      {
      }
    }
  }

  /** A complete run for the other costs begins alike. */
  lemma RunsShare(r: Run, q: Run, g: Graph, cost: Costs, other: Costs, k: nat)
    requires g <= cost.Keys && g <= other.Keys && GreedyRun(r, g, cost, 0) && k < |r.order|
    requires GreedyRun(q, g, other, 0) && Exhausted(q, g) && r.via[0] == q.via[0]
    requires forall m :: 1 <= m <= k ==> AgreeUpto(r, g, cost, other, m)
    ensures k < |q.order| && q.order[..k + 1] == r.order[..k + 1] && q.via[..k + 1] == r.via[..k + 1]
  {
    var p := Run(r.order[..k + 1], r.via[..k + 1]);
    PrefixIsGreedy(r, g, cost, other, k + 1);
    ShorterRunIsWhole(q, p, g, other, 0);
    RunsAgree(p, q, g, other, 0, k + 1);
    assert p.order[..k + 1] == p.order && p.via[..k + 1] == p.via;
  }

  /** If all links to it cost the same, a position hangs on the first of its neighbours that joined. */
  lemma FirstNeighbour(r: Run, g: Graph, cost: Costs, k: nat, i: nat)
    requires g <= cost.Keys && GreedyRun(r, g, cost, 0) && i < k < |r.order| && (r.order[i], r.order[k]) in g
    requires forall j :: 0 <= j < k && (r.order[j], r.order[k]) in g ==> j >= i
    requires forall j :: 0 <= j < k && (r.order[j], r.order[k]) in g ==> cost[(r.order[j], r.order[k])] == 0
    ensures r.via[k] == i
  {
    assert RunStep(r, g, cost, k);
    assert r.order[k] !in r.order[..k];
  }

  /** ... and no neighbour of it joined before that one. */
  lemma NoEarlierNeighbour(r: Run, g: Graph, cost: Costs, k: nat, j: nat)
    requires g <= cost.Keys && GreedyRun(r, g, cost, 0) && 1 <= k < |r.order| && j < r.via[k]
    requires (r.order[r.via[k]], r.order[k]) in g && cost[(r.order[r.via[k]], r.order[k])] >= 0
    requires (r.order[j], r.order[k]) in g ==> cost[(r.order[j], r.order[k])] <= 0
    ensures (r.order[j], r.order[k]) !in g
  {
    assert RunStep(r, g, cost, k);
    assert r.order[k] !in r.order[..k];
  }

  /** Some edge leads from the first k positions towards a position outside. */
  lemma WayOut(r: Run, h: Graph, k: nat, x: nat, c: nat) returns (i: nat, b: nat)
    requires k <= |r.order| && x in r.order[..k] && c !in r.order[..k] && Reach(h, x, c)
    ensures i < k && b !in r.order[..k] && (r.order[i], b) in h
  {
    var s := Joined(r, k);
    var a;
    a, b := CrossingEdge(h, x, s, c);
    i :| 0 <= i < k && r.order[i] == a;
  }

  /** A dear link is not used if there is a way around it and everything else is cheap. */
  lemma DearIsAvoided(r: Run, g: Graph, cost: Costs, x: nat, c: nat, k: nat)
    requires g <= cost.Keys && GreedyRun(r, g, cost, 0) && 1 <= k < |r.order| && r.order[k] == c
    requires (x, c) in g && cost[(x, c)] > 0 && Reach(Cut(g, x, c), x, c)
    requires forall e :: e in g && e != (x, c) ==> cost[e] <= 0
    ensures r.order[r.via[k]] != x
  {
    assert RunStep(r, g, cost, k);
    if r.order[r.via[k]] == x {
      assert r.order[..k][r.via[k]] == x;
      var i, b := WayOut(r, Cut(g, x, c), k, x, c);
    }
  }

  // ---------------------------------------------------------------- a dear link home

  lemma {:induction false} TotalAtMost(edges: set<Edge>, cost: Costs)
    requires edges <= cost.Keys && forall e :: e in edges ==> cost[e] <= 0
    ensures Total(edges, cost) <= 0
  {
    if edges != {} {
      var e :| e in edges;
      TotalMinus(edges, cost, e);
      TotalAtMost(edges - {e}, cost);
    }
  }

  /** Only one edge can cost less than 0, and not much less. */
  lemma {:induction false} TotalAtLeast(edges: set<Edge>, cost: Costs, f: Edge)
    requires edges <= cost.Keys && forall e :: e in edges ==> cost[e] >= if e == f then -10 else 0
    ensures Total(edges, cost) >= if f in edges then -10 else 0
  {
    if edges != {} {
      var e :| e in edges;
      TotalMinus(edges, cost, e);
      TotalAtLeast(edges - {e}, cost, f);
    }
  }

  /** Without one of two links home everybody is still connected. */
  lemma CutKeepsComponent(g: Graph, comp: set<nat>, x: nat, p: nat, q: nat)
    requires Symmetric(g) && (x, x) !in g && IsComponent(g, 0, comp)
    requires Behind(g, x, p, 0) && Behind(g, x, q, 0) && p != q
    ensures IsComponent(Cut(g, p, x), 0, comp)
  {
    var h := Cut(g, p, x);
    HomeWithout(g, h, x, p);
    HomeWithout(g, h, x, q);
    ReachEdge(h, q, x);
    ReachTrans(h, 0, q, x);
    var near := set v | v in comp && Reach(h, 0, v);
    ReachSelf(h, 0);
    ReachSelf(g, 0);
    assert Closed(g, near) by {
      forall a, b | (a, b) in g && a in near ensures b in near {
        ReachEdge(g, a, b);
        ReachTrans(g, 0, a, b);
        if (a, b) in h {
          ReachEdge(h, a, b);
          ReachTrans(h, 0, a, b);
        }
      }
    }
    forall v ensures v in comp <==> Reach(h, 0, v) {
      if v in comp {
        ClosedKeepsReach(g, near, 0, v);
      }
      if Reach(h, 0, v) {
        ReachMonotone(h, g, 0, v);
      }
    }
  }

  /** The way home from a neighbour of x does not need x. */
  lemma HomeWithout(g: Graph, h: Graph, x: nat, p: nat)
    requires Symmetric(g) && (x, x) !in g && Behind(g, x, p, 0) && h <= g && Symmetric(h)
    requires forall a, b :: (a, b) in g && a != x && b != x ==> (a, b) in h
    ensures Reach(h, 0, p)
  {
    var w :| WalkBetween(Shut(g, {x}), p, 0, w);
    ShutWalk(g, x, w);
    assert WalkBetween(h, p, 0, w);
    ReachReversed(h, p, 0);
  }

  /** The costs of a node at x that finds one link dear, one boosted, and the rest alike. */
  ghost predicate DearAt(g: Graph, cost: Costs, x: nat, dear: nat, z: nat) {
    && FlatApart(g, cost, x) && dear != z
    && forall v :: (x, v) in g ==> cost[(x, v)] == if v == dear then 99 else if v == z then -10 else 0
  }

  lemma OwnOfDear(g: Graph, cost: Costs, x: nat, dear: nat, z: nat, e: Edge)
    requires Symmetric(g) && (x, x) !in g && DearAt(g, cost, x, dear, z) && e in g && e.0 < e.1
    ensures OwnReadings(g, cost, x)[e] ==
              if e == Norm(dear, x) then 99 else if e == Norm(x, z) then -10 else 0
  {
  }

  lemma TreeWithout(g: Graph, comp: set<nat>, x: nat, p: nat, q: nat) returns (other: set<Edge>)
    requires Symmetric(g) && (x, x) !in g && IsComponent(g, 0, comp)
    requires Behind(g, x, p, 0) && Behind(g, x, q, 0) && p != q
    ensures IsSpanningTree(other, g, 0, comp) && Norm(p, x) !in other
  {
    var h := Cut(g, p, x);
    CutKeepsComponent(g, comp, x, p, q);
    SingletonTree(h, 0);
    ReachSelf(h, 0);
    other := GrowTree(h, 0, {}, {0}, comp);
  }

  lemma OwnTotals(g: Graph, cost: Costs, x: nat, p: nat, z: nat, tree: set<Edge>, other: set<Edge>)
    requires Symmetric(g) && (x, x) !in g && g == cost.Keys && DearAt(g, cost, x, p, z)
    requires IsEdgeSet(tree) && IsEdgeSet(other) && tree <= g && other <= g
    requires Norm(p, x) in tree && Norm(p, x) !in other
    ensures Total(other, OwnReadings(g, cost, x)) < Total(tree, OwnReadings(g, cost, x))
  {
    var f, own := Norm(p, x), OwnReadings(g, cost, x);
    forall e | e in g && e.0 < e.1 ensures own[e] == if e == f then 99 else if e == Norm(x, z) then -10 else 0 {
      OwnOfDear(g, cost, x, p, z, e);
    }
    TotalAtMost(other, own);
    TotalMinus(tree, own, f);
    TotalAtLeast(tree - {f}, own, Norm(x, z));
  }

  /** If the tree reaches x by a link that x finds dear, and there is another way home, some tree is cheaper. */
  lemma DearHomeIsNotCheapest(r: Run, g: Graph, cost: Costs, x: nat, k: nat, q: nat, z: nat)
    requires Symmetric(g) && (x, x) !in g && g == cost.Keys && GreedyRun(r, g, cost, 0) && Exhausted(r, g)
    requires 1 <= k < |r.order| && r.order[k] == x && DearAt(g, cost, x, r.order[r.via[k]], z)
    requires Behind(g, x, q, 0) && q != r.order[r.via[k]]
    ensures !CheapestByOwn(r, g, cost, x)
  {
    var p, comp, tree := r.order[r.via[k]], Joined(r, |r.order|), RunEdges(r, |r.order|);
    RunCoversComponent(r, g, cost, 0);
    assert RunStep(r, g, cost, k);
    JoinedIsHome(r, g, cost, x, k, r.via[k]);
    var other := TreeWithout(g, comp, x, p, q);
    assert RunEdge(r, k) in tree;
    OwnTotals(g, cost, x, p, z, tree, other);
  }
}

/** When the tree of the greedy run is a cheapest one by the readings of the node that builds it. */
module OwnTrees {
  import opened Graphs
  import opened SpanningTrees
  import opened JoiningKeys
  import opened Routing

  /** Both ends of an edge read the same cost, unless one of them is x. */
  ghost predicate SymmetricApart(g: Graph, cost: Costs, x: nat)
    requires g <= cost.Keys
  {
    forall a, b :: (a, b) in g && (b, a) in g && a != x && b != x ==> cost[(a, b)] == cost[(b, a)]
  }

  /** Position 0 lies behind at most one neighbour of x: there is one way home. It lies behind none if x is 0 itself
      or not connected to it. */
  ghost predicate OneWayHome(g: Graph, x: nat) {
    forall p, q :: Behind(g, x, p, 0) && Behind(g, x, q, 0) ==> p == q
  }

  /** No spanning tree is cheaper by the readings of x. */
  ghost predicate CheapestByOwn(r: Run, g: Graph, cost: Costs, x: nat)
    requires g <= cost.Keys && Symmetric(g) && RunShape(r, 0)
  {
    && RunEdges(r, |r.order|) <= g
    && forall other :: IsSpanningTree(other, g, 0, Joined(r, |r.order|)) ==>
         Total(RunEdges(r, |r.order|), OwnReadings(g, cost, x)) <= Total(other, OwnReadings(g, cost, x))
  }

  /** The readings of x, except that the link between p and x is read from p. */
  ghost function ReadFrom(g: Graph, cost: Costs, x: nat, p: nat): (c: Costs)
    requires g <= cost.Keys && Symmetric(g)
    ensures c.Keys == g
  {
    map e | e in g ::
      if e == (x, p) then cost[(p, x)]
      else if e.1 == x && e.0 != p then cost[(x, e.0)]
      else cost[e]
  }

  lemma ReadFromIsSymmetric(g: Graph, cost: Costs, x: nat, p: nat)
    requires g <= cost.Keys && Symmetric(g) && SymmetricApart(g, cost, x)
    ensures SymmetricCost(g, ReadFrom(g, cost, x, p))
  {
  }

  /** Before x joins, whoever hears x and has joined is a way home. */
  lemma JoinedIsHome(r: Run, g: Graph, cost: Costs, x: nat, k: nat, i: nat)
    requires g <= cost.Keys && Symmetric(g) && GreedyRun(r, g, cost, 0) && i < k <= |r.order|
    requires x !in r.order[..k] && (r.order[i], x) in g
    ensures Behind(g, x, r.order[i], 0)
  {
    RunBuildsTree(r, g, cost, 0, k);
    var tree := Both(RunEdges(r, k));
    assert r.order[i] in Joined(r, k);
    assert forall v :: v in Joined(r, k) ==> v in r.order[..k];
    ReachReversed(tree, 0, r.order[i]);
    assert tree <= Shut(g, {x});
    ReachMonotone(tree, Shut(g, {x}), r.order[i], 0);
  }

  /** Once x has joined, so has a way home. */
  lemma HomeHasJoined(r: Run, g: Graph, cost: Costs, x: nat, k: nat, i: nat)
    requires g <= cost.Keys && Symmetric(g) && GreedyRun(r, g, cost, 0) && 1 <= i < k <= |r.order| && r.order[i] == x
    ensures exists p :: p in r.order[..k] && Behind(g, x, p, 0)
  {
    assert RunStep(r, g, cost, i);
    JoinedIsHome(r, g, cost, x, i, r.via[i]);
    assert r.order[..k][r.via[i]] == r.order[r.via[i]];
  }

  /** p is the one way home of x, or x itself if there is none. */
  ghost predicate IsHome(g: Graph, x: nat, p: nat) {
    && (x, x) !in g && (p == x || Behind(g, x, p, 0)) && forall q :: Behind(g, x, q, 0) ==> q == p
  }

  lemma NoWayHomeFromHome(g: Graph, x: nat, p: nat)
    requires (x, x) !in g
    ensures Behind(g, x, p, 0) ==> x != 0
  {
    if Behind(g, x, p, 0) {
      var w :| WalkBetween(Shut(g, {x}), p, 0, w);
      ShutWalk(g, x, w);
    }
  }

  /** No step of the run reads the link home from x. */
  lemma StepReadsSame(r: Run, g: Graph, cost: Costs, x: nat, p: nat, k: nat, i: nat, v: nat)
    requires g <= cost.Keys && Symmetric(g) && GreedyRun(r, g, cost, 0) && i < k <= |r.order|
    requires v !in r.order[..k] && (r.order[i], v) in g && IsHome(g, x, p)
    ensures ReadFrom(g, cost, x, p)[(r.order[i], v)] == cost[(r.order[i], v)]
  {
    if v == x {
      JoinedIsHome(r, g, cost, x, k, i);
    } else if r.order[i] == x && v == p {
      NoWayHomeFromHome(g, x, p);
      HomeHasJoined(r, g, cost, x, k, i);
    }
  }

  lemma RunIsGreedyFrom(r: Run, g: Graph, cost: Costs, x: nat, p: nat)
    requires g <= cost.Keys && Symmetric(g) && GreedyRun(r, g, cost, 0) && IsHome(g, x, p)
    ensures GreedyRun(r, g, ReadFrom(g, cost, x, p), 0)
  {
    var c := ReadFrom(g, cost, x, p);
    forall k | 1 <= k < |r.order| ensures RunStep(r, g, c, k) {
      assert RunStep(r, g, cost, k);
      StepReadsSame(r, g, cost, x, p, k, r.via[k], r.order[k]);
      forall i, v | 0 <= i < k && v !in r.order[..k] && (r.order[i], v) in g
        ensures c[(r.order[i], v)] == cost[(r.order[i], v)]
      {
        StepReadsSame(r, g, cost, x, p, k, i, v);
      }
    }
  }

  /** Every spanning tree uses the one way home. */
  lemma HomeIsBridge(g: Graph, x: nat, p: nat, comp: set<nat>, tree: set<Edge>)
    requires Symmetric(g) && IsHome(g, x, p) && p != x && IsSpanningTree(tree, g, 0, comp) && x in comp
    ensures Norm(p, x) in tree
  {
    NoWayHomeFromHome(g, x, p);
    var h := Both(tree);
    ReachReversed(h, 0, x);
    var w :| WalkBetween(h, x, 0, w);
    var i := BranchExists(h, x, 0, w);
    ReachMonotone(Shut(h, {x}), Shut(g, {x}), w[i + 1], 0);
    assert Behind(g, x, w[i + 1], 0);
  }

  lemma TotalSame(edges: set<Edge>, cost: Costs, other: Costs)
    requires edges <= cost.Keys && edges <= other.Keys && forall e :: e in edges ==> cost[e] == other[e]
    ensures Total(edges, cost) == Total(edges, other)
  {
    TotalMonotone(edges, cost, other);
    TotalMonotone(edges, other, cost);
  }

  /** How the two ways of reading a spanning tree differ: by the link home only. */
  lemma TotalApart(g: Graph, cost: Costs, x: nat, p: nat, comp: set<nat>, tree: set<Edge>)
    requires g <= cost.Keys && Symmetric(g) && IsHome(g, x, p) && IsSpanningTree(tree, g, 0, comp)
    requires p != x ==> x in comp
    ensures Total(tree, OwnReadings(g, cost, x)) == Total(tree, ReadFrom(g, cost, x, p)) +
              if p == x then 0 else OwnReadings(g, cost, x)[Norm(p, x)] - ReadFrom(g, cost, x, p)[Norm(p, x)]
  {
    var own, from := OwnReadings(g, cost, x), ReadFrom(g, cost, x, p);
    if p == x {
      TotalSame(tree, own, from);
    } else {
      var f := Norm(p, x);
      HomeIsBridge(g, x, p, comp, tree);
      TotalMinus(tree, own, f);
      TotalMinus(tree, from, f);
      TotalSame(tree - {f}, own, from);
    }
  }

  /** With at most one way home the tree is a cheapest one by the readings of x, whatever these are. */
  lemma OneWayHomeIsCheapest(r: Run, g: Graph, cost: Costs, x: nat)
    requires g <= cost.Keys && Symmetric(g) && (x, x) !in g && SymmetricApart(g, cost, x)
    requires GreedyRun(r, g, cost, 0) && Exhausted(r, g) && OneWayHome(g, x)
    ensures CheapestByOwn(r, g, cost, x)
  {
    var p := if q: nat :| Behind(g, x, q, 0) then q else x;
    var c, comp := ReadFrom(g, cost, x, p), Joined(r, |r.order|);
    RunIsGreedyFrom(r, g, cost, x, p);
    ReadFromIsSymmetric(g, cost, x, p);
    RunCoversComponent(r, g, cost, 0);
    if p != x {
      HomeReaches(g, x, p);
    }
    TotalApart(g, cost, x, p, comp, RunEdges(r, |r.order|));
    forall other | IsSpanningTree(other, g, 0, comp)
      ensures Total(RunEdges(r, |r.order|), OwnReadings(g, cost, x)) <= Total(other, OwnReadings(g, cost, x))
    {
      RunIsCheapest(r, g, c, 0, other);
      TotalApart(g, cost, x, p, comp, other);
    }
  }

  lemma HomeReaches(g: Graph, x: nat, p: nat)
    requires Symmetric(g) && Behind(g, x, p, 0)
    ensures Reach(g, 0, x)
  {
    ReachMonotone(Shut(g, {x}), g, p, 0);
    ReachReversed(g, p, 0);
    ReachEdge(g, p, x);
    ReachTrans(g, 0, p, x);
  }
}

/** Which trees Prim can build: a run exists for all tables, and measurements can be found that make it build any
    spanning tree of the component of position 0. */
module TreeChoice {
  import opened Base
  import opened Graphs
  import opened SpanningTrees
  import opened Prim

  // ---------------------------------------------------------------- a complete run exists

  /** The rank of a joined position. */
  ghost function RankOf(r: Run, u: nat): (i: nat)
    requires u in r.order
    ensures i < |r.order| && r.order[i] == u
  {
    var i: nat :| i < |r.order| && r.order[i] == u;
    i
  }

  /** Edges leaving the joined positions. */
  ghost function Leaving(r: Run, g: Graph): set<Edge> {
    set e | e in g && e.0 in r.order && e.1 !in r.order
  }

  /** The order in which the loop prefers edges: cost, then new position, then rank of the joined end. */
  ghost predicate Before(r: Run, cost: Costs, e: Edge, f: Edge)
    requires e in cost && f in cost && e.0 in r.order && f.0 in r.order
  {
    || cost[e] < cost[f]
    || (cost[e] == cost[f] && e.1 < f.1)
    || (cost[e] == cost[f] && e.1 == f.1 && RankOf(r, e.0) <= RankOf(r, f.0))
  }

  lemma {:induction false} FirstEdge(r: Run, cost: Costs, edges: set<Edge>) returns (e: Edge)
    requires edges != {} && edges <= cost.Keys && forall f :: f in edges ==> f.0 in r.order
    ensures e in edges && forall f :: f in edges ==> Before(r, cost, e, f)
  {
    var x :| x in edges;
    var rest := edges - {x};
    e := x;
    if rest != {} {
      var y := FirstEdge(r, cost, rest);
      e := if Before(r, cost, x, y) then x else y;
    }
    forall f | f in edges ensures Before(r, cost, e, f) {
      assert f == x || f in rest;
    }
  }

  /** A run that can go on has a next step. */
  lemma NextStep(r: Run, g: Graph, cost: Costs, root: nat) returns (q: Run)
    requires g <= cost.Keys && GreedyRun(r, g, cost, root) && !Exhausted(r, g)
    ensures GreedyRun(q, g, cost, root) && |q.order| == |r.order| + 1 && q.via[0] == r.via[0]
    ensures q.order[|r.order|] !in r.order && exists u :: u in r.order && (u, q.order[|r.order|]) in g
  {
    var u, x :| u in r.order && (u, x) in g && x !in r.order;
    assert (u, x) in Leaving(r, g);
    var e := FirstEdge(r, cost, Leaving(r, g));
    var n, rank := |r.order|, RankOf(r, e.0);
    q := Run(r.order + [e.1], r.via + [rank]);
    forall k | 1 <= k < |q.order| ensures RunStep(q, g, cost, k) {
      if k < n {
        assert RunStep(r, g, cost, k);
        assert q.order[..k] == r.order[..k];
      } else {
        assert q.order[..n] == r.order;
        forall i, y | 0 <= i < n && y !in r.order && (q.order[i], y) in g
          ensures Before(r, cost, e, (q.order[i], y)) && RankOf(r, q.order[i]) == i
        {
          assert (q.order[i], y) in Leaving(r, g);
          assert r.order[RankOf(r, q.order[i])] == r.order[i];
        }
      }
    }
  }

  lemma {:induction false} FinishRun(r: Run, g: Graph, cost: Costs, root: nat, vertices: set<nat>) returns (q: Run)
    requires g <= cost.Keys && GreedyRun(r, g, cost, root)
    requires forall e :: e in g ==> e.1 in vertices
    ensures GreedyRun(q, g, cost, root) && Exhausted(q, g) && q.via[0] == r.via[0]
    decreases vertices - Elements(r.order)
  {
    if Exhausted(r, g) {
      q := r;
    } else {
      var next := NextStep(r, g, cost, root);
      var v := next.order[|r.order|];
      assert v in vertices && v !in Elements(r.order) && v in Elements(next.order);
      forall x | x in r.order ensures x in next.order {
        RunsAgree(r, next, g, cost, root, |r.order|);
        assert r.order == r.order[..|r.order|] == next.order[..|r.order|];
      }
      assert vertices - Elements(next.order) < vertices - Elements(r.order);
      q := FinishRun(next, g, cost, root, vertices);
    }
  }

  /** For all tables there is a complete run. */
  lemma RunExists(net: Net) returns (run: Run)
    requires net.Square()
    ensures IsPrimRun(net, run)
  {
    var g, cost := HeardGraph(net), EdgeCosts(net);
    var start := Run([0], [0]);
    assert GreedyRun(start, g, cost, 0);
    run := FinishRun(start, g, cost, 0, Below(|net.link|));
  }

  // ---------------------------------------------------------------- measurements for a given tree

  /** A quality that costs 0 for a tree edge and 50 for any other, the penalty for one-way links made up for. */
  function SteeredAt(link: seq<seq<Byte>>, inTree: bool, u: nat, v: nat): Byte
    requires u < |link| && v < |link| && v < |link[u]| && u < |link[v]|
  {
    var q := if inTree then 100 else 50;
    if link[u][v] != 0 && link[v][u] != 0 then q else q + 20
  }

  ghost function Steered(link: seq<seq<Byte>>, tree: set<Edge>): (net: Net)
    requires forall i :: 0 <= i < |link| ==> |link[i]| == |link|
    ensures net.Square() && net.link == link
  {
    Net(link, seq(|link|, u requires 0 <= u < |link| =>
      seq(|link|, v requires 0 <= v < |link| => SteeredAt(link, Norm(u, v) in tree, u, v))))
  }

  lemma SteeredCost(link: seq<seq<Byte>>, tree: set<Edge>, e: Edge)
    requires forall i :: 0 <= i < |link| ==> |link[i]| == |link|
    requires e in HeardGraph(Steered(link, tree))
    ensures EdgeCosts(Steered(link, tree))[e] == if Norm(e.0, e.1) in tree then 0 else 50
  {
    var net := Steered(link, tree);
    assert net.quality[e.0][e.1] == SteeredAt(link, Norm(e.0, e.1) in tree, e.0, e.1);
  }

  lemma {:induction false} FreeTotal(edges: set<Edge>, cost: Costs)
    requires edges <= cost.Keys && forall e :: e in edges ==> cost[e] >= 0
    ensures Total(edges, cost) >= 0
    ensures Total(edges, cost) == 0 <==> forall e :: e in edges ==> cost[e] == 0
  {
    if edges != {} {
      var e :| e in edges;
      TotalMinus(edges, cost, e);
      FreeTotal(edges - {e}, cost);
      if f :| f in edges && cost[f] != 0 {
        assert f == e || f in edges - {e};
      }
    }
  }

  /** For every spanning tree of the component of position 0 there are measurements for which Prim builds it. */
  lemma EveryTreeIsBuilt(link: seq<seq<Byte>>, tree: set<Edge>, comp: set<nat>) returns (net: Net, run: Run)
    requires forall i :: 0 <= i < |link| ==> |link[i]| == |link|
    requires IsSpanningTree(tree, HeardGraph(Net(link, link)), 0, comp)
    requires IsComponent(HeardGraph(Net(link, link)), 0, comp)
    ensures net.Square() && net.link == link && IsPrimRun(net, run) && RunEdges(run, |run.order|) == tree
  {
    net := Steered(link, tree);
    run := RunExists(net);
    var g, cost, edges := HeardGraph(net), EdgeCosts(net), RunEdges(run, |run.order|);
    assert g == HeardGraph(Net(link, link));
    forall e | e in g ensures cost[e] == if Norm(e.0, e.1) in tree then 0 else 50 {
      SteeredCost(link, tree, e);
    }
    PrimTreeSpans(net, run);
    assert Joined(run, |run.order|) == comp;
    PrimIsMinimum(net, run, tree);
    FreeTotal(tree, cost);
    FreeTotal(edges, cost);
    forall e | e in edges ensures e in tree {
      assert cost[e] == 0;
    }
    SpanningPartIsAll(tree, edges, 0, comp);
  }
}

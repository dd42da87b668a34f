/** What a link costs: whose measurement counts, and what it costs to be heard in one direction only. */
module LinkCosts {
  import opened Base
  import opened Graphs
  import opened SpanningTrees
  import opened Prim

  ghost predicate Between(net: Net, u: nat, v: nat) {
    net.Square() && u < |net.link| && v < |net.link|
  }

  ghost predicate TwoWayLink(net: Net, u: nat, v: nat)
    requires Between(net, u, v)
  {
    net.link[u][v] != 0 && net.link[v][u] != 0
  }

  /** A link exists for Prim as soon as one end hears the other. */
  lemma OneDirectionSuffices(net: Net, u: nat, v: nat)
    requires Between(net, u, v) && u != v
    ensures (u, v) in HeardGraph(net) <==> net.link[u][v] != 0 || net.link[v][u] != 0
    ensures (u, v) in HeardGraph(net) <==> (v, u) in HeardGraph(net)
  {
  }

  /** Attaching v to u, the measurement that u has of v decides alone, if there is one, whatever v measured, also over
      a link heard in one direction only, whichever this is. */
  lemma OwnReadingDecides(a: Net, b: Net, u: nat, v: nat)
    requires Between(a, u, v) && Between(b, u, v) && TwoWayLink(a, u, v) == TwoWayLink(b, u, v)
    requires a.quality[u][v] == b.quality[u][v] != 0
    ensures EdgeCost(a, u, v) == EdgeCost(b, u, v)
  {
  }

  /** If u has none, that of v stands in for it; if neither has one, the default of 100. */
  lemma OtherReadingStandsIn(a: Net, b: Net, u: nat, v: nat)
    requires Between(a, u, v) && Between(b, u, v) && TwoWayLink(a, u, v) == TwoWayLink(b, u, v)
    requires a.quality[u][v] == 0 && b.quality[u][v] == if a.quality[v][u] == 0 then 100 else a.quality[v][u]
    ensures EdgeCost(a, u, v) == EdgeCost(b, u, v)
  {
  }

  /** The same measurement costs 20 more over a link heard in one direction only, if it is above 20, and each unit by
      which it is better costs one less. */
  lemma OneWayCostsTwenty(a: Net, b: Net, u: nat, v: nat)
    requires Between(a, u, v) && Between(b, u, v) && TwoWayLink(a, u, v)
    requires a.quality[u][v] != 0 && b.quality[u][v] != 0
    ensures TwoWayLink(b, u, v) ==>
              EdgeCost(b, u, v) + b.quality[u][v] == EdgeCost(a, u, v) + a.quality[u][v]
    ensures !TwoWayLink(b, u, v) && b.quality[u][v] == a.quality[u][v] ==>
              EdgeCost(b, u, v) == EdgeCost(a, u, v) + if a.quality[u][v] > 20 then 20 else 0
    ensures a.quality[u][v] == 100 ==> EdgeCost(a, u, v) == 0
  {
  }

  // ---------------------------------------------------------------- three nodes, one of which has restarted

  /** What node 2 of three holds that all heard each other, after the first beacon of node 3 since it restarted: the
      row of node 3 is empty, the measurements are still there. */
  const RESTARTED := Net([[0, 1, 1], [1, 0, 1], [0, 0, 0]], [[0, 100, 100], [110, 0, 110], [100, 100, 0]])

  function RestartedLink(i: nat, j: nat): Byte {
    if i == j || i == 2 then 0 else 1
  }

  function RestartedQuality(i: nat, j: nat): Byte {
    if i == j then 0 else if i == 1 then 110 else 100
  }

  lemma RestartedCells()
    ensures RESTARTED.Square() && |RESTARTED.link| == 3
    ensures forall i: nat, j: nat :: i < 3 && j < 3 ==>
              RESTARTED.link[i][j] == RestartedLink(i, j) && RESTARTED.quality[i][j] == RestartedQuality(i, j)
  {
    var net := RESTARTED;
    assert |net.link| == 3 && net.link[0] == [0, 1, 1] && net.link[1] == [1, 0, 1] && net.link[2] == [0, 0, 0];
    assert net.quality[0] == [0, 100, 100] && net.quality[1] == [110, 0, 110] && net.quality[2] == [100, 100, 0];
  }

  const RESTART_RUN := Run([0, 1, 2], [0, 0, 1])

  lemma RestartedCosts()
    ensures RESTARTED.Square()
    ensures HeardGraph(RESTARTED) == {(0, 1), (1, 0), (0, 2), (2, 0), (1, 2), (2, 1)}
    ensures EdgeCost(RESTARTED, 0, 1) == 0 && EdgeCost(RESTARTED, 0, 2) == 20 && EdgeCost(RESTARTED, 1, 2) == 10
  {
    RestartedCells();
  }

  /** Where position 2 is cheapest from position 1. */
  ghost predicate CheapestFromOne(g: Graph, cost: Costs) {
    && cost.Keys == g == {(0, 1), (1, 0), (0, 2), (2, 0), (1, 2), (2, 1)}
    && cost[(0, 1)] < cost[(0, 2)] && cost[(1, 2)] < cost[(0, 2)]
  }

  lemma RestartSteps(g: Graph, cost: Costs)
    requires CheapestFromOne(g, cost)
    ensures RunStep(RESTART_RUN, g, cost, 1) && RunStep(RESTART_RUN, g, cost, 2)
  {
    var order := RESTART_RUN.order;
    assert order[..1] == [0] && order[..2] == [0, 1];
  }

  lemma RestartIsGreedy(g: Graph, cost: Costs)
    requires CheapestFromOne(g, cost)
    ensures GreedyRun(RESTART_RUN, g, cost, 0) && Exhausted(RESTART_RUN, g)
  {
    RestartSteps(g, cost);
    assert RESTART_RUN.order[0] == 0 && RESTART_RUN.order[1] == 1 && RESTART_RUN.order[2] == 2;
  }

  lemma RestartEdges()
    ensures RunShape(RESTART_RUN, 0) && RunEdges(RESTART_RUN, 3) == {(0, 1), (1, 2)}
  {
    assert RunEdge(RESTART_RUN, 1) == (0, 1) && RunEdge(RESTART_RUN, 2) == (1, 2);
  }

  /** Node 3 hangs on node 2, which has just heard it better than the default. */
  lemma RestartedRun()
    ensures RESTARTED.Square() && IsPrimRun(RESTARTED, RESTART_RUN)
  {
    RestartedCosts();
    RestartIsGreedy(HeardGraph(RESTARTED), EdgeCosts(RESTARTED));
  }

  lemma RestartTree()
    ensures RunShape(RESTART_RUN, 0)
    ensures var g := Both(RunEdges(RESTART_RUN, 3));
            Forest(g) && (1, 2) in g && forall e :: e in g ==> e.0 < 3 && e.1 < 3
  {
    RestartedRun();
    RestartEdges();
    RestartedCells();
    PrimTreeSpans(RESTARTED, RESTART_RUN);
  }
}

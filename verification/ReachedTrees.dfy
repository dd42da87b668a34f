/** Settled networks reached by runs: a triangle in which Prim misses the cheapest tree by the node's own readings and
    in which a sweep leaves the routes out of step, and five nodes that send a packet back and forth. */
module ReachedTrees {
  import opened Base
  import opened Graphs
  import opened SpanningTrees
  import opened Prim
  import opened NetworkNets
  import opened SettledTrees
  import opened MeasuredRows
  import opened Readings
  import opened Routing
  import opened Delivery
  import opened PerNodeTrees
  import opened Topology
  import opened TopologyRuns
  import opened Settling
  import opened RoutesAfterSweep

  /** A run of beacons leads node 3 of the triangle to the tables of OwnReadingsMissMinimum. */
  lemma TriangleIsReached()
    ensures IsRead(TRIANGLE.Ids(), 3, SettledNet(TRIANGLE, 3))
  {
    TriangleLinks();
    SettledIsRead(TRIANGLE, 3, 1);
  }

  // ---------------------------------------------------------------- a sweep

  /** After the run h the routes are those of the tree Prim builds, and the sweep at time now leaves them out of
      step. */
  ghost predicate SweptOutOfStep(h: History, run: Run, table: seq<Route>, now: int) {
    && HistoryOk(h) && IsPrimRun(NetOfState(After(h)), run)
    && TableFor(Both(RunEdges(run, |run.order|)), After(h).ids, IndexOf(After(h).ids, h.me), table)
    && !InStep(Both(RunEdges(run, |run.order|)), Sweep(After(h), now).ids, h.me, table)
  }

  lemma TriangleForest()
    ensures Forest(Both(RunEdges(TRIANGLE_RUN, 3)))
  {
    TriangleRun();
    PrimTreeSpans(SettledNet(TRIANGLE, 3), TRIANGLE_RUN);
  }

  lemma AllReached(g: Graph)
    requires (2, 0) in g && (0, 1) in g
    ensures forall q: nat :: q < 3 ==> Reach(g, 2, q)
  {
    ReachSelf(g, 2);
    ReachEdge(g, 2, 0);
    ReachEdge(g, 0, 1);
    ReachTrans(g, 2, 0, 1);
  }

  lemma TriangleTree()
    ensures GraphOn(Both(RunEdges(TRIANGLE_RUN, 3)), 3)
    ensures forall q: nat :: q < 3 ==> Reach(Both(RunEdges(TRIANGLE_RUN, 3)), 2, q)
  {
    TriangleEdges();
    AllReached(Both(RunEdges(TRIANGLE_RUN, 3)));
  }

  lemma OldestGoes(t: Topo, g: Graph, table: seq<Route>)
    requires Topology.Valid(t) && t.me == 3 && t.ids == TRIANGLE.Ids() && Forest(g) && GraphOn(g, 3)
    requires TableFor(g, t.ids, 2, table) && forall q: nat :: q < 3 ==> Reach(g, 2, q)
    ensures 1 in t.created && !InStep(g, Sweep(t, t.created[1] + MAX_AGE).ids, 3, table)
  {
    assert t.ids[0] == 1 && t.ids[2] == 3;
    IndexOfDistinct(t.ids, 2);
    ConnectedInStep(t, t.created[1] + MAX_AGE, g, table);
  }

  lemma SettledBreaksStep(t: Topo) returns (table: seq<Route>)
    requires Topology.Valid(t) && t.me == 3 && t.ids == TRIANGLE.Ids()
    ensures 1 in t.created && TableFor(Both(RunEdges(TRIANGLE_RUN, 3)), t.ids, IndexOf(t.ids, 3), table)
    ensures !InStep(Both(RunEdges(TRIANGLE_RUN, 3)), Sweep(t, t.created[1] + MAX_AGE).ids, 3, table)
  {
    var g := Both(RunEdges(TRIANGLE_RUN, 3));
    TriangleForest();
    TriangleTree();
    table := TableExists(g, t.ids, 2);
    assert t.ids[2] == 3;
    IndexOfDistinct(t.ids, 2);
    OldestGoes(t, g, table);
  }

  /** There is a run of beacons, with the tree and the routes it leaves, and a sweep that removes a node, after
      which the routes are not the ones that a recompute would give. */
  lemma SweepCanBreakStep()
    ensures exists h, table, now :: SweptOutOfStep(h, TRIANGLE_RUN, table, now)
  {
    TriangleLinks();
    var h := SettledIsReached(TRIANGLE, 3, 1);
    var t := After(h);
    SettledReadings(TRIANGLE, 3, t);
    TriangleRun();
    var table := SettledBreaksStep(t);
    var swept := SweptOutOfStep(h, TRIANGLE_RUN, table, t.created[1] + MAX_AGE);
  }

  // ---------------------------------------------------------------- five nodes

  /** Each of the five nodes is led to its own settled tables by some run of beacons. */
  lemma FiveIsReached(me: Id)
    requires FIVE.Has(me)
    ensures IsRead(FIVE.Ids(), me, SettledNet(FIVE, me))
  {
    FiveLinks();
    var y := if me == 1 || me == 4 || me == 5 then 3 else if me == 2 then 4 else 1;
    SettledIsRead(FIVE, me, y);
  }

  /** The five nodes with their own measurements. */
  ghost function FiveNets(): (nets: seq<Net>)
    ensures |nets| == 5
  {
    seq(5, x requires 0 <= x < 5 => SettledNet(FIVE, x + 1))
  }

  lemma FiveNodes() returns (runs: seq<Run>, tables: seq<seq<Route>>)
    ensures Nodes(LinksOf(FIVE), FIVE.Ids(), FiveNets(), runs, tables)
  {
    runs, tables := NodesFor(LinksOf(FIVE), FIVE.Ids(), FiveNets());
  }

  lemma RunAtNode1(runs: seq<Run>, tables: seq<seq<Route>>)
    requires Nodes(LinksOf(FIVE), FIVE.Ids(), FiveNets(), runs, tables)
    ensures runs[0] == RUN_OF_1
  {
    RunOf1();
    assert FiveNets()[0] == SettledNet(FIVE, 1);
    RunOfNode(LinksOf(FIVE), FIVE.Ids(), FiveNets(), runs, tables, 0, RUN_OF_1);
  }

  lemma RunAtNode5(runs: seq<Run>, tables: seq<seq<Route>>)
    requires Nodes(LinksOf(FIVE), FIVE.Ids(), FiveNets(), runs, tables)
    ensures runs[4] == RUN_OF_5
  {
    RunOf5();
    assert FiveNets()[4] == SettledNet(FIVE, 5);
    RunOfNode(LinksOf(FIVE), FIVE.Ids(), FiveNets(), runs, tables, 4, RUN_OF_5);
  }

  /** On the tree of node 1 position 1 lies behind position 4. */
  lemma BranchOf1()
    ensures Behind(Both(RunEdges(RUN_OF_1, 5)), 0, 4, 1)
  {
    EdgesOf1();
    var g := Both(RunEdges(RUN_OF_1, 5));
    assert (4, 1) in Shut(g, {0});
    ReachEdge(Shut(g, {0}), 4, 1);
  }

  /** On that of node 5 it lies behind position 0. */
  lemma BranchOf5()
    ensures Behind(Both(RunEdges(RUN_OF_5, 5)), 4, 0, 1)
  {
    EdgesOf5();
    var h := Shut(Both(RunEdges(RUN_OF_5, 5)), {4});
    assert (0, 2) in h && (2, 3) in h && (3, 1) in h;
    ReachEdge(h, 0, 2);
    ReachEdge(h, 2, 3);
    ReachEdge(h, 3, 1);
    ReachTrans(h, 0, 2, 3);
    ReachTrans(h, 0, 3, 1);
  }

  lemma FiveIds()
    ensures NodeIds(FIVE.Ids()) && |FIVE.Ids()| == 5
  {
  }

  /** Default measurements are enough for a loop: five nodes of one settled network, each reached by a run of
      beacons, with nothing measured but the boosts of direct beacons. A packet from node 1 to node 2 goes back and
      forth between nodes 1 and 5 for ever, whatever runs and tables the five have. */
  lemma BoostsCanLoop(runs: seq<Run>, tables: seq<seq<Route>>)
    requires Nodes(LinksOf(FIVE), FIVE.Ids(), FiveNets(), runs, tables)
    ensures forall x :: 0 <= x < |tables| ==> |tables[x]| == MAX_NODES
    ensures forall hops: nat :: Forward(FIVE.Ids(), tables, MAX_NODES, 0, FIVE.Ids()[1], hops) in {0, 4}
  {
    TablesAreFull(LinksOf(FIVE), FIVE.Ids(), FiveNets(), runs, tables);
    FiveIds();
    HopOfNode1(runs, tables);
    HopOfNode5(runs, tables);
    forall hops: nat ensures Forward(FIVE.Ids(), tables, MAX_NODES, 0, FIVE.Ids()[1], hops) in {0, 4} {
      PingPong(FIVE.Ids(), tables, MAX_NODES, 0, 4, 1, hops);
    }
  }

  lemma HopOfNode1(runs: seq<Run>, tables: seq<seq<Route>>)
    requires Nodes(LinksOf(FIVE), FIVE.Ids(), FiveNets(), runs, tables)
    ensures |tables[0]| == MAX_NODES && LookupIn(tables[0][..MAX_NODES], FIVE.Ids()[1]) == FIVE.Ids()[4]
  {
    FiveIds();
    RunAtNode1(runs, tables);
    BranchOf1();
    NextHopIs(LinksOf(FIVE), FIVE.Ids(), FiveNets()[0], runs[0], tables[0], MAX_NODES, 0, 4, 1);
  }

  lemma HopOfNode5(runs: seq<Run>, tables: seq<seq<Route>>)
    requires Nodes(LinksOf(FIVE), FIVE.Ids(), FiveNets(), runs, tables)
    ensures |tables[4]| == MAX_NODES && LookupIn(tables[4][..MAX_NODES], FIVE.Ids()[1]) == FIVE.Ids()[0]
  {
    FiveIds();
    RunAtNode5(runs, tables);
    BranchOf5();
    NextHopIs(LinksOf(FIVE), FIVE.Ids(), FiveNets()[4], runs[4], tables[4], MAX_NODES, 4, 0, 1);
  }
}

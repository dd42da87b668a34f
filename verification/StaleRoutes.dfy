/** Routes that outlive the node they lead to: node 1 has heard nodes 2 and 3, node 3 falls silent and is swept, and
    the next beacon of node 2 raises no event, since among nodes 1 and 2 the tree is what it was. */
module StaleRoutes {
  import opened Base
  import opened Graphs
  import opened SpanningTrees
  import opened Prim
  import opened Routing
  import opened Delivery
  import opened Topology
  import opened TopologyRuns
  import opened HubRuns
  import opened Readings
  import opened RoutesAfterSweep
  import opened RoutesSinceRecompute

  // ---------------------------------------------------------------- the tree of a star

  /** Everybody is linked to position 0 only. */
  ghost function Star(n: nat): (g: Graph)
    ensures forall a: nat, b: nat {:trigger (a, b) in g} ::
              (a, b) in g <==> a < n && b < n && a != b && (a == 0 || b == 0)
  {
    set a: nat, b: nat | a < n && b < n && a != b && (a == 0 || b == 0) :: (a, b)
  }

  lemma LastStep(tree: Graph, v: nat) returns (u: nat)
    requires Reach(tree, 0, v) && v != 0
    ensures (u, v) in tree
  {
    var w :| WalkBetween(tree, 0, v, w);
    u := w[|w| - 2];
  }

  /** The whole star is its only tree. */
  lemma StarIsTree(net: Net, n: nat)
    requires net.Square() && HeardGraph(net) == Star(n)
    ensures TreeOf(net) == Star(n)
  {
    var g, tree := Star(n), TreeOf(net);
    var run := TreeIsBuilt(net);
    PrimTreeSpans(net, run);
    forall v: nat | 0 < v < n ensures (0, v) in tree {
      ReachEdge(g, 0, v);
      assert v in Joined(run, |run.order|);
      var u := LastStep(tree, v);
      assert (u, v) in g;
    }
    forall a, b ensures (a, b) in tree <==> (a, b) in g {
      if (a, b) in g {
        assert a == 0 ==> (0, b) in tree;
        assert b == 0 ==> (0, a) in tree;
      }
    }
  }

  // ---------------------------------------------------------------- the run

  lemma HubLinks(t: Topo, i: nat, j: nat)
    requires Hub(t) && i < |t.ids| && j < |t.ids|
    ensures NetOfState(t).link[i][j] == if i == 0 && j != 0 then 1 else 0
  {
    HubIsFirst(t);
    assert HubCell(t, t.ids[i], t.ids[j]);
    assert NetOfState(t).link[i][j] == Cell(t.link, t.ids[i], t.ids[j]);
  }

  lemma StarLinks(net: Net)
    requires net.Square()
    requires forall i: nat, j: nat :: i < |net.link| && j < |net.link| ==>
               net.link[i][j] == if i == 0 && j != 0 then 1 else 0
    ensures HeardGraph(net) == Star(|net.link|)
  {
  }

  lemma HubTree(t: Topo)
    requires Hub(t)
    ensures TreeOf(NetOfState(t)) == Star(|t.ids|)
  {
    var net := NetOfState(t);
    forall i: nat, j: nat | i < |net.link| && j < |net.link|
      ensures net.link[i][j] == if i == 0 && j != 0 then 1 else 0
    {
      HubLinks(t, i, j);
    }
    StarLinks(net);
    StarIsTree(net, |t.ids|);
  }

  /** Then node 3 is swept, and node 2 heard again. */
  ghost function Silence(): (events: seq<Event>)
    ensures EventsOk(events)
  {
    StartIsBeacon(2, MAX_AGE);
    [SweepAt(MAX_AGE), Beacon(Init(2, 0), 2, MAX_AGE)]
  }

  lemma StarIsSound(l: Local)
    requires Hub(l.topo) && l.tree == TreeOf(NetOfState(l.topo))
    ensures Sound(l)
  {
    TreeIsForest(NetOfState(l.topo));
  }

  lemma StarShrinks(n: nat, m: nat)
    requires m <= n
    ensures Listed(Star(n), m) == Star(m)
  {
  }

  lemma SweptStage(l: Local, e: Event)
    requires Sound(l) && l.tree == Star(3) && Stage(l.topo, [1, 2, 3], 1, 0) && e == SweepAt(MAX_AGE)
    ensures Stage(Next(l, e).topo, [1, 2], 1, 0) && Next(l, e).tree == Star(2)
  {
    LosesThree(l.topo, Sweep(l.topo, MAX_AGE));
    StarShrinks(3, 2);
  }

  lemma BeaconIsQuiet(l: Local, e: Event)
    requires l.tree == Star(2) && Stage(l.topo, [1, 2], 1, 0)
    requires e == Beacon(Init(2, 0), 2, MAX_AGE) && EventOk(e)
    ensures !Raises(l, e) && Next(l, e).topo.ids == [1, 2]
  {
    HearsTwoAgain(l.topo, Step(l.topo, e));
    HubTree(Step(l.topo, e));
  }

  lemma SilenceIsQuiet(l: Local, events: seq<Event>)
    requires Sound(l) && l.tree == Star(3) && Stage(l.topo, [1, 2, 3], 1, 0) && events == Silence()
    ensures Quiet(l, events) && Since(l, events).topo.ids == [1, 2]
  {
    var e, f := events[0], events[1];
    NextIsSound(l, e);
    TwoEvents(l, Next(l, e), events, e, f);
    SweptStage(l, e);
    BeaconIsQuiet(Next(l, e), f);
  }

  lemma SilenceBreaksStep(l: Local)
    requires l.tree == Star(3) && l.topo.me == 1 && l.topo.ids == [1, 2, 3]
    ensures !KeepsStep(l.tree, l.topo.ids, [1, 2], 1)
  {
    var ids, fewer: seq<Id> := [1, 2, 3], [1, 2];
    assert ids[0] == 1 && ids[1] == 2 && ids[2] == 3 && fewer[0] == 1;
    forall p: nat | FirstGone(ids, fewer, p) ensures !Harmless(Star(3), ids, fewer, 1, p) {
      assert p == 2;
      ReachEdge(Star(3), 0, 2);
    }
  }

  lemma OnlyThree(y: nat)
    requires Behind(Star(3), 0, y, 2)
    ensures y == 2
  {
    var w :| WalkBetween(Shut(Star(3), {0}), y, 2, w);
    if |w| > 1 {
      assert (w[|w| - 2], w[|w| - 1]) in Shut(Star(3), {0});
      assert w[|w| - 2] == 0;
      ShutWalk(Star(3), 0, w);
    }
  }

  lemma RouteToThree(ids: seq<Id>, table: seq<Route>)
    requires ids == [1, 2, 3] && Forest(Star(3)) && TableFor(Star(3), ids, 0, table)
    ensures LookupIn(table, 3) == 3
  {
    assert ids[2] == 3;
    ReachEdge(Star(3), 0, 2);
    LookupIsFirstHop(Star(3), ids, 0, 2, table, MAX_NODES);
    assert table[..MAX_NODES] == table;
    var y: nat :| y < |ids| && Behind(Star(3), 0, y, 2) && LookupIn(table[..MAX_NODES], ids[2]) == ids[y];
    OnlyThree(y);
  }

  /** From the one state to the other, without an event, the routes go from right to stale. */
  ghost predicate GoesStale(l: Local, events: seq<Event>, table: seq<Route>) {
    Sound(l) && EventsOk(events) && Quiet(l, events) && Fits(l, table) && !Fits(Since(l, events), table)
  }

  lemma ThreeGoesStale(l: Local, events: seq<Event>, table: seq<Route>)
    requires Sound(l) && l.tree == Star(3) && Stage(l.topo, [1, 2, 3], 1, 0) && Fits(l, table) && events == Silence()
    ensures GoesStale(l, events, table)
  {
    SilenceIsQuiet(l, events);
    SilenceBreaksStep(l);
    QuietRunKeepsStepIff(l, events, table);
  }

  lemma ThreeIsRouted(l: Local, table: seq<Route>)
    requires Sound(l) && l.tree == Star(3) && Stage(l.topo, [1, 2, 3], 1, 0) && Fits(l, table)
    ensures LookupIn(table, 3) == 3
  {
    assert l.topo.ids[0] == 1;
    RouteToThree(l.topo.ids, table);
  }

  /** After this run node 1 computes its routes. A sweep and a beacon later, which raise no event, they are not
      those of a recompute, whatever table it was: node 3 is not listed, and the route to it is still there. */
  lemma QuietCanBeStale(l: Local, table: seq<Route>)
    requires l == Local(After(BothHeard()), TreeOf(NetOfState(After(BothHeard())))) && Fits(l, table)
    ensures GoesStale(l, Silence(), table)
    ensures Since(l, Silence()).topo.ids == [1, 2] && LookupIn(table, 3) == 3
  {
    var s := Merge(Init(1, 0), Init(3, 0), 3, 0);
    AfterBoth();
    HearsThree(Init(1, 0), s);
    HearsTwo(s, l.topo);
    HubTree(l.topo);
    StarIsSound(l);
    ThreeIsRouted(l, table);
    SilenceIsQuiet(l, Silence());
    ThreeGoesStale(l, Silence(), table);
  }
}

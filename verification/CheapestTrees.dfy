/** When Prim builds a cheapest tree by the node's own readings, over every run of the node. */
module CheapestTrees {
  import opened Base
  import opened SpanningTrees
  import opened Prim
  import opened Routing
  import opened OwnTrees
  import opened TopologyRuns
  import opened Readings

  /** Where nothing was measured at either end, both ends read the same cost. */
  lemma DefaultReadsAlike(net: Net, u: nat, v: nat)
    requires net.Square() && u < |net.link| && v < |net.link|
    requires net.quality[u][v] in {0, INITIAL_LINK_QUALITY} && net.quality[v][u] in {0, INITIAL_LINK_QUALITY}
    ensures EdgeCost(net, u, v) == EdgeCost(net, v, u)
  {
  }

  ghost predicate DefaultApart(net: Net, x: nat)
    requires net.Square()
  {
    forall u: nat, v: nat :: u < |net.link| && v < |net.link| && u != x ==>
      net.quality[u][v] in {0, INITIAL_LINK_QUALITY}
  }

  lemma DefaultIsSymmetric(net: Net, x: nat)
    requires net.Square() && DefaultApart(net, x)
    ensures SymmetricApart(HeardGraph(net), EdgeCosts(net), x)
  {
    var g, cost := HeardGraph(net), EdgeCosts(net);
    forall a, b | (a, b) in g && (b, a) in g && a != x && b != x ensures cost[(a, b)] == cost[(b, a)] {
      DefaultReadsAlike(net, a, b);
    }
  }

  /** In every run only my own row holds measurements. */
  lemma RunsAreDefaultApart(h: History, x: nat)
    requires HistoryOk(h) && x < |After(h).ids| && After(h).ids[x] == h.me
    ensures DefaultApart(NetOfState(After(h)), x)
  {
    var t := After(h);
    var quality := CellsOf(t.quality, t.ids);
    forall u: nat, v: nat | u < |t.ids| && v < |t.ids| && u != x
      ensures quality[u][v] in {0, INITIAL_LINK_QUALITY}
    {
      OtherRowsAreDefault(h, t.ids[u], t.ids[v]);
    }
  }

  /** By the readings of the node at position x the tree of the run is a spanning tree of least cost. */
  ghost predicate Cheapest(net: Net, run: Run, x: nat)
    requires net.Square() && IsPrimRun(net, run)
  {
    CheapestByOwn(run, HeardGraph(net), EdgeCosts(net), x)
  }

  /** In every run: with at most one way home to position 0, the tree Prim builds is a cheapest one by my own
      readings, whatever I measured and whichever links are one-way. */
  lemma OneWayHomeIsCheapestInRuns(h: History, net: Net, x: nat, run: Run)
    requires HistoryOk(h) && x < |After(h).ids| && After(h).ids[x] == h.me && net == NetOfState(After(h))
    requires IsPrimRun(net, run) && OneWayHome(HeardGraph(net), x)
    ensures Cheapest(net, run, x)
  {
    RunsAreDefaultApart(h, x);
    DefaultIsSymmetric(net, x);
    OneWayHomeIsCheapest(run, HeardGraph(net), EdgeCosts(net), x);
  }

  /** In particular the node with the lowest id it knows always builds a cheapest tree. */
  lemma LowestIdIsCheapest(h: History, net: Net, run: Run)
    requires HistoryOk(h) && After(h).ids[0] == h.me && net == NetOfState(After(h)) && IsPrimRun(net, run)
    ensures Cheapest(net, run, 0)
  {
    forall p ensures !Behind(HeardGraph(net), 0, p, 0) {
      NoWayHomeFromHome(HeardGraph(net), 0, p);
    }
    OneWayHomeIsCheapestInRuns(h, net, 0, run);
  }
}

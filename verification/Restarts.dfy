/** A node hears a neighbour that has restarted: the link to it is then heard in one direction only. */
module Restarts {
  import opened Base
  import opened SpanningTrees
  import opened Networks
  import opened Topology
  import opened TopologyRuns
  import opened MergeCells
  import opened Settling
  import opened Prim
  import opened LinkCosts
  import opened Routing
  import opened Delivery
  import opened NetworkNets
  import opened SettledTrees
  import opened Readings
  import opened MeasuredRows
  import opened HubRuns

  /** Node 2 of the settled triangle, and after hearing what node 3 announces when it has just started. */
  ghost predicate HearsRestart(t: Topo, now: int, r: Topo) {
    && Valid(t) && IsSettled(TRIANGLE, 2, t) && 3 in t.created && t.created[3] < now
    && r == Merge(t, Init(3, 0), 3, now)
  }

  /** The first beacon of a node that has restarted clears its row, and no other. */
  lemma RowIsCleared(t: Topo, x: Id, now: int, p: Id, q: Id)
    requires 1 <= x <= MAX_NODES && x != t.me && x in t.created && t.created[x] < now
    ensures MergedLink(t, Init(x, 0), x, now, p, q) ==
              if p == x then 0 else if p == t.me && q == x then 1 else Cell(t.link, p, q)
  {
  }

  /** Measurements stay; the link to the sender is boosted. */
  lemma MeasuredStays(t: Topo, x: Id, now: int, p: Id, q: Id)
    requires Tidy(t) && 1 <= x <= MAX_NODES && x != t.me
    requires Cell(t.quality, p, q) != 0 || p == q
    ensures !(p == t.me && q == x) ==> MergedQuality(t, Init(x, 0), x, now, p, q) == Cell(t.quality, p, q)
    ensures p == t.me && q == x ==> MergedQuality(t, Init(x, 0), x, now, p, q) == BOOSTED_QUALITY
  {
    if p == t.me && q == x {
      QualityOfSender(t, Init(x, 0), x, now);
    } else {
      AdjustedOther(t, x, p, q);
    }
  }

  lemma TriangleCell(t: Topo, p: Id, q: Id)
    requires IsSettled(TRIANGLE, 2, t) && 1 <= p <= 3 && 1 <= q <= 3
    ensures Cell(t.link, p, q) == if p == q then 0 else 1
    ensures Cell(t.quality, p, q) == if p == q then 0 else if p == 2 then 110 else 100
  {
    TriangleLinks();
    assert CellSettled(TRIANGLE, 2, t, p, q);
  }

  lemma RestartIds(t: Topo, now: int, r: Topo)
    requires HearsRestart(t, now, r)
    ensures r.ids == t.ids == TRIANGLE.Ids()
  {
    HasId(TRIANGLE, 3);
    HeardIsListed(t, 3, now, r);
  }

  lemma RestartMerged(t: Topo, now: int, r: Topo, p: Id, q: Id)
    requires HearsRestart(t, now, r) && 1 <= p <= 3 && 1 <= q <= 3
    ensures Cell(r.link, p, q) == MergedLink(t, Init(3, 0), 3, now, p, q)
    ensures Cell(r.quality, p, q) == MergedQuality(t, Init(3, 0), 3, now, p, q)
  {
    HasId(TRIANGLE, p);
    HasId(TRIANGLE, q);
    MergedCell(t, Init(3, 0), 3, now, p, q);
  }

  lemma RestartMe(t: Topo, now: int, r: Topo)
    requires HearsRestart(t, now, r)
    ensures Tidy(t) && t.me == 2 && 3 in t.created && t.created[3] < now && IsSettled(TRIANGLE, 2, t)
  {
  }

  lemma RestartCell(t: Topo, now: int, r: Topo, p: Id, q: Id)
    requires HearsRestart(t, now, r) && 1 <= p <= 3 && 1 <= q <= 3
    ensures Cell(r.link, p, q) == if p == q || p == 3 then 0 else 1
    ensures Cell(r.quality, p, q) == if p == q then 0 else if p == 2 then 110 else 100
  {
    hide HearsRestart, IsSettled, Merge, MergedLink, MergedQuality, Tidy;
    RestartMerged(t, now, r, p, q);
    RestartMe(t, now, r);
    TriangleCell(t, p, q);
    RowIsCleared(t, 3, now, p, q);
    MeasuredStays(t, 3, now, p, q);
  }

  ghost predicate ReadAs(r: Topo, net: Net, i: nat, j: nat)
    requires net.Square() && i < |net.link| == |r.ids| && j < |net.link|
  {
    Cell(r.link, r.ids[i], r.ids[j]) == net.link[i][j] && Cell(r.quality, r.ids[i], r.ids[j]) == net.quality[i][j]
  }

  lemma NetIs(r: Topo, net: Net)
    requires net.Square() && |net.link| == |r.ids|
    requires forall i: nat, j: nat :: i < |r.ids| && j < |r.ids| ==> ReadAs(r, net, i, j)
    ensures NetOfState(r) == net
  {
    var read := NetOfState(r);
    forall i: nat, j: nat | i < |r.ids| && j < |r.ids|
      ensures read.link[i][j] == net.link[i][j] && read.quality[i][j] == net.quality[i][j]
    {
      assert ReadAs(r, net, i, j);
    }
    SameNet(read, net);
  }

  lemma TriangleIds()
    ensures |TRIANGLE.Ids()| == 3 && NodeIds(TRIANGLE.Ids())
    ensures TRIANGLE.Ids()[0] == 1 && TRIANGLE.Ids()[1] == 2 && TRIANGLE.Ids()[2] == 3
  {
  }

  lemma RestartReads(t: Topo, now: int, r: Topo, i: nat, j: nat)
    requires HearsRestart(t, now, r) && i < 3 && j < 3
    ensures |r.ids| == 3 && Cell(r.link, r.ids[i], r.ids[j]) == RestartedLink(i, j)
    ensures Cell(r.quality, r.ids[i], r.ids[j]) == RestartedQuality(i, j)
  {
    hide HearsRestart;
    RestartIds(t, now, r);
    TriangleIds();
    RestartCell(t, now, r, i + 1, j + 1);
  }

  lemma ReadsAs(r: Topo, i: nat, j: nat)
    requires |r.ids| == 3 && i < 3 && j < 3 && Cell(r.link, r.ids[i], r.ids[j]) == RestartedLink(i, j)
    requires Cell(r.quality, r.ids[i], r.ids[j]) == RestartedQuality(i, j)
    ensures RESTARTED.Square() && |RESTARTED.link| == 3 && ReadAs(r, RESTARTED, i, j)
  {
    RestartedCells();
  }

  lemma RestartNet(t: Topo, now: int, r: Topo)
    requires HearsRestart(t, now, r)
    ensures NetOfState(r) == RESTARTED
  {
    hide HearsRestart, ReadAs, RestartedLink, RestartedQuality;
    RestartedCells();
    RestartReads(t, now, r, 0, 0);
    forall i: nat, j: nat | i < 3 && j < 3 ensures ReadAs(r, RESTARTED, i, j) {
      RestartReads(t, now, r, i, j);
      ReadsAs(r, i, j);
    }
    NetIs(r, RESTARTED);
  }

  /** A run of well-formed beacons, the last of them that of node 3 after a restart, leads node 2 there. */
  lemma RestartIsReached()
    ensures IsRead(TRIANGLE.Ids(), 2, RESTARTED)
  {
    TriangleLinks();
    var h := SettledIsReached(TRIANGLE, 2, 1);
    var t := After(h);
    HasId(TRIANGLE, 3);
    var now := if t.created[3] < 0 then 0 else t.created[3] + 1;
    StartIsBeacon(3, now);
    var next := OneMoreEvent(h, Beacon(Init(3, 0), 3, now));
    RestartIds(t, now, After(next));
    RestartNet(t, now, After(next));
    assert ReadBy(next, TRIANGLE.Ids(), 2, RESTARTED);
  }

  /** Node 2 then sends packets for node 3 directly, since a tree with the link between them is built. */
  lemma RestartIsRouted(table: seq<Route>)
    requires TableFor(Both(RunEdges(RESTART_RUN, 3)), TRIANGLE.Ids(), 1, table)
    ensures RESTARTED.Square() && IsPrimRun(RESTARTED, RESTART_RUN)
    ensures |table| == MAX_NODES && LookupIn(table, 3) == 3
  {
    RestartedRun();
    RestartTree();
    TriangleIds();
    var g := Both(RunEdges(RESTART_RUN, 3));
    hide *;
    NeighbourIsNextHop(g, TRIANGLE.Ids(), 1, 2, table);
  }
}

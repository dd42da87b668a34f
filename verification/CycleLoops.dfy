/** In a network with two-way links and a cycle, measurements of two neighbours are enough for a packet that never
    arrives. */
module CycleLoops {
  import opened Base
  import opened Graphs
  import opened SpanningTrees
  import opened Prim
  import opened Routing
  import opened DearLinks
  import opened Detours
  import opened Networks
  import opened NetworkNets
  import opened MeasuredCosts
  import opened MeasuredLoops
  import opened PerNodeTrees

  lemma LinksAreGraph(w: Network)
    requires TwoWay(w)
    ensures LinkGraph(LinksOf(w)) == LinkPairs(w) && LoopFree(LinkPairs(w))
  {
    PairsAreHeard(w, Net(LinksOf(w), LinksOf(w)));
  }

  // ---------------------------------------------------------------- a link of the tree on a cycle

  lemma CycleLink(w: Network, r0: Run) returns (kx: nat, kc: nat)
    requires TwoWay(w) && Complete(r0, LinkPairs(w), Flat(LinkPairs(w))) && !Forest(Inner(LinksOf(w)))
    ensures OnCycle(r0, LinkPairs(w), kx, kc)
  {
    LinksAreGraph(w);
    var g, inner := LinkPairs(w), Inner(LinksOf(w));
    var a, b :| (a, b) in inner && Reach(Cut(inner, a, b), a, b);
    InnerIsReached(LinksOf(w), a, b);
    ReachMonotone(Cut(inner, a, b), Cut(g, a, b), a, b);
    RunCoversComponent(r0, g, Flat(g), 0);
    assert a in Joined(r0, |r0.order|) && b in Joined(r0, |r0.order|);
    kx, kc := TreeLinkOnCycle(r0, g, a, b);
  }

  // ---------------------------------------------------------------- tables for all nodes

  lemma ReachedHasNeighbour(g: Graph, k: nat, a: nat, b: nat)
    requires Symmetric(g) && Reach(g, 0, k) && Reach(g, 0, a) && (a, b) in g
    ensures exists v :: (k, v) in g
  {
    ReachReversed(g, 0, k);
    ReachTrans(g, k, 0, a);
    var w :| WalkBetween(g, k, a, w);
    if |w| > 1 {
      assert (w[0], w[1]) in g;
    }
  }

  /** Tables of a node that finds all its links alike. */
  ghost function PlainNet(w: Network, me: Id): (net: Net)
    ensures net.Square() && net.link == LinksOf(w)
    ensures (exists z: Id :: w.Has(z) && w.Link(me, z) == 1) ==>
              exists row, z :: CanRead(w, me, row, z) && net == MeasuredNet(w, me, row, z)
  {
    var row := OneDear(w.n, w.n);
    if z: Id :| w.Has(z) && w.Link(me, z) == 1 then MeasuredNet(w, me, row, z) else MeasuredNet(w, me, row, 0)
  }

  ghost function TwoNets(w: Network, x: nat, net: Net, y: nat, net': Net): (nets: seq<Net>)
    requires net.Square() && net'.Square() && net.link == net'.link == LinksOf(w)
    ensures |nets| == w.n && SameLinks(LinksOf(w), nets)
    ensures x < w.n ==> nets[x] == net
    ensures y < w.n && y != x ==> nets[y] == net'
    ensures forall k: nat :: k < w.n && k != x && k != y ==> nets[k] == PlainNet(w, k + 1)
  {
    seq(w.n, k requires 0 <= k < w.n => if k == x then net else if k == y then net' else PlainNet(w, k + 1))
  }

  /** The nodes may have all measurements, with a last beacon from any neighbour. */
  ghost predicate MayMeasure(w: Network, may: seq<iset<Net>>) {
    && |may| == w.n
    && forall k: nat, me: Id, row, z :: k < w.n && me == k + 1 && CanRead(w, me, row, z) ==>
         MeasuredNet(w, me, row, z) in may[k]
  }

  lemma PlainMayBe(w: Network, may: seq<iset<Net>>, k: nat, v: nat)
    requires MayMeasure(w, may) && k < w.n && (k, v) in LinkPairs(w)
    ensures PlainNet(w, k + 1) in may[k]
  {
    var z: Id := v + 1;
    assert w.Has(z) && w.Link(k + 1, z) == 1;
  }

  lemma TwoNetsMay(w: Network, may: seq<iset<Net>>, x: nat, net: Net, y: nat, net': Net, nets: seq<Net>)
    requires TwoWay(w) && MayMeasure(w, may) && x < w.n && y < w.n && net in may[x] && net' in may[y]
    requires net.Square() && net'.Square() && net.link == net'.link == LinksOf(w)
    requires nets == TwoNets(w, x, net, y, net') && (x, y) in LinkPairs(w) && Reach(LinkPairs(w), 0, x)
    ensures AllMay(LinksOf(w), may, nets)
  {
    LinksAreGraph(w);
    var g := LinkPairs(w);
    forall k: nat | k < w.n && Reach(g, 0, k) ensures nets[k] in may[k] {
      if k != x && k != y {
        ReachedHasNeighbour(g, k, x, y);
        var v :| (k, v) in g;
        PlainMayBe(w, may, k, v);
      }
    }
  }

  // ---------------------------------------------------------------- the loop

  lemma SmallIds(w: Network)
    ensures NodeIds(w.Ids())
  {
  }

  lemma TwoTreesLoop(w: Network, may: seq<iset<Net>>, numNodes: nat, nets: seq<Net>, x: nat, y: nat, c: nat, run: Run,
                     run': Run)
    requires w.n <= numNodes <= MAX_NODES && |may| == |nets| == w.n && SameLinks(LinksOf(w), nets)
    requires AllMay(LinksOf(w), may, nets) && x < w.n && y < w.n && c < w.n && x != c && y != c
    requires IsPrimRun(nets[x], run) && Behind(Both(RunEdges(run, |run.order|)), x, y, c)
    requires IsPrimRun(nets[y], run') && Behind(Both(RunEdges(run', |run'.order|)), y, x, c)
    requires Reach(LinkGraph(LinksOf(w)), 0, x) && Reach(LinkGraph(LinksOf(w)), 0, c)
    ensures !AlwaysDelivers(LinksOf(w), w.Ids(), may, numNodes)
  {
    var link, ids := LinksOf(w), w.Ids();
    SmallIds(w);
    var runs, tables := NodesFor(link, ids, nets);
    RunOfNode(link, ids, nets, runs, tables, x, run);
    RunOfNode(link, ids, nets, runs, tables, y, run');
    TablesAreFull(link, ids, nets, runs, tables);
    LoopsForEver(link, ids, nets, runs, tables, numNodes, x, y, c);
    assert !Arrives(ids, tables, numNodes, x, c);
    assert !AllArrive(link, ids, tables, numNodes);
  }

  ghost predicate LedBy(w: Network, net: Net, run: Run, a: nat, b: nat, c: nat) {
    && net.Square() && net.link == LinksOf(w) && IsPrimRun(net, run)
    && Behind(Both(RunEdges(run, |run.order|)), a, b, c)
  }

  lemma CanBeLed(w: Network, may: seq<iset<Net>>, a: nat, b: nat, c: nat) returns (net: Net, run: Run)
    requires MayMeasure(w, may) && CanLeadBy(w, a, b, c)
    ensures a < |may| && net in may[a] && LedBy(w, net, run, a, b, c)
  {
    var me: Id, row, z, r :| me == a + 1 && LeadsBy(w, me, row, z, r, b, c);
    net, run := MeasuredNet(w, me, row, z), r;
    RowLeads(w, may, a, b, c, me, row, z, r);
    hide *;
  }

  lemma RowLeads(w: Network, may: seq<iset<Net>>, a: nat, b: nat, c: nat, me: Id, row: seq<Byte>, z: Id, r: Run)
    requires MayMeasure(w, may) && a < w.n && me == a + 1 && LeadsBy(w, me, row, z, r, b, c)
    ensures a < |may| && MeasuredNet(w, me, row, z) in may[a]
    ensures LedBy(w, MeasuredNet(w, me, row, z), r, a, b, c)
  {
  }

  lemma TwoMeasurementsLoop(w: Network, may: seq<iset<Net>>, numNodes: nat, x: nat, y: nat, c: nat)
    requires TwoWay(w) && MayMeasure(w, may) && w.n <= numNodes <= MAX_NODES && Tempts(w, x, y, c)
    ensures !AlwaysDelivers(LinksOf(w), w.Ids(), may, numNodes)
  {
    LinksAreGraph(w);
    var net, run := CanBeLed(w, may, x, y, c);
    var net', run' := CanBeLed(w, may, y, x, c);
    var nets := TwoNets(w, x, net, y, net');
    TwoNetsMay(w, may, x, net, y, net', nets);
    TwoTreesLoop(w, may, numNodes, nets, x, y, c, run, run');
  }

  /** If the links of the component form a cycle, there are measurements for which some packet never arrives. */
  lemma CycleCanLoop(w: Network, may: seq<iset<Net>>, numNodes: nat)
    requires TwoWay(w) && MayMeasure(w, may) && 0 < w.n <= numNodes <= MAX_NODES && !Forest(Inner(LinksOf(w)))
    ensures !AlwaysDelivers(LinksOf(w), w.Ids(), may, numNodes)
  {
    var r0 := FlatRun(w);
    var kx, kc := CycleLink(w, r0);
    CycleTempts(w, LinkPairs(w), r0, kx, kc);
    var x, y, c :| Tempts(w, x, y, c);
    TwoMeasurementsLoop(w, may, numNodes, x, y, c);
  }
}

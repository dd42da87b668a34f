/** Measurements for which a node with two ways home does not build a cheapest tree. */
module DearRows {
  import opened Base
  import opened Graphs
  import opened SpanningTrees
  import opened Prim
  import opened Routing
  import opened OwnTrees
  import opened DearLinks
  import opened Detours
  import opened Networks
  import opened NetworkNets
  import opened MeasuredCosts
  import opened TreeChoice

  /** Whatever run Prim makes on these tables, its tree is not a cheapest one by the readings of position x. */
  ghost predicate NeverCheapest(net: Net, x: nat)
    requires net.Square()
  {
    forall run :: IsPrimRun(net, run) ==> !CheapestByOwn(run, HeardGraph(net), EdgeCosts(net), x)
  }

  lemma AttachedDearly(r0: Run, r: Run, g: Graph, cost: Costs, x: nat, k: nat, q: nat)
    requires LoopFree(g) && Complete(r0, g, Flat(g)) && k < |r0.order| && r0.order[k] == x && x != 0
    requires g == cost.Keys && Complete(r, g, cost) && DearAt(g, cost, x, r0.order[r0.via[k]], q)
    requires Behind(g, x, q, 0) && q != r0.order[r0.via[k]]
    ensures !CheapestByOwn(r, g, cost, x)
  {
    SharesUptoX(r0, r, g, cost, k);
    DearHomeIsNotCheapest(r, g, cost, x, k, q, q);
  }

  lemma RankOfReached(r: Run, g: Graph, x: nat, p: nat) returns (k: nat)
    requires LoopFree(g) && Complete(r, g, Flat(g)) && Behind(g, x, p, 0) && x != 0
    ensures 1 <= k < |r.order| && r.order[k] == x
  {
    HomeReaches(g, x, p);
    RunCoversComponent(r, g, Flat(g), 0);
    assert x in Joined(r, |r.order|);
    k :| 0 <= k < |r.order| && r.order[k] == x;
  }

  /** Rank k is position x, and hangs on position up. */
  ghost predicate ComesBy(r: Run, k: nat, x: nat, up: nat) {
    k < |r.order| == |r.via| && r.order[k] == x && r.via[k] < |r.order| && r.order[r.via[k]] == up
  }

  lemma DearParentIsNeverCheapest(net: Net, r0: Run, g: Graph, x: nat, k: nat, q: nat, up: nat)
    requires LoopFree(g) && Complete(r0, g, Flat(g)) && ComesBy(r0, k, x, up) && x != 0
    requires ReadsDear(g, net, x, up, q) && Behind(g, x, q, 0) && q != up
    ensures NeverCheapest(net, x)
  {
    forall run | IsPrimRun(net, run) ensures !CheapestByOwn(run, g, EdgeCosts(net), x) {
      AttachedDearly(r0, run, g, EdgeCosts(net), x, k, q);
    }
  }

  /** With two ways home: the tree comes by one of them, and the other is left. */
  lemma OtherWayHome(r0: Run, g: Graph, x: nat, p: nat, q: nat) returns (k: nat, other: nat)
    requires LoopFree(g) && Complete(r0, g, Flat(g)) && Behind(g, x, p, 0) && Behind(g, x, q, 0) && p != q
    ensures x != 0 && k < |r0.order| && ComesBy(r0, k, x, r0.order[r0.via[k]])
    ensures Behind(g, x, other, 0) && other != r0.order[r0.via[k]]
  {
    NoWayHomeFromHome(g, x, p);
    k := RankOfReached(r0, g, x, p);
    other := if r0.order[r0.via[k]] == q then p else q;
  }

  /** The node finds the link dear by which the tree would come, and hears a beacon from the other way. */
  lemma DearRow(w: Network, x: nat, me: Id, p: nat, q: nat)
    requires TwoWay(w) && x < w.n && me == x + 1 && p != q
    requires Behind(LinkPairs(w), x, p, 0) && Behind(LinkPairs(w), x, q, 0)
    ensures exists row, z :: CanRead(w, me, row, z) && NeverCheapest(MeasuredNet(w, me, row, z), x)
  {
    var g := LinkPairs(w);
    var r0 := FlatRun(w);
    PairsAreHeard(w, SettledNet(w, me));
    var k, other := OtherWayHome(r0, g, x, p, q);
    DearAtNode(w, g, r0, x, me, k, other, r0.order[r0.via[k]]);
  }

  lemma DearAtNode(w: Network, g: Graph, r0: Run, x: nat, me: Id, k: nat, other: nat, up: nat)
    requires TwoWay(w) && x < w.n && me == x + 1 && x != 0 && g == LinkPairs(w) && LoopFree(g)
    requires Complete(r0, g, Flat(g)) && ComesBy(r0, k, x, up) && Behind(g, x, other, 0) && other != up
    ensures exists row, z :: CanRead(w, me, row, z) && NeverCheapest(MeasuredNet(w, me, row, z), x)
  {
    hide Complete, ReadsDear, CanRead, NeverCheapest, ComesBy, LoopFree;
    DearCanBeRead(w, x, me, up, other);
    var row, z: Id := OneDear(w.n, up), other + 1;
    DearCosts(w, x, me, up, other, row, z);
    DearParentIsNeverCheapest(MeasuredNet(w, me, row, z), r0, g, x, k, other, up);
  }

  // ---------------------------------------------------------------- all tables of a node

  /** Whichever of these tables Prim runs on, its tree is a cheapest one by the readings of position x. */
  ghost predicate AlwaysCheapest(nets: iset<Net>, x: nat) {
    forall net, run :: net in nets && net.Square() && IsPrimRun(net, run) ==>
      CheapestByOwn(run, HeardGraph(net), EdgeCosts(net), x)
  }

  lemma NeverIsNotAlways(nets: iset<Net>, x: nat, net: Net)
    requires net in nets && net.Square() && NeverCheapest(net, x)
    ensures !AlwaysCheapest(nets, x)
  {
    var run := RunExists(net);
  }

  /** If a node may read all measurements, it is not always cheapest with two ways home. */
  lemma TwoWaysHomeAreTooMany(w: Network, x: nat, me: Id, nets: iset<Net>)
    requires TwoWay(w) && x < w.n && me == x + 1 && !OneWayHome(LinkPairs(w), x)
    requires forall row, z :: CanRead(w, me, row, z) ==> MeasuredNet(w, me, row, z) in nets
    ensures !AlwaysCheapest(nets, x)
  {
    var p, q :| Behind(LinkPairs(w), x, p, 0) && Behind(LinkPairs(w), x, q, 0) && p != q;
    DearRow(w, x, me, p, q);
    var row, z :| CanRead(w, me, row, z) && NeverCheapest(MeasuredNet(w, me, row, z), x);
    NeverIsNotAlways(nets, x, MeasuredNet(w, me, row, z));
  }
}

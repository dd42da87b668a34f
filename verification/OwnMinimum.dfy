/** Exactly in which networks a node always builds a cheapest tree by its own readings. */
module OwnMinimum {
  import opened Base
  import opened Prim
  import opened SpanningTrees
  import opened OwnTrees
  import opened Networks
  import opened NetworkNets
  import opened MeasuredCosts
  import opened MeasuredRows
  import opened CheapestTrees
  import opened DearRows
  import opened TopologyRuns

  /** Prim runs on these tables, with all links of the network, in some run of the node at position x. */
  ghost predicate ReadAt(w: Network, x: nat, net: Net) {
    && net.Square() && net.link == LinksOf(w)
    && exists me: Id :: me == x + 1 && IsRead(w.Ids(), me, net)
  }

  ghost function ReadNets(w: Network, x: nat): (nets: iset<Net>)
    ensures forall net :: net in nets ==> net.Square() && net.link == LinksOf(w)
  {
    iset net: Net | ReadAt(w, x, net)
  }

  lemma MyPosition(w: Network, x: nat, me: Id, h: History, net: Net)
    requires me == x + 1 && w.Has(me) && ReadBy(h, w.Ids(), me, net)
    ensures x < |After(h).ids| && After(h).ids[x] == h.me
  {
    HasId(w, me);
  }

  lemma ReadIsCheapest(w: Network, x: nat, me: Id, h: History, net: Net, run: Run)
    requires me == x + 1 && w.Has(me) && net.Square() && IsPrimRun(net, run) && OneWayHome(HeardGraph(net), x)
    requires ReadBy(h, w.Ids(), me, net)
    ensures CheapestByOwn(run, HeardGraph(net), EdgeCosts(net), x)
  {
    MyPosition(w, x, me, h, net);
    OneWayHomeIsCheapestInRuns(h, net, x, run);
  }

  lemma ReadOneWayHome(w: Network, x: nat, me: Id, net: Net, run: Run)
    requires me == x + 1 && w.Has(me) && IsRead(w.Ids(), me, net)
    requires net.Square() && IsPrimRun(net, run) && OneWayHome(HeardGraph(net), x)
    ensures CheapestByOwn(run, HeardGraph(net), EdgeCosts(net), x)
  {
    var h :| ReadBy(h, w.Ids(), me, net);
    ReadIsCheapest(w, x, me, h, net, run);
  }

  lemma OneWayHomeIsEnough(w: Network, x: nat, net: Net, run: Run)
    requires TwoWay(w) && x < w.n && ReadAt(w, x, net) && IsPrimRun(net, run) && OneWayHome(LinkPairs(w), x)
    ensures CheapestByOwn(run, HeardGraph(net), EdgeCosts(net), x)
  {
    PairsAreHeard(w, net);
    var me: Id :| me == x + 1 && IsRead(w.Ids(), me, net);
    ReadOneWayHome(w, x, me, net, run);
  }

  lemma RowIsRead(w: Network, x: nat, me: Id, row: seq<Byte>, z: Id)
    requires w.Small() && x < w.n && me == x + 1 && CanRead(w, me, row, z)
    ensures ReadAt(w, x, MeasuredNet(w, me, row, z))
  {
    EveryRowIsRead(w, me, row, z);
  }

  lemma AllAreRead(w: Network, x: nat, me: Id)
    requires w.Small() && x < w.n && me == x + 1
    ensures forall row, z :: CanRead(w, me, row, z) ==> MeasuredNet(w, me, row, z) in ReadNets(w, x)
  {
    forall row, z | CanRead(w, me, row, z) ensures MeasuredNet(w, me, row, z) in ReadNets(w, x) {
      RowIsRead(w, x, me, row, z);
    }
  }

  lemma TwoWaysHomeAreNot(w: Network, x: nat, me: Id)
    requires w.Small() && TwoWay(w) && x < w.n && me == x + 1 && !OneWayHome(LinkPairs(w), x)
    ensures !AlwaysCheapest(ReadNets(w, x), x)
  {
    AllAreRead(w, x, me);
    TwoWaysHomeAreTooMany(w, x, me, ReadNets(w, x));
  }

  /** In a network with two-way links, the node at position x builds a cheapest tree by its own readings in every
      run that shows it the whole network, whatever it measures, if and only if position 0 lies behind at most one
      of its neighbours: it is at position 0 itself, or not connected to it, or all its ways there begin with the
      same link. */
  lemma AlwaysCheapestIff(w: Network, x: nat)
    requires w.Small() && TwoWay(w) && x < w.n
    ensures AlwaysCheapest(ReadNets(w, x), x) <==> OneWayHome(LinkPairs(w), x)
  {
    if OneWayHome(LinkPairs(w), x) {
      forall net, run | ReadAt(w, x, net) && IsPrimRun(net, run)
        ensures CheapestByOwn(run, HeardGraph(net), EdgeCosts(net), x)
      {
        OneWayHomeIsEnough(w, x, net, run);
      }
    } else {
      TwoWaysHomeAreNot(w, x, x + 1);
    }
  }
}

/** Exactly in which networks with two-way links every packet arrives, whatever the nodes measure in their runs. */
module ReachedLoops {
  import opened Base
  import opened Graphs
  import opened Prim
  import opened Networks
  import opened NetworkNets
  import opened MeasuredCosts
  import opened PerNodeTrees
  import opened CycleLoops
  import opened OwnMinimum

  /** What each node may read: the tables of its own runs that show it the whole network. */
  ghost function AllReadNets(w: Network): (may: seq<iset<Net>>)
    ensures |may| == w.n && forall k: nat :: k < w.n ==> may[k] == ReadNets(w, k)
  {
    seq(w.n, k requires 0 <= k < w.n => ReadNets(w, k))
  }

  lemma AllMayMeasure(w: Network)
    requires w.Small()
    ensures MayMeasure(w, AllReadNets(w))
  {
    var may := AllReadNets(w);
    forall k: nat, me: Id, row, z | k < w.n && me == k + 1 && CanRead(w, me, row, z)
      ensures MeasuredNet(w, me, row, z) in may[k]
    {
      AllAreRead(w, k, me);
    }
  }

  /** In a network with two-way links: every packet between nodes of the component of position 0 arrives, whatever the
      runs of the nodes in that component that show them the whole network, if and only if its links form no cycle. */
  lemma AlwaysDeliversIffNoCycle(w: Network, numNodes: nat)
    requires TwoWay(w) && 0 < w.n <= numNodes <= MAX_NODES
    ensures AlwaysDelivers(LinksOf(w), w.Ids(), AllReadNets(w), numNodes) <==> Forest(Inner(LinksOf(w)))
  {
    SmallIds(w);
    if Forest(Inner(LinksOf(w))) {
      NoCycleAlwaysDelivers(LinksOf(w), w.Ids(), AllReadNets(w), numNodes);
    } else {
      AllMayMeasure(w);
      CycleCanLoop(w, AllReadNets(w), numNodes);
    }
  }
}

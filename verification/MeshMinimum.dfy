/** In a mesh of at most two hops: exactly when a node always builds a cheapest tree by its own readings, in every
    run of the whole mesh. */
module MeshMinimum {
  import opened Base
  import opened SpanningTrees
  import opened Prim
  import opened Networks
  import opened NetworkNets
  import opened Topology
  import opened Settling
  import opened Readings
  import opened OwnTrees
  import opened CheapestTrees
  import opened MeasuredCosts
  import opened DearRows
  import opened CycleLoops
  import opened MeshRuns
  import opened MeshSettles
  import opened MeshLoops

  /** In some run of the mesh the node at position x holds the tree built from these tables, with all links. */
  ghost predicate ReadInMesh(w: Network, x: nat, net: Net) {
    && net.Square() && net.link == LinksOf(w)
    && exists m: Mesh :: MeshReached(w, m) && x < |m| == w.n && m[x].read.ids == w.Ids() && NetOfState(m[x].read) == net
  }

  ghost function MeshNets(w: Network, x: nat): (nets: iset<Net>)
    ensures forall net :: net in nets ==> net.Square() && net.link == LinksOf(w)
  {
    iset net: Net | ReadInMesh(w, x, net)
  }

  // ---------------------------------------------------------------- one way home

  lemma LedIsCheapest(w: Network, x: nat, me: Id, t: Topo, net: Net, run: Run)
    requires me == x + 1 && x < w.n && t.ids == w.Ids() && NetOfState(t) == net && Led(me, t)
    requires IsPrimRun(net, run) && OneWayHome(HeardGraph(net), x)
    ensures Cheapest(net, run, x)
  {
    var h :| Leads(h, me, t);
    HasId(w, me);
    OneWayHomeIsCheapestInRuns(h, net, x, run);
  }

  /** With one way home the tree is a cheapest one in all runs of the mesh, however far apart the nodes are. */
  lemma OneWayHomeInMesh(w: Network, x: nat, net: Net, run: Run)
    requires TwoWay(w) && x < w.n && ReadInMesh(w, x, net) && IsPrimRun(net, run) && OneWayHome(LinkPairs(w), x)
    ensures Cheapest(net, run, x)
  {
    var m: Mesh :| MeshReached(w, m) && x < |m| == w.n && m[x].read.ids == w.Ids() && NetOfState(m[x].read) == net;
    PairsAreHeard(w, net);
    MeshRunsAreRuns(w, m);
    var me: Id := x + 1;
    assert Led(me, m[x].read);
    LedIsCheapest(w, x, me, m[x].read, net, run);
  }

  // ---------------------------------------------------------------- two ways home

  lemma HasNeighbour(w: Network, u: nat, x: nat) returns (v: nat)
    requires TwoHops(w) && u < w.n && x < w.n && u != x
    ensures (u, v) in LinkPairs(w)
  {
    var a: Id, b: Id := u + 1, x + 1;
    if w.Link(a, b) == 1 {
      v := x;
    } else {
      var z: Id :| w.Has(z) && w.Link(a, z) == 1 && w.Link(z, b) == 1;
      v := z - 1;
    }
  }

  /** Everybody else finds its links alike. */
  ghost function Others(w: Network, x: nat, net: Net): (nets: seq<Net>)
    ensures |nets| == w.n && (x < w.n ==> nets[x] == net)
    ensures forall u: nat :: u < w.n && u != x ==> nets[u] == PlainNet(w, u + 1)
  {
    seq(w.n, u requires 0 <= u < w.n => if u == x then net else PlainNet(w, u + 1))
  }

  lemma OthersMay(w: Network, x: nat, me: Id, row: seq<Byte>, z: Id, net: Net, nets: seq<Net>)
    requires TwoHops(w) && x < w.n && me == x + 1 && CanRead(w, me, row, z) && net == MeasuredNet(w, me, row, z)
    requires nets == Others(w, x, net)
    ensures forall u: nat :: u < w.n ==> nets[u] in Measurable(w, u)
  {
    MeasurableIsAll(w);
    forall u: nat | u < w.n ensures nets[u] in Measurable(w, u) {
      if u == x {
        assert IsMeasured(w, u, row, z, net);
      } else {
        var v := HasNeighbour(w, u, x);
        PlainMayBe(w, AllMeasurable(w), u, v);
      }
    }
  }

  lemma RowInMesh(w: Network, x: nat, me: Id, row: seq<Byte>, z: Id)
    requires w.Small() && TwoHops(w) && x < w.n && me == x + 1 && CanRead(w, me, row, z)
    ensures ReadInMesh(w, x, MeasuredNet(w, me, row, z))
  {
    var net := MeasuredNet(w, me, row, z);
    var nets := Others(w, x, net);
    OthersMay(w, x, me, row, z, net, nets);
    var m := MeasurableMeet(w, nets);
    assert NetsOf(m)[x] == net;
  }

  lemma AllInMesh(w: Network, x: nat, me: Id)
    requires w.Small() && TwoHops(w) && x < w.n && me == x + 1
    ensures forall row, z :: CanRead(w, me, row, z) ==> MeasuredNet(w, me, row, z) in MeshNets(w, x)
  {
    forall row, z | CanRead(w, me, row, z) ensures MeasuredNet(w, me, row, z) in MeshNets(w, x) {
      RowInMesh(w, x, me, row, z);
    }
  }

  lemma TwoWaysHomeInMesh(w: Network, x: nat, me: Id)
    requires w.Small() && TwoWay(w) && TwoHops(w) && x < w.n && me == x + 1 && !OneWayHome(LinkPairs(w), x)
    ensures !AlwaysCheapest(MeshNets(w, x), x)
  {
    AllInMesh(w, x, me);
    TwoWaysHomeAreTooMany(w, x, me, MeshNets(w, x));
  }

  /** With two-way links and nobody more than two hops away: in all runs of the mesh the tree that the node at
      position x holds, built once it knew all links, is a cheapest one by its own readings of that moment, if and
      only if position 0 lies behind at most one of its neighbours. */
  lemma CheapestInMeshIff(w: Network, x: nat)
    requires w.Small() && TwoWay(w) && TwoHops(w) && x < w.n
    ensures AlwaysCheapest(MeshNets(w, x), x) <==> OneWayHome(LinkPairs(w), x)
  {
    if OneWayHome(LinkPairs(w), x) {
      forall net, run | ReadInMesh(w, x, net) && IsPrimRun(net, run)
        ensures Cheapest(net, run, x)
      {
        OneWayHomeInMesh(w, x, net, run);
      }
    } else {
      TwoWaysHomeInMesh(w, x, x + 1);
    }
  }
}

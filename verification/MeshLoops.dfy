/** In a mesh of at most two hops: exactly when every packet arrives, in every run of the whole mesh. */
module MeshLoops {
  import opened Base
  import opened Graphs
  import opened SpanningTrees
  import opened Prim
  import opened Routing
  import opened Networks
  import opened NetworkNets
  import opened Readings
  import opened MeasuredCosts
  import opened PerNodeTrees
  import opened CycleLoops
  import opened MeshRuns
  import opened MeshSettles
  import opened MeasuredMeshes

  /** What Prim read at the nodes of the mesh when they built the trees they hold. */
  ghost function NetsOf(m: Mesh): (nets: seq<Net>)
    ensures |nets| == |m| && forall v: nat :: v < |m| ==> nets[v] == NetOfState(m[v].read)
  {
    seq(|m|, v requires 0 <= v < |m| => NetOfState(m[v].read))
  }

  /** Whenever some run of the mesh leads to trees that were all built from all the links, and every node has its
      routes on the tree it holds, every packet inside the component of position 0 arrives. */
  ghost predicate MeshDelivers(w: Network, numNodes: nat)
    requires numNodes <= MAX_NODES
  {
    forall m: Mesh, runs: seq<Run>, tables: seq<seq<Route>> ::
      MeshReached(w, m) && Nodes(LinksOf(w), w.Ids(), NetsOf(m), runs, tables) ==>
        (TablesAreFull(LinksOf(w), w.Ids(), NetsOf(m), runs, tables);
         AllArrive(LinksOf(w), w.Ids(), tables, numNodes))
  }

  // ---------------------------------------------------------------- any measurements

  ghost predicate IsMeasured(w: Network, v: nat, row: seq<Byte>, z: Id, net: Net) {
    exists me: Id :: me == v + 1 && CanRead(w, me, row, z) && net == MeasuredNet(w, me, row, z)
  }

  ghost predicate CanMeasure(w: Network, v: nat, net: Net) {
    exists row, z :: IsMeasured(w, v, row, z, net)
  }

  /** The tables that measurements can give the node at position v. */
  ghost function Measurable(w: Network, v: nat): iset<Net> {
    iset net: Net | CanMeasure(w, v, net)
  }

  ghost function AllMeasurable(w: Network): (may: seq<iset<Net>>)
    ensures |may| == w.n && forall v: nat :: v < w.n ==> may[v] == Measurable(w, v)
  {
    seq(w.n, v requires 0 <= v < w.n => Measurable(w, v))
  }

  lemma MeasurableIsAll(w: Network)
    ensures MayMeasure(w, AllMeasurable(w))
  {
    var may := AllMeasurable(w);
    forall v: nat, me: Id, row, z | v < w.n && me == v + 1 && CanRead(w, me, row, z)
      ensures MeasuredNet(w, me, row, z) in may[v]
    {
      assert IsMeasured(w, v, row, z, MeasuredNet(w, me, row, z));
    }
  }

  lemma {:induction false} Choose(w: Network, nets: seq<Net>, k: nat) returns (rows: seq<seq<Byte>>, zs: seq<Id>)
    requires |nets| == w.n && k <= w.n && forall v: nat :: v < w.n ==> nets[v] in Measurable(w, v)
    ensures |rows| == |zs| == k && forall v: nat :: v < k ==> IsMeasured(w, v, rows[v], zs[v], nets[v])
  {
    if k == 0 {
      rows, zs := [], [];
    } else {
      rows, zs := Choose(w, nets, k - 1);
      var row, z :| IsMeasured(w, k - 1, row, z, nets[k - 1]);
      rows, zs := rows + [row], zs + [z];
    }
  }

  lemma ChosenIsOk(w: Network, v: nat, row: seq<Byte>, z: Id, net: Net)
    requires IsMeasured(w, v, row, z, net)
    ensures RowZOk(w, v, row, z)
  {
  }

  /** All of these meet in some run of the mesh. */
  lemma MeasurableMeet(w: Network, nets: seq<Net>) returns (m: Mesh)
    requires w.Small() && TwoHops(w) && w.n > 0
    requires |nets| == w.n && forall v: nat :: v < w.n ==> nets[v] in Measurable(w, v)
    ensures MeshReached(w, m) && NetsOf(m) == nets && forall v: nat :: v < w.n ==> m[v].read.ids == w.Ids()
  {
    var rows, zs := Choose(w, nets, w.n);
    forall v: nat | v < w.n ensures RowZOk(w, v, rows[v], zs[v]) {
      ChosenIsOk(w, v, rows[v], zs[v], nets[v]);
    }
    m := AnyMeasurementsMeet(w, rows, zs);
    forall v: nat | v < w.n ensures NetsOf(m)[v] == nets[v] && m[v].read.ids == w.Ids() {
      var me: Id :| me == v + 1 && CanRead(w, me, rows[v], zs[v]) && nets[v] == MeasuredNet(w, me, rows[v], zs[v]);
      assert ReadsRow(w, m[v].read, me, rows[v], zs[v]);
    }
  }

  // ---------------------------------------------------------------- both halves

  lemma TwoHopsConnect(w: Network, v: nat)
    requires TwoWay(w) && TwoHops(w) && v < w.n
    ensures Reach(LinkGraph(LinksOf(w)), 0, v)
  {
    LinksAreGraph(w);
    var g := LinkPairs(w);
    var a: Id, b: Id := 1, v + 1;
    if v == 0 {
      ReachSelf(g, 0);
    } else if w.Link(a, b) == 1 {
      ReachEdge(g, 0, v);
    } else {
      var z: Id :| w.Has(z) && w.Link(a, z) == 1 && w.Link(z, b) == 1;
      ReachEdge(g, 0, z - 1);
      ReachEdge(g, z - 1, v);
      ReachTrans(g, 0, z - 1, v);
    }
  }

  lemma CycleLoopsInMesh(w: Network, numNodes: nat)
    requires TwoWay(w) && TwoHops(w) && 0 < w.n <= numNodes <= MAX_NODES && !Forest(Inner(LinksOf(w)))
    ensures !MeshDelivers(w, numNodes)
  {
    var link, ids, may := LinksOf(w), w.Ids(), AllMeasurable(w);
    MeasurableIsAll(w);
    CycleCanLoop(w, may, numNodes);
    var nets, runs, tables :| Nodes(link, ids, nets, runs, tables) && AllMay(link, may, nets) &&
      !(TablesAreFull(link, ids, nets, runs, tables); AllArrive(link, ids, tables, numNodes));
    forall v: nat | v < w.n ensures nets[v] in Measurable(w, v) {
      TwoHopsConnect(w, v);
    }
    var m := MeasurableMeet(w, nets);
    TablesAreFull(link, ids, nets, runs, tables);
  }

  /** Anything a node may read at all. */
  ghost function AnyNets(n: nat): (may: seq<iset<Net>>)
    ensures |may| == n && forall v, net: Net :: 0 <= v < n && net.Square() ==> net in may[v]
  {
    seq(n, _ => iset net: Net | net.Square())
  }

  /** Without a cycle every packet arrives in all runs of the mesh, however far apart the nodes are and whichever
      links are one-way. */
  lemma NoCycleDeliversInMesh(w: Network, numNodes: nat)
    requires w.n <= numNodes <= MAX_NODES && Forest(Inner(LinksOf(w)))
    ensures MeshDelivers(w, numNodes)
  {
    var link, ids, may := LinksOf(w), w.Ids(), AnyNets(w.n);
    SmallIds(w);
    NoCycleAlwaysDelivers(link, ids, may, numNodes);
    forall m: Mesh, runs: seq<Run>, tables: seq<seq<Route>> | Nodes(link, ids, NetsOf(m), runs, tables)
      ensures (TablesAreFull(link, ids, NetsOf(m), runs, tables); AllArrive(link, ids, tables, numNodes))
    {
      assert AllMay(link, may, NetsOf(m));
    }
  }

  /** With two-way links and nobody more than two hops away: in all runs of the mesh every packet arrives, once the
      trees the nodes hold are built from all the links, if and only if the links form no cycle. */
  lemma MeshDeliversIffNoCycle(w: Network, numNodes: nat)
    requires TwoWay(w) && TwoHops(w) && 0 < w.n <= numNodes <= MAX_NODES
    ensures MeshDelivers(w, numNodes) <==> Forest(Inner(LinksOf(w)))
  {
    if Forest(Inner(LinksOf(w))) {
      NoCycleDeliversInMesh(w, numNodes);
    } else {
      CycleLoopsInMesh(w, numNodes);
    }
  }
}

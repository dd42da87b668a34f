/** A node's topology state: its matrix, the spanning tree table computed from it, and the routing manager that the
    topology event keeps up to date. */
module MeshNode {
  import opened Base
  import opened Graphs
  import opened SpanningTrees
  import opened Prim
  import opened Routing
  import opened Delivery
  import opened Topology
  import opened MatrixTable
  import opened MatrixMerge
  import TopologyRuns

  /** Tables of routes on a forest are determined by the tree, the id list and the node: the order in which
      branches were listed leaves no trace. */
  lemma TableUnique(g: Graph, ids: seq<Id>, me: int, a: seq<Route>, b: seq<Route>)
    requires Forest(g) && NodeIds(ids) && -1 <= me < |ids|
    requires TableFor(g, ids, me, a) && TableFor(g, ids, me, b)
    ensures a == b
  {
    forall d: nat | d < |ids| ensures a[d] == b[d] {
      assert RouteFor(g, ids, me, d, a[d]) && RouteFor(g, ids, me, d, b[d]);
      if me >= 0 && d != me && exists i: nat :: i < |ids| && Behind(g, me, i, d) {
        var i: nat :| i < |ids| && Behind(g, me, i, d) && a[d].nextHop == ids[i];
        var j: nat :| j < |ids| && Behind(g, me, j, d) && b[d].nextHop == ids[j];
        BranchUnique(g, me, i, j, d);
      }
    }
    assert forall d :: |ids| <= d < MAX_NODES ==> a[d] == b[d];
  }

  /** A tree table that lists only edges between the first n positions, undirected and without cycles. */
  ghost predicate TreeOver(tree: array2<Byte>, n: nat)
    reads tree
  {
    && tree.Length0 == tree.Length1 == MAX_NODES && n <= MAX_NODES
    && (forall i: nat, j: nat :: i < MAX_NODES && j < MAX_NODES ==> tree[i, j] <= 1)
    && (forall i: nat, j: nat :: i < MAX_NODES && j < MAX_NODES && tree[i, j] != 0 ==> i < n && j < n && i != j)
    && Forest(TableGraph(tree, n))
  }

  lemma StoredTreeIsOver(tree: array2<Byte>, n: nat, run: Run, net: Net)
    requires tree.Length0 == tree.Length1 == MAX_NODES && net.Square() && |net.link| == n && 0 < n <= MAX_NODES
    requires IsPrimRun(net, run) && TableOf(tree, RunEdges(run, |run.order|))
    ensures TreeOver(tree, n)
  {
    StoredTreeIsTree(tree, n, run, net);
    PrimTreeSpans(net, run);
    assert GraphOn(Both(RunEdges(run, |run.order|)), n);
  }

  /** The event detector: did the number of nodes or a tree entry among the current positions change? */
  ghost predicate Noticed(before: seq<seq<Byte>>, after: seq<seq<Byte>>, oldCount: nat, count: nat)
    requires count <= MAX_NODES && SquareCells(before, MAX_NODES) && SquareCells(after, MAX_NODES)
  {
    || count != oldCount
    || (count >= 2 && oldCount >= 2 && exists i: nat, j: nat :: i < count && j < count && before[i][j] != after[i][j])
  }

  /** The edges listed among the first n positions of a tree table. */
  ghost function GraphOfCells(cells: seq<seq<Byte>>, n: nat): (g: Graph)
    requires n <= MAX_NODES && SquareCells(cells, MAX_NODES)
    ensures forall a: nat, b: nat {:trigger (a, b) in g} :: (a, b) in g <==> a < n && b < n && cells[a][b] != 0
  {
    set a: nat, b: nat | a < n && b < n && cells[a][b] != 0 :: (a, b)
  }

  ghost predicate NoLoops(cells: seq<seq<Byte>>)
    requires SquareCells(cells, MAX_NODES)
  {
    forall i :: 0 <= i < MAX_NODES ==> cells[i][i] == 0
  }

  /** When nothing is noticed the tree is the same: below two nodes there is nothing to list. */
  lemma NothingNoticed(before: seq<seq<Byte>>, after: seq<seq<Byte>>, oldCount: nat, count: nat)
    requires 1 <= oldCount && count <= MAX_NODES && SquareCells(before, MAX_NODES) && SquareCells(after, MAX_NODES)
    requires NoLoops(before) && NoLoops(after) && !Noticed(before, after, oldCount, count)
    ensures count == oldCount && GraphOfCells(before, count) == GraphOfCells(after, count)
  {
    var g, h := GraphOfCells(before, count), GraphOfCells(after, count);
    forall a: nat, b: nat ensures (a, b) in g <==> (a, b) in h {
      if a < count && b < count {
        assert count == 1 ==> a == b == 0 && before[a][a] == 0 && after[a][a] == 0;
      }
    }
  }

  ghost predicate Bits(cells: seq<seq<Byte>>)
    requires SquareCells(cells, MAX_NODES)
  {
    forall i, j :: 0 <= i < MAX_NODES && 0 <= j < MAX_NODES ==> cells[i][j] <= 1
  }

  /** What is noticed is a real change. */
  lemma NoticedIsChanged(before: seq<seq<Byte>>, after: seq<seq<Byte>>, oldCount: nat, count: nat)
    requires oldCount == count <= MAX_NODES && SquareCells(before, MAX_NODES) && SquareCells(after, MAX_NODES)
    requires Bits(before) && Bits(after) && Noticed(before, after, oldCount, count)
    ensures GraphOfCells(before, count) != GraphOfCells(after, count)
  {
    var i: nat, j: nat :| i < count && j < count && before[i][j] != after[i][j];
    assert (i, j) in GraphOfCells(before, count) <==> (i, j) !in GraphOfCells(after, count);
  }

  /** A merge that adds no node changes no id. */
  lemma SameCountAfterMerge(t: Topo, b: Topo, from: Id, now: int)
    requires Topology.Valid(t) && ValidBeacon(b) && |Merge(t, b, from, now).ids| == |t.ids|
    ensures Merge(t, b, from, now).ids == t.ids
  {
    SameCountSameIds(t.ids, b.ids);
  }

  class Node {
    const my: TdmaMatrix
    const tree: array2<Byte>
    const routing: RoutingManager

    ghost predicate Valid()
      reads my, my.ids, my.link, my.quality, my.created, my.age
    {
      && my.Valid() && Topology.Valid(my.view) && routing.myNodeId == my.myId
      && tree.Length0 == tree.Length1 == MAX_NODES && tree != my.link && tree != my.quality
    }

    ghost function TreeCells(): (cells: seq<seq<Byte>>)
      requires tree.Length0 == tree.Length1 == MAX_NODES
      reads tree
      ensures SquareCells(cells, MAX_NODES)
    {
      Corner(tree, MAX_NODES)
    }

    /** The tree table holds 0 and 1 and no loops. */
    ghost predicate TreeOk()
      reads tree
    {
      && tree.Length0 == tree.Length1 == MAX_NODES
      && (forall i: nat, j: nat :: i < MAX_NODES && j < MAX_NODES ==> tree[i, j] <= 1) && NoLoops(TreeCells())
    }

    /** The routes in use are those of the current ids and of the tree as it is listed among them. */
    ghost predicate RoutesFit()
      requires Valid()
      reads my, my.ids, my.link, my.quality, my.created, my.age, tree, routing, routing.routingTable
    {
      var me := IndexOf(my.view.ids, my.myId);
      TableFor(GraphOfCells(TreeCells(), my.count), my.view.ids, me, routing.routingTable[..])
    }

    /** MATRIX_init and routing_manager_create: I know only myself, no tree, no route. */
    constructor (myId: Id, numNodes: Byte, now: int)
      requires 1 <= myId <= MAX_NODES && numNodes <= MAX_NODES
      ensures Valid() && TreeOk() && my.view == TopologyRuns.Init(myId, now)
    {
      my := new TdmaMatrix();
      tree := new Byte[MAX_NODES, MAX_NODES]((_, _) => 0);
      routing := new RoutingManager(myId, numNodes);
      new;
      my.Write(Snapshot(myId, [myId], [[0]], [[0]], [now], [0]), TopologyRuns.Init(myId, now));
    }

    /** Compares the old and the new tree table. */
    method TreeChanged(before: seq<seq<Byte>>, n: nat) returns (changed: bool)
      requires n <= MAX_NODES && tree.Length0 == tree.Length1 == MAX_NODES
      requires SquareCells(before, MAX_NODES)
      ensures changed <==> exists i: nat, j: nat :: i < n && j < n && before[i][j] != TreeCells()[i][j]
    {
      changed := false;
      ghost var after := TreeCells();
      for i := 0 to n
        invariant !changed
        invariant forall x: nat, y: nat :: x < i && y < n ==> before[x][y] == after[x][y]
      {
        for j := 0 to n
          invariant !changed
          invariant forall x: nat, y: nat :: x < i && y < n ==> before[x][y] == after[x][y]
          invariant forall y: nat :: y < j ==> before[i][y] == after[i][y]
        {
          if before[i][j] != tree[i, j] {
            assert before[i][j] != after[i][j];
            return true;
          }
        }
      }
    }

    method CopyTree() returns (cells: seq<seq<Byte>>)
      requires tree.Length0 == tree.Length1 == MAX_NODES
      ensures SquareCells(cells, MAX_NODES) && cells == TreeCells()
    {
      cells := seq(MAX_NODES, i requires 0 <= i < MAX_NODES && tree.Length0 == tree.Length1 == MAX_NODES reads tree =>
        seq(MAX_NODES, j requires 0 <= j < MAX_NODES && tree.Length0 == tree.Length1 == MAX_NODES reads tree =>
          tree[i, j]));
      SameCells(cells, TreeCells(), MAX_NODES);
    }

    /** The tree table is what Prim builds from the current link and quality tables. */
    ghost predicate TreeBuilt()
      requires Valid()
      reads my, my.ids, my.link, my.quality, my.created, my.age, tree
    {
      exists run: Run ::
        IsPrimRun(NetOf(my.link, my.quality, my.count), run) && TableOf(tree, RunEdges(run, |run.order|))
    }

    /** The first half of matrix_update: the received matrix is merged into mine. */
    method MergeReceived(rx: Snapshot, from: Id, now: int, ghost b: Topo)
      requires Valid() && rx.Square() && rx.Shows(b) && ValidBeacon(b)
      modifies my, my.ids, my.link, my.quality, my.created, my.age
      ensures Valid() && my.view == Merge(old(my.view), b, from, now)
    {
      ghost var t := my.view;
      MergeKeepsValid(t, b, from, now);
      my.UpdateLinkQuality(from, false);
      var s := my.Read();
      var final := MergeTables(s, rx, from, now, t, b);
      my.Write(final, Merge(t, b, from, now));
    }

    method RebuildTree()
      requires Valid()
      modifies tree
      ensures TreeBuilt()
    {
      assert my.count > 0 by { assert my.myId in my.view.ids; }
      ghost var run := PrimWeighted(my.count, my.link, my.quality, tree);
    }

    lemma BuiltIsOver()
      requires Valid() && TreeBuilt()
      ensures TreeOver(tree, my.count)
    {
      assert my.count > 0 by { assert my.myId in my.view.ids; }
      var net := NetOf(my.link, my.quality, my.count);
      var run: Run :| IsPrimRun(net, run) && TableOf(tree, RunEdges(run, |run.order|));
      StoredTreeIsOver(tree, my.count, run, net);
    }

    method Detect(before: seq<seq<Byte>>, oldCount: nat) returns (changed: bool)
      requires Valid() && SquareCells(before, MAX_NODES)
      ensures changed <==> Noticed(before, TreeCells(), oldCount, my.count)
    {
      changed := my.count != oldCount;
      if my.count >= 2 && oldCount >= 2 && !changed {
        changed := TreeChanged(before, my.count);
      }
    }

    /** The second half: a new tree, compared with the old one. */
    method RebuildAndDetect(oldMst: seq<seq<Byte>>, nodesBefore: nat) returns (changed: bool)
      requires Valid() && SquareCells(oldMst, MAX_NODES)
      modifies tree
      ensures Valid() && TreeBuilt()
      ensures changed <==> Noticed(oldMst, TreeCells(), nodesBefore, my.count)
    {
      RebuildTree();
      changed := Detect(oldMst, nodesBefore);
    }

    /** matrix_update: merge, rebuild the tree, and say whether the topology changed. */
    method MatrixUpdate(rx: Snapshot, from: Id, now: int, ghost b: Topo) returns (changed: bool)
      requires Valid() && rx.Square() && rx.Shows(b) && ValidBeacon(b)
      modifies my, my.ids, my.link, my.quality, my.created, my.age, tree
      ensures Valid() && my.view == Merge(old(my.view), b, from, now)
      ensures changed <==> Noticed(old(TreeCells()), TreeCells(), old(my.count), my.count)
      ensures TreeBuilt()
    {
      var nodesBefore := my.count;
      var oldMst := CopyTree();
      MergeReceived(rx, from, now, b);
      changed := RebuildAndDetect(oldMst, nodesBefore);
    }

    lemma BuiltIsOk()
      requires Valid() && TreeBuilt()
      ensures TreeOk()
    {
      BuiltIsOver();
    }

    lemma ListedTree()
      requires Valid() && TreeOk()
      ensures TableGraph(tree, my.count) == GraphOfCells(TreeCells(), my.count)
    {
      assert forall i: nat, j: nat :: i < MAX_NODES && j < MAX_NODES ==> TreeCells()[i][j] == tree[i, j];
    }

    lemma BitsOfTree()
      requires TreeOk()
      ensures Bits(TreeCells())
    {
    }

    /** What the handler of the topology event does: recompute from the tree and the ids as they are by then, sweeps
        and new measurements included. */
    method HandleEvent()
      requires Valid() && TreeOk() && routing.Valid()
      modifies routing, routing.routingTable
      ensures routing.Valid() && RoutesFit()
      ensures routing.names == my.view.ids && routing.graph == GraphOfCells(TreeCells(), my.count)
    {
      ListedTree();
      assert NodeIds(my.ids[..my.count]);
      routing.Recompute(tree, my.ids, my.count);
    }

    /** matrix_update, seen from the routes: the event is raised exactly when the ids or the listed tree change;
        without it the routes fit exactly if they did before. */
    method Receive(rx: Snapshot, from: Id, now: int, ghost b: Topo) returns (changed: bool)
      requires Valid() && TreeOk() && rx.Square() && rx.Shows(b) && ValidBeacon(b)
      requires routing.routingTable.Length == MAX_NODES
      modifies my, my.ids, my.link, my.quality, my.created, my.age, tree
      ensures Valid() && TreeOk() && TreeBuilt() && my.view == Merge(old(my.view), b, from, now)
      ensures !changed <==> my.view.ids == old(my.view.ids) &&
                            GraphOfCells(TreeCells(), my.count) == old(GraphOfCells(TreeCells(), my.count))
      ensures !changed ==> (RoutesFit() <==> old(RoutesFit()))
    {
      ghost var t, cells, n := my.view, TreeCells(), my.count;
      assert t.me in t.ids && |t.ids| == n;
      BitsOfTree();
      changed := MatrixUpdate(rx, from, now, b);
      BuiltIsOk();
      BitsOfTree();
      assert |my.view.ids| == my.count;
      if changed {
        if my.count == n {
          NoticedIsChanged(cells, TreeCells(), n, my.count);
        }
      } else {
        NothingNoticed(cells, TreeCells(), n, my.count);
        SameCountAfterMerge(t, b, from, now);
      }
    }

    /** Routes that fit are exactly what a fresh recompute from the current tree and ids would give. */
    lemma FittingIsRecomputed(recomputed: seq<Route>)
      requires Valid() && TreeOk() && Forest(TableGraph(tree, my.count)) && RoutesFit()
      requires TableFor(TableGraph(tree, my.count), my.view.ids, IndexOf(my.view.ids, my.myId), recomputed)
      ensures recomputed == routing.routingTable[..]
    {
      ListedTree();
      TableUnique(TableGraph(tree, my.count), my.view.ids, IndexOf(my.view.ids, my.myId), recomputed,
                  routing.routingTable[..]);
    }

    /** removeDeadLinks: only the matrix changes; the tree table and the routes are left as they are. */
    method RemoveDeadLinks(now: int)
      requires Valid()
      modifies my, my.ids, my.link, my.quality, my.created, my.age
      ensures Valid() && my.view == Sweep(old(my.view), now)
    {
      SweepKeepsValid(my.view, now);
      my.RemoveDeadLinks(now);
    }
  }
}

/** Delivery when every node computes its own tree: the links are gossiped and common, but each node has its own
    quality table, since qualities are not on the air. */
module PerNodeTrees {
  import opened Base
  import opened Graphs
  import opened SpanningTrees
  import opened Prim
  import opened TreeChoice
  import opened Routing
  import opened Delivery

  ghost predicate SquareLinks(link: seq<seq<Byte>>) {
    forall i :: 0 <= i < |link| ==> |link[i]| == |link|
  }

  /** Who hears whom in either direction; no quality enters. */
  ghost function LinkGraph(link: seq<seq<Byte>>): (g: Graph)
    requires SquareLinks(link)
    ensures Symmetric(g) && GraphOn(g, |link|) && forall a: nat :: (a, a) !in g
  {
    HeardGraph(Net(link, link))
  }

  /** The links of the component of position 0. */
  ghost function Inner(link: seq<seq<Byte>>): (g: Graph)
    requires SquareLinks(link)
    ensures Symmetric(g) && g <= LinkGraph(link)
  {
    var g := LinkGraph(link);
    InnerIsSymmetric(g);
    set e | e in g && Reach(g, 0, e.0)
  }

  lemma InnerIsSymmetric(g: Graph)
    requires Symmetric(g)
    ensures Symmetric(set e | e in g && Reach(g, 0, e.0))
  {
    forall a, b | (a, b) in g && Reach(g, 0, a) ensures Reach(g, 0, b) {
      ReachEdge(g, a, b);
      ReachTrans(g, 0, a, b);
    }
  }

  /** Every node has the common links, some quality table, the tree Prim builds from them, and its routes on it. */
  ghost predicate Nodes(link: seq<seq<Byte>>, ids: seq<Id>, nets: seq<Net>, runs: seq<Run>, tables: seq<seq<Route>>) {
    && |ids| == |nets| == |runs| == |tables| == |link|
    && forall x: nat :: x < |ids| ==> NodeAt(link, ids, nets[x], runs[x], tables[x], x)
  }

  ghost predicate NodeAt(link: seq<seq<Byte>>, ids: seq<Id>, net: Net, run: Run, table: seq<Route>, x: nat) {
    && net.Square() && net.link == link && IsPrimRun(net, run)
    && TableFor(Both(RunEdges(run, |run.order|)), ids, x, table)
  }

  ghost predicate Arrives(ids: seq<Id>, tables: seq<seq<Route>>, numNodes: nat, s: nat, d: nat)
    requires |tables| == |ids| && s < |ids| && d < |ids|
    requires forall x :: 0 <= x < |tables| ==> numNodes <= |tables[x]|
  {
    exists hops: nat :: Forward(ids, tables, numNodes, s, ids[d], hops) == d
  }

  lemma TablesAreFull(link: seq<seq<Byte>>, ids: seq<Id>, nets: seq<Net>, runs: seq<Run>, tables: seq<seq<Route>>)
    requires Nodes(link, ids, nets, runs, tables)
    ensures forall x :: 0 <= x < |tables| ==> |tables[x]| == MAX_NODES
  {
    forall x: nat | x < |tables| ensures |tables[x]| == MAX_NODES {
      assert NodeAt(link, ids, nets[x], runs[x], tables[x], x);
    }
  }

  /** A node's run is the only one its tables allow. */
  lemma RunOfNode(link: seq<seq<Byte>>, ids: seq<Id>, nets: seq<Net>, runs: seq<Run>, tables: seq<seq<Route>>,
                  x: nat, run: Run)
    requires Nodes(link, ids, nets, runs, tables) && x < |ids| && nets[x].Square() && IsPrimRun(nets[x], run)
    ensures runs[x] == run
  {
    assert NodeAt(link, ids, nets[x], runs[x], tables[x], x);
    PrimRunUnique(nets[x], runs[x], run);
  }

  /** Every node of the component of position 0 has tables that it may have. */
  ghost predicate AllMay(link: seq<seq<Byte>>, may: seq<iset<Net>>, nets: seq<Net>)
    requires SquareLinks(link) && |may| == |nets|
  {
    forall x: nat :: x < |nets| && Reach(LinkGraph(link), 0, x) ==> nets[x] in may[x]
  }

  /** Whatever tables the nodes of the component of position 0 have, of those they may have, every packet inside it
      arrives. */
  ghost predicate AlwaysDelivers(link: seq<seq<Byte>>, ids: seq<Id>, may: seq<iset<Net>>, numNodes: nat)
    requires SquareLinks(link) && |ids| == |link| == |may| && numNodes <= MAX_NODES
  {
    forall nets: seq<Net>, runs: seq<Run>, tables: seq<seq<Route>> ::
      Nodes(link, ids, nets, runs, tables) && AllMay(link, may, nets) ==>
        (TablesAreFull(link, ids, nets, runs, tables);
         AllArrive(link, ids, tables, numNodes))
  }

  ghost predicate AllArrive(link: seq<seq<Byte>>, ids: seq<Id>, tables: seq<seq<Route>>, numNodes: nat)
    requires SquareLinks(link) && |tables| == |ids| == |link|
    requires forall x :: 0 <= x < |tables| ==> numNodes <= |tables[x]|
  {
    forall s: nat, d: nat :: s < |ids| && d < |ids| && Reach(LinkGraph(link), 0, s) && Reach(LinkGraph(link), 0, d) ==>
      Arrives(ids, tables, numNodes, s, d)
  }

  // ---------------------------------------------------------------- one tree for all

  ghost predicate Builds(net: Net, run: Run, edges: set<Edge>) {
    net.Square() && IsPrimRun(net, run) && RunEdges(run, |run.order|) == edges
  }

  ghost predicate AllBuild(nets: seq<Net>, runs: seq<Run>, edges: set<Edge>)
    requires |nets| == |runs|
  {
    forall x :: 0 <= x < |runs| ==> Builds(nets[x], runs[x], edges)
  }

  lemma TreeReaches(net: Net, run: Run, s: nat, d: nat)
    requires net.Square() && IsPrimRun(net, run) && Reach(HeardGraph(net), 0, s) && Reach(HeardGraph(net), 0, d)
    ensures Forest(Both(RunEdges(run, |run.order|))) && Reach(Both(RunEdges(run, |run.order|)), s, d)
    ensures GraphOn(Both(RunEdges(run, |run.order|)), |net.link|)
  {
    PrimTreeSpans(net, run);
    var g := Both(RunEdges(run, |run.order|));
    ReachReversed(g, 0, s);
    ReachTrans(g, s, 0, d);
  }

  /** Nodes that build the same tree, whatever they measured, deliver every packet inside the component of position 0,
      after exactly as many hops as the tree has edges on the way, and not before. */
  lemma SameTreeDelivers(link: seq<seq<Byte>>, ids: seq<Id>, nets: seq<Net>, runs: seq<Run>, tables: seq<seq<Route>>,
                         numNodes: nat, edges: set<Edge>, s: nat, d: nat)
    requires SquareLinks(link) && Nodes(link, ids, nets, runs, tables) && AllBuild(nets, runs, edges)
    requires NodeIds(ids) && |ids| <= numNodes <= MAX_NODES && s < |ids| && d < |ids|
    requires Reach(LinkGraph(link), 0, s) && Reach(LinkGraph(link), 0, d)
    ensures forall x :: 0 <= x < |tables| ==> |tables[x]| == MAX_NODES
    ensures Reach(Both(edges), s, d)
    ensures forall h: nat :: h <= Distance(Both(edges), s, d) ==>
              (Forward(ids, tables, numNodes, s, ids[d], h) == d <==> h == Distance(Both(edges), s, d))
  {
    TablesAreFull(link, ids, nets, runs, tables);
    var g := Both(edges);
    forall x: nat | x < |ids| ensures TableFor(g, ids, x, tables[x]) {
      assert NodeAt(link, ids, nets[x], runs[x], tables[x], x) && Builds(nets[x], runs[x], edges);
    }
    assert NodeAt(link, ids, nets[s], runs[s], tables[s], s) && Builds(nets[s], runs[s], edges);
    assert LinkGraph(link) == HeardGraph(nets[s]);
    TreeReaches(nets[s], runs[s], s, d);
    forall h: nat | h <= Distance(g, s, d)
      ensures Forward(ids, tables, numNodes, s, ids[d], h) == d <==> h == Distance(g, s, d)
    {
      HopByHop(g, ids, tables, numNodes, s, d, h);
    }
  }

  // ---------------------------------------------------------------- links without a cycle

  /** The links of a component without a cycle are its only spanning tree. */
  lemma OnlyTree(g: Graph, inner: Graph, edges: set<Edge>, comp: set<nat>)
    requires IsComponent(g, 0, comp) && IsSpanningTree(edges, g, 0, comp) && Forest(inner)
    requires inner <= g && forall e :: e in g && e.0 in comp ==> e in inner
    requires forall e :: e in inner ==> e.0 in comp
    ensures Both(edges) == inner
  {
    var tree := set e | e in inner && e.0 < e.1;
    assert Both(tree) == inner;
    forall v | v in comp ensures Reach(Both(tree), 0, v) {
      ReachMonotone(Both(edges), Both(tree), 0, v);
    }
    forall a, b | (a, b) in tree ensures a in comp && b in comp {
      assert (b, a) in inner;
    }
    SpanningPartIsAll(tree, edges, 0, comp);
  }

  /** If the links of the component form no cycle, they are the tree, whatever was measured. */
  lemma TreeIsInner(link: seq<seq<Byte>>, net: Net, run: Run)
    requires SquareLinks(link) && net.Square() && net.link == link && IsPrimRun(net, run) && Forest(Inner(link))
    ensures Both(RunEdges(run, |run.order|)) == Inner(link)
  {
    assert LinkGraph(link) == HeardGraph(net);
    PrimTreeSpans(net, run);
    OnlyTree(LinkGraph(link), Inner(link), RunEdges(run, |run.order|), Joined(run, |run.order|));
  }

  /** Then nodes with different measurements still agree, and every packet arrives after exactly as many hops as there
      are links on the way, and not before. */
  lemma CycleFreeLinksDeliver(link: seq<seq<Byte>>, ids: seq<Id>, nets: seq<Net>, runs: seq<Run>,
                              tables: seq<seq<Route>>, numNodes: nat, s: nat, d: nat)
    requires SquareLinks(link) && Nodes(link, ids, nets, runs, tables) && Forest(Inner(link))
    requires NodeIds(ids) && |ids| <= numNodes <= MAX_NODES && s < |ids| && d < |ids|
    requires Reach(LinkGraph(link), 0, s) && Reach(LinkGraph(link), 0, d)
    ensures forall x :: 0 <= x < |tables| ==> |tables[x]| == MAX_NODES
    ensures Reach(Inner(link), s, d)
    ensures forall h: nat :: h <= Distance(Inner(link), s, d) ==>
              (Forward(ids, tables, numNodes, s, ids[d], h) == d <==> h == Distance(Inner(link), s, d))
  {
    TablesAreFull(link, ids, nets, runs, tables);
    var g := Inner(link);
    forall x: nat | x < |ids| ensures TableFor(g, ids, x, tables[x]) {
      assert NodeAt(link, ids, nets[x], runs[x], tables[x], x);
      TreeIsInner(link, nets[x], runs[x]);
    }
    InnerReaches(link, s, d);
    forall h: nat | h <= Distance(g, s, d)
      ensures Forward(ids, tables, numNodes, s, ids[d], h) == d <==> h == Distance(g, s, d)
    {
      HopByHop(g, ids, tables, numNodes, s, d, h);
    }
  }

  lemma NoCycleAlwaysDelivers(link: seq<seq<Byte>>, ids: seq<Id>, may: seq<iset<Net>>, numNodes: nat)
    requires SquareLinks(link) && NodeIds(ids) && |ids| == |link| == |may| && |ids| <= numNodes <= MAX_NODES
    requires Forest(Inner(link))
    ensures AlwaysDelivers(link, ids, may, numNodes)
  {
    forall nets: seq<Net>, runs: seq<Run>, tables: seq<seq<Route>> | Nodes(link, ids, nets, runs, tables)
      ensures (TablesAreFull(link, ids, nets, runs, tables); AllArrive(link, ids, tables, numNodes))
    {
      TablesAreFull(link, ids, nets, runs, tables);
      forall s: nat, d: nat
        | s < |ids| && d < |ids| && Reach(LinkGraph(link), 0, s) && Reach(LinkGraph(link), 0, d)
        ensures Arrives(ids, tables, numNodes, s, d)
      {
        CycleFreeLinksDeliver(link, ids, nets, runs, tables, numNodes, s, d);
        var hops := Distance(Inner(link), s, d);
        assert Forward(ids, tables, numNodes, s, ids[d], hops) == d;
      }
    }
  }

  lemma InnerReaches(link: seq<seq<Byte>>, s: nat, d: nat)
    requires SquareLinks(link) && Reach(LinkGraph(link), 0, s) && Reach(LinkGraph(link), 0, d)
    ensures Reach(Inner(link), s, d)
  {
    ReachFromRoot(link, s);
    ReachFromRoot(link, d);
    ReachReversed(Inner(link), 0, s);
    ReachTrans(Inner(link), s, 0, d);
  }

  lemma ReachFromRoot(link: seq<seq<Byte>>, v: nat)
    requires SquareLinks(link) && Reach(LinkGraph(link), 0, v)
    ensures Reach(Inner(link), 0, v)
  {
    var g := LinkGraph(link);
    var w :| WalkBetween(g, 0, v, w);
    forall k | 1 <= k < |w| ensures (w[k - 1], w[k]) in Inner(link) {
      var u := w[..k];
      assert WalkBetween(g, 0, w[k - 1], u) by {
        assert forall i :: 0 <= i < |u| ==> u[i] == w[i];
      }
    }
    assert WalkBetween(Inner(link), 0, v, w);
  }

  // ---------------------------------------------------------------- a packet that goes back and forth

  /** Some table belongs to every tree. */
  lemma TableExists(g: Graph, ids: seq<Id>, me: nat) returns (table: seq<Route>)
    requires |ids| <= MAX_NODES
    ensures TableFor(g, ids, me, table)
  {
    table := MakeTable(g, ids, me, |ids|);
  }

  lemma {:induction false} MakeTable(g: Graph, ids: seq<Id>, me: nat, k: nat) returns (table: seq<Route>)
    requires k <= |ids| <= MAX_NODES
    ensures FilledUpTo(g, ids, me, table, k)
  {
    if k == 0 {
      table := seq(MAX_NODES, _ => NO_ROUTE);
    } else {
      table := MakeTable(g, ids, me, k - 1);
      var d := k - 1;
      if d != me && exists i: nat :: i < |ids| && Behind(g, me, i, d) {
        var i: nat :| i < |ids| && Behind(g, me, i, d);
        table := table[d := Route(ids[d], ids[i], true)];
      }
    }
  }

  ghost predicate SameLinks(link: seq<seq<Byte>>, nets: seq<Net>) {
    forall x :: 0 <= x < |nets| ==> nets[x].Square() && nets[x].link == link
  }

  /** Whatever the nodes measured, they have trees and routes. */
  lemma NodesFor(link: seq<seq<Byte>>, ids: seq<Id>, nets: seq<Net>)
    returns (runs: seq<Run>, tables: seq<seq<Route>>)
    requires |ids| == |nets| == |link| <= MAX_NODES && SameLinks(link, nets)
    ensures Nodes(link, ids, nets, runs, tables)
  {
    runs, tables := FirstNodes(link, ids, nets, |nets|);
  }

  lemma {:induction false} FirstNodes(link: seq<seq<Byte>>, ids: seq<Id>, nets: seq<Net>, k: nat)
    returns (runs: seq<Run>, tables: seq<seq<Route>>)
    requires |ids| == |nets| == |link| <= MAX_NODES && SameLinks(link, nets) && k <= |nets|
    ensures |runs| == |tables| == k && forall x: nat :: x < k ==> NodeAt(link, ids, nets[x], runs[x], tables[x], x)
  {
    if k == 0 {
      runs, tables := [], [];
    } else {
      runs, tables := FirstNodes(link, ids, nets, k - 1);
      var run := RunExists(nets[k - 1]);
      var table := TableExists(Both(RunEdges(run, |run.order|)), ids, k - 1);
      runs, tables := runs + [run], tables + [table];
    }
  }

  /** Two neighbours that each take the other for the next hop towards b keep the packet for ever. */
  lemma {:induction false} PingPong(ids: seq<Id>, tables: seq<seq<Route>>, numNodes: nat, x: nat, y: nat, b: nat,
                                    hops: nat)
    requires NodeIds(ids) && |tables| == |ids| <= numNodes && x < |ids| && y < |ids| && b < |ids| && x != b && y != b
    requires forall k :: 0 <= k < |tables| ==> numNodes <= |tables[k]|
    requires LookupIn(tables[x][..numNodes], ids[b]) == ids[y] && LookupIn(tables[y][..numNodes], ids[b]) == ids[x]
    ensures Forward(ids, tables, numNodes, x, ids[b], hops) in {x, y}
    decreases hops
  {
    if hops > 0 {
      IndexOfDistinct(ids, y);
      PingPong(ids, tables, numNodes, y, x, b, hops - 1);
    }
  }

  lemma NextHopIs(link: seq<seq<Byte>>, ids: seq<Id>, net: Net, run: Run, table: seq<Route>, numNodes: nat,
                  x: nat, y: nat, b: nat)
    requires SquareLinks(link) && NodeIds(ids) && |ids| == |link| && |ids| <= numNodes <= MAX_NODES
    requires NodeAt(link, ids, net, run, table, x) && Behind(Both(RunEdges(run, |run.order|)), x, y, b)
    requires x < |ids| && b < |ids| && x != b
    ensures y < |ids| && |table| == MAX_NODES && LookupIn(table[..numNodes], ids[b]) == ids[y]
  {
    var g := Both(RunEdges(run, |run.order|));
    PrimTreeSpans(net, run);
    assert GraphOn(g, |ids|);
    LookupIsFirstHop(g, ids, x, b, table, numNodes);
    ReachableIsBehind(g, |ids|, x, b);
  }

  lemma InnerIsReached(link: seq<seq<Byte>>, a: nat, b: nat)
    requires SquareLinks(link) && (a, b) in Inner(link)
    ensures (b, a) in Inner(link) && a < |link| && b < |link| && (a, b) in LinkGraph(link)
    ensures Reach(LinkGraph(link), 0, a) && Reach(LinkGraph(link), 0, b)
  {
    assert (b, a) in Inner(link);
  }

  lemma LoopsForEver(link: seq<seq<Byte>>, ids: seq<Id>, nets: seq<Net>, runs: seq<Run>, tables: seq<seq<Route>>,
                     numNodes: nat, x: nat, y: nat, b: nat)
    requires SquareLinks(link) && NodeIds(ids) && |ids| == |link| && |ids| <= numNodes <= MAX_NODES
    requires Nodes(link, ids, nets, runs, tables) && forall x :: 0 <= x < |tables| ==> |tables[x]| == MAX_NODES
    requires x < |ids| && y < |ids| && b < |ids| && x != b && y != b
    requires Behind(Both(RunEdges(runs[x], |runs[x].order|)), x, y, b)
    requires Behind(Both(RunEdges(runs[y], |runs[y].order|)), y, x, b)
    ensures forall hops: nat :: Forward(ids, tables, numNodes, x, ids[b], hops) != b
  {
    NextHopIs(link, ids, nets[x], runs[x], tables[x], numNodes, x, y, b);
    NextHopIs(link, ids, nets[y], runs[y], tables[y], numNodes, y, x, b);
    forall hops: nat ensures Forward(ids, tables, numNodes, x, ids[b], hops) != b {
      PingPong(ids, tables, numNodes, x, y, b, hops);
    }
  }
}

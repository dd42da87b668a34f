/** Forwarding across nodes: tables computed from the same tree take every packet along the tree path. */
module Delivery {
  import opened Base
  import opened Graphs
  import opened SpanningTrees
  import opened Prim
  import opened Routing

  /** All edges run between the listed positions. */
  ghost predicate GraphOn(g: Graph, n: nat) {
    forall a, b :: (a, b) in g ==> a < n && b < n
  }

  lemma {:induction false} LookupMisses(table: seq<Route>, destination: Id)
    requires forall k :: 0 <= k < |table| ==> !(table[k].valid && table[k].destination == destination)
    ensures LookupIn(table, destination) == 0
  {
    if table != [] {
      LookupMisses(table[1..], destination);
    }
  }

  lemma {:induction false} LookupHits(table: seq<Route>, destination: Id, k: nat)
    requires k < |table| && table[k].valid && table[k].destination == destination
    requires forall x :: 0 <= x < k ==> !(table[x].valid && table[x].destination == destination)
    ensures LookupIn(table, destination) == table[k].nextHop
  {
    if k > 0 {
      LookupHits(table[1..], destination, k - 1);
    }
  }

  /** Something can be reached exactly when it hangs behind some neighbour. */
  lemma ReachableIsBehind(g: Graph, n: nat, me: nat, d: nat)
    requires GraphOn(g, n) && me != d
    ensures Reach(g, me, d) <==> exists i: nat :: i < n && Behind(g, me, i, d)
  {
    if Reach(g, me, d) {
      var w :| WalkBetween(g, me, d, w);
      var i := BranchExists(g, me, d, w);
      assert Behind(g, me, w[i + 1], d);
    }
    if i: nat :| i < n && Behind(g, me, i, d) {
      ReachMonotone(Shut(g, {me}), g, i, d);
      ReachEdge(g, me, i);
      ReachTrans(g, me, i, d);
    }
  }

  /** What a lookup answers on a cycle-free tree: the one neighbour whose branch holds the destination. It is 0
      exactly for the node itself, for an unreachable position, and for a position past the configured count. */
  lemma LookupIsFirstHop(g: Graph, ids: seq<Id>, me: nat, d: nat, table: seq<Route>, numNodes: nat)
    requires NodeIds(ids) && me < |ids| && d < |ids| && numNodes <= MAX_NODES
    requires Forest(g) && GraphOn(g, |ids|) && TableFor(g, ids, me, table)
    ensures LookupIn(table[..numNodes], ids[d]) == 0 <==> d == me || !Reach(g, me, d) || d >= numNodes
    ensures LookupIn(table[..numNodes], ids[d]) != 0 ==>
              exists y: nat :: y < |ids| && Behind(g, me, y, d) && LookupIn(table[..numNodes], ids[d]) == ids[y]
                && forall z: nat :: Behind(g, me, z, d) ==> z == y
  {
    var seen := table[..numNodes];
    forall k: nat | k < |seen| && seen[k].valid && seen[k].destination == ids[d] ensures k == d {
      assert k < |ids| ==> RouteFor(g, ids, me, k, table[k]);
    }
    assert RouteFor(g, ids, me, d, table[d]);
    if d != me {
      ReachableIsBehind(g, |ids|, me, d);
    }
    if d < numNodes && table[d].valid {
      LookupHits(seen, ids[d], d);
      var y: nat :| y < |ids| && Behind(g, me, y, d) && table[d].nextHop == ids[y];
      assert ids[y] != 0;
      forall z: nat | Behind(g, me, z, d) ensures z == y {
        BranchUnique(g, me, z, y, d);
      }
    } else {
      LookupMisses(seen, ids[d]);
    }
  }

  /** A tree neighbour is reached directly. */
  lemma NeighbourIsNextHop(g: Graph, ids: seq<Id>, me: nat, d: nat, table: seq<Route>)
    requires NodeIds(ids) && me < |ids| && d < |ids| && me != d && (me, d) in g
    requires Forest(g) && GraphOn(g, |ids|) && TableFor(g, ids, me, table)
    ensures |table| == MAX_NODES && LookupIn(table, ids[d]) == ids[d]
  {
    ReachEdge(g, me, d);
    ReachSelf(Shut(g, {me}), d);
    assert Behind(g, me, d, d);
    LookupIsFirstHop(g, ids, me, d, table, MAX_NODES);
    assert table[..MAX_NODES] == table;
  }

  /** An id that is not listed has no next hop. */
  lemma UnlistedHasNoRoute(g: Graph, ids: seq<Id>, me: int, destination: Id, table: seq<Route>, numNodes: nat)
    requires numNodes <= MAX_NODES && TableFor(g, ids, me, table) && destination !in ids
    ensures LookupIn(table[..numNodes], destination) == 0
  {
    var seen := table[..numNodes];
    forall k: nat | k < |seen| ensures !(seen[k].valid && seen[k].destination == destination) {
      assert k < |ids| ==> RouteFor(g, ids, me, k, table[k]);
    }
    LookupMisses(seen, destination);
  }

  /** Position that holds the packet after a number of hops; a node without a route keeps it. */
  function Forward(ids: seq<Id>, tables: seq<seq<Route>>, numNodes: nat, at: nat, destination: Id, hops: nat): (p: nat)
    requires |tables| == |ids| && at < |ids|
    requires forall x :: 0 <= x < |tables| ==> numNodes <= |tables[x]|
    ensures p < |ids|
    decreases hops
  {
    if hops == 0 then at
    else
      var nextHop := LookupIn(tables[at][..numNodes], destination);
      var next := IndexOf(ids, nextHop);
      if next == -1 then at else Forward(ids, tables, numNodes, next, destination, hops - 1)
  }

  /** Every node holds the table it computes from the same tree. */
  ghost predicate AllFrom(g: Graph, ids: seq<Id>, tables: seq<seq<Route>>) {
    && |tables| == |ids|
    && forall x :: 0 <= x < |tables| ==> TableFor(g, ids, x, tables[x])
  }

  /** One hop: the packet moves into the branch of the destination, one edge closer. */
  lemma OneHop(g: Graph, ids: seq<Id>, tables: seq<seq<Route>>, numNodes: nat, s: nat, d: nat) returns (y: nat)
    requires NodeIds(ids) && s < |ids| && d < |ids| <= numNodes <= MAX_NODES && s != d
    requires Forest(g) && GraphOn(g, |ids|) && AllFrom(g, ids, tables) && Reach(g, s, d)
    ensures y < |ids| && Behind(g, s, y, d)
    ensures forall hops: nat :: Forward(ids, tables, numNodes, s, ids[d], hops + 1) ==
                                Forward(ids, tables, numNodes, y, ids[d], hops)
  {
    LookupIsFirstHop(g, ids, s, d, tables[s], numNodes);
    var nextHop := LookupIn(tables[s][..numNodes], ids[d]);
    y :| y < |ids| && Behind(g, s, y, d) && nextHop == ids[y];
    IndexOfDistinct(ids, y);
  }

  /** Each hop brings the packet exactly one edge closer, so the packet arrives after exactly as many hops as
      the tree path has edges, not earlier, and no node sees it twice. */
  lemma {:induction false} HopByHop(g: Graph, ids: seq<Id>, tables: seq<seq<Route>>, numNodes: nat,
                                    s: nat, d: nat, hops: nat)
    requires NodeIds(ids) && s < |ids| && d < |ids| <= numNodes <= MAX_NODES
    requires Forest(g) && GraphOn(g, |ids|) && AllFrom(g, ids, tables)
    requires Reach(g, s, d) && hops <= Distance(g, s, d)
    ensures Reach(g, Forward(ids, tables, numNodes, s, ids[d], hops), d)
    ensures Distance(g, Forward(ids, tables, numNodes, s, ids[d], hops), d) == Distance(g, s, d) - hops
    ensures Forward(ids, tables, numNodes, s, ids[d], hops) == d <==> hops == Distance(g, s, d)
    decreases hops
  {
    DistanceZero(g, s, d);
    if hops > 0 {
      var y := OneHop(g, ids, tables, numNodes, s, d);
      BranchIsCloser(g, s, y, d);
      HopByHop(g, ids, tables, numNodes, y, d, hops - 1);
      assert Forward(ids, tables, numNodes, s, ids[d], hops - 1 + 1) ==
             Forward(ids, tables, numNodes, y, ids[d], hops - 1);
    }
  }

  lemma DistanceZero(g: Graph, a: nat, b: nat)
    requires Reach(g, a, b)
    ensures Distance(g, a, b) == 0 <==> a == b
  {
    assert WalkBetween(g, a, a, [a]);
  }

  /** The tree connects nothing outside the component. */
  lemma TreeStaysInside(edges: set<Edge>, g: Graph, comp: set<nat>, a: nat, b: nat)
    requires IsSpanningTree(edges, g, 0, comp) && a != b && Reach(Both(edges), a, b)
    ensures a in comp && b in comp
  {
    var w :| WalkBetween(Both(edges), a, b, w);
    assert (w[0], w[1]) in Both(edges) && (w[|w| - 2], w[|w| - 1]) in Both(edges);
  }

  /** Positions outside the component of position 0 get no route at all. */
  lemma OutsideIsUnrouted(net: Net, run: Run, ids: seq<Id>, me: nat, d: nat, table: seq<Route>, numNodes: nat)
    requires net.Square() && IsPrimRun(net, run) && |ids| == |net.link|
    requires NodeIds(ids) && numNodes <= MAX_NODES && me < |ids| && d < |ids| && me != d
    requires TableFor(Both(RunEdges(run, |run.order|)), ids, me, table)
    requires !Reach(HeardGraph(net), 0, me) || !Reach(HeardGraph(net), 0, d)
    ensures LookupIn(table[..numNodes], ids[d]) == 0
  {
    PrimTreeSpans(net, run);
    NoTreeNoRoute(RunEdges(run, |run.order|), HeardGraph(net), Joined(run, |run.order|), ids, me, d, table, numNodes);
  }

  lemma NoTreeNoRoute(edges: set<Edge>, g: Graph, comp: set<nat>, ids: seq<Id>, me: nat, d: nat,
                      table: seq<Route>, numNodes: nat)
    requires IsSpanningTree(edges, g, 0, comp) && GraphOn(g, |ids|)
    requires NodeIds(ids) && numNodes <= MAX_NODES && me < |ids| && d < |ids| && me != d
    requires TableFor(Both(edges), ids, me, table) && (me !in comp || d !in comp)
    ensures LookupIn(table[..numNodes], ids[d]) == 0
  {
    LookupIsFirstHop(Both(edges), ids, me, d, table, numNodes);
    if Reach(Both(edges), me, d) {
      TreeStaysInside(edges, g, comp, me, d);
    }
  }

  /** The graph read back from the stored tree table is the tree of the run. */
  lemma StoredTreeIsTree(tree: array2<Byte>, n: nat, run: Run, net: Net)
    requires n <= tree.Length0 && n <= tree.Length1 && net.Square() && |net.link| == n && n > 0
    requires IsPrimRun(net, run) && TableOf(tree, RunEdges(run, |run.order|))
    ensures TableGraph(tree, n) == Both(RunEdges(run, |run.order|))
    ensures forall a, b :: 0 <= a < n && 0 <= b < n ==> tree[a, b] <= 1
    ensures forall a :: 0 <= a < n ==> tree[a, a] == 0
  {
    PrimTreeSpans(net, run);
    assert GraphOn(Both(RunEdges(run, |run.order|)), n);
    forall a: nat | a < n ensures tree[a, a] == 0 {
      assert (a, a) !in Both(RunEdges(run, |run.order|));
    }
  }
}

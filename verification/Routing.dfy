/** The routing manager: splits the spanning tree into branches, fills the next-hop table, answers lookups. */
module Routing {
  import opened Base
  import opened Graphs

  /** The edges a tree table lists among the first n positions. */
  ghost function TableGraph(mst: array2<Byte>, n: nat): (g: Graph)
    requires n <= mst.Length0 && n <= mst.Length1
    reads mst
    ensures forall a: nat, b: nat :: (a, b) in g <==> a < n && b < n && mst[a, b] != 0
  {
    set a: nat, b: nat | a < n && b < n && mst[a, b] != 0 :: (a, b)
  }

  ghost function Marked(visited: array<bool>, n: nat): (s: set<nat>)
    requires n <= visited.Length
    reads visited
    ensures forall k: nat :: k in s <==> k < n && visited[k]
  {
    set k: nat | k < n && visited[k]
  }

  ghost function Unmarked(visited: array<bool>, n: nat): (s: set<nat>)
    requires n <= visited.Length
    reads visited
    ensures forall k: nat :: k in s <==> k < n && !visited[k]
  {
    set k: nat | k < n && !visited[k]
  }

  // ---------------------------------------------------------------- depth-first search

  /** A search from start that gave up: it marked everything it could reach, and never met the target. */
  ghost predicate GaveUp(g: Graph, before: set<nat>, after: set<nat>, start: nat, target: nat) {
    && before <= after && start in after && start != target
    && (target in after ==> target in before)
    && (forall x, y :: (x, y) in g && (x == start || (x in after && x !in before)) ==> y in after)
  }

  lemma GaveUpMeansUnreachable(g: Graph, before: set<nat>, after: set<nat>, start: nat, target: nat)
    requires GaveUp(g, before, after, start, target)
    ensures !Reach(Shut(g, before), start, target)
  {
    var seen := after - before + {start};
    assert Closed(Shut(g, before), seen);
    if Reach(Shut(g, before), start, target) {
      ClosedKeepsReach(Shut(g, before), seen, start, target);
    }
  }

  lemma StepFindsTarget(g: Graph, before: set<nat>, now: set<nat>, start: nat, next: nat, target: nat)
    requires before <= now && (start, next) in g && next !in now
    requires Reach(Shut(g, now), next, target)
    ensures Reach(Shut(g, before), start, target)
  {
    ReachMonotone(Shut(g, now), Shut(g, before), next, target);
    ReachEdge(Shut(g, before), start, next);
    ReachTrans(Shut(g, before), start, next, target);
  }

  /** Recursive search sharing one visited array. It answers exactly whether the target can be reached without
      entering a position that was marked at the start; it only adds marks. */
  method IsReachableViaMst(mst: array2<Byte>, n: nat, start: nat, target: nat, visited: array<bool>)
    returns (found: bool)
    requires n <= mst.Length0 && n <= mst.Length1 && n <= visited.Length && start < n && target < n
    modifies visited
    ensures found <==> Reach(Shut(TableGraph(mst, n), old(Marked(visited, n))), start, target)
    ensures old(Marked(visited, n)) <= Marked(visited, n)
    ensures !found ==> GaveUp(TableGraph(mst, n), old(Marked(visited, n)), Marked(visited, n), start, target)
    decreases Unmarked(visited, n), if visited[start] then 1 else 0
  {
    ghost var g, before := TableGraph(mst, n), Marked(visited, n);
    if start == target {
      ReachSelf(Shut(g, before), start);
      return true;
    }
    visited[start] := true;
    for i := 0 to n
      invariant before <= Marked(visited, n) && start in Marked(visited, n)
      invariant target in Marked(visited, n) ==> target in before
      invariant forall x, y :: (x, y) in g && x in Marked(visited, n) && x !in before && x != start ==>
        y in Marked(visited, n)
      invariant forall y :: (start, y) in g && y < i ==> y in Marked(visited, n)
    {
      if mst[start, i] != 0 && !visited[i] {
        ghost var now := Marked(visited, n);
        var hit := IsReachableViaMst(mst, n, i, target, visited);
        if hit {
          StepFindsTarget(g, before, now, start, i, target);
          return true;
        }
      }
    }
    GaveUpMeansUnreachable(g, before, Marked(visited, n), start, target);
    return false;
  }

  // ---------------------------------------------------------------- branches

  method FindNodeIndex(ids: array<Id>, n: nat, id: Id) returns (i: int)
    requires n <= ids.Length
    ensures i == IndexOf(ids[..n], id)
  {
    for k := 0 to n
      invariant id !in ids[..k]
    {
      if ids[k] == id {
        assert ids[..n][k] == id && forall x :: 0 <= x < k ==> ids[..n][x] == ids[..k][x];
        return k;
      }
    }
    return -1;
  }

  /** A direct neighbour and the ids reached through it. */
  datatype Branch = Branch(nodeId: Id, reachable: seq<Id>)

  /** Position j hangs behind neighbour i of me. */
  ghost predicate Behind(g: Graph, me: nat, i: nat, j: nat) {
    (me, i) in g && Reach(Shut(g, {me}), i, j)
  }

  ghost predicate IsBranch(g: Graph, ids: seq<Id>, me: nat, i: nat, b: Branch)
    requires i < |ids|
  {
    && (me, i) in g
    && b.nodeId == ids[i]
    && (forall id :: id in b.reachable ==>
         exists j: nat :: j < |ids| && j != me && j != i && ids[j] == id && Behind(g, me, i, j))
    && (forall j: nat :: j < |ids| && j != me && j != i && Behind(g, me, i, j) ==> ids[j] in b.reachable)
  }

  /** The list holds one branch for every neighbour; hubs[k] is the neighbour of branch k. */
  ghost predicate AreBranches(g: Graph, ids: seq<Id>, me: nat, list: seq<Branch>, hubs: seq<nat>) {
    && |hubs| == |list|
    && (forall k :: 0 <= k < |list| ==> hubs[k] < |ids| && IsBranch(g, ids, me, hubs[k], list[k]))
    && (forall i: nat :: i < |ids| && (me, i) in g ==> i in hubs)
  }

  method BuildRoutingStructure(myId: Id, mst: array2<Byte>, ids: array<Id>, n: nat)
    returns (list: seq<Branch>, ghost hubs: seq<nat>)
    requires n <= MAX_NODES && n <= ids.Length && n <= mst.Length0 && n <= mst.Length1
    requires forall a, b :: 0 <= a < n && 0 <= b < n ==> mst[a, b] <= 1
    requires forall a :: 0 <= a < n ==> mst[a, a] == 0
    ensures IndexOf(ids[..n], myId) == -1 ==> list == []
    ensures IndexOf(ids[..n], myId) >= 0 ==>
              AreBranches(TableGraph(mst, n), ids[..n], IndexOf(ids[..n], myId), list, hubs)
  {
    ghost var g := TableGraph(mst, n);
    list, hubs := [], [];
    var me := FindNodeIndex(ids, n, myId);
    if me == -1 {
      return;
    }
    for i := 0 to n
      invariant |hubs| == |list|
      invariant forall k :: 0 <= k < |list| ==> hubs[k] < n && IsBranch(g, ids[..n], me, hubs[k], list[k])
      invariant forall x: nat :: x < i && (me, x) in g ==> x in hubs
    {
      if mst[me, i] == 1 {
        var members := BranchMembers(mst, ids, n, me, i);
        list := [Branch(ids[i], members)] + list;
        hubs := [i] + hubs;
      }
    }
  }

  method BranchMembers(mst: array2<Byte>, ids: array<Id>, n: nat, me: nat, i: nat) returns (members: seq<Id>)
    requires n <= MAX_NODES && n <= ids.Length && n <= mst.Length0 && n <= mst.Length1
    requires me < n && i < n && me != i && mst[me, i] != 0
    ensures IsBranch(TableGraph(mst, n), ids[..n], me, i, Branch(ids[i], members))
  {
    ghost var g := TableGraph(mst, n);
    members := [];
    for j := 0 to n
      invariant forall id :: id in members ==>
        exists x: nat :: x < j && x != me && x != i && ids[..n][x] == id && Behind(g, me, i, x)
      invariant forall x: nat :: x < j && x != me && x != i && Behind(g, me, i, x) ==> ids[x] in members
    {
      if j != me && j != i {
        var visited := new bool[MAX_NODES](_ => false);
        visited[me] := true;
        assert Marked(visited, n) == {me};
        var found := IsReachableViaMst(mst, n, i, j, visited);
        if found {
          assert ids[..n][j] == ids[j] && Behind(g, me, i, j);
          members := [ids[j]] + members;
        }
      }
    }
  }

  /** Where a lookup in the branch list may stop. */
  ghost predicate Offers(list: seq<Branch>, destination: Id, k: nat) {
    k < |list| && (destination in list[k].reachable || destination == list[k].nodeId)
  }

  method LookupNextHop(list: seq<Branch>, destination: Id) returns (nextHop: Id)
    ensures (exists k: nat :: Offers(list, destination, k)) ==>
              exists k: nat :: Offers(list, destination, k) && nextHop == list[k].nodeId
    ensures !(exists k: nat :: Offers(list, destination, k)) ==> nextHop == 0
    ensures (exists k: nat :: k < |list| && destination in list[k].reachable) ==>
              exists k: nat :: k < |list| && destination in list[k].reachable && nextHop == list[k].nodeId
  {
    for k := 0 to |list|
      invariant forall x :: 0 <= x < k ==> destination !in list[x].reachable
    {
      for s := 0 to |list[k].reachable|
        invariant destination !in list[k].reachable[..s]
      {
        if list[k].reachable[s] == destination {
          assert Offers(list, destination, k);
          return list[k].nodeId;
        }
      }
      assert list[k].reachable[..|list[k].reachable|] == list[k].reachable;
    }
    for k := 0 to |list|
      invariant forall x :: 0 <= x < k ==> list[x].nodeId != destination
    {
      if list[k].nodeId == destination {
        assert Offers(list, destination, k);
        return list[k].nodeId;
      }
    }
    return 0;
  }

  // ---------------------------------------------------------------- the table

  datatype Route = Route(destination: Id, nextHop: Id, valid: bool)

  const NO_ROUTE := Route(0, 0, false)

  /** Entry for position d in the table of position me. */
  ghost predicate RouteFor(g: Graph, ids: seq<Id>, me: int, d: nat, r: Route)
    requires d < |ids|
  {
    if me < 0 || d == me || !(exists i: nat :: i < |ids| && Behind(g, me, i, d)) then
      r == NO_ROUTE
    else
      && r.valid && r.destination == ids[d]
      && exists i: nat :: i < |ids| && Behind(g, me, i, d) && r.nextHop == ids[i]
  }

  /** A table filled up to position k, with nothing beyond. */
  ghost predicate FilledUpTo(g: Graph, ids: seq<Id>, me: int, table: seq<Route>, k: nat)
    requires k <= |ids|
  {
    && |table| == MAX_NODES && |ids| <= MAX_NODES
    && (forall d: nat :: d < k ==> RouteFor(g, ids, me, d, table[d]))
    && (forall d :: k <= d < MAX_NODES ==> table[d] == NO_ROUTE)
  }

  lemma FillNext(g: Graph, ids: seq<Id>, me: int, table: seq<Route>, k: nat, r: Route)
    requires k < |ids| && FilledUpTo(g, ids, me, table, k) && RouteFor(g, ids, me, k, r)
    ensures FilledUpTo(g, ids, me, table[k := r], k + 1)
  {
  }

  /** The whole table of position me (-1 when the node is not listed). */
  ghost predicate TableFor(g: Graph, ids: seq<Id>, me: int, table: seq<Route>) {
    FilledUpTo(g, ids, me, table, |ids|)
  }

  /** Ids that name real nodes, each once. */
  ghost predicate NodeIds(ids: seq<Id>) {
    Distinct(ids) && 0 !in ids
  }

  lemma OfferIsBehind(g: Graph, ids: seq<Id>, me: nat, list: seq<Branch>, hubs: seq<nat>, d: nat, k: nat)
    requires NodeIds(ids) && me < |ids| && d < |ids| && d != me
    requires AreBranches(g, ids, me, list, hubs) && Offers(list, ids[d], k)
    ensures Behind(g, me, hubs[k], d) && list[k].nodeId == ids[hubs[k]]
  {
    assert IsBranch(g, ids, me, hubs[k], list[k]);
    if ids[d] in list[k].reachable {
      var j: nat :| j < |ids| && ids[j] == ids[d] && Behind(g, me, hubs[k], j);
      assert j == d;
    } else {
      assert hubs[k] == d;
      ReachSelf(Shut(g, {me}), d);
    }
  }

  lemma BehindIsOffered(g: Graph, ids: seq<Id>, me: nat, list: seq<Branch>, hubs: seq<nat>, d: nat, i: nat)
    returns (k: nat)
    requires NodeIds(ids) && me < |ids| && d < |ids| && d != me && i < |ids|
    requires AreBranches(g, ids, me, list, hubs) && Behind(g, me, i, d)
    ensures Offers(list, ids[d], k)
  {
    k :| 0 <= k < |hubs| && hubs[k] == i;
    assert IsBranch(g, ids, me, i, list[k]);
  }

  /** What LookupNextHop returns on the branch list is the entry the table needs. */
  lemma LookupGivesRoute(g: Graph, ids: seq<Id>, me: int, list: seq<Branch>, hubs: seq<nat>, d: nat, nextHop: Id)
    requires NodeIds(ids) && -1 <= me < |ids| && d < |ids| && d != me
    requires me == -1 ==> list == []
    requires me >= 0 ==> AreBranches(g, ids, me, list, hubs)
    requires (exists k: nat :: Offers(list, ids[d], k)) ==>
               exists k: nat :: Offers(list, ids[d], k) && nextHop == list[k].nodeId
    requires !(exists k: nat :: Offers(list, ids[d], k)) ==> nextHop == 0
    ensures RouteFor(g, ids, me, d, if nextHop == 0 then NO_ROUTE else Route(ids[d], nextHop, true))
  {
    if me >= 0 {
      if exists k: nat :: Offers(list, ids[d], k) {
        var k: nat :| Offers(list, ids[d], k) && nextHop == list[k].nodeId;
        OfferIsBehind(g, ids, me, list, hubs, d, k);
        assert nextHop in ids;
      } else if i: nat :| i < |ids| && Behind(g, me, i, d) {
        var k := BehindIsOffered(g, ids, me, list, hubs, d, i);
      }
    }
  }

  class RoutingManager {
    ghost var graph: Graph   // the tree of the last recompute
    ghost var names: seq<Id> // and its id list
    const myNodeId: Id
    const numNodes: Byte
    const routingTable: array<Route>
    var recomputeCount: nat
    var needsRecompute: bool

    /** The table is the one for the tree and the ids of the last recompute. */
    ghost predicate Valid()
      reads this, routingTable
    {
      && routingTable.Length == MAX_NODES && numNodes <= MAX_NODES
      && TableFor(graph, names, IndexOf(names, myNodeId), routingTable[..])
    }

    constructor (myNodeId: Id, numNodes: Byte)
      requires numNodes <= MAX_NODES
      ensures Valid() && fresh(routingTable)
      ensures this.myNodeId == myNodeId && this.numNodes == numNodes
      ensures graph == {} && names == [] && recomputeCount == 0 && !needsRecompute
    {
      this.myNodeId, this.numNodes := myNodeId, numNodes;
      graph, names := {}, [];
      routingTable := new Route[MAX_NODES](_ => NO_ROUTE);
      recomputeCount, needsRecompute := 0, false;
    }

    /** Rebuilds the table from a snapshot of the tree and the id list. */
    method Recompute(mst: array2<Byte>, ids: array<Id>, n: nat)
      requires Valid()
      requires n <= MAX_NODES && n <= ids.Length && n <= mst.Length0 && n <= mst.Length1
      requires NodeIds(ids[..n])
      requires forall a, b :: 0 <= a < n && 0 <= b < n ==> mst[a, b] <= 1
      requires forall a :: 0 <= a < n ==> mst[a, a] == 0
      modifies this, routingTable
      ensures Valid() && graph == TableGraph(mst, n) && names == ids[..n]
      ensures recomputeCount == old(recomputeCount) + 1 && !needsRecompute
    {
      ghost var g, named := TableGraph(mst, n), ids[..n];
      var list, hubs := BuildRoutingStructure(myNodeId, mst, ids, n);
      forall i | 0 <= i < MAX_NODES { routingTable[i] := NO_ROUTE; }
      ghost var me := IndexOf(named, myNodeId);
      for i := 0 to n
        modifies routingTable
        invariant FilledUpTo(g, named, me, routingTable[..], i)
      {
        ghost var was := routingTable[..];
        var destId := ids[i];
        if destId != myNodeId {
          var nextHop := LookupNextHop(list, destId);
          LookupGivesRoute(g, named, me, list, hubs, i, nextHop);
          if nextHop != 0 {
            routingTable[i] := Route(destId, nextHop, true);
          }
        }
        FillNext(g, named, me, was, i, routingTable[i]);
        assert routingTable[..] == was[i := routingTable[i]];
      }
      recomputeCount := recomputeCount + 1;
      needsRecompute := false;
      graph, names := g, named;
    }

    /** The next hop towards a destination, 0 for none. */
    method Lookup(destination: Id) returns (nextHop: Id)
      requires Valid()
      ensures nextHop == LookupIn(routingTable[..numNodes], destination)
    {
      for i := 0 to numNodes
        invariant LookupIn(routingTable[..numNodes], destination) ==
                  LookupIn(routingTable[i..numNodes], destination)
      {
        if routingTable[i].destination == destination && routingTable[i].valid {
          return routingTable[i].nextHop;
        }
        assert routingTable[i..numNodes][1..] == routingTable[i + 1..numNodes];
      }
      return 0;
    }
  }

  /** Next hop of the first valid entry for the destination. */
  function LookupIn(table: seq<Route>, destination: Id): Id {
    if table == [] then 0
    else if table[0].destination == destination && table[0].valid then table[0].nextHop
    else LookupIn(table[1..], destination)
  }
}

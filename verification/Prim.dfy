/** The weighted Prim that turns the link and quality tables into the spanning tree table. */
module Prim {
  import opened Base
  import opened Graphs
  import opened SpanningTrees
  import opened JoiningKeys

  /** What Prim reads: who hears whom and how well, by position. */
  datatype Net = Net(link: seq<seq<Byte>>, quality: seq<seq<Byte>>) {
    ghost predicate Square() {
      && |link| == |quality|
      && (forall i :: 0 <= i < |link| ==> |link[i]| == |link|)
      && (forall i :: 0 <= i < |quality| ==> |quality[i]| == |link|)
    }
  }

  ghost function NetOf(link: array2<Byte>, quality: array2<Byte>, n: nat): (net: Net)
    requires n <= link.Length0 && n <= link.Length1 && n <= quality.Length0 && n <= quality.Length1
    reads link, quality
    ensures net.Square() && |net.link| == n
  {
    Net(Corner(link, n), Corner(quality, n))
  }

  /** At least one of the two positions hears the other. */
  ghost predicate Heard(net: Net, u: nat, v: nat)
    requires net.Square() && u < |net.link| && v < |net.link|
  {
    net.link[u][v] != 0 || net.link[v][u] != 0
  }

  /** Cost of attaching v to u: own measurement, else the other side's, else the default, with a penalty for
      links confirmed in one direction only. */
  function EdgeCost(net: Net, u: nat, v: nat): (c: int)
    requires net.Square() && u < |net.link| && v < |net.link|
    ensures -155 <= c <= 99
  {
    var q := if net.quality[u][v] != 0 then net.quality[u][v]
             else if net.quality[v][u] != 0 then net.quality[v][u]
             else INITIAL_LINK_QUALITY;
    var oneWay := !(net.link[u][v] != 0 && net.link[v][u] != 0);
    100 - (if oneWay && q > 20 then q - 20 else q)
  }

  ghost function HeardGraph(net: Net): (g: Graph)
    requires net.Square()
    ensures Symmetric(g)
  {
    set u: nat, v: nat | u < |net.link| && v < |net.link| && u != v && Heard(net, u, v) :: (u, v)
  }

  ghost function EdgeCosts(net: Net): (cost: Costs)
    requires net.Square()
    ensures cost.Keys == HeardGraph(net)
  {
    map e | e in HeardGraph(net) :: EdgeCost(net, e.0, e.1)
  }

  /** A complete run of the greedy construction from position 0. */
  ghost predicate IsPrimRun(net: Net, r: Run)
    requires net.Square()
  {
    && GreedyRun(r, HeardGraph(net), EdgeCosts(net), 0)
    && r.via[0] == 0
    && Exhausted(r, HeardGraph(net))
  }

  /** The tree table holds a 1 exactly for the two directions of every tree edge. */
  ghost predicate TableOf(tree: array2<Byte>, edges: set<Edge>)
    reads tree
  {
    forall i: nat, j: nat :: i < tree.Length0 && j < tree.Length1 ==>
      tree[i, j] == if (i, j) in Both(edges) then 1 else 0
  }

  // ---------------------------------------------------------------- what the loop keeps

  /** Rank j offers the cheapest way to reach v, the earliest one among equals. */
  ghost predicate BestVia(net: Net, order: seq<nat>, v: nat, j: nat)
    requires net.Square() && v < |net.link| && forall i :: 0 <= i < |order| ==> order[i] < |net.link|
  {
    && j < |order| && Heard(net, order[j], v)
    && forall i :: 0 <= i < |order| && Heard(net, order[i], v) ==>
         && EdgeCost(net, order[j], v) <= EdgeCost(net, order[i], v)
         && (i < j ==> EdgeCost(net, order[j], v) < EdgeCost(net, order[i], v))
  }

  /** key and parent of a position v that has not joined. */
  ghost predicate KeyState(net: Net, order: seq<nat>, v: nat, key: int, parent: int)
    requires net.Square() && v < |net.link| && forall i :: 0 <= i < |order| ==> order[i] < |net.link|
  {
    if order == [] then
      parent == -1 && key == if v == 0 then 0 else 999
    else if exists j: nat :: j < |order| && Heard(net, order[j], v) then
      exists j: nat :: BestVia(net, order, v, j) && parent == order[j] && key == EdgeCost(net, order[j], v)
    else
      parent == -1 && key == 999
  }

  lemma Relax(net: Net, order: seq<nat>, u: nat, v: nat, key: int, parent: int)
    requires net.Square() && v < |net.link| && u < |net.link|
    requires forall i :: 0 <= i < |order| ==> order[i] < |net.link|
    requires KeyState(net, order, v, key, parent) && (order == [] ==> v != 0)
    ensures Heard(net, u, v) && EdgeCost(net, u, v) < key ==>
              KeyState(net, order + [u], v, EdgeCost(net, u, v), u)
    ensures !(Heard(net, u, v) && EdgeCost(net, u, v) < key) ==> KeyState(net, order + [u], v, key, parent)
  {
    var more := order + [u];
    assert forall i :: 0 <= i < |order| ==> more[i] == order[i];
    assert more[|order|] == u;
    if Heard(net, u, v) && EdgeCost(net, u, v) < key {
      assert BestVia(net, more, v, |order|);
    } else if order != [] && exists j: nat :: j < |order| && Heard(net, order[j], v) {
      var j: nat :| BestVia(net, order, v, j) && parent == order[j] && key == EdgeCost(net, order[j], v);
      assert BestVia(net, more, v, j);
    }
  }

  /** Joining the position with the least key (the lowest one among equals) is a greedy step. */
  lemma Join(net: Net, r: Run, u: nat, j: nat)
    requires net.Square() && u < |net.link| && |r.order| > 0 && u !in r.order
    requires forall i :: 0 <= i < |r.order| ==> r.order[i] < |net.link|
    requires GreedyRun(r, HeardGraph(net), EdgeCosts(net), 0)
    requires BestVia(net, r.order, u, j)
    requires forall x, i :: 0 <= x < |net.link| && x !in r.order && 0 <= i < |r.order| && Heard(net, r.order[i], x) ==>
               && EdgeCost(net, r.order[j], u) <= EdgeCost(net, r.order[i], x)
               && (x < u ==> EdgeCost(net, r.order[j], u) < EdgeCost(net, r.order[i], x))
    ensures GreedyRun(Run(r.order + [u], r.via + [j]), HeardGraph(net), EdgeCosts(net), 0)
  {
    var g, cost := HeardGraph(net), EdgeCosts(net);
    var q := Run(r.order + [u], r.via + [j]);
    var n := |r.order|;
    assert q.order[..n] == r.order && RunShape(q, 0);
    forall k | 1 <= k < |q.order| ensures RunStep(q, g, cost, k) {
      if k < n {
        assert RunStep(r, g, cost, k);
        assert q.order[..k] == r.order[..k];
        assert forall i :: 0 <= i <= k ==> q.order[i] == r.order[i];
        assert q.via[k] == r.via[k];
      } else {
        forall i, x | 0 <= i < n && x !in r.order && (q.order[i], x) in g
          ensures cost[(r.order[j], u)] <= cost[(q.order[i], x)]
          ensures x < u ==> cost[(r.order[j], u)] < cost[(q.order[i], x)]
          ensures x == u && i < j ==> cost[(r.order[j], u)] < cost[(q.order[i], x)]
        {
          assert Heard(net, r.order[i], x);
        }
        assert (r.order[j], u) in g;
      }
    }
  }

  /** What the main loop keeps: the joined positions form a greedy run, the flags mark them, their parent
      fields name the run's edges, and the other positions know their cheapest connection. */
  ghost predicate LoopState(net: Net, r: Run, inMst: seq<bool>, key: seq<int>, parent: seq<int>)
    requires net.Square()
  {
    && |inMst| == |key| == |parent| == |net.link| > 1
    && |r.order| == |r.via| <= |net.link| && Distinct(r.order)
    && (forall i :: 0 <= i < |r.order| ==> r.order[i] < |net.link|)
    && (forall v: nat :: v < |net.link| ==> (inMst[v] <==> v in r.order))
    && (|r.order| > 0 ==> GreedyRun(r, HeardGraph(net), EdgeCosts(net), 0) && r.via[0] == 0)
    && (forall v: nat :: v < |net.link| && v !in r.order ==> KeyState(net, r.order, v, key[v], parent[v]))
    && (forall k :: 1 <= k < |r.order| ==> parent[r.order[k]] == r.order[r.via[k]])
    && parent[0] == -1
  }

  /** u is the first position outside the tree with the least key, if any key is below 999. */
  ghost predicate LeastKey(inMst: seq<bool>, key: seq<int>, u: int)
    requires |inMst| == |key|
  {
    if u == -1 then
      forall x :: 0 <= x < |key| && !inMst[x] ==> key[x] >= 999
    else
      && 0 <= u < |key| && !inMst[u] && key[u] < 999
      && forall x :: 0 <= x < |key| && !inMst[x] ==> key[u] <= key[x] && (x < u ==> key[u] < key[x])
  }

  /** Whether joining u improves the key of v. */
  ghost predicate Improves(net: Net, inMst: seq<bool>, key: seq<int>, u: nat, v: nat)
    requires net.Square() && |inMst| == |key| == |net.link| && u < |net.link| && v < |net.link|
  {
    Heard(net, u, v) && !inMst[v] && EdgeCost(net, u, v) < key[v]
  }

  /** The position picked by the scan joins through the rank its parent field names. */
  lemma ChosenRank(net: Net, r: Run, u: nat, inMst: seq<bool>, key: seq<int>, parent: seq<int>) returns (j: nat)
    requires net.Square() && LoopState(net, r, inMst, key, parent) && |r.order| > 0
    requires LeastKey(inMst, key, u)
    ensures BestVia(net, r.order, u, j) && parent[u] == r.order[j]
    ensures GreedyRun(Run(r.order + [u], r.via + [j]), HeardGraph(net), EdgeCosts(net), 0)
  {
    assert KeyState(net, r.order, u, key[u], parent[u]);
    j :| BestVia(net, r.order, u, j) && parent[u] == r.order[j] && key[u] == EdgeCost(net, r.order[j], u);
    forall x: nat, i: nat | x < |net.link| && x !in r.order && i < |r.order| && Heard(net, r.order[i], x)
      ensures EdgeCost(net, r.order[j], u) <= EdgeCost(net, r.order[i], x)
      ensures x < u ==> EdgeCost(net, r.order[j], u) < EdgeCost(net, r.order[i], x)
    {
      assert KeyState(net, r.order, x, key[x], parent[x]);
      var m: nat :| BestVia(net, r.order, x, m) && key[x] == EdgeCost(net, r.order[m], x);
    }
    Join(net, r, u, j);
  }

  /** What RelaxAll leaves in key and parent after u joined. */
  ghost predicate Relaxed(net: Net, inMst: seq<bool>, u: nat, key: seq<int>, parent: seq<int>,
                          key': seq<int>, parent': seq<int>)
    requires net.Square() && |inMst| == |key| == |parent| == |net.link| && u < |net.link|
  {
    && |key'| == |parent'| == |net.link|
    && forall v: nat :: v < |net.link| ==>
         if Improves(net, inMst, key, u, v)
         then key'[v] == EdgeCost(net, u, v) && parent'[v] == u
         else key'[v] == key[v] && parent'[v] == parent[v]
  }

  lemma RelaxedKey(net: Net, r: Run, u: nat, v: nat, inMst: seq<bool>, key: seq<int>, parent: seq<int>,
                   key': seq<int>, parent': seq<int>)
    requires net.Square() && LoopState(net, r, inMst, key, parent) && LeastKey(inMst, key, u)
    requires Relaxed(net, inMst[u := true], u, key, parent, key', parent')
    requires v < |net.link| && v !in r.order && v != u
    ensures KeyState(net, r.order + [u], v, key'[v], parent'[v])
  {
    assert KeyState(net, r.order, u, key[u], parent[u]);
    Relax(net, r.order, u, v, key[v], parent[v]);
  }

  lemma RelaxedParents(net: Net, r: Run, u: nat, j: nat, inMst: seq<bool>, key: seq<int>, parent: seq<int>,
                       key': seq<int>, parent': seq<int>)
    requires net.Square() && LoopState(net, r, inMst, key, parent) && LeastKey(inMst, key, u)
    requires Relaxed(net, inMst[u := true], u, key, parent, key', parent')
    requires |r.order| > 0 ==> j < |r.order| && parent[u] == r.order[j]
    ensures parent'[0] == -1
    ensures forall k :: 1 <= k < |r.order + [u]| ==> parent'[(r.order + [u])[k]] == (r.order + [u])[(r.via + [j])[k]]
  {
    assert KeyState(net, r.order, u, key[u], parent[u]);
    forall k | 1 <= k < |r.order + [u]|
      ensures parent'[(r.order + [u])[k]] == (r.order + [u])[(r.via + [j])[k]]
    {
      if k < |r.order| {
        assert inMst[r.order[k]] && parent[r.order[k]] == r.order[r.via[k]];
      }
    }
  }

  /** One round of the main loop keeps the loop state. */
  lemma RoundKeeps(net: Net, r: Run, u: nat, inMst: seq<bool>, key: seq<int>, parent: seq<int>,
                   key': seq<int>, parent': seq<int>)
    returns (r': Run)
    requires net.Square() && LoopState(net, r, inMst, key, parent) && LeastKey(inMst, key, u)
    requires |r.order| < |net.link| && Relaxed(net, inMst[u := true], u, key, parent, key', parent')
    ensures LoopState(net, r', inMst[u := true], key', parent') && |r'.order| == |r.order| + 1
  {
    assert KeyState(net, r.order, u, key[u], parent[u]);
    var j := 0;
    if |r.order| > 0 {
      j := ChosenRank(net, r, u, inMst, key, parent);
    }
    r' := Run(r.order + [u], r.via + [j]);
    assert forall x :: x in r'.order <==> x in r.order || x == u;
    forall v: nat | v < |net.link| && v !in r'.order
      ensures KeyState(net, r'.order, v, key'[v], parent'[v])
    {
      RelaxedKey(net, r, u, v, inMst, key, parent, key', parent');
    }
    RelaxedParents(net, r, u, j, inMst, key, parent, key', parent');
  }

  /** When the scan finds nothing, or everything has joined, the run is complete. */
  lemma LoopDone(net: Net, r: Run, inMst: seq<bool>, key: seq<int>, parent: seq<int>)
    requires net.Square() && LoopState(net, r, inMst, key, parent) && |r.order| > 0
    requires |r.order| == |net.link| || LeastKey(inMst, key, -1)
    ensures IsPrimRun(net, r)
    ensures forall x: nat :: x < |net.link| && x !in r.order ==> parent[x] == -1
  {
    if |r.order| == |net.link| {
      DistinctFills(r.order, |net.link|);
    } else {
      forall x: nat | x < |net.link| && x !in r.order
        ensures parent[x] == -1
        ensures forall i :: 0 <= i < |r.order| ==> !Heard(net, r.order[i], x)
      {
        assert KeyState(net, r.order, x, key[x], parent[x]);
      }
    }
  }

  /** The parent fields name exactly the given edges, and nothing hangs off position 0. */
  ghost predicate ParentsName(edges: set<Edge>, parent: seq<int>) {
    && (forall i :: 0 <= i < |parent| ==> -1 <= parent[i] < |parent|)
    && (forall a: nat, b: nat :: (a, b) in Both(edges) <==>
          || (1 <= b < |parent| && parent[b] == a)
          || (1 <= a < |parent| && parent[a] == b))
  }

  /** Parent fields agree with the ranks of the run. */
  ghost predicate ParentsOf(r: Run, parent: seq<int>) {
    && RunShape(r, 0)
    && (forall i :: 0 <= i < |r.order| ==> r.order[i] < |parent|)
    && (forall k :: 1 <= k < |r.order| ==> parent[r.order[k]] == r.order[r.via[k]])
    && |parent| > 0 && parent[0] == -1
    && (forall x: nat :: x < |parent| && x !in r.order ==> parent[x] == -1)
  }

  lemma ParentIsEdge(r: Run, parent: seq<int>, b: nat)
    requires ParentsOf(r, parent) && 1 <= b < |parent| && parent[b] != -1
    ensures 0 <= parent[b] < |parent|
    ensures Norm(parent[b], b) in RunEdges(r, |r.order|)
  {
    var k :| 0 <= k < |r.order| && r.order[k] == b;
    assert RunEdge(r, k) in RunEdges(r, |r.order|);
  }

  lemma EdgeIsParent(r: Run, parent: seq<int>, a: nat, b: nat)
    requires ParentsOf(r, parent) && (a, b) in RunEdges(r, |r.order|)
    ensures (1 <= b < |parent| && parent[b] == a) || (1 <= a < |parent| && parent[a] == b)
  {
    var k :| 1 <= k < |r.order| && RunEdge(r, k) == (a, b);
    assert r.order[k] != r.order[0];
  }

  lemma EdgesFromParents(r: Run, parent: seq<int>)
    requires ParentsOf(r, parent)
    ensures ParentsName(RunEdges(r, |r.order|), parent)
  {
    var edges := RunEdges(r, |r.order|);
    forall b: nat | b < |parent| ensures -1 <= parent[b] < |parent| {
      if b > 0 && parent[b] != -1 {
        ParentIsEdge(r, parent, b);
      }
    }
    forall a: nat, b: nat
      ensures (a, b) in Both(edges) <==>
                || (1 <= b < |parent| && parent[b] == a)
                || (1 <= a < |parent| && parent[a] == b)
    {
      if (a, b) in edges { EdgeIsParent(r, parent, a, b); }
      if (b, a) in edges { EdgeIsParent(r, parent, b, a); }
      if 1 <= b < |parent| && parent[b] == a { ParentIsEdge(r, parent, b); }
      if 1 <= a < |parent| && parent[a] == b { ParentIsEdge(r, parent, a); }
    }
  }

  lemma Finish(net: Net, r: Run, inMst: seq<bool>, key: seq<int>, parent: seq<int>)
    requires net.Square() && LoopState(net, r, inMst, key, parent) && |r.order| > 0
    requires |r.order| == |net.link| || LeastKey(inMst, key, -1)
    ensures IsPrimRun(net, r) && ParentsName(RunEdges(r, |r.order|), parent)
    ensures forall i :: 0 <= i < |r.order| ==> r.order[i] < |net.link|
  {
    LoopDone(net, r, inMst, key, parent);
    EdgesFromParents(r, parent);
  }

  // ---------------------------------------------------------------- the algorithm

  method ClearTree(tree: array2<Byte>)
    modifies tree
    ensures TableOf(tree, {})
  {
    forall i, j | 0 <= i < tree.Length0 && 0 <= j < tree.Length1 { tree[i, j] := 0; }
  }

  method ScanLeast(n: nat, inMst: array<bool>, key: array<int>) returns (u: int)
    requires n <= inMst.Length && n <= key.Length
    ensures LeastKey(inMst[..n], key[..n], u)
  {
    var minKey := 999;
    u := -1;
    for v := 0 to n
      invariant -1 <= u < v && (u == -1 ==> minKey == 999)
      invariant u != -1 ==> !inMst[u] && minKey == key[u] < 999
      invariant forall x :: 0 <= x < v && !inMst[x] ==> minKey <= key[x] && (x < u ==> minKey < key[x])
    {
      if !inMst[v] && key[v] < minKey { minKey, u := key[v], v; }
    }
  }

  method RelaxAll(n: nat, u: nat, link: array2<Byte>, quality: array2<Byte>, inMst: array<bool>,
                  key: array<int>, parent: array<int>)
    requires u < n <= MAX_NODES && key != parent
    requires link.Length0 == link.Length1 == MAX_NODES && quality.Length0 == quality.Length1 == MAX_NODES
    requires inMst.Length == key.Length == parent.Length == MAX_NODES
    modifies key, parent
    ensures Relaxed(NetOf(link, quality, n), inMst[..n], u, old(key[..n]), old(parent[..n]), key[..n], parent[..n])
  {
    ghost var net := NetOf(link, quality, n);
    ghost var was := key[..n];
    for v := 0 to n
      invariant forall x: nat :: x < v ==>
        if Improves(net, inMst[..n], was, u, x)
        then key[x] == EdgeCost(net, u, x) && parent[x] == u
        else key[x] == was[x] && parent[x] == old(parent[x])
      invariant forall x: nat :: v <= x < n ==> key[x] == was[x] && parent[x] == old(parent[x])
    {
      var fwd, rev := link[u, v] != 0, link[v, u] != 0;
      if (fwd || rev) && !inMst[v] {
        var q := quality[u, v];
        if q == 0 { q := quality[v, u]; }
        if q == 0 { q := INITIAL_LINK_QUALITY; }
        if !(fwd && rev) && q > 20 { q := q - 20; }
        var cost := 100 - q;
        if cost < key[v] { parent[v], key[v] := u, cost; }
      }
    }
  }

  method JoinNext(n: nat, u: nat, link: array2<Byte>, quality: array2<Byte>, inMst: array<bool>,
                  key: array<int>, parent: array<int>, ghost run: Run)
    returns (ghost run': Run)
    requires u < n <= MAX_NODES && key != parent && |run.order| < n
    requires link.Length0 == link.Length1 == MAX_NODES && quality.Length0 == quality.Length1 == MAX_NODES
    requires inMst.Length == key.Length == parent.Length == MAX_NODES
    requires LoopState(NetOf(link, quality, n), run, inMst[..n], key[..n], parent[..n])
    requires LeastKey(inMst[..n], key[..n], u)
    modifies inMst, key, parent
    ensures LoopState(NetOf(link, quality, n), run', inMst[..n], key[..n], parent[..n])
    ensures |run'.order| == |run.order| + 1
  {
    ghost var net := NetOf(link, quality, n);
    ghost var inMst0, key0, parent0 := inMst[..n], key[..n], parent[..n];
    inMst[u] := true;
    assert inMst[..n] == inMst0[u := true];
    RelaxAll(n, u, link, quality, inMst, key, parent);
    run' := RoundKeeps(net, run, u, inMst0, key0, parent0, key[..n], parent[..n]);
  }

  method StoreTree(n: nat, parent: array<int>, tree: array2<Byte>, ghost edges: set<Edge>)
    requires n <= MAX_NODES == parent.Length == tree.Length0 == tree.Length1
    requires ParentsName(edges, parent[..n])
    modifies tree
    ensures TableOf(tree, edges)
  {
    ClearTree(tree);
    for i := 1 to if n == 0 then 1 else n
      invariant forall a: nat, b: nat :: a < MAX_NODES && b < MAX_NODES ==>
        tree[a, b] == if (1 <= b < i && parent[b] == a) || (1 <= a < i && parent[a] == b) then 1 else 0
    {
      if parent[i] != -1 {
        tree[parent[i], i] := 1;
        tree[i, parent[i]] := 1;
      }
    }
  }

  /** The main loop: positions join one by one until none can be reached. */
  method Grow(n: nat, link: array2<Byte>, quality: array2<Byte>) returns (parent: array<int>, ghost run: Run)
    requires 1 < n <= MAX_NODES
    requires link.Length0 == link.Length1 == MAX_NODES && quality.Length0 == quality.Length1 == MAX_NODES
    ensures fresh(parent) && parent.Length == MAX_NODES
    ensures IsPrimRun(NetOf(link, quality, n), run)
    ensures forall i :: 0 <= i < |run.order| ==> run.order[i] < n
    ensures ParentsName(RunEdges(run, |run.order|), parent[..n])
  {
    ghost var net := NetOf(link, quality, n);
    parent := new int[MAX_NODES](_ => -1);
    var key := new int[MAX_NODES](_ => 999);
    key[0] := 0;
    var inMst := new bool[MAX_NODES](_ => false);
    run := Run([], []);
    var count := 0;
    while count < n
      invariant count == |run.order| && count <= n
      invariant LoopState(net, run, inMst[..n], key[..n], parent[..n])
    {
      var u := ScanLeast(n, inMst, key);
      if u == -1 {
        break;
      }
      run := JoinNext(n, u, link, quality, inMst, key, parent, run);
      count := count + 1;
    }
    assert count < n ==> LeastKey(inMst[..n], key[..n], -1);
    Finish(net, run, inMst[..n], key[..n], parent[..n]);
  }

  method PrimWeighted(n: nat, link: array2<Byte>, quality: array2<Byte>, tree: array2<Byte>)
    returns (ghost run: Run)
    requires n <= MAX_NODES && tree != link && tree != quality
    requires link.Length0 == link.Length1 == MAX_NODES && quality.Length0 == quality.Length1 == MAX_NODES
    requires tree.Length0 == tree.Length1 == MAX_NODES
    modifies tree
    ensures n == 0 ==> TableOf(tree, {})
    ensures n > 0 ==> IsPrimRun(NetOf(link, quality, n), run)
    ensures n > 0 ==> forall i :: 0 <= i < |run.order| ==> run.order[i] < n
    ensures n > 0 ==> TableOf(tree, RunEdges(run, |run.order|))
  {
    if n <= 1 {
      ClearTree(tree);
      run := Run([0], [0]);
      assert RunEdges(run, 1) == {};
    } else {
      var parent;
      parent, run := Grow(n, link, quality);
      StoreTree(n, parent, tree, RunEdges(run, |run.order|));
    }
  }

  // ---------------------------------------------------------------- what the tree is

  /** Whatever the costs, the tree is cycle-free and spans exactly the positions connected to position 0. */
  lemma PrimTreeSpans(net: Net, run: Run)
    requires net.Square() && IsPrimRun(net, run)
    ensures IsComponent(HeardGraph(net), 0, Joined(run, |run.order|))
    ensures IsSpanningTree(RunEdges(run, |run.order|), HeardGraph(net), 0, Joined(run, |run.order|))
  {
    RunCoversComponent(run, HeardGraph(net), EdgeCosts(net), 0);
  }

  /** It has one edge fewer than positions joined. */
  lemma PrimTreeSize(net: Net, run: Run)
    requires net.Square() && IsPrimRun(net, run)
    ensures |RunEdges(run, |run.order|)| == |run.order| - 1
  {
    PrimTreeSpans(net, run);
    TreeSize(RunEdges(run, |run.order|), HeardGraph(net), 0, Joined(run, |run.order|));
    JoinedCount(run.order, run);
  }

  lemma JoinedCount(order: seq<nat>, run: Run)
    requires Distinct(order) && order == run.order
    ensures |Joined(run, |order|)| == |order|
  {
    ElementsCount(order);
    assert Joined(run, |order|) == Elements(order);
  }

  /** Whatever the tables hold: the costs at which the positions joined add up to no more than any spanning tree of
      the component costs when each of its links is charged the dearer of its two readings. */
  lemma PrimKeysAreCheapest(net: Net, run: Run, other: set<Edge>)
    requires net.Square() && IsPrimRun(net, run)
    requires IsSpanningTree(other, HeardGraph(net), 0, Joined(run, |run.order|))
    ensures KeyTotal(run, HeardGraph(net), EdgeCosts(net), 0, |run.order|) <=
              Total(other, Dearer(HeardGraph(net), EdgeCosts(net)))
  {
    KeysAreCheapest(run, HeardGraph(net), EdgeCosts(net), 0, other);
  }

  /** The case in which both ends of every link read the same cost: no spanning tree of the component is cheaper. */
  lemma PrimIsMinimum(net: Net, run: Run, other: set<Edge>)
    requires net.Square() && IsPrimRun(net, run)
    requires SymmetricCost(HeardGraph(net), EdgeCosts(net))
    requires IsSpanningTree(other, HeardGraph(net), 0, Joined(run, |run.order|))
    ensures IsSpanningTree(RunEdges(run, |run.order|), HeardGraph(net), 0, Joined(run, |run.order|))
    ensures Total(RunEdges(run, |run.order|), EdgeCosts(net)) <= Total(other, EdgeCosts(net))
  {
    RunIsCheapest(run, HeardGraph(net), EdgeCosts(net), 0, other);
  }

  /** Quality after the one-way penalty. */
  function Penalised(net: Net, u: nat, v: nat, q: Byte): int
    requires net.Square() && u < |net.link| && v < |net.link|
  {
    if !(net.link[u][v] != 0 && net.link[v][u] != 0) && q > 20 then q - 20 else q
  }

  /** The cost reads the same from both ends exactly when no heard link has two measurements that differ
      after the penalty. */
  lemma CostSymmetricWhen(net: Net)
    requires net.Square()
    ensures SymmetricCost(HeardGraph(net), EdgeCosts(net)) <==>
      forall u: nat, v: nat ::
        (u < |net.link| && v < |net.link| && u != v && Heard(net, u, v) &&
         net.quality[u][v] != 0 && net.quality[v][u] != 0) ==>
        Penalised(net, u, v, net.quality[u][v]) == Penalised(net, u, v, net.quality[v][u])
  {
    var g, cost := HeardGraph(net), EdgeCosts(net);
    if SymmetricCost(g, cost) {
      forall u: nat, v: nat | u < |net.link| && v < |net.link| && u != v && Heard(net, u, v)
          && net.quality[u][v] != 0 && net.quality[v][u] != 0
        ensures Penalised(net, u, v, net.quality[u][v]) == Penalised(net, u, v, net.quality[v][u])
      {
        assert (u, v) in g && (v, u) in g;
        assert cost[(u, v)] == cost[(v, u)];
      }
    }
  }

  /** The tree is a function of the tables: two complete runs are the same run. */
  lemma PrimRunUnique(net: Net, r: Run, q: Run)
    requires net.Square() && IsPrimRun(net, r) && IsPrimRun(net, q)
    ensures r == q
  {
    ExhaustedRunUnique(r, q, HeardGraph(net), EdgeCosts(net), 0);
  }
}

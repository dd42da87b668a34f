/** Spanning trees, their cost, and the greedy run that builds a cheapest one. */
module SpanningTrees {
  import opened Graphs

  /** Costs of directed edges. */
  type Costs = map<Edge, int>

  /** The one name of the undirected edge between a and b: lower position first. */
  function Norm(a: nat, b: nat): Edge {
    if a < b then (a, b) else (b, a)
  }

  ghost predicate IsEdgeSet(edges: set<Edge>) {
    forall e :: e in edges ==> e.0 < e.1
  }

  /** The graph an edge set describes: both directions of every edge. */
  ghost function Both(edges: set<Edge>): (g: Graph)
    ensures forall a, b :: (a, b) in g <==> (a, b) in edges || (b, a) in edges
  {
    edges + set e | e in edges :: (e.1, e.0)
  }

  /** Vertices of g reachable from root. */
  ghost predicate IsComponent(g: Graph, root: nat, comp: set<nat>) {
    forall v :: v in comp <==> Reach(g, root, v)
  }

  ghost predicate Spans(edges: set<Edge>, root: nat, comp: set<nat>) {
    && root in comp
    && (forall a, b :: (a, b) in edges ==> a in comp && b in comp)
    && (forall v {:trigger Reach(Both(edges), root, v)} :: v in comp ==> Reach(Both(edges), root, v))
  }

  /** Edges of g that connect comp without a cycle. */
  ghost predicate IsSpanningTree(edges: set<Edge>, g: Graph, root: nat, comp: set<nat>) {
    && IsEdgeSet(edges)
    && edges <= g
    && Spans(edges, root, comp)
    && Forest(Both(edges))
  }

  ghost function Total(edges: set<Edge>, cost: Costs): int
    requires edges <= cost.Keys
  {
    if edges == {} then 0 else
    var e :| e in edges;
    cost[e] + Total(edges - {e}, cost)
  }

  lemma {:induction false} TotalMinus(edges: set<Edge>, cost: Costs, e: Edge)
    requires edges <= cost.Keys && e in edges
    ensures Total(edges, cost) == cost[e] + Total(edges - {e}, cost)
  {
    var f :| f in edges && Total(edges, cost) == cost[f] + Total(edges - {f}, cost);
    if f != e {
      TotalMinus(edges - {f}, cost, e);
      TotalMinus(edges - {e}, cost, f);
      assert edges - {f} - {e} == edges - {e} - {f};
    }
  }

  lemma TotalPlus(edges: set<Edge>, cost: Costs, e: Edge)
    requires edges <= cost.Keys && e in cost && e !in edges
    ensures Total(edges + {e}, cost) == cost[e] + Total(edges, cost)
  {
    TotalMinus(edges + {e}, cost, e);
    assert edges + {e} - {e} == edges;
  }

  // ---------------------------------------------------------------- growing a tree

  /** Adding one edge to a vertex outside keeps everything spanned. */
  lemma SpansGrow(edges: set<Edge>, root: nat, s: set<nat>, p: nat, v: nat)
    requires Spans(edges, root, s) && p in s && v !in s
    ensures Spans(edges + {Norm(p, v)}, root, s + {v})
  {
    var more := edges + {Norm(p, v)};
    forall x | x in s + {v} ensures Reach(Both(more), root, x) {
      if x in s {
        ReachMonotone(Both(edges), Both(more), root, x);
      } else {
        ReachMonotone(Both(edges), Both(more), root, p);
        ReachEdge(Both(more), p, v);
        ReachTrans(Both(more), root, p, v);
      }
    }
  }

  /** ... and adding a leaf to a forest cannot close a cycle. */
  lemma ForestGrow(edges: set<Edge>, s: set<nat>, p: nat, v: nat)
    requires IsEdgeSet(edges) && Forest(Both(edges)) && p in s && v !in s
    requires forall a, b :: (a, b) in edges ==> a in s && b in s
    ensures IsEdgeSet(edges + {Norm(p, v)}) && Forest(Both(edges + {Norm(p, v)}))
  {
    var g := Both(edges);
    var h := Both(edges + {Norm(p, v)});
    assert h == g + {(p, v), (v, p)};
    forall a, b | (a, b) in h ensures !Reach(Cut(h, a, b), a, b) {
      var c := Cut(h, a, b);
      if a == v || b == v {
        assert c <= g;
        assert Closed(c, {v});
        assert Closed(c, s);
        if Reach(c, a, b) {
          ClosedKeepsReach(c, if a == v then {v} else s, a, b);
        }
      } else if Reach(c, a, b) {
        var w :| WalkBetween(c, a, b, w);
        WalkDropsLeaf(c, p, v, a, b, w);
        ReachMonotone(c - {(p, v), (v, p)}, Cut(g, a, b), a, b);
      }
    }
  }

  /** A walk between other vertices never needs a leaf v that only hangs on p. */
  lemma {:induction false} WalkDropsLeaf(c: Graph, p: nat, v: nat, a: nat, b: nat, w: seq<nat>)
    requires forall x, y :: (x, y) in c && (x == v || y == v) ==> (x, y) == (p, v) || (x, y) == (v, p)
    requires a != v && b != v && p != v && WalkBetween(c, a, b, w)
    ensures Reach(c - {(p, v), (v, p)}, a, b)
    decreases |w|
  {
    var c' := c - {(p, v), (v, p)};
    if |w| == 1 {
      ReachSelf(c', a);
    } else {
      assert (w[0], w[1]) in c;
      var rest := w[1..];
      if w[1] == v {
        assert (w[1], w[2]) in c;
        WalkDropsLeaf(c, p, v, a, b, w[2..]);
      } else {
        WalkDropsLeaf(c, p, v, w[1], b, rest);
        ReachEdge(c', a, w[1]);
        ReachTrans(c', a, w[1], b);
      }
    }
  }

  lemma TreeGrow(edges: set<Edge>, g: Graph, root: nat, s: set<nat>, p: nat, v: nat)
    requires IsSpanningTree(edges, g, root, s) && p in s && v !in s && Norm(p, v) in g
    ensures IsSpanningTree(edges + {Norm(p, v)}, g, root, s + {v})
  {
    SpansGrow(edges, root, s, p, v);
    ForestGrow(edges, s, p, v);
  }

  lemma SingletonTree(g: Graph, root: nat)
    ensures IsSpanningTree({}, g, root, {root})
  {
    ReachSelf(Both({}), root);
  }

  /** A connected set that is not everything has an edge leaving it. */
  lemma CrossingEdge(g: Graph, root: nat, s: set<nat>, v: nat) returns (a: nat, b: nat)
    requires root in s && v !in s && Reach(g, root, v)
    ensures (a, b) in g && a in s && b !in s
  {
    var w :| WalkBetween(g, root, v, w);
    var i := LastVisit(w, s);
    a, b := w[i], w[i + 1];
  }

  /** A tree on a part of a component grows to a spanning tree of all of it. */
  lemma {:induction false} GrowTree(g: Graph, root: nat, edges: set<Edge>, s: set<nat>, comp: set<nat>)
    returns (tree: set<Edge>)
    requires IsSpanningTree(edges, g, root, s) && s <= comp && Symmetric(g) && IsComponent(g, root, comp)
    ensures IsSpanningTree(tree, g, root, comp) && edges <= tree
    decreases comp - s
  {
    if v :| v in comp && v !in s {
      var a, b := CrossingEdge(g, root, s, v);
      ReachEdge(g, a, b);
      ReachTrans(g, root, a, b);
      TreeGrow(edges, g, root, s, a, b);
      tree := GrowTree(g, root, edges + {Norm(a, b)}, s + {b}, comp);
    } else {
      assert s == comp;
      tree := edges;
    }
  }

  /** A spanning tree contains no edge beyond those of a connected part that already spans everything. */
  lemma SpanningPartIsAll(tree: set<Edge>, part: set<Edge>, root: nat, comp: set<nat>)
    requires IsEdgeSet(tree) && Forest(Both(tree)) && Spans(tree, root, comp)
    requires part <= tree && Spans(part, root, comp)
    ensures part == tree
  {
    forall e | e in tree ensures e in part {
      var (a, b) := e;
      if e !in part {
        assert (a, b) in Both(tree) && (b, a) !in tree;
        assert Both(part) <= Cut(Both(tree), a, b);
        assert Symmetric(Both(part));
        ReachReversed(Both(part), root, a);
        ReachTrans(Both(part), a, root, b);
        ReachMonotone(Both(part), Cut(Both(tree), a, b), a, b);
      }
    }
  }

  /** Every spanning tree of a component has one edge fewer than the component has vertices. */
  lemma {:induction false} TreeSizeFrom(tree: set<Edge>, part: set<Edge>, root: nat, s: set<nat>, comp: set<nat>)
    requires IsEdgeSet(tree) && Forest(Both(tree)) && Spans(tree, root, comp)
    requires part <= tree && s <= comp && Spans(part, root, s) && |part| == |s| - 1
    ensures |tree| == |comp| - 1
    decreases |comp - s|
  {
    if v :| v in comp && v !in s {
      assert Reach(Both(tree), root, v);
      var a, b := CrossingEdge(Both(tree), root, s, v);
      SpansGrow(part, root, s, a, b);
      assert Norm(a, b) !in part;
      SetShrinks(comp - s, comp - (s + {b}));
      TreeSizeFrom(tree, part + {Norm(a, b)}, root, s + {b}, comp);
    } else {
      assert s == comp;
      SpanningPartIsAll(tree, part, root, comp);
    }
  }

  lemma SetShrinks<T>(x: set<T>, y: set<T>)
    requires y < x
    ensures |y| < |x|
  {
    var d := x - y;
    assert x == y + d && y !! d;
    assert d != {};
  }

  lemma TreeSize(tree: set<Edge>, g: Graph, root: nat, comp: set<nat>)
    requires IsSpanningTree(tree, g, root, comp)
    ensures |tree| == |comp| - 1
  {
    SingletonTree(g, root);
    TreeSizeFrom(tree, {}, root, {root}, comp);
  }

  // ---------------------------------------------------------------- the greedy run

  /** A run of the greedy construction: the order in which positions join the tree, and for each one the
      rank (in that order) of the position it was attached to. Rank 0 is the start and hangs on nothing. */
  datatype Run = Run(order: seq<nat>, via: seq<nat>)

  /** The edge added when the position of rank k joined. */
  function RunEdge(r: Run, k: nat): Edge
    requires |r.via| == |r.order| && k < |r.order| && r.via[k] < |r.order|
  {
    Norm(r.order[r.via[k]], r.order[k])
  }

  ghost predicate RunShape(r: Run, root: nat) {
    && |r.order| > 0 && |r.via| == |r.order|
    && r.order[0] == root
    && (forall i, j :: 0 <= i < j < |r.order| ==> r.order[i] != r.order[j])
    && (forall k :: 1 <= k < |r.via| ==> r.via[k] < k)
  }

  /** Positions of the first k ranks. */
  ghost function Joined(r: Run, k: nat): set<nat>
    requires k <= |r.order|
  {
    set i | 0 <= i < k :: r.order[i]
  }

  /** The choice of rank k: among all edges from the k joined positions to the others, the one taken is a
      cheapest (cost read from the joined side); among equals, the lowest new position, and for that
      position the earliest joined end. */
  ghost predicate RunStep(r: Run, g: Graph, cost: Costs, k: nat)
    requires |r.via| == |r.order| && 1 <= k < |r.order| && r.via[k] < k
    requires g <= cost.Keys
  {
    var v := r.order[k];
    var p := r.order[r.via[k]];
    && (p, v) in g
    && (forall i, x :: 0 <= i < k && x !in r.order[..k] && (r.order[i], x) in g ==>
         && cost[(p, v)] <= cost[(r.order[i], x)]
         && (x < v ==> cost[(p, v)] < cost[(r.order[i], x)])
         && (x == v && i < r.via[k] ==> cost[(p, v)] < cost[(r.order[i], x)]))
  }

  ghost predicate GreedyRun(r: Run, g: Graph, cost: Costs, root: nat)
    requires g <= cost.Keys
  {
    && RunShape(r, root)
    && (forall k :: 1 <= k < |r.order| ==> RunStep(r, g, cost, k))
  }

  /** No edge leaves the joined positions: the run could not go on. */
  ghost predicate Exhausted(r: Run, g: Graph) {
    forall u, x :: u in r.order && (u, x) in g ==> x in r.order
  }

  ghost function RunEdges(r: Run, k: nat): set<Edge>
    requires |r.via| == |r.order| && k <= |r.order|
    requires forall i :: 1 <= i < k ==> r.via[i] < i
  {
    set i | 1 <= i < k :: RunEdge(r, i)
  }

  lemma RunEdgesStep(r: Run, root: nat, k: nat)
    requires RunShape(r, root) && 1 <= k < |r.order|
    ensures RunEdges(r, k + 1) == RunEdges(r, k) + {RunEdge(r, k)}
    ensures Joined(r, k + 1) == Joined(r, k) + {r.order[k]}
    ensures r.order[k] !in Joined(r, k) && r.order[r.via[k]] in Joined(r, k)
  {
  }

  /** The first k ranks form a tree on the first k positions. */
  lemma {:induction false} RunBuildsTree(r: Run, g: Graph, cost: Costs, root: nat, k: nat)
    requires g <= cost.Keys && Symmetric(g) && GreedyRun(r, g, cost, root) && 1 <= k <= |r.order|
    ensures IsSpanningTree(RunEdges(r, k), g, root, Joined(r, k))
  {
    if k == 1 {
      assert Joined(r, 1) == {root} && RunEdges(r, 1) == {};
      SingletonTree(g, root);
    } else {
      RunBuildsTree(r, g, cost, root, k - 1);
      RunAddsLeaf(r, g, cost, root, k - 1);
    }
  }

  lemma RunAddsLeaf(r: Run, g: Graph, cost: Costs, root: nat, k: nat)
    requires g <= cost.Keys && Symmetric(g) && GreedyRun(r, g, cost, root) && 1 <= k < |r.order|
    requires IsSpanningTree(RunEdges(r, k), g, root, Joined(r, k))
    ensures IsSpanningTree(RunEdges(r, k + 1), g, root, Joined(r, k + 1))
  {
    RunEdgesStep(r, root, k);
    assert RunStep(r, g, cost, k);
    TreeGrow(RunEdges(r, k), g, root, Joined(r, k), r.order[r.via[k]], r.order[k]);
  }

  /** An exhausted run has joined exactly the component of its start. */
  lemma RunCoversComponent(r: Run, g: Graph, cost: Costs, root: nat)
    requires g <= cost.Keys && Symmetric(g) && GreedyRun(r, g, cost, root) && Exhausted(r, g)
    ensures IsComponent(g, root, Joined(r, |r.order|))
    ensures IsSpanningTree(RunEdges(r, |r.order|), g, root, Joined(r, |r.order|))
  {
    var n := |r.order|;
    var s := Joined(r, n);
    RunBuildsTree(r, g, cost, root, n);
    assert Closed(g, s);
    forall v ensures v in s <==> Reach(g, root, v) {
      if v in s {
        ReachMonotone(Both(RunEdges(r, n)), g, root, v);
      } else if Reach(g, root, v) {
        ClosedKeepsReach(g, s, root, v);
      }
    }
  }

  ghost predicate SymmetricCost(g: Graph, cost: Costs)
    requires g <= cost.Keys
  {
    forall a, b :: (a, b) in g && (b, a) in g ==> cost[(a, b)] == cost[(b, a)]
  }

  /** A connected edge set crosses from s to a vertex v outside it; the last crossing on the way leads to v
      without touching s again. */
  lemma LastCrossing(edges: set<Edge>, root: nat, comp: set<nat>, s: set<nat>, p: nat, v: nat)
    returns (a: nat, b: nat, tail: seq<nat>)
    requires Spans(edges, root, comp) && p in s && p in comp && v in comp && v !in s
    ensures (a, b) in Both(edges) && a in s && b !in s
    ensures WalkBetween(Both(edges), b, v, tail) && forall k :: 0 <= k < |tail| ==> tail[k] !in s
  {
    var h := Both(edges);
    assert Symmetric(h);
    ReachReversed(h, root, p);
    ReachTrans(h, p, root, v);
    var w :| WalkBetween(h, p, v, w);
    var i := LastVisit(w, s);
    a, b, tail := w[i], w[i + 1], w[i + 1..];
  }

  /** The edge of rank k costs no more than any other edge leaving the first k positions. */
  lemma CheapestCrossing(r: Run, g: Graph, cost: Costs, root: nat, k: nat, a: nat, b: nat)
    requires g <= cost.Keys && Symmetric(g) && SymmetricCost(g, cost) && GreedyRun(r, g, cost, root)
    requires 1 <= k < |r.order| && a in Joined(r, k) && b !in Joined(r, k) && Norm(a, b) in g
    ensures RunEdge(r, k) in g && cost[RunEdge(r, k)] <= cost[Norm(a, b)]
  {
    assert RunStep(r, g, cost, k);
    var j :| 0 <= j < k && r.order[j] == a;
    assert b !in r.order[..k];
    assert (r.order[j], b) in g && (b, a) in g;
    assert cost[(a, b)] == cost[(b, a)];
    var p, v := r.order[r.via[k]], r.order[k];
    assert (v, p) in g;
    assert cost[(p, v)] == cost[(v, p)];
  }

  /** No edge of g leaving s costs less than the one between p and v. */
  ghost predicate CheapestOut(g: Graph, cost: Costs, s: set<nat>, p: nat, v: nat)
    requires g <= cost.Keys
  {
    && Norm(p, v) in g
    && forall a, b :: a in s && b !in s && Norm(a, b) in g ==> cost[Norm(p, v)] <= cost[Norm(a, b)]
  }

  /** The cut property: a cheapest edge {p, v} leaving s can be swapped into any spanning edge set that
      contains a connected part on s, keeping the part, the number of edges, and raising no cost. */
  lemma CutExchange(g: Graph, cost: Costs, root: nat, comp: set<nat>, edges: set<Edge>,
                    part: set<Edge>, s: set<nat>, p: nat, v: nat)
    returns (better: set<Edge>)
    requires g <= cost.Keys && CheapestOut(g, cost, s, p, v)
    requires IsEdgeSet(edges) && edges <= g && Spans(edges, root, comp)
    requires part <= edges && Spans(part, root, s) && s <= comp
    requires p in s && v in comp && v !in s
    ensures IsEdgeSet(better) && better <= g && Spans(better, root, comp) && part + {Norm(p, v)} <= better
    ensures |better| == |edges| && Total(better, cost) <= Total(edges, cost)
  {
    if Norm(p, v) in edges {
      better := edges;
    } else {
      var f := EdgeToDrop(g, cost, root, comp, edges, part, s, p, v);
      better := SwapEdge(edges, cost, part, Norm(p, v), f);
    }
  }

  lemma EdgeToDrop(g: Graph, cost: Costs, root: nat, comp: set<nat>, edges: set<Edge>,
                   part: set<Edge>, s: set<nat>, p: nat, v: nat)
    returns (f: Edge)
    requires g <= cost.Keys && CheapestOut(g, cost, s, p, v)
    requires IsEdgeSet(edges) && edges <= g && Spans(edges, root, comp)
    requires part <= edges && Spans(part, root, s) && s <= comp
    requires p in s && v in comp && v !in s
    ensures f in edges && f !in part && cost[Norm(p, v)] <= cost[f]
    ensures Spans(edges - {f} + {Norm(p, v)}, root, comp)
  {
    var a, b, tail := LastCrossing(edges, root, comp, s, p, v);
    CrossingIsDearer(g, cost, edges, part, s, root, p, v, a, b);
    f := Norm(a, b);
    ExchangeSpans(edges, edges - {f} + {Norm(p, v)}, part, s, root, comp, p, v, a, b, tail);
  }

  lemma CrossingIsDearer(g: Graph, cost: Costs, edges: set<Edge>, part: set<Edge>, s: set<nat>, root: nat,
                         p: nat, v: nat, a: nat, b: nat)
    requires g <= cost.Keys && CheapestOut(g, cost, s, p, v)
    requires IsEdgeSet(edges) && edges <= g && Spans(part, root, s)
    requires a in s && b !in s && (a, b) in Both(edges)
    ensures Norm(a, b) in edges && Norm(a, b) !in part && cost[Norm(p, v)] <= cost[Norm(a, b)]
  {
  }

  lemma SwapEdge(edges: set<Edge>, cost: Costs, part: set<Edge>, e: Edge, f: Edge) returns (better: set<Edge>)
    requires edges <= cost.Keys && e in cost && IsEdgeSet(edges) && e.0 < e.1 && part <= edges
    requires e !in edges && f in edges && f !in part && cost[e] <= cost[f]
    ensures better == edges - {f} + {e} && IsEdgeSet(better) && part + {e} <= better
    ensures |better| == |edges| && Total(better, cost) <= Total(edges, cost)
  {
    better := edges - {f} + {e};
    TotalMinus(edges, cost, f);
    TotalPlus(edges - {f}, cost, e);
  }

  /** A spanning edge set that agrees with the run on the first k ranks can be made to agree on one more. */
  lemma Exchange(r: Run, g: Graph, cost: Costs, root: nat, k: nat, edges: set<Edge>, comp: set<nat>)
    returns (better: set<Edge>)
    requires g <= cost.Keys && Symmetric(g) && SymmetricCost(g, cost) && GreedyRun(r, g, cost, root)
    requires 1 <= k < |r.order| && Joined(r, k + 1) <= comp
    requires IsEdgeSet(edges) && edges <= g && Spans(edges, root, comp) && RunEdges(r, k) <= edges
    ensures IsEdgeSet(better) && better <= g && Spans(better, root, comp) && RunEdges(r, k + 1) <= better
    ensures |better| == |edges| && Total(better, cost) <= Total(edges, cost)
  {
    RunEdgesStep(r, root, k);
    RunBuildsTree(r, g, cost, root, k);
    var s, p, v := Joined(r, k), r.order[r.via[k]], r.order[k];
    assert RunStep(r, g, cost, k);
    assert (p, v) in g && (v, p) in g;
    forall a, b | a in s && b !in s && Norm(a, b) in g
      ensures cost[Norm(p, v)] <= cost[Norm(a, b)]
    {
      CheapestCrossing(r, g, cost, root, k, a, b);
    }
    better := CutExchange(g, cost, root, comp, edges, RunEdges(r, k), s, p, v);
  }

  /** The swapped edge set still connects everything. */
  lemma ExchangeSpans(edges: set<Edge>, better: set<Edge>, part: set<Edge>, s: set<nat>, root: nat, comp: set<nat>,
                      p: nat, v: nat, a: nat, b: nat, tail: seq<nat>)
    requires IsEdgeSet(edges) && Spans(edges, root, comp)
    requires part <= edges && Spans(part, root, s) && s <= comp
    requires p in s && v in comp && v !in s && a in s && b !in s && (a, b) in Both(edges)
    requires better == edges - {Norm(a, b)} + {Norm(p, v)}
    requires WalkBetween(Both(edges), b, v, tail) && forall k :: 0 <= k < |tail| ==> tail[k] !in s
    ensures Spans(better, root, comp)
  {
    var h := Both(better);
    assert Symmetric(h);
    assert part <= better;
    var x := set y | y in comp && Reach(h, root, y);
    forall y | y in s ensures y in x {
      ReachMonotone(Both(part), h, root, y);
    }
    ReachEdge(h, p, v);
    ReachTrans(h, root, p, v);
    assert WalkBetween(h, b, v, tail);
    ReachReversed(h, b, v);
    ReachTrans(h, root, v, b);
    assert b in x by {
      assert (a, b) in edges || (b, a) in edges;
    }
    assert Closed(Both(edges), x) by {
      forall c, d | (c, d) in Both(edges) && c in x ensures d in x {
        if (c, d) in h {
          ReachEdge(h, c, d);
          ReachTrans(h, root, c, d);
        }
      }
    }
    ReachSelf(h, root);
    forall y | y in comp ensures Reach(h, root, y) {
      ClosedKeepsReach(Both(edges), x, root, y);
    }
  }

  lemma {:induction false} RunIsCheapestFrom(r: Run, g: Graph, cost: Costs, root: nat, k: nat,
                                             edges: set<Edge>, comp: set<nat>)
    requires g <= cost.Keys && Symmetric(g) && SymmetricCost(g, cost) && GreedyRun(r, g, cost, root)
    requires 1 <= k <= |r.order| && comp == Joined(r, |r.order|)
    requires IsEdgeSet(edges) && edges <= g && Spans(edges, root, comp)
    requires RunEdges(r, k) <= edges && |edges| == |comp| - 1
    ensures RunEdges(r, |r.order|) <= cost.Keys
    ensures Total(RunEdges(r, |r.order|), cost) <= Total(edges, cost)
    decreases |r.order| - k
  {
    RunBuildsTree(r, g, cost, root, |r.order|);
    if k == |r.order| {
      var tree := RunEdges(r, k);
      TreeSize(tree, g, root, comp);
      if tree != edges {
        SetShrinks(edges, tree);
      }
    } else {
      var better := Exchange(r, g, cost, root, k, edges, comp);
      RunIsCheapestFrom(r, g, cost, root, k + 1, better, comp);
    }
  }

  /** With a cost that does not depend on the direction of reading, the greedy tree is a minimum spanning
      tree of the component: no spanning tree is cheaper, whatever the ties and the signs of the costs. */
  lemma RunIsCheapest(r: Run, g: Graph, cost: Costs, root: nat, other: set<Edge>)
    requires g <= cost.Keys && Symmetric(g) && SymmetricCost(g, cost)
    requires GreedyRun(r, g, cost, root) && Exhausted(r, g)
    requires IsSpanningTree(other, g, root, Joined(r, |r.order|))
    ensures IsSpanningTree(RunEdges(r, |r.order|), g, root, Joined(r, |r.order|))
    ensures Total(RunEdges(r, |r.order|), cost) <= Total(other, cost)
  {
    RunBuildsTree(r, g, cost, root, |r.order|);
    TreeSize(other, g, root, Joined(r, |r.order|));
    assert RunEdges(r, 1) == {};
    RunIsCheapestFrom(r, g, cost, root, 1, other, Joined(r, |r.order|));
  }

  /** The run is determined by the graph and the costs: two exhausted runs are the same. */
  lemma {:induction false} RunsAgree(r: Run, q: Run, g: Graph, cost: Costs, root: nat, k: nat)
    requires g <= cost.Keys && GreedyRun(r, g, cost, root) && GreedyRun(q, g, cost, root)
    requires r.via[0] == q.via[0] && k <= |r.order| && k <= |q.order|
    ensures r.order[..k] == q.order[..k] && r.via[..k] == q.via[..k]
  {
    if k == 1 {
    } else if k > 1 {
      RunsAgree(r, q, g, cost, root, k - 1);
      var m := k - 1;
      assert RunStep(r, g, cost, m) && RunStep(q, g, cost, m);
      assert forall i :: 0 <= i < m ==> r.order[i] == r.order[..m][i] == q.order[..m][i] == q.order[i];
      assert r.order[m] !in r.order[..m] && q.order[m] !in q.order[..m];
      assert (r.order[r.via[m]], r.order[m]) in g;
      assert (q.order[q.via[m]], q.order[m]) in g;
      assert r.order[..k] == r.order[..m] + [r.order[m]] && q.order[..k] == q.order[..m] + [q.order[m]];
      assert r.via[..k] == r.via[..m] + [r.via[m]] && q.via[..k] == q.via[..m] + [q.via[m]];
    }
  }

  lemma ExhaustedRunUnique(r: Run, q: Run, g: Graph, cost: Costs, root: nat)
    requires g <= cost.Keys && GreedyRun(r, g, cost, root) && GreedyRun(q, g, cost, root)
    requires Exhausted(r, g) && Exhausted(q, g) && r.via[0] == q.via[0]
    ensures r == q
  {
    ShorterRunIsWhole(r, q, g, cost, root);
    ShorterRunIsWhole(q, r, g, cost, root);
    RunsAgree(r, q, g, cost, root, |r.order|);
    assert r.order == r.order[..|r.order|] && q.order == q.order[..|q.order|];
    assert r.via == r.via[..|r.order|] && q.via == q.via[..|q.order|];
  }

  lemma LongerRunGoesOn(r: Run, q: Run, g: Graph, cost: Costs, root: nat)
    requires g <= cost.Keys && GreedyRun(r, g, cost, root) && GreedyRun(q, g, cost, root)
    requires r.via[0] == q.via[0] && |q.order| > |r.order|
    ensures !Exhausted(r, g)
  {
    var n := |r.order|;
    RunsAgree(r, q, g, cost, root, n);
    assert r.order == r.order[..n] == q.order[..n];
    assert RunStep(q, g, cost, n);
    var u, x := q.order[q.via[n]], q.order[n];
    assert u == q.order[..n][q.via[n]];
    assert u in r.order && x !in r.order && (u, x) in g;
  }

  lemma ShorterRunIsWhole(r: Run, q: Run, g: Graph, cost: Costs, root: nat)
    requires g <= cost.Keys && GreedyRun(r, g, cost, root) && GreedyRun(q, g, cost, root)
    requires Exhausted(r, g) && r.via[0] == q.via[0]
    ensures |q.order| <= |r.order|
  {
    if |q.order| > |r.order| {
      LongerRunGoesOn(r, q, g, cost, root);
    }
  }
}

/** Prim in a settled network with two-way links, where a node differs from the others only in reading its own links
    as better. */
module SettledTrees {
  import opened Base
  import opened Graphs
  import opened SpanningTrees
  import opened JoiningKeys
  import opened Prim
  import opened Networks
  import opened NetworkNets

  /** Cost at which the loop attaches a neighbour to position u: node me reads its own links as better. */
  function AttachCost(me: Id, u: nat): int {
    if u + 1 == me then -10 else 0
  }

  lemma SettledCost(w: Network, me: Id, i: nat, j: nat)
    requires TwoWay(w) && i < w.n && j < w.n
    ensures (i, j) in HeardGraph(SettledNet(w, me)) <==> w.Link(i + 1, j + 1) == 1
    ensures w.Link(i + 1, j + 1) == 1 ==> EdgeCost(SettledNet(w, me), i, j) == AttachCost(me, i)
  {
    var net := SettledNet(w, me);
    assert net.link[i][j] == w.Link(i + 1, j + 1) && net.link[j][i] == w.Link(j + 1, i + 1);
    assert net.quality[i][j] == w.Quality(me, i + 1, j + 1);
  }

  /** Attaching v to p, of rank j, comes before attaching x to u, of rank i. */
  predicate Preferred(me: Id, p: nat, v: nat, j: nat, u: nat, x: nat, i: nat) {
    || AttachCost(me, p) < AttachCost(me, u)
    || (AttachCost(me, p) == AttachCost(me, u) && (v < x || (v == x && j <= i)))
  }

  /** With the positions in done joined, the loop goes on to v, attached to rank j. */
  ghost predicate StepFits(w: Network, me: Id, done: seq<nat>, j: nat, v: nat) {
    && j < |done| && done[j] < w.n && v < w.n && w.Link(done[j] + 1, v + 1) == 1
    && forall i: nat, x: nat :: i < |done| && x < w.n && x !in done && w.Link(done[i] + 1, x + 1) == 1 ==>
         Preferred(me, done[j], v, j, done[i], x, i)
  }

  lemma SettledEdge(w: Network, me: Id, i: nat, j: nat)
    requires TwoWay(w)
    ensures (i, j) in HeardGraph(SettledNet(w, me)) <==> i < w.n && j < w.n && w.Link(i + 1, j + 1) == 1
    ensures (i, j) in HeardGraph(SettledNet(w, me)) ==> EdgeCosts(SettledNet(w, me))[(i, j)] == AttachCost(me, i)
  {
    if i < w.n && j < w.n {
      SettledCost(w, me, i, j);
    }
  }

  ghost predicate IsRunOn(w: Network, me: Id, r: Run, g: Graph, cost: Costs) {
    && TwoWay(w) && g == HeardGraph(SettledNet(w, me)) && cost == EdgeCosts(SettledNet(w, me))
    && GreedyRun(r, g, cost, 0) && r.via[0] == 0
  }

  /** A run of the loop at node me, perhaps not complete. */
  ghost predicate Built(w: Network, me: Id, r: Run) {
    exists g, cost :: IsRunOn(w, me, r, g, cost)
  }

  lemma BuiltStart(w: Network, me: Id)
    requires TwoWay(w)
    ensures Built(w, me, Run([0], [0]))
  {
    assert IsRunOn(w, me, Run([0], [0]), HeardGraph(SettledNet(w, me)), EdgeCosts(SettledNet(w, me)));
  }

  lemma GreedyNext(w: Network, me: Id, done: seq<nat>, via: seq<nat>, j: nat, v: nat, g: Graph, cost: Costs)
    requires TwoWay(w) && g == HeardGraph(SettledNet(w, me)) && cost == EdgeCosts(SettledNet(w, me))
    requires |via| == |done| > 0 && StepFits(w, me, done, j, v)
    ensures RunStep(Run(done + [v], via + [j]), g, cost, |done|)
  {
    var k := |done|;
    assert (done + [v])[..k] == done;
    SettledEdge(w, me, done[j], v);
    forall i: nat, x | i < k && x !in done && (done[i], x) in g
      ensures Preferred(me, done[j], v, j, done[i], x, i) && cost[(done[i], x)] == AttachCost(me, done[i])
    {
      SettledEdge(w, me, done[i], x);
    }
  }

  lemma LongerRun(r: Run, g: Graph, cost: Costs, j: nat, v: nat)
    requires g <= cost.Keys && GreedyRun(r, g, cost, 0) && v !in r.order && j < |r.order|
    requires RunStep(Run(r.order + [v], r.via + [j]), g, cost, |r.order|)
    ensures GreedyRun(Run(r.order + [v], r.via + [j]), g, cost, 0)
  {
    var q := Run(r.order + [v], r.via + [j]);
    forall i | 1 <= i < |q.order| ensures RunStep(q, g, cost, i) {
      if i < |r.order| {
        assert RunStep(r, g, cost, i);
        assert q.order[..i] == r.order[..i];
      }
    }
  }

  lemma BuiltNext(w: Network, me: Id, r: Run, j: nat, v: nat)
    requires Built(w, me, r) && v !in r.order && StepFits(w, me, r.order, j, v)
    ensures Built(w, me, Run(r.order + [v], r.via + [j]))
  {
    var g, cost :| IsRunOn(w, me, r, g, cost);
    GreedyNext(w, me, r.order, r.via, j, v, g, cost);
    LongerRun(r, g, cost, j, v);
    assert IsRunOn(w, me, Run(r.order + [v], r.via + [j]), g, cost);
  }

  /** A run that has joined everybody is complete. */
  lemma BuiltIsPrimRun(w: Network, me: Id, r: Run)
    requires Built(w, me, r) && forall x: nat :: x < w.n ==> x in r.order
    ensures IsPrimRun(SettledNet(w, me), r)
  {
    var g, cost :| IsRunOn(w, me, r, g, cost);
  }

  // ---------------------------------------------------------------- three nodes

  /** Three nodes that all hear each other. */
  const TRIANGLE := Network(3, set x: nat, y: nat | 1 <= x <= 3 && 1 <= y <= 3 :: (x, y))

  lemma TriangleLinks()
    ensures TRIANGLE.Small() && TwoWay(TRIANGLE)
    ensures forall x: nat, y: nat ::
              TRIANGLE.Link(x, y) == if x != y && 1 <= x <= 3 && 1 <= y <= 3 then 1 else 0
  {
  }

  const TRIANGLE_RUN := Run([0, 1, 2], [0, 0, 0])

  lemma TriangleSteps()
    ensures StepFits(TRIANGLE, 3, [0], 0, 1) && StepFits(TRIANGLE, 3, [0, 1], 0, 2)
  {
    TriangleLinks();
  }

  /** The run at node 3: positions 1 and 2 both hang on position 0. */
  lemma TriangleRun()
    ensures IsPrimRun(SettledNet(TRIANGLE, 3), TRIANGLE_RUN)
  {
    assert TwoWay(TRIANGLE) by { TriangleLinks(); }
    TriangleSteps();
    BuiltTwo(TRIANGLE, 3, 1, 2, 0, 0);
    var o := TRIANGLE_RUN.order;
    assert o[0] == 0 && o[1] == 1 && o[2] == 2;
    BuiltIsPrimRun(TRIANGLE, 3, TRIANGLE_RUN);
  }

  lemma TriangleEdges()
    ensures RunShape(TRIANGLE_RUN, 0) && RunEdges(TRIANGLE_RUN, 3) == {(0, 1), (0, 2)}
  {
    assert RunEdge(TRIANGLE_RUN, 1) == (0, 1) && RunEdge(TRIANGLE_RUN, 2) == (0, 2);
  }

  lemma TriangleCosts(e: Edge)
    requires e in {(0, 1), (0, 2), (1, 2)}
    ensures e in HeardGraph(SettledNet(TRIANGLE, 3))
    ensures OwnReadings(HeardGraph(SettledNet(TRIANGLE, 3)), EdgeCosts(SettledNet(TRIANGLE, 3)), 2)[e] ==
              if e == (0, 1) then 0 else -10
  {
    TriangleLinks();
    SettledCost(TRIANGLE, 3, e.0, e.1);
    SettledCost(TRIANGLE, 3, e.1, e.0);
  }

  lemma TwoEdges(cost: Costs, e: Edge, f: Edge)
    requires e in cost && f in cost && e != f
    ensures Total({e, f}, cost) == cost[e] + cost[f]
  {
    TotalMinus({e, f}, cost, e);
    TotalMinus({f}, cost, f);
    assert {e, f} - {e} == {f} && {f} - {f} == {};
  }

  lemma OtherTree(g: Graph)
    requires (0, 2) in g && (1, 2) in g
    ensures IsSpanningTree({(0, 2), (1, 2)}, g, 0, {0, 1, 2})
  {
    SingletonTree(g, 0);
    TreeGrow({}, g, 0, {0}, 0, 2);
    TreeGrow({} + {Norm(0, 2)}, g, 0, {0} + {2}, 2, 1);
    assert {} + {Norm(0, 2)} + {Norm(2, 1)} == {(0, 2), (1, 2)} && {0} + {2} + {1} == {0, 1, 2};
  }

  lemma TriangleTotals()
    ensures var g, cost := HeardGraph(SettledNet(TRIANGLE, 3)), EdgeCosts(SettledNet(TRIANGLE, 3));
            && {(0, 1), (0, 2)} <= g && {(0, 2), (1, 2)} <= g
            && Total({(0, 1), (0, 2)}, OwnReadings(g, cost, 2)) == -10
            && Total({(0, 2), (1, 2)}, OwnReadings(g, cost, 2)) == -20
  {
    var own := OwnReadings(HeardGraph(SettledNet(TRIANGLE, 3)), EdgeCosts(SettledNet(TRIANGLE, 3)), 2);
    TriangleCosts((0, 1));
    TriangleCosts((0, 2));
    TriangleCosts((1, 2));
    TwoEdges(own, (0, 1), (0, 2));
    TwoEdges(own, (0, 2), (1, 2));
  }

  lemma TriangleTrees()
    ensures RunShape(TRIANGLE_RUN, 0) && RunEdges(TRIANGLE_RUN, 3) == {(0, 1), (0, 2)}
    ensures IsSpanningTree({(0, 2), (1, 2)}, HeardGraph(SettledNet(TRIANGLE, 3)), 0, Joined(TRIANGLE_RUN, 3))
  {
    TriangleEdges();
    assert Joined(TRIANGLE_RUN, 3) == {0, 1, 2};
    TriangleCosts((0, 2));
    TriangleCosts((1, 2));
    OtherTree(HeardGraph(SettledNet(TRIANGLE, 3)));
  }

  /** Prim can miss the cheapest tree: by its own readings node 3 pays -10 for the tree it builds, where -20 would
      do. */
  lemma OwnReadingsMissMinimum() returns (net: Net, better: set<Edge>)
    ensures net == SettledNet(TRIANGLE, 3) && IsPrimRun(net, TRIANGLE_RUN)
    ensures RunEdges(TRIANGLE_RUN, 3) <= HeardGraph(net)
    ensures IsSpanningTree(better, HeardGraph(net), 0, Joined(TRIANGLE_RUN, 3))
    ensures Total(better, OwnReadings(HeardGraph(net), EdgeCosts(net), 2)) == -20
    ensures Total(RunEdges(TRIANGLE_RUN, 3), OwnReadings(HeardGraph(net), EdgeCosts(net), 2)) == -10
  {
    net, better := SettledNet(TRIANGLE, 3), {(0, 2), (1, 2)};
    TriangleRun();
    TriangleTotals();
    TriangleTrees();
  }

  // ---------------------------------------------------------------- five nodes

  /** Two-way links 1-3, 1-5, 2-4, 2-5, 3-4 and 3-5: those whose ids add up to 4, 6, 7 or 8. */
  const FIVE := Network(5, set x: nat, y: nat | 1 <= x <= 5 && 1 <= y <= 5 && AddUp(x, y) :: (x, y))

  predicate AddUp(x: nat, y: nat) {
    x + y == 4 || 6 <= x + y <= 8
  }

  /** The runs at nodes 1 and 5. */
  const RUN_OF_1 := Run([0, 2, 4, 1, 3], [0, 0, 0, 2, 1])
  const RUN_OF_5 := Run([0, 2, 3, 1, 4], [0, 0, 1, 2, 0])

  lemma FiveLinks()
    ensures FIVE.Small() && TwoWay(FIVE)
    ensures forall x: nat, y: nat :: FIVE.Link(x, y) ==
              if x != y && 1 <= x <= 5 && 1 <= y <= 5 && AddUp(x, y) then 1 else 0
  {
  }

  lemma Step1Of1()
    ensures StepFits(FIVE, 1, [0], 0, 2)
  {
    FiveLinks();
  }

  lemma Step2Of1()
    ensures StepFits(FIVE, 1, [0, 2], 0, 4)
  {
    FiveLinks();
  }

  lemma Step3Of1()
    ensures StepFits(FIVE, 1, [0, 2, 4], 2, 1)
  {
    FiveLinks();
  }

  lemma Step4Of1()
    ensures StepFits(FIVE, 1, [0, 2, 4, 1], 1, 3)
  {
    FiveLinks();
  }

  lemma Step1Of5()
    ensures StepFits(FIVE, 5, [0], 0, 2)
  {
    FiveLinks();
  }

  lemma Step2Of5()
    ensures StepFits(FIVE, 5, [0, 2], 1, 3)
  {
    FiveLinks();
  }

  lemma Step3Of5()
    ensures StepFits(FIVE, 5, [0, 2, 3], 2, 1)
  {
    FiveLinks();
  }

  lemma Step4Of5()
    ensures StepFits(FIVE, 5, [0, 2, 3, 1], 0, 4)
  {
    FiveLinks();
  }

  lemma BuiltTwo(w: Network, me: Id, b: nat, c: nat, j: nat, k: nat)
    requires TwoWay(w) && b != 0 && c !in [0, b] && StepFits(w, me, [0], j, b) && StepFits(w, me, [0, b], k, c)
    ensures Built(w, me, Run([0, b, c], [0, j, k]))
  {
    BuiltStart(w, me);
    BuiltNext(w, me, Run([0], [0]), j, b);
    assert [0] + [b] == [0, b] && [0] + [j] == [0, j];
    BuiltNext(w, me, Run([0, b], [0, j]), k, c);
    assert [0, b] + [c] == [0, b, c] && [0, j] + [k] == [0, j, k];
  }

  lemma BuiltFour(w: Network, me: Id, o: seq<nat>, via: seq<nat>, d: nat, e: nat, l: nat, m: nat)
    requires Built(w, me, Run(o, via)) && d !in o && e !in o && d != e
    requires StepFits(w, me, o, l, d) && StepFits(w, me, o + [d], m, e)
    ensures Built(w, me, Run(o + [d, e], via + [l, m]))
  {
    BuiltNext(w, me, Run(o, via), l, d);
    BuiltNext(w, me, Run(o + [d], via + [l]), m, e);
    assert o + [d] + [e] == o + [d, e] && via + [l] + [m] == via + [l, m];
  }

  lemma HalfOf1()
    ensures Built(FIVE, 1, Run([0, 2, 4], [0, 0, 0]))
  {
    assert TwoWay(FIVE) by { FiveLinks(); }
    Step1Of1();
    Step2Of1();
    BuiltTwo(FIVE, 1, 2, 4, 0, 0);
  }

  lemma BuiltOf1()
    ensures Built(FIVE, 1, RUN_OF_1)
  {
    HalfOf1();
    Step3Of1();
    Step4Of1();
    assert [0, 2, 4] + [1] == [0, 2, 4, 1];
    BuiltFour(FIVE, 1, [0, 2, 4], [0, 0, 0], 1, 3, 2, 1);
    assert [0, 2, 4] + [1, 3] == RUN_OF_1.order && [0, 0, 0] + [2, 1] == RUN_OF_1.via;
  }

  lemma HalfOf5()
    ensures Built(FIVE, 5, Run([0, 2, 3], [0, 0, 1]))
  {
    assert TwoWay(FIVE) by { FiveLinks(); }
    Step1Of5();
    Step2Of5();
    BuiltTwo(FIVE, 5, 2, 3, 0, 1);
  }

  lemma BuiltOf5()
    ensures Built(FIVE, 5, RUN_OF_5)
  {
    HalfOf5();
    Step3Of5();
    Step4Of5();
    assert [0, 2, 3] + [1] == [0, 2, 3, 1];
    BuiltFour(FIVE, 5, [0, 2, 3], [0, 0, 1], 1, 4, 2, 0);
    assert [0, 2, 3] + [1, 4] == RUN_OF_5.order && [0, 0, 1] + [2, 0] == RUN_OF_5.via;
  }

  /** Node 1 builds 1-3, 1-5, 2-5 and 3-4. */
  lemma RunOf1()
    ensures IsPrimRun(SettledNet(FIVE, 1), RUN_OF_1)
  {
    BuiltOf1();
    var o := RUN_OF_1.order;
    assert o[0] == 0 && o[3] == 1 && o[1] == 2 && o[4] == 3 && o[2] == 4;
    BuiltIsPrimRun(FIVE, 1, RUN_OF_1);
  }

  /** Node 5 builds 1-3, 3-4, 2-4 and 1-5. */
  lemma RunOf5()
    ensures IsPrimRun(SettledNet(FIVE, 5), RUN_OF_5)
  {
    BuiltOf5();
    var o := RUN_OF_5.order;
    assert o[0] == 0 && o[3] == 1 && o[1] == 2 && o[2] == 3 && o[4] == 4;
    BuiltIsPrimRun(FIVE, 5, RUN_OF_5);
  }

  lemma EdgesOf1()
    ensures RunShape(RUN_OF_1, 0) && RunEdges(RUN_OF_1, 5) == {(0, 2), (0, 4), (1, 4), (2, 3)}
  {
    assert RunEdge(RUN_OF_1, 1) == (0, 2) && RunEdge(RUN_OF_1, 2) == (0, 4);
    assert RunEdge(RUN_OF_1, 3) == (1, 4) && RunEdge(RUN_OF_1, 4) == (2, 3);
  }

  lemma EdgesOf5()
    ensures RunShape(RUN_OF_5, 0) && RunEdges(RUN_OF_5, 5) == {(0, 2), (2, 3), (1, 3), (0, 4)}
  {
    assert RunEdge(RUN_OF_5, 1) == (0, 2) && RunEdge(RUN_OF_5, 2) == (2, 3);
    assert RunEdge(RUN_OF_5, 3) == (1, 3) && RunEdge(RUN_OF_5, 4) == (0, 4);
  }
}

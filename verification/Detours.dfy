/** Two neighbours that send each other the packets for a third: one finds its link to it dear and goes around by the
    other, which goes back by the first. */
module Detours {
  import opened Graphs
  import opened SpanningTrees
  import opened Routing
  import opened DearLinks

  /** Rank kc hangs on rank kx. */
  ghost predicate HangsOn(r: Run, kc: nat, kx: nat) {
    |r.via| == |r.order| && 1 <= kc < |r.order| && kx < |r.order| && r.via[kc] == kx
  }

  /** A complete run of the loop. */
  ghost predicate Complete(r: Run, g: Graph, cost: Costs)
    requires g <= cost.Keys
  {
    GreedyRun(r, g, cost, 0) && Exhausted(r, g) && r.via[0] == 0
  }

  ghost predicate LoopFree(g: Graph) {
    Symmetric(g) && forall a :: (a, a) !in g
  }

  lemma EdgeOfRank(r: Run, g: Graph, cost: Costs, a: nat, b: nat) returns (k: nat)
    requires g <= cost.Keys && GreedyRun(r, g, cost, 0) && (a, b) in Both(RunEdges(r, |r.order|))
    ensures 1 <= k < |r.order|
    ensures (r.order[r.via[k]] == a && r.order[k] == b) || (r.order[r.via[k]] == b && r.order[k] == a)
  {
    var edges := RunEdges(r, |r.order|);
    if (a, b) in edges {
      k :| 1 <= k < |r.order| && RunEdge(r, k) == (a, b);
    } else {
      k :| 1 <= k < |r.order| && RunEdge(r, k) == (b, a);
    }
  }

  lemma RankIsEdge(r: Run, kc: nat, kx: nat)
    requires RunShape(r, 0) && HangsOn(r, kc, kx)
    ensures (r.order[kx], r.order[kc]) in Both(RunEdges(r, |r.order|))
    ensures (r.order[kc], r.order[kx]) in Both(RunEdges(r, |r.order|))
  {
    assert RunEdge(r, kc) in RunEdges(r, |r.order|);
  }

  lemma SameJoined(r: Run, q: Run, g: Graph, cost: Costs, other: Costs, v: nat)
    requires g <= cost.Keys && g <= other.Keys && Symmetric(g) && Complete(r, g, cost) && Complete(q, g, other)
    requires v in r.order
    ensures v in q.order
  {
    RunCoversComponent(r, g, cost, 0);
    RunCoversComponent(q, g, other, 0);
    assert v in Joined(r, |r.order|);
    assert v in Joined(q, |q.order|);
  }

  // ---------------------------------------------------------------- around

  /** The costs of a node at x, of rank kx in the flat run, with a dear link to the position of rank kc; only a node
      at the root has a boosted link, or the one to its parent is boosted, which is never read. */
  ghost predicate FindsDear(r0: Run, g: Graph, cost: Costs, kx: nat, kc: nat) {
    && HangsOn(r0, kc, kx) && RunShape(r0, 0)
    && FlatApart(g, cost, r0.order[kx]) && (r0.order[kx], r0.order[kc]) in g
    && cost[(r0.order[kx], r0.order[kc])] > 0
    && (forall v :: (r0.order[kx], v) in g && v != r0.order[kc] ==> cost[(r0.order[kx], v)] <= 0)
    && (kx > 0 ==> forall v :: (r0.order[kx], v) in g && v != r0.order[kc] && v != r0.order[r0.via[kx]] ==>
          cost[(r0.order[kx], v)] == 0)
  }

  lemma SharesUptoX(r0: Run, r: Run, g: Graph, cost: Costs, kx: nat)
    requires Complete(r0, g, Flat(g)) && kx < |r0.order| && FlatApart(g, cost, r0.order[kx]) && Complete(r, g, cost)
    ensures kx < |r.order| && r.order[..kx + 1] == r0.order[..kx + 1] && r.via[..kx + 1] == r0.via[..kx + 1]
    ensures forall i :: 0 <= i <= kx ==> r.order[i] == r0.order[i] && r.via[i] == r0.via[i]
  {
    RunsShare(r0, r, g, Flat(g), cost, kx);
    forall i | 0 <= i <= kx ensures r.order[i] == r0.order[i] && r.via[i] == r0.via[i] {
      assert r.order[..kx + 1][i] == r0.order[..kx + 1][i] && r.via[..kx + 1][i] == r0.via[..kx + 1][i];
    }
  }

  /** The dear link is not in the tree. */
  lemma DearIsOut(r0: Run, r: Run, g: Graph, cost: Costs, kx: nat, kc: nat)
    requires LoopFree(g) && Complete(r0, g, Flat(g)) && FindsDear(r0, g, cost, kx, kc) && Complete(r, g, cost)
    requires Reach(Cut(g, r0.order[kx], r0.order[kc]), r0.order[kx], r0.order[kc])
    ensures (r0.order[kx], r0.order[kc]) !in Both(RunEdges(r, |r.order|))
  {
    var x, c := r0.order[kx], r0.order[kc];
    if (x, c) in Both(RunEdges(r, |r.order|)) {
      SharesUptoX(r0, r, g, cost, kx);
      var k := EdgeOfRank(r, g, cost, x, c);
      if r.order[k] == c {
        forall e | e in g && e != (x, c) ensures cost[e] <= 0 {
          assert (e.0, e.1) in g;
        }
        DearIsAvoided(r, g, cost, x, c, k);
      }
    }
  }

  /** A position that hangs on x now does so in the flat run as well. */
  lemma ChildStays(r0: Run, r: Run, g: Graph, cost: Costs, kx: nat, kc: nat, k: nat) returns (ky: nat)
    requires LoopFree(g) && Complete(r0, g, Flat(g)) && FindsDear(r0, g, cost, kx, kc) && Complete(r, g, cost)
    requires HangsOn(r, k, kx) && r.order[k] != r0.order[kc]
    ensures HangsOn(r0, ky, kx) && r0.order[ky] == r.order[k]
  {
    var x, y := r0.order[kx], r.order[k];
    SharesUptoX(r0, r, g, cost, kx);
    assert RunStep(r, g, cost, k);
    forall j | 0 <= j < kx ensures (r0.order[j], y) !in g {
      NoEarlierNeighbour(r, g, cost, k, j);
    }
    SameJoined(r, r0, g, cost, Flat(g), y);
    ky :| 0 <= ky < |r0.order| && r0.order[ky] == y;
    FirstNeighbour(r0, g, Flat(g), ky, kx);
  }

  /** So x goes around by some other position y next to it in the flat tree. */
  lemma GoesAround(r0: Run, r: Run, g: Graph, cost: Costs, kx: nat, kc: nat) returns (y: nat, ky: nat)
    requires LoopFree(g) && Complete(r0, g, Flat(g)) && FindsDear(r0, g, cost, kx, kc) && Complete(r, g, cost)
    requires Reach(Cut(g, r0.order[kx], r0.order[kc]), r0.order[kx], r0.order[kc])
    ensures ky < |r0.order| && r0.order[ky] == y && y != r0.order[kc]
    ensures HangsOn(r0, ky, kx) || HangsOn(r0, kx, ky)
    ensures Behind(Both(RunEdges(r, |r.order|)), r0.order[kx], y, r0.order[kc])
  {
    var x, c, tree := r0.order[kx], r0.order[kc], Both(RunEdges(r, |r.order|));
    TreeReachesBoth(r0, r, g, cost, x, c);
    DearIsOut(r0, r, g, cost, kx, kc);
    var w :| WalkBetween(tree, x, c, w);
    var i := BranchExists(tree, x, c, w);
    y := w[i + 1];
    var k := EdgeOfRank(r, g, cost, x, y);
    SharesUptoX(r0, r, g, cost, kx);
    if r.order[k] == y {
      ky := ChildStays(r0, r, g, cost, kx, kc, k);
    } else {
      ky := r0.via[kx];
    }
  }

  lemma TreeReachesBoth(r0: Run, r: Run, g: Graph, cost: Costs, x: nat, c: nat)
    requires Symmetric(g) && g <= cost.Keys && Complete(r0, g, Flat(g)) && Complete(r, g, cost)
    requires x in r0.order && c in r0.order
    ensures Reach(Both(RunEdges(r, |r.order|)), x, c)
  {
    var tree := Both(RunEdges(r, |r.order|));
    RunCoversComponent(r, g, cost, 0);
    SameJoined(r0, r, g, Flat(g), cost, x);
    SameJoined(r0, r, g, Flat(g), cost, c);
    assert x in Joined(r, |r.order|) && c in Joined(r, |r.order|);
    ReachReversed(tree, 0, x);
    ReachTrans(tree, x, 0, c);
  }

  // ---------------------------------------------------------------- back again

  /** The costs of a node at y that has just heard x. */
  ghost predicate Boosts(g: Graph, cost: Costs, y: nat, x: nat) {
    && FlatApart(g, cost, y) && (y, x) in g && cost[(y, x)] < 0
    && forall v :: (y, v) in g && v != x ==> cost[(y, v)] == 0
  }

  /** If y hangs on x, the boost is never read, and the tree is the flat one. */
  lemma BackFromChild(r0: Run, r: Run, g: Graph, cost: Costs, kx: nat, ky: nat)
    requires LoopFree(g) && Complete(r0, g, Flat(g)) && HangsOn(r0, ky, kx)
    requires Boosts(g, cost, r0.order[ky], r0.order[kx]) && Complete(r, g, cost)
    ensures r == r0
  {
    forall k | 1 <= k < |r0.order| ensures AgreeUpto(r0, g, Flat(g), cost, k) {
      forall i, v | 0 <= i < k && v !in r0.order[..k] && (r0.order[i], v) in g
        ensures Flat(g)[(r0.order[i], v)] == cost[(r0.order[i], v)]
      {
        assert i == ky ==> r0.order[..k][kx] == r0.order[kx];
      }
    }
    PrefixIsGreedy(r0, g, Flat(g), cost, |r0.order|);
    assert r0.order[..|r0.order|] == r0.order && r0.via[..|r0.order|] == r0.via;
    ExhaustedRunUnique(r0, r, g, cost, 0);
  }

  /** If x hangs on y, it now joins right after y. */
  lemma BoostedIsNext(r0: Run, r: Run, g: Graph, cost: Costs, kx: nat, ky: nat)
    requires LoopFree(g) && Complete(r0, g, Flat(g)) && HangsOn(r0, kx, ky) && ky < kx
    requires Boosts(g, cost, r0.order[ky], r0.order[kx]) && Complete(r, g, cost)
    ensures ky + 1 < |r.order| && r.order[ky + 1] == r0.order[kx] && r.via[ky + 1] == ky
    ensures forall i :: 0 <= i <= ky ==> r.order[i] == r0.order[i]
  {
    var y, x := r0.order[ky], r0.order[kx];
    SharesUptoX(r0, r, g, cost, ky);
    assert r.order[ky] == y;
    assert forall i :: 0 <= i <= ky ==> r.order[i] == r0.order[i] != x;
    assert x in r.order;
    var m :| 0 <= m < |r.order| && r.order[m] == x;
    assert m > ky;
    var k := ky + 1;
    assert RunStep(r, g, cost, k);
    assert x !in r.order[..k];
    assert (r.order[ky], x) in g;
  }

  /** ... and the other position hangs on x as before. */
  lemma BackFromParent(r0: Run, r: Run, g: Graph, cost: Costs, kx: nat, ky: nat, kc: nat) returns (k: nat)
    requires LoopFree(g) && Complete(r0, g, Flat(g)) && HangsOn(r0, kx, ky) && ky < kx < kc && HangsOn(r0, kc, kx)
    requires Boosts(g, cost, r0.order[ky], r0.order[kx]) && Complete(r, g, cost)
    ensures HangsOn(r, ky + 1, ky) && r.order[ky] == r0.order[ky] && r.order[ky + 1] == r0.order[kx]
    ensures HangsOn(r, k, ky + 1) && r.order[k] == r0.order[kc]
  {
    var y, x, c := r0.order[ky], r0.order[kx], r0.order[kc];
    BoostedIsNext(r0, r, g, cost, kx, ky);
    assert RunStep(r0, g, Flat(g), kc);
    forall j | 0 <= j < kx ensures (r0.order[j], c) !in g {
      NoEarlierNeighbour(r0, g, Flat(g), kc, j);
    }
    SameJoined(r0, r, g, Flat(g), cost, c);
    k :| 0 <= k < |r.order| && r.order[k] == c;
    assert k > ky + 1;
    FirstNeighbour(r, g, cost, k, ky + 1);
  }

  /** Either way the tree of y goes on to the third position by way of x. */
  lemma GoesBack(r0: Run, r: Run, g: Graph, cost: Costs, kx: nat, ky: nat, kc: nat)
    requires LoopFree(g) && Complete(r0, g, Flat(g)) && HangsOn(r0, kc, kx)
    requires (HangsOn(r0, ky, kx) || HangsOn(r0, kx, ky)) && r0.order[ky] != r0.order[kc]
    requires Boosts(g, cost, r0.order[ky], r0.order[kx]) && Complete(r, g, cost)
    ensures Behind(Both(RunEdges(r, |r.order|)), r0.order[ky], r0.order[kx], r0.order[kc])
  {
    var y, x, c, tree := r0.order[ky], r0.order[kx], r0.order[kc], Both(RunEdges(r, |r.order|));
    if HangsOn(r0, ky, kx) {
      BackFromChild(r0, r, g, cost, kx, ky);
      RankIsEdge(r, ky, kx);
      RankIsEdge(r, kc, kx);
    } else {
      var k := BackFromParent(r0, r, g, cost, kx, ky, kc);
      RankIsEdge(r, ky + 1, ky);
      RankIsEdge(r, k, ky + 1);
    }
    assert (x, c) in Shut(tree, {y});
    ReachEdge(Shut(tree, {y}), x, c);
  }

  // ---------------------------------------------------------------- a link of the tree on a cycle

  /** If the links form a cycle, some link of the flat tree can be gone around. */
  lemma TreeLinkOnCycle(r0: Run, g: Graph, a: nat, b: nat) returns (kx: nat, kc: nat)
    requires LoopFree(g) && Complete(r0, g, Flat(g)) && a in r0.order && b in r0.order
    requires (a, b) in g && Reach(Cut(g, a, b), a, b)
    ensures HangsOn(r0, kc, kx) && Reach(Cut(g, r0.order[kx], r0.order[kc]), r0.order[kx], r0.order[kc])
  {
    var tree := Both(RunEdges(r0, |r0.order|));
    var d := b;
    if (a, b) !in tree {
      d := NextOnTree(r0, g, a, b);
    }
    kc := EdgeOfRank(r0, g, Flat(g), a, d);
    kx := r0.via[kc];
    assert Cut(g, a, d) == Cut(g, d, a);
    assert Symmetric(Cut(g, a, d));
    ReachReversed(Cut(g, a, d), a, d);
  }

  lemma NextOnTree(r0: Run, g: Graph, a: nat, b: nat) returns (d: nat)
    requires LoopFree(g) && Complete(r0, g, Flat(g)) && a in r0.order && b in r0.order && (a, b) in g
    requires (a, b) !in Both(RunEdges(r0, |r0.order|))
    ensures (a, d) in Both(RunEdges(r0, |r0.order|)) && Reach(Cut(g, a, d), a, d)
  {
    var tree := Both(RunEdges(r0, |r0.order|));
    RunCoversComponent(r0, g, Flat(g), 0);
    TreeReachesBoth(r0, r0, g, Flat(g), a, b);
    var w :| WalkBetween(tree, a, b, w);
    var i := BranchExists(tree, a, b, w);
    d := w[i + 1];
    var h := Cut(g, a, d);
    AroundWithout(tree, h, a, d, b);
    ReachEdge(h, b, a);
    ReachTrans(h, d, b, a);
    ReachReversed(h, d, a);
  }

  lemma AroundWithout(tree: Graph, h: Graph, a: nat, d: nat, b: nat)
    requires Behind(tree, a, d, b) && a != d && forall u, v :: (u, v) in tree && u != a && v != a ==> (u, v) in h
    ensures Reach(h, d, b)
  {
    var u :| WalkBetween(Shut(tree, {a}), d, b, u);
    ShutWalk(tree, a, u);
    assert WalkBetween(h, d, b, u);
  }
}

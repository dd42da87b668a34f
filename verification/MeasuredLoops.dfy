/** Measurements of two neighbours for which a packet goes back and forth between them for ever: any cycle of two-way
    links has such neighbours. */
module MeasuredLoops {
  import opened Base
  import opened Graphs
  import opened SpanningTrees
  import opened Prim
  import opened Routing
  import opened DearLinks
  import opened Detours
  import opened Networks
  import opened NetworkNets
  import opened MeasuredCosts
  import opened TreeChoice

  /** With these measurements the tree of node me, at position a, leads to position c by way of b. */
  ghost predicate LeadsBy(w: Network, me: Id, row: seq<Byte>, z: Id, run: Run, b: nat, c: nat) {
    && me > 0 && CanRead(w, me, row, z) && IsPrimRun(MeasuredNet(w, me, row, z), run)
    && Behind(Both(RunEdges(run, |run.order|)), me - 1, b, c)
  }

  lemma LeadsByIs(w: Network, me: Id, row: seq<Byte>, z: Id, run: Run, a: nat, b: nat, c: nat)
    requires CanRead(w, me, row, z) && me == a + 1
    ensures IsPrimRun(MeasuredNet(w, me, row, z), run) && Behind(Both(RunEdges(run, |run.order|)), a, b, c) ==>
              LeadsBy(w, me, row, z, run, b, c)
  {
  }

  /** A link of the flat tree that can be gone around. */
  ghost predicate OnCycle(r0: Run, g: Graph, kx: nat, kc: nat) {
    && LoopFree(g) && Complete(r0, g, Flat(g)) && HangsOn(r0, kc, kx)
    && Reach(Cut(g, r0.order[kx], r0.order[kc]), r0.order[kx], r0.order[kc])
  }

  ghost predicate NextTo(r0: Run, kx: nat, ky: nat) {
    HangsOn(r0, ky, kx) || HangsOn(r0, kx, ky)
  }

  /** Who sends the last beacon: the parent, or another neighbour at the root. */
  ghost predicate SendsLast(r0: Run, g: Graph, kx: nat, kc: nat, q: nat)
    requires OnCycle(r0, g, kx, kc)
  {
    (r0.order[kx], q) in g && q != r0.order[kc] && (kx > 0 ==> q == r0.order[r0.via[kx]])
  }

  lemma LastSender(r0: Run, g: Graph, kx: nat, kc: nat) returns (q: nat)
    requires OnCycle(r0, g, kx, kc)
    ensures SendsLast(r0, g, kx, kc, q)
  {
    var x, c := r0.order[kx], r0.order[kc];
    assert RunStep(r0, g, Flat(g), kc);
    if kx > 0 {
      assert RunStep(r0, g, Flat(g), kx);
      q := r0.order[r0.via[kx]];
    } else {
      var w :| WalkBetween(Cut(g, x, c), x, c, w);
      q := w[1];
      assert (w[0], w[1]) in Cut(g, x, c);
    }
  }

  lemma DearIsFound(r0: Run, g: Graph, cost: Costs, kx: nat, kc: nat, q: nat)
    requires OnCycle(r0, g, kx, kc) && DearAt(g, cost, r0.order[kx], r0.order[kc], q)
    requires SendsLast(r0, g, kx, kc, q)
    ensures FindsDear(r0, g, cost, kx, kc)
  {
    assert RunStep(r0, g, Flat(g), kc);
  }

  lemma AroundByCosts(r0: Run, g: Graph, net: Net, kx: nat, kc: nat, q: nat) returns (run: Run, ky: nat)
    requires OnCycle(r0, g, kx, kc) && ReadsDear(g, net, r0.order[kx], r0.order[kc], q)
    requires SendsLast(r0, g, kx, kc, q)
    ensures IsPrimRun(net, run) && ky < |r0.order| && NextTo(r0, kx, ky) && r0.order[ky] != r0.order[kc]
    ensures Behind(Both(RunEdges(run, |run.order|)), r0.order[kx], r0.order[ky], r0.order[kc])
  {
    run := RunExists(net);
    DearIsFound(r0, g, EdgeCosts(net), kx, kc, q);
    var y;
    y, ky := GoesAround(r0, run, g, EdgeCosts(net), kx, kc);
  }

  /** One of the two finds its link to the third position dear. */
  lemma AroundNode(w: Network, r0: Run, g: Graph, kx: nat, kc: nat, x: nat, c: nat, me: Id)
    returns (row: seq<Byte>, z: Id, run: Run, ky: nat)
    requires TwoWay(w) && g == LinkPairs(w) && OnCycle(r0, g, kx, kc) && x == r0.order[kx] && c == r0.order[kc]
    requires x < w.n && me == x + 1
    ensures ky < |r0.order| && NextTo(r0, kx, ky) && r0.order[ky] != c
    ensures LeadsBy(w, me, row, z, run, r0.order[ky], c)
  {
    var q := LastSender(r0, g, kx, kc);
    DearCanBeRead(w, x, me, c, q);
    row, z := OneDear(w.n, c), q + 1;
    DearCosts(w, x, me, c, q, row, z);
    run, ky := AroundByCosts(r0, g, MeasuredNet(w, me, row, z), kx, kc, q);
    LeadsByIs(w, me, row, z, run, x, r0.order[ky], c);
  }

  // ---------------------------------------------------------------- the other one

  lemma PlainReads(g: Graph, cost: Costs, y: nat, row: seq<Byte>, x: nat, z: Id)
    requires row == OneDear(|row|, |row|) && z == x + 1 && (y, x) in g
    ensures ReadsAs(g, cost, y, row, z) ==> Boosts(g, cost, y, x)
  {
    if ReadsAs(g, cost, y, row, z) {
      forall v | (y, v) in g ensures cost[(y, v)] == if v == x then -10 else 0 {
        assert row[v] == INITIAL_LINK_QUALITY;
      }
    }
  }

  ghost predicate ReadsBoost(g: Graph, net: Net, y: nat, x: nat) {
    net.Square() && HeardGraph(net) == g && Boosts(g, EdgeCosts(net), y, x)
  }

  lemma PlainCosts(w: Network, y: nat, me: Id, x: nat, row: seq<Byte>, z: Id)
    requires TwoWay(w) && y < w.n && me == y + 1 && z == x + 1 && row == OneDear(w.n, w.n) && (y, x) in LinkPairs(w)
    ensures ReadsBoost(LinkPairs(w), MeasuredNet(w, me, row, z), y, x)
  {
    PlainReads(LinkPairs(w), EdgeCosts(MeasuredNet(w, me, row, z)), y, row, x, z);
    MeasuredPairs(w, y, me, row, z);
  }

  lemma BackByCosts(r0: Run, g: Graph, net: Net, kx: nat, ky: nat, kc: nat) returns (run: Run)
    requires OnCycle(r0, g, kx, kc) && ky < |r0.order| && NextTo(r0, kx, ky) && r0.order[ky] != r0.order[kc]
    requires ReadsBoost(g, net, r0.order[ky], r0.order[kx])
    ensures IsPrimRun(net, run)
    ensures Behind(Both(RunEdges(run, |run.order|)), r0.order[ky], r0.order[kx], r0.order[kc])
  {
    run := RunExists(net);
    GoesBack(r0, run, g, EdgeCosts(net), kx, ky, kc);
  }

  lemma NextIsLinked(r0: Run, g: Graph, kx: nat, ky: nat)
    requires LoopFree(g) && Complete(r0, g, Flat(g)) && kx < |r0.order| && ky < |r0.order| && NextTo(r0, kx, ky)
    ensures (r0.order[ky], r0.order[kx]) in g && (r0.order[kx], r0.order[ky]) in g
  {
    if HangsOn(r0, ky, kx) {
      assert RunStep(r0, g, Flat(g), ky);
    } else {
      assert RunStep(r0, g, Flat(g), kx);
    }
  }

  /** The other one has just heard the first, and found nothing dear. */
  lemma BackNode(w: Network, r0: Run, g: Graph, kx: nat, ky: nat, kc: nat, y: nat, x: nat, me: Id)
    returns (row: seq<Byte>, z: Id, run: Run)
    requires TwoWay(w) && g == LinkPairs(w) && OnCycle(r0, g, kx, kc) && ky < |r0.order| && NextTo(r0, kx, ky)
    requires r0.order[ky] == y != r0.order[kc] && r0.order[kx] == x && y < w.n && me == y + 1
    ensures LeadsBy(w, me, row, z, run, x, r0.order[kc])
  {
    NextIsLinked(r0, g, kx, ky);
    DearCanBeRead(w, y, me, w.n, x);
    row, z := OneDear(w.n, w.n), x + 1;
    PlainCosts(w, y, me, x, row, z);
    run := BackByCosts(r0, g, MeasuredNet(w, me, row, z), kx, ky, kc);
    LeadsByIs(w, me, row, z, run, y, x, r0.order[kc]);
  }

  /** Some measurements make the node at position a send packets for position c to position b. */
  ghost predicate CanLeadBy(w: Network, a: nat, b: nat, c: nat) {
    a < w.n && exists me: Id, row, z, run :: me == a + 1 && LeadsBy(w, me, row, z, run, b, c)
  }

  lemma AroundCanBe(w: Network, g: Graph, r0: Run, kx: nat, kc: nat, x: nat, c: nat) returns (ky: nat)
    requires TwoWay(w) && g == LinkPairs(w) && OnCycle(r0, g, kx, kc) && x == r0.order[kx] && c == r0.order[kc]
    requires x < w.n
    ensures ky < |r0.order| && NextTo(r0, kx, ky) && r0.order[ky] != c && CanLeadBy(w, x, r0.order[ky], c)
  {
    var row, z, run;
    var me: Id := x + 1;
    row, z, run, ky := AroundNode(w, r0, g, kx, kc, x, c, me);
  }

  lemma BackCanBe(w: Network, g: Graph, r0: Run, kx: nat, kc: nat, ky: nat, x: nat, c: nat, y: nat)
    requires TwoWay(w) && g == LinkPairs(w) && OnCycle(r0, g, kx, kc) && ky < |r0.order| && NextTo(r0, kx, ky)
    requires r0.order[ky] == y != c && r0.order[kc] == c && r0.order[kx] == x && y < w.n
    ensures CanLeadBy(w, y, x, c)
  {
    var me: Id := y + 1;
    var row, z, run := BackNode(w, r0, g, kx, ky, kc, y, x, me);
  }

  /** Two linked positions, and a third, in the component of position 0. */
  ghost predicate Connected(w: Network, x: nat, y: nat, c: nat) {
    && x < w.n && y < w.n && c < w.n && x != c && y != c && x != y && (x, y) in LinkPairs(w)
    && Reach(LinkPairs(w), 0, x) && Reach(LinkPairs(w), 0, c)
  }

  /** Two linked nodes of the component of position 0 that may send each other the packets for position c. */
  ghost predicate Tempts(w: Network, x: nat, y: nat, c: nat) {
    Connected(w, x, y, c) && CanLeadBy(w, x, y, c) && CanLeadBy(w, y, x, c)
  }

  lemma RanksAreReached(w: Network, g: Graph, r0: Run, kx: nat, kc: nat, ky: nat)
    requires g == LinkPairs(w) && OnCycle(r0, g, kx, kc) && ky < |r0.order| && NextTo(r0, kx, ky)
    requires r0.order[ky] != r0.order[kc]
    ensures Connected(w, r0.order[kx], r0.order[ky], r0.order[kc])
  {
    assert RunStep(r0, g, Flat(g), kc);
    NextIsLinked(r0, g, kx, ky);
    RunCoversComponent(r0, g, Flat(g), 0);
    assert r0.order[kx] in Joined(r0, |r0.order|) && r0.order[kc] in Joined(r0, |r0.order|);
  }

  lemma BackTempts(w: Network, g: Graph, r0: Run, kx: nat, kc: nat, ky: nat, x: nat, y: nat, c: nat)
    requires TwoWay(w) && g == LinkPairs(w) && OnCycle(r0, g, kx, kc) && ky < |r0.order| && NextTo(r0, kx, ky)
    requires r0.order[kx] == x && r0.order[ky] == y && r0.order[kc] == c && y != c && CanLeadBy(w, x, y, c)
    ensures Tempts(w, x, y, c)
  {
    RanksAreReached(w, g, r0, kx, kc, ky);
    BackCanBe(w, g, r0, kx, kc, ky, x, c, y);
  }

  /** Any link of the flat tree that can be gone around has such nodes. */
  lemma CycleTempts(w: Network, g: Graph, r0: Run, kx: nat, kc: nat)
    requires TwoWay(w) && g == LinkPairs(w) && OnCycle(r0, g, kx, kc)
    ensures exists x, y, c :: Tempts(w, x, y, c)
  {
    var x, c := r0.order[kx], r0.order[kc];
    assert RunStep(r0, g, Flat(g), kc);
    var ky := AroundCanBe(w, g, r0, kx, kc, x, c);
    BackTempts(w, g, r0, kx, kc, ky, x, r0.order[ky], c);
  }
}

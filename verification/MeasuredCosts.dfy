/** The costs of measured links in a network with two-way links. */
module MeasuredCosts {
  import opened Base
  import opened Graphs
  import opened SpanningTrees
  import opened Prim
  import opened DearLinks
  import opened Detours
  import opened TreeChoice
  import opened Networks
  import opened NetworkNets

  /** Who hears whom, by position. */
  ghost function LinkPairs(w: Network): (g: Graph)
    ensures forall i: nat, j: nat {:trigger (i, j) in g} ::
              (i, j) in g <==> i < w.n && j < w.n && w.Link(i + 1, j + 1) == 1
  {
    set i: nat, j: nat | i < w.n && j < w.n && w.Link(i + 1, j + 1) == 1 :: (i, j)
  }

  lemma PairsAreHeard(w: Network, net: Net)
    requires TwoWay(w) && net.Square() && net.link == LinksOf(w)
    ensures HeardGraph(net) == LinkPairs(w) && LoopFree(LinkPairs(w))
  {
    forall i: nat, j: nat | i < w.n && j < w.n ensures (i, j) in HeardGraph(net) <==> w.Link(i + 1, j + 1) == 1 {
      assert net.link[i][j] == w.Link(i + 1, j + 1) && net.link[j][i] == w.Link(j + 1, i + 1);
    }
  }

  /** Cost of a two-way link to position j for the node that measured it. */
  function MeasuredCost(row: seq<Byte>, z: Id, j: nat): int
    requires j < |row|
  {
    var q: int := row[j];
    if j + 1 == z then -10 else 100 - q
  }

  lemma MeasuredEdge(w: Network, me: Id, row: seq<Byte>, z: Id, i: nat, j: nat)
    requires TwoWay(w) && |row| == w.n && i < w.n && j < w.n && w.Link(i + 1, j + 1) == 1 && row[j] != 0
    ensures EdgeCost(MeasuredNet(w, me, row, z), i, j) == if i + 1 == me then MeasuredCost(row, z, j) else 0
  {
    MeasuredCell(w, me, row, z, i, j);
    MeasuredCell(w, me, row, z, j, i);
  }

  ghost predicate NonZero(row: seq<Byte>) {
    forall j :: 0 <= j < |row| ==> row[j] != 0
  }

  /** What a node at position x reads: everything alike, but the links it measured. */
  ghost predicate ReadsAs(g: Graph, cost: Costs, x: nat, row: seq<Byte>, z: Id) {
    && cost.Keys == g
    && forall a: nat, b: nat :: (a, b) in g ==>
         b < |row| && cost[(a, b)] == if a == x then MeasuredCost(row, z, b) else 0
  }

  lemma MeasuredPair(w: Network, net: Net, me: Id, row: seq<Byte>, z: Id, a: nat, b: nat)
    requires TwoWay(w) && |row| == w.n && NonZero(row) && net == MeasuredNet(w, me, row, z) && (a, b) in LinkPairs(w)
    ensures (a, b) in EdgeCosts(net)
    ensures EdgeCosts(net)[(a, b)] == if a + 1 == me then MeasuredCost(row, z, b) else 0
  {
    PairsAreHeard(w, net);
    MeasuredEdge(w, me, row, z, a, b);
  }

  lemma MeasuredPairs(w: Network, x: nat, me: Id, row: seq<Byte>, z: Id)
    requires TwoWay(w) && |row| == w.n && x < w.n && NonZero(row) && me == x + 1
    ensures var net, g := MeasuredNet(w, me, row, z), LinkPairs(w);
            HeardGraph(net) == g && ReadsAs(g, EdgeCosts(net), x, row, z)
  {
    var net, g := MeasuredNet(w, me, row, z), LinkPairs(w);
    PairsAreHeard(w, net);
    forall a: nat, b: nat | (a, b) in g
      ensures EdgeCosts(net)[(a, b)] == if a == x then MeasuredCost(row, z, b) else 0
    {
      MeasuredPair(w, net, me, row, z, a, b);
    }
  }

  /** All links as good as new, except a bad one to position dear. */
  function OneDear(n: nat, dear: nat): (row: seq<Byte>)
    ensures |row| == n && NonZero(row)
  {
    seq(n, j requires 0 <= j < n => if j == dear then 1 else INITIAL_LINK_QUALITY)
  }

  /** What Prim computes with at such a node. */
  ghost predicate ReadsDear(g: Graph, net: Net, x: nat, p: nat, q: nat) {
    net.Square() && HeardGraph(net) == g && DearAt(g, EdgeCosts(net), x, p, q)
  }

  lemma DearReads(g: Graph, cost: Costs, x: nat, row: seq<Byte>, p: nat, q: nat, z: Id)
    requires row == OneDear(|row|, p) && z == q + 1 && p != q
    ensures ReadsAs(g, cost, x, row, z) ==> DearAt(g, cost, x, p, q)
  {
    if ReadsAs(g, cost, x, row, z) {
      forall v | (x, v) in g ensures cost[(x, v)] == if v == p then 99 else if v == q then -10 else 0 {
        assert row[v] == if v == p then 1 else INITIAL_LINK_QUALITY;
      }
    }
  }

  lemma DearCosts(w: Network, x: nat, me: Id, p: nat, q: nat, row: seq<Byte>, z: Id)
    requires TwoWay(w) && x < w.n && me == x + 1 && p != q && z == q + 1 && row == OneDear(w.n, p)
    ensures ReadsDear(LinkPairs(w), MeasuredNet(w, me, row, z), x, p, q)
  {
    DearReads(LinkPairs(w), EdgeCosts(MeasuredNet(w, me, row, z)), x, row, p, q, z);
    MeasuredPairs(w, x, me, row, z);
  }

  /** Measurements that a node may have, with a last beacon from a neighbour. */
  ghost predicate CanRead(w: Network, me: Id, row: seq<Byte>, z: Id) {
    |row| == w.n && NonZero(row) && w.Has(z) && w.Link(me, z) == 1
  }

  lemma DearCanBeRead(w: Network, x: nat, me: Id, up: nat, other: nat)
    requires x < w.n && me == x + 1 && (x, other) in LinkPairs(w)
    ensures other < w.n && CanRead(w, me, OneDear(w.n, up), other + 1)
  {
  }

  /** The run that any node with no measurements at all would make. */
  lemma FlatRun(w: Network) returns (r: Run)
    requires TwoWay(w) && w.n > 0
    ensures Complete(r, LinkPairs(w), Flat(LinkPairs(w)))
  {
    var g := LinkPairs(w);
    var start := Run([0], [0]);
    assert GreedyRun(start, g, Flat(g), 0);
    r := FinishRun(start, g, Flat(g), 0, Below(w.n));
  }
}

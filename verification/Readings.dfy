/** What the quality tables hold when Prim runs: only a node's own row is ever measured, so the two ends of a link
    read different costs, and different nodes read the same link differently. */
module Readings {
  import opened Base
  import opened SpanningTrees
  import opened Prim
  import opened Topology
  import opened TopologyRuns
  import opened MergeCells

  /** The table of m by position. */
  ghost function CellsOf(m: Table, ids: seq<Id>): (r: seq<seq<Byte>>)
    ensures |r| == |ids| && forall i :: 0 <= i < |r| ==> |r[i]| == |ids|
    ensures forall i, j {:trigger r[i][j]} :: 0 <= i < |ids| && 0 <= j < |ids| ==> r[i][j] == Cell(m, ids[i], ids[j])
  {
    seq(|ids|, i requires 0 <= i < |ids| => seq(|ids|, j requires 0 <= j < |ids| => Cell(m, ids[i], ids[j])))
  }

  /** What Prim reads from a state. */
  ghost function NetOfState(t: Topo): (net: Net)
    ensures net.Square() && |net.link| == |t.ids|
  {
    Net(CellsOf(t.link, t.ids), CellsOf(t.quality, t.ids))
  }

  // ---------------------------------------------------------------- other rows are never measured

  lemma MergedOther(t: Topo, b: Topo, from: Id, now: int, x: Id, y: Id)
    requires Tidy(t) && x != t.me
    ensures Cell(Merge(t, b, from, now).quality, x, y) in {0, INITIAL_LINK_QUALITY, Cell(t.quality, x, y)}
  {
    assert Cell(Adjusted(t, from, false).quality, x, y) == Cell(t.quality, x, y);
  }

  lemma SweptOther(t: Topo, now: int, x: Id, y: Id)
    ensures Cell(Sweep(t, now).quality, x, y) in {0, Cell(t.quality, x, y)}
  {
  }

  lemma SetOther(t: Topo, id: Id, q: Byte, x: Id, y: Id)
    requires Tidy(t) && x != t.me
    ensures Cell(WithQuality(t, id, q).quality, x, y) == Cell(t.quality, x, y)
  {
  }

  /** Whatever happens, a quality outside my own row stays what it was or becomes 0 or the default. */
  lemma StepLeavesOther(t: Topo, e: Event, x: Id, y: Id)
    requires Valid(t) && EventOk(e) && x != t.me
    ensures Valid(Step(t, e)) && Cell(Step(t, e).quality, x, y) in {0, INITIAL_LINK_QUALITY, Cell(t.quality, x, y)}
  {
    StepKeepsValid(t, e);
    match e
    case Beacon(b, from, now) => MergedOther(t, b, from, now, x, y);
    case SweepAt(now) => SweptOther(t, now, x, y);
    case Announce(now) => SweptOther(t, now, x, y);
    case SlotMiss(id) =>
      if t.me in t.ids && id in t.ids {
        SetOther(t, id, AdjustQuality(t.quality[(t.me, id)], true), x, y);
      }
    case Measured(id, q) => SetOther(t, id, q, x, y);
  }

  /** In every run, every quality outside my own row is 0 or the default. */
  lemma {:induction false} OtherRowsAreDefault(h: History, x: Id, y: Id)
    requires HistoryOk(h) && x != h.me
    ensures Cell(After(h).quality, x, y) in {0, INITIAL_LINK_QUALITY}
    decreases |h.events|
  {
    if h.events != [] {
      OtherRowsAreDefault(Before(h), x, y);
      StepLeavesOther(After(Before(h)), h.events[|h.events| - 1], x, y);
    }
  }

  lemma MergedReadings(t: Topo, b: Topo, from: Id, now: int)
    requires Valid(t) && ValidBeacon(b) && from != t.me && (from in t.ids || from in b.ids)
    requires Cell(t.quality, from, t.me) in {0, INITIAL_LINK_QUALITY}
    requires Cell(Merge(t, b, from, now).link, from, t.me) == 1
    ensures var r := Merge(t, b, from, now);
            && Cell(r.quality, t.me, from) == BOOSTED_QUALITY && Cell(r.quality, from, t.me) == INITIAL_LINK_QUALITY
            && Cell(r.link, t.me, from) == 1 && t.me in r.ids && from in r.ids
  {
    MergedCell(t, b, from, now, t.me, from);
    MergedCell(t, b, from, now, from, t.me);
    AdjustedMine(t, from);
    AdjustedOther(t, from, from, t.me);
  }

  /** Right after a beacon over a two-way link, which is when Prim runs, my reading of that link is the boosted
      quality and the other end's is the default: the two ends never read the same cost there. */
  lemma BeaconSplitsReadings(h: History, b: Topo, from: Id, now: int)
    requires HistoryOk(h) && ValidBeacon(b) && from != h.me && (from in After(h).ids || from in b.ids)
    requires Cell(Merge(After(h), b, from, now).link, from, h.me) == 1
    ensures var net := NetOfState(Merge(After(h), b, from, now));
            !SymmetricCost(HeardGraph(net), EdgeCosts(net))
  {
    OtherRowsAreDefault(h, from, h.me);
    MergedReadings(After(h), b, from, now);
    StateReadsTwice(Merge(After(h), b, from, now), h.me, from);
  }

  lemma StateReadsTwice(r: Topo, x: Id, y: Id)
    requires x in r.ids && y in r.ids && x != y && Cell(r.link, x, y) == 1 && Cell(r.link, y, x) == 1
    requires Cell(r.quality, x, y) == BOOSTED_QUALITY && Cell(r.quality, y, x) == INITIAL_LINK_QUALITY
    ensures !SymmetricCost(HeardGraph(NetOfState(r)), EdgeCosts(NetOfState(r)))
  {
    var i, j :| 0 <= i < |r.ids| && 0 <= j < |r.ids| && r.ids[i] == x && r.ids[j] == y;
    var link, quality := CellsOf(r.link, r.ids), CellsOf(r.quality, r.ids);
    assert link[i][j] == 1 && link[j][i] == 1;
    assert quality[i][j] == BOOSTED_QUALITY && quality[j][i] == INITIAL_LINK_QUALITY;
    LinkReadsTwice(NetOfState(r), i, j);
  }

  lemma LinkReadsTwice(net: Net, u: nat, v: nat)
    requires net.Square() && u < |net.link| && v < |net.link| && u != v
    requires net.link[u][v] == 1 && net.link[v][u] == 1
    requires net.quality[u][v] == BOOSTED_QUALITY && net.quality[v][u] == INITIAL_LINK_QUALITY
    ensures !SymmetricCost(HeardGraph(net), EdgeCosts(net))
  {
    assert (u, v) in HeardGraph(net) && (v, u) in HeardGraph(net);
    assert EdgeCosts(net)[(u, v)] == -10 && EdgeCosts(net)[(v, u)] == 0;
  }
}

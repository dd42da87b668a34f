/** A merge, cell by cell. */
module MergeCells {
  import opened Base
  import opened Topology

  /** A merged matrix, cell by cell. */
  lemma MergedCell(t: Topo, b: Topo, from: Id, now: int, x: Id, y: Id)
    requires Tidy(t) && (x in t.ids || x in b.ids) && (y in t.ids || y in b.ids)
    ensures Cell(Merge(t, b, from, now).link, x, y) == MergedLink(t, b, from, now, x, y)
    ensures Cell(Merge(t, b, from, now).quality, x, y) == MergedQuality(t, b, from, now, x, y)
  {
    assert (x, y) in Pairs(UnionIds(t.ids, b.ids));
  }

  /** A cell outside my own row is never adjusted. */
  lemma AdjustedOther(t: Topo, from: Id, x: Id, y: Id)
    requires Tidy(t) && !(x == t.me && y == from)
    ensures Cell(Adjusted(t, from, false).quality, x, y) == Cell(t.quality, x, y)
  {
  }

  /** A measured cell is adjusted to at most 100. */
  lemma AdjustedMine(t: Topo, from: Id)
    requires Tidy(t)
    ensures Cell(Adjusted(t, from, false).quality, t.me, from) <= 100
  {
  }

  lemma LinkOfOther(t: Topo, b: Topo, from: Id, x: Id, y: Id)
    requires x != t.me && x in b.age && b.age[x] == 0
    requires x in t.created ==> Cell(t.link, x, y) == Cell(b.link, x, y)
    ensures MergedLink(t, b, from, 0, x, y) == Cell(b.link, x, y)
  {
  }

  lemma LinkOfKnown(t: Topo, b: Topo, from: Id, now: int, x: Id, y: Id)
    requires x != t.me && Cell(t.link, x, y) == Cell(b.link, x, y)
    ensures MergedLink(t, b, from, now, x, y) == Cell(b.link, x, y)
  {
  }

  lemma QualityOfOther(t: Topo, b: Topo, from: Id, now: int, x: Id, y: Id)
    requires Tidy(t) && x != t.me && (x == y ==> MergedLink(t, b, from, now, x, y) != 1)
    requires Cell(t.quality, x, y) in {0, if MergedLink(t, b, from, now, x, y) == 1 then INITIAL_LINK_QUALITY else 0}
    ensures MergedQuality(t, b, from, now, x, y) ==
              if MergedLink(t, b, from, now, x, y) == 1 then INITIAL_LINK_QUALITY else 0
  {
    AdjustedOther(t, from, x, y);
  }

  lemma QualityOfMine(t: Topo, b: Topo, from: Id, now: int, y: Id)
    requires Tidy(t) && t.me in t.ids && y != from && (Cell(t.link, t.me, y) == 1 ==> Cell(t.quality, t.me, y) != 0)
    ensures MergedLink(t, b, from, now, t.me, y) == Cell(t.link, t.me, y)
    ensures MergedQuality(t, b, from, now, t.me, y) == Cell(t.quality, t.me, y)
  {
    AdjustedOther(t, from, t.me, y);
  }

  lemma QualityOfSender(t: Topo, b: Topo, from: Id, now: int)
    requires Tidy(t) && from != t.me
    ensures MergedLink(t, b, from, now, t.me, from) == 1
    ensures MergedQuality(t, b, from, now, t.me, from) == BOOSTED_QUALITY
  {
    AdjustedMine(t, from);
  }
}

/** What the nodes of a settled mesh measure, each its own links: any measurements can meet in one run of the mesh. */
module MeshMeasures {
  import opened Base
  import opened Networks
  import opened Topology
  import opened TopologyRuns
  import opened MergeCells
  import opened MeasuredRows
  import opened MeshRuns

  /** The second after the rounds in which the mesh settled. */
  ghost predicate Late(now: int) {
    1_900_000 <= now < 2_520_000
  }

  /** A node that lists everybody, nobody heard of before the rounds. */
  ghost predicate Knows(w: Network, t: Topo, me: Id, now: int) {
    && Valid(t) && t.me == me && t.ids == w.Ids()
    && forall x: Id :: x in t.ids && x != t.me ==> x in t.created && 520_000 <= t.created[x] <= now
  }

  lemma SaidIs(w: Network, t: Topo, me: Id, now: int)
    requires Knows(w, t, me, now) && Late(now)
    ensures Said(t, now) == Stamped(t, now)
  {
    forall x | x in t.ids ensures Alive(t, x, now) {
      assert x != t.me ==> t.created[x] >= 520_000;
    }
    AliveIdsFixed(t, t.ids, now);
    RestrictAll(t);
  }

  /** What is said: everything I know, nothing expired. */
  lemma SaidKnows(w: Network, t: Topo, me: Id, now: int, b: Topo)
    requires Knows(w, t, me, now) && Late(now) && b == Said(t, now)
    ensures Knows(w, b, me, now) && b.link == t.link && b.quality == t.quality
    ensures CanSay(t, now) && ValidBeacon(b) && me in b.created && b.created[me] == now && b.age[me] == 0
  {
    SaidIs(w, t, me, now);
    AnnouncedIsBeacon(t, now);
    forall x | x in b.ids ensures b.age[x] >= 0 {
      assert x != t.me ==> t.created[x] <= now;
    }
  }

  /** A beacon that holds all links. */
  ghost predicate Tells(w: Network, b: Topo, z: Id, now: int) {
    && Valid(b) && ValidBeacon(b) && b.me == z && b.ids == w.Ids() && b.created[z] == now && b.age[z] == 0
    && forall x: Id, y: Id :: w.Has(x) && w.Has(y) ==> Cell(b.link, x, y) == w.Link(x, y)
  }

  /** It is from the node at position s. */
  ghost predicate TellsAll(w: Network, b: Topo, s: nat, now: int) {
    exists z: Id :: z == s + 1 && Tells(w, b, z, now)
  }

  /** A cell after the last beacon. */
  lemma LastCellNow(w: Network, me: Id, row: seq<Byte>, z: Id, t: Topo, b: Topo, now: int, x: Id, y: Id)
    requires Tidy(t) && t.me in t.ids && t.me == me && z != me && RowOk(w, me, row) && w.Link(me, z) == 1
    requires w.Has(y) && CellMeasured(w, me, row, w.n, t, x, y) && Cell(b.link, x, y) == w.Link(x, y)
    ensures MergedLink(t, b, z, now, x, y) == w.Link(x, y)
    ensures MergedQuality(t, b, z, now, x, y) == w.Measured(me, row, z, x, y)
  {
    if x != me {
      LinkOfKnown(t, b, z, now, x, y);
      QualityOfOther(t, b, z, now, x, y);
    } else if y == z {
      QualityOfSender(t, b, z, now);
    } else {
      QualityOfMine(t, b, z, now, y);
    }
  }

  ghost predicate IsLast(w: Network, me: Id, row: seq<Byte>, z: Id, t: Topo) {
    forall x: Id, y: Id :: w.Has(x) && w.Has(y) ==> CellLast(w, me, row, z, t, x, y)
  }

  lemma HearsLast(w: Network, me: Id, row: seq<Byte>, z: Id, t: Topo, b: Topo, now: int, r: Topo)
    requires Tidy(t) && t.me in t.ids && t.me == me && z != me && RowOk(w, me, row) && w.Link(me, z) == 1
    requires MeasuredUpto(w, me, row, w.n, t) && Tells(w, b, z, now) && r == Merge(t, b, z, now)
    ensures IsLast(w, me, row, z, r)
  {
    forall x: Id, y: Id | w.Has(x) && w.Has(y) ensures CellLast(w, me, row, z, r, x, y) {
      assert CellMeasured(w, me, row, w.n, t, x, y);
      HasId(w, x);
      HasId(w, y);
      MergedCell(t, b, z, now, x, y);
      LastCellNow(w, me, row, z, t, b, now, x, y);
    }
  }

  lemma DatedNow(t: Topo, b: Topo, z: Id, now: int, x: Id)
    requires Tidy(t) && x in t.ids && x != t.me && (z in b.age ==> b.age[z] == 0)
    ensures MergedCreated(t, b, z, now, x) in {t.created[x], now}
  {
  }

  lemma SameIdsNow(w: Network, t: Topo, b: Topo, z: Id, now: int)
    requires Valid(t) && ValidBeacon(b) && t.ids == b.ids == w.Ids()
    ensures Merge(t, b, z, now).ids == w.Ids()
  {
    MergeKeepsValid(t, b, z, now);
    AscendingUnique(Merge(t, b, z, now).ids, t.ids);
  }

  lemma HearsKnows(w: Network, me: Id, z: Id, t: Topo, b: Topo, now: int, r: Topo)
    requires Knows(w, t, me, now) && Late(now) && Tells(w, b, z, now) && z != me && r == Merge(t, b, z, now)
    ensures Knows(w, r, me, now)
  {
    MergeKeepsValid(t, b, z, now);
    SameIdsNow(w, t, b, z, now);
    forall x: Id | x in r.ids && x != me ensures x in r.created && 520_000 <= r.created[x] <= now {
      DatedNow(t, b, z, now, x);
    }
  }

  // ---------------------------------------------------------------- nodes

  /** Node at position v has measured its links to the ids up to k. */
  ghost predicate GaugedTo(w: Network, t: Topo, v: nat, row: seq<Byte>, k: nat, now: int) {
    exists me: Id :: me == v + 1 && Knows(w, t, me, now) && MeasuredUpto(w, me, row, k, t)
  }

  /** Node at position v has then heard a beacon from node z. */
  ghost predicate HeardFrom(w: Network, t: Topo, v: nat, row: seq<Byte>, z: Id, now: int) {
    exists me: Id :: me == v + 1 && Knows(w, t, me, now) && IsLast(w, me, row, z, t)
  }

  lemma GaugeNext(w: Network, t: Topo, v: nat, row: seq<Byte>, j: nat, k: nat, id: Id, now: int)
    requires GaugedTo(w, t, v, row, j, now) && k == j + 1 <= w.n == |row| && w.Link(v + 1, k) == 1 && id == k
    ensures GaugedTo(w, Gauged(t, id, row[j]), v, row, k, now)
  {
    var me: Id :| me == v + 1 && Knows(w, t, me, now) && MeasuredUpto(w, me, row, j, t);
    MeasureNext(w, me, row, k, t);
    WithQualityKeepsValid(t, id, row[j]);
    assert Knows(w, Gauged(t, id, row[j]), me, now);
  }

  lemma GaugeSkip(w: Network, t: Topo, v: nat, row: seq<Byte>, j: nat, k: nat, now: int)
    requires GaugedTo(w, t, v, row, j, now) && k == j + 1 <= w.n && w.Link(v + 1, k) != 1
    ensures GaugedTo(w, t, v, row, k, now)
  {
    var me: Id :| me == v + 1 && Knows(w, t, me, now) && MeasuredUpto(w, me, row, j, t);
    SkipNext(w, me, row, k, t);
  }

  lemma SameTables(w: Network, me: Id, row: seq<Byte>, z: Id, k: nat, t: Topo, b: Topo)
    requires b.link == t.link && b.quality == t.quality && b.me == t.me && b.ids == t.ids
    ensures MeasuredUpto(w, me, row, k, t) ==> MeasuredUpto(w, me, row, k, b)
    ensures IsLast(w, me, row, z, t) ==> IsLast(w, me, row, z, b)
  {
    forall x: Id, y: Id ensures CellMeasured(w, me, row, k, b, x, y) == CellMeasured(w, me, row, k, t, x, y) {
    }
    forall x: Id, y: Id ensures CellLast(w, me, row, z, b, x, y) == CellLast(w, me, row, z, t, x, y) {
    }
  }

  lemma GaugedSays(w: Network, t: Topo, v: nat, row: seq<Byte>, k: nat, now: int, b: Topo)
    requires GaugedTo(w, t, v, row, k, now) && Late(now) && b == Said(t, now)
    ensures GaugedTo(w, b, v, row, k, now) && CanSay(t, now)
    ensures TellsAll(w, b, v, now)
  {
    var me: Id :| me == v + 1 && Knows(w, t, me, now) && MeasuredUpto(w, me, row, k, t);
    SaidKnows(w, t, me, now, b);
    SameTables(w, me, row, 0, k, t, b);
    forall x: Id, y: Id | w.Has(x) && w.Has(y) ensures Cell(b.link, x, y) == w.Link(x, y) {
      assert CellMeasured(w, me, row, k, t, x, y);
    }
    assert Tells(w, b, me, now);
  }

  lemma HeardSays(w: Network, t: Topo, v: nat, row: seq<Byte>, z: Id, now: int, b: Topo)
    requires HeardFrom(w, t, v, row, z, now) && Late(now) && b == Said(t, now)
    ensures HeardFrom(w, b, v, row, z, now) && CanSay(t, now)
    ensures TellsAll(w, b, v, now)
  {
    var me: Id :| me == v + 1 && Knows(w, t, me, now) && IsLast(w, me, row, z, t);
    SaidKnows(w, t, me, now, b);
    SameTables(w, me, row, z, 0, t, b);
    forall x: Id, y: Id | w.Has(x) && w.Has(y) ensures Cell(b.link, x, y) == w.Link(x, y) {
      assert CellLast(w, me, row, z, t, x, y);
    }
    assert Tells(w, b, me, now);
  }

  lemma GaugedHears(w: Network, t: Topo, v: nat, row: seq<Byte>, z: Id, now: int, b: Topo)
    requires z > 0 && GaugedTo(w, t, v, row, w.n, now) && Late(now) && TellsAll(w, b, z - 1, now)
    requires w.Link(v + 1, z) == 1 && v < w.n && RowAt(w, v, row)
    ensures HeardFrom(w, Taken(t, b, now), v, row, z, now)
  {
    var me: Id :| me == v + 1 && Knows(w, t, me, now) && MeasuredUpto(w, me, row, w.n, t);
    HearsLast(w, me, row, z, t, b, now, Taken(t, b, now));
    HearsKnows(w, me, z, t, b, now, Taken(t, b, now));
  }

  ghost predicate RowAt(w: Network, v: nat, row: seq<Byte>) {
    forall me: Id :: me == v + 1 ==> RowOk(w, me, row)
  }

  lemma LaterGauged(w: Network, t: Topo, v: nat, row: seq<Byte>, k: nat, now: int, later: int)
    requires GaugedTo(w, t, v, row, k, now) && now <= later
    ensures GaugedTo(w, t, v, row, k, later)
  {
    var me: Id :| me == v + 1 && Knows(w, t, me, now) && MeasuredUpto(w, me, row, k, t);
    assert Knows(w, t, me, later);
  }

  lemma LaterHeard(w: Network, t: Topo, v: nat, row: seq<Byte>, z: Id, now: int, later: int)
    requires HeardFrom(w, t, v, row, z, now) && now <= later
    ensures HeardFrom(w, t, v, row, z, later)
  {
    var me: Id :| me == v + 1 && Knows(w, t, me, now) && IsLast(w, me, row, z, t);
    assert Knows(w, t, me, later);
  }
}

/** Runs that lead a node to any measurements of its own links. */
module MeasuredRows {
  import opened Base
  import opened Networks
  import opened NetworkNets
  import opened Prim
  import opened Topology
  import opened TopologyRuns
  import opened MergeCells
  import opened Settling
  import opened Readings

  /** The run ends with a beacon, so Prim runs on the tables it leaves. */
  ghost predicate ReadBy(h: History, ids: seq<Id>, me: Id, net: Net) {
    && HistoryOk(h) && h.me == me && h.events != [] && h.events[|h.events| - 1].Beacon?
    && After(h).ids == ids && NetOfState(After(h)) == net
  }

  /** In some run of node me, Prim runs on these tables, for these ids. */
  ghost predicate IsRead(ids: seq<Id>, me: Id, net: Net) {
    exists h :: ReadBy(h, ids, me, net)
  }

  /** Node me has measured its links to the neighbours up to k. */
  ghost predicate MeasuredUpto(w: Network, me: Id, row: seq<Byte>, k: nat, t: Topo) {
    && t.me == me && t.ids == w.Ids()
    && forall x: Id, y: Id :: w.Has(x) && w.Has(y) ==> CellMeasured(w, me, row, k, t, x, y)
  }

  ghost predicate CellMeasured(w: Network, me: Id, row: seq<Byte>, k: nat, t: Topo, x: Id, y: Id) {
    && Cell(t.link, x, y) == w.Link(x, y)
    && Cell(t.quality, x, y) == if x == me && y <= k && w.Link(x, y) == 1 then w.Measured(me, row, 0, x, y)
                                else w.Quality(me, x, y)
  }

  ghost predicate Measures(w: Network, me: Id, row: seq<Byte>, k: nat) {
    exists h, t :: Leads(h, me, t) && MeasuredUpto(w, me, row, k, t)
  }

  /** Setting one quality of my row. */
  lemma SetCell(t: Topo, id: Id, q: Byte, x: Id, y: Id)
    requires Tidy(t) && t.me in t.ids && id in t.ids
    ensures Cell(WithQuality(t, id, q).quality, x, y) == if x == t.me && y == id then q else Cell(t.quality, x, y)
  {
  }

  lemma MeasureNext(w: Network, me: Id, row: seq<Byte>, k: nat, t: Topo)
    requires Tidy(t) && t.me in t.ids && |row| == w.n && 0 < k <= w.n && w.Link(me, k) == 1
    requires MeasuredUpto(w, me, row, k - 1, t)
    ensures MeasuredUpto(w, me, row, k, WithQuality(t, k, row[k - 1]))
  {
    var r := WithQuality(t, k, row[k - 1]);
    HasId(w, k);
    forall x: Id, y: Id | w.Has(x) && w.Has(y) ensures CellMeasured(w, me, row, k, r, x, y) {
      assert CellMeasured(w, me, row, k - 1, t, x, y);
      SetCell(t, k, row[k - 1], x, y);
    }
  }

  lemma SkipNext(w: Network, me: Id, row: seq<Byte>, k: nat, t: Topo)
    requires 0 < k <= w.n && w.Link(me, k) != 1 && MeasuredUpto(w, me, row, k - 1, t)
    ensures MeasuredUpto(w, me, row, k, t)
  {
    forall x: Id, y: Id | w.Has(x) && w.Has(y) ensures CellMeasured(w, me, row, k, t, x, y) {
      assert CellMeasured(w, me, row, k - 1, t, x, y);
    }
  }

  lemma OneMoreMeasure(h: History, id: Id, q: Byte)
    requires HistoryOk(h)
    ensures exists next :: Leads(next, h.me, WithQuality(After(h), id, q))
  {
    var next := OneMoreEvent(h, Measured(id, q));
  }

  lemma MeasuresOne(w: Network, me: Id, row: seq<Byte>, k: nat, h: History, t: Topo)
    requires |row| == w.n && 0 < k <= w.n && w.Link(me, k) == 1
    requires Leads(h, me, t) && MeasuredUpto(w, me, row, k - 1, t)
    ensures Measures(w, me, row, k)
  {
    MeasureNext(w, me, row, k, t);
    OneMoreMeasure(h, k, row[k - 1]);
  }

  lemma MeasuresNext(w: Network, me: Id, row: seq<Byte>, j: nat, k: nat)
    requires |row| == w.n && k == j + 1 <= w.n && Measures(w, me, row, j)
    ensures Measures(w, me, row, k)
  {
    var h, t :| Leads(h, me, t) && MeasuredUpto(w, me, row, j, t);
    if w.Link(me, k) == 1 {
      MeasuresOne(w, me, row, k, h, t);
    } else {
      SkipNext(w, me, row, k, t);
    }
  }

  lemma MeasuresNothing(w: Network, me: Id, row: seq<Byte>, z: Id, k: nat)
    requires w.Small() && w.Has(me) && w.Has(z) && w.Link(me, z) == 1 && k == 0
    ensures Measures(w, me, row, k)
  {
    var h := SettledIsReached(w, me, z);
    SettledIsMeasuredUpto0(w, me, row, After(h));
    assert Leads(h, me, After(h));
  }

  lemma {:induction false} MeasuresAll(w: Network, me: Id, row: seq<Byte>, z: Id, k: nat)
    requires w.Small() && w.Has(me) && w.Has(z) && w.Link(me, z) == 1 && |row| == w.n && k <= w.n
    ensures Measures(w, me, row, k)
  {
    if k == 0 {
      MeasuresNothing(w, me, row, z, k);
    } else {
      var j := k - 1;
      MeasuresAll(w, me, row, z, j);
      MeasuresNext(w, me, row, j, k);
    }
  }

  lemma SettledIsMeasuredUpto0(w: Network, me: Id, row: seq<Byte>, t: Topo)
    requires IsSettled(w, me, t)
    ensures MeasuredUpto(w, me, row, 0, t)
  {
    forall x: Id, y: Id | w.Has(x) && w.Has(y) ensures CellMeasured(w, me, row, 0, t, x, y) {
      assert CellSettled(w, me, t, x, y);
    }
  }

  // ---------------------------------------------------------------- the last beacon

  ghost predicate CellLast(w: Network, me: Id, row: seq<Byte>, z: Id, t: Topo, x: Id, y: Id) {
    Cell(t.link, x, y) == w.Link(x, y) && Cell(t.quality, x, y) == w.Measured(me, row, z, x, y)
  }

  /** Every link of node me has some measurement. */
  ghost predicate RowOk(w: Network, me: Id, row: seq<Byte>) {
    |row| == w.n && forall y: nat :: 1 <= y <= w.n && w.Link(me, y) == 1 ==> row[y - 1] != 0
  }

  lemma LastCell(w: Network, me: Id, row: seq<Byte>, z: Id, t: Topo, b: Topo, x: Id, y: Id)
    requires Tidy(t) && t.me in t.ids && t.me == me && z != me && RowOk(w, me, row) && w.Link(me, z) == 1
    requires w.Has(y) && CellMeasured(w, me, row, w.n, t, x, y)
    requires Cell(b.link, x, y) == w.Link(x, y) && x in b.age && b.age[x] == 0
    ensures MergedLink(t, b, z, 0, x, y) == w.Link(x, y)
    ensures MergedQuality(t, b, z, 0, x, y) == w.Measured(me, row, z, x, y)
  {
    if x != me {
      LinkOfOther(t, b, z, x, y);
      QualityOfOther(t, b, z, 0, x, y);
    } else if y == z {
      QualityOfSender(t, b, z, 0);
    } else {
      QualityOfMine(t, b, z, 0, y);
    }
  }

  lemma LastCells(w: Network, me: Id, row: seq<Byte>, z: Id, t: Topo)
    requires Tidy(t) && t.me in t.ids && z != me && RowOk(w, me, row) && w.Link(me, z) == 1
    requires MeasuredUpto(w, me, row, w.n, t)
    ensures var r := Merge(t, Announcement(w, z), z, 0);
            forall x: Id, y: Id :: w.Has(x) && w.Has(y) ==> CellLast(w, me, row, z, r, x, y)
  {
    var b := Announcement(w, z);
    var r := Merge(t, b, z, 0);
    forall x: Id, y: Id | w.Has(x) && w.Has(y) ensures CellLast(w, me, row, z, r, x, y) {
      assert CellMeasured(w, me, row, w.n, t, x, y);
      AnnouncedCell(w, z, x, y);
      HasId(w, x);
      HasId(w, y);
      MergedCell(t, b, z, 0, x, y);
      LastCell(w, me, row, z, t, b, x, y);
    }
  }

  lemma LastIds(w: Network, z: Id, t: Topo)
    requires w.Small() && Valid(t) && t.ids == w.Ids()
    ensures Merge(t, Announcement(w, z), z, 0).ids == w.Ids()
  {
    AnnouncementIsBeacon(w, z);
    IdsAre(w);
    MergeKeepsValid(t, Announcement(w, z), z, 0);
    AscendingUnique(Merge(t, Announcement(w, z), z, 0).ids, w.Ids());
  }

  lemma LastNet(w: Network, me: Id, row: seq<Byte>, z: Id, r: Topo)
    requires r.ids == w.Ids()
    requires forall x: Id, y: Id :: w.Has(x) && w.Has(y) ==> CellLast(w, me, row, z, r, x, y)
    ensures NetOfState(r) == MeasuredNet(w, me, row, z)
  {
    var net, goal := NetOfState(r), MeasuredNet(w, me, row, z);
    forall i: nat, j: nat | i < w.n && j < w.n
      ensures net.link[i][j] == goal.link[i][j] && net.quality[i][j] == goal.quality[i][j]
    {
      HasId(w, i + 1);
      HasId(w, j + 1);
      assert CellLast(w, me, row, z, r, i + 1, j + 1);
      MeasuredCell(w, me, row, z, i, j);
    }
    SameNet(net, goal);
  }

  /** In every network, whatever the own measurements, none of them 0, and whoever sends the last beacon: some run
      makes Prim run on the tables that hold all links, these measurements with the boost of the sender, and the
      default in the other rows. */
  lemma EveryRowIsRead(w: Network, me: Id, row: seq<Byte>, z: Id)
    requires w.Small() && w.Has(me) && w.Has(z) && w.Link(me, z) == 1 && RowOk(w, me, row)
    ensures IsRead(w.Ids(), me, MeasuredNet(w, me, row, z))
  {
    MeasuresAll(w, me, row, z, w.n);
    var h, t :| Leads(h, me, t) && MeasuredUpto(w, me, row, w.n, t);
    AnnouncementIsBeacon(w, z);
    var next := OneMoreEvent(h, Beacon(Announcement(w, z), z, 0));
    LastIds(w, z, t);
    LastCells(w, me, row, z, t);
    LastNet(w, me, row, z, After(next));
    assert ReadBy(next, w.Ids(), me, MeasuredNet(w, me, row, z));
  }

  /** In particular the settled tables are read. */
  lemma SettledIsRead(w: Network, me: Id, z: Id)
    requires w.Small() && w.Has(me) && w.Has(z) && w.Link(me, z) == 1
    ensures IsRead(w.Ids(), me, SettledNet(w, me))
  {
    var row: seq<Byte> := seq(w.n, _ => BOOSTED_QUALITY);
    SettledIsMeasured(w, me, row, z);
    EveryRowIsRead(w, me, row, z);
  }

  /** What Prim reads in a settled state. */
  lemma SettledReadings(w: Network, me: Id, t: Topo)
    requires IsSettled(w, me, t)
    ensures NetOfState(t) == SettledNet(w, me)
  {
    var net, settled := NetOfState(t), SettledNet(w, me);
    forall i: nat, j: nat | i < w.n && j < w.n
      ensures net.link[i][j] == settled.link[i][j] && net.quality[i][j] == settled.quality[i][j]
    {
      HasId(w, i + 1);
      HasId(w, j + 1);
      assert CellSettled(w, me, t, i + 1, j + 1);
    }
    SameNet(net, settled);
  }
}

/** A node that hears others as they start, and knows of no link but these. */
module HubRuns {
  import opened Base
  import opened Topology
  import opened TopologyRuns
  import opened MergeCells

  /** Node 1 has heard every node it lists, and knows of no link but these. */
  ghost predicate Hub(t: Topo) {
    Valid(t) && t.me == 1 && forall x: Id, y: Id :: HubCell(t, x, y)
  }

  ghost predicate HubCell(t: Topo, x: Id, y: Id) {
    Cell(t.link, x, y) == if x == 1 && y != 1 && y in t.ids then 1 else 0
  }

  /** The matrix of a node that has just started is a well-formed beacon. */
  lemma StartIsBeacon(x: Id, now: int)
    requires 1 <= x <= MAX_NODES && now >= 0
    ensures EventOk(Beacon(Init(x, 0), x, now)) && ValidBeacon(Init(x, 0))
  {
  }

  lemma HeardCell(t: Topo, x: Id, now: int, r: Topo, p: Id, q: Id)
    requires Tidy(t) && t.me == 1 && 1 in t.ids && 2 <= x <= MAX_NODES
    requires r == Merge(t, Init(x, 0), x, now) && HubCell(t, p, q)
    ensures HubCell(r, p, q)
  {
    if p in r.ids && q in r.ids {
      MergedCell(t, Init(x, 0), x, now, p, q);
    }
  }

  /** Hearing a node that has just started. */
  lemma HubHears(t: Topo, x: Id, now: int, r: Topo)
    requires Hub(t) && 2 <= x <= MAX_NODES && now >= 0 && r == Merge(t, Init(x, 0), x, now)
    ensures Hub(r)
  {
    StartIsBeacon(x, now);
    MergeKeepsValid(t, Init(x, 0), x, now);
    forall p: Id, q: Id ensures HubCell(r, p, q) {
      assert HubCell(t, p, q);
      HeardCell(t, x, now, r, p, q);
    }
  }

  lemma HeardIsListed(t: Topo, x: Id, now: int, r: Topo)
    requires Valid(t) && t.me != x && 1 <= x <= MAX_NODES && r == Merge(t, Init(x, 0), x, now)
    requires x in t.ids ==> t.created[x] < now
    ensures x in r.created && r.created[x] == now
    ensures forall y: Id :: y in r.ids <==> y in t.ids || y == x
    ensures x in t.ids ==> r.ids == t.ids
  {
    MergeKeepsValid(t, Init(x, 0), x, now);
    SenderRowArrives(t, Init(x, 0), x, now);
    if x in t.ids {
      AscendingUnique(r.ids, t.ids);
    }
  }

  lemma HubSweeps(t: Topo, now: int)
    requires Hub(t)
    ensures Hub(Sweep(t, now))
  {
    var r := Sweep(t, now);
    SweepKeepsValid(t, now);
    forall p: Id, q: Id ensures HubCell(r, p, q) {
      assert HubCell(t, p, q);
    }
  }

  lemma HubIsFirst(t: Topo)
    requires Hub(t)
    ensures |t.ids| > 0 && t.ids[0] == 1 && forall i :: 0 < i < |t.ids| ==> t.ids[i] != 1
  {
    var i :| 0 <= i < |t.ids| && t.ids[i] == 1;
    assert t.ids[0] in t.ids;
  }

  // ---------------------------------------------------------------- the run

  lemma StartIsHub()
    ensures Hub(Init(1, 0))
  {
    forall p: Id, q: Id ensures HubCell(Init(1, 0), p, q) {
    }
  }

  /** Node 1 hears node 3 at its start, and node 2 a microsecond later. */
  ghost function BothHeard(): (h: History)
    ensures HistoryOk(h) && h.me == 1
  {
    StartIsBeacon(3, 0);
    StartIsBeacon(2, 1);
    History(1, 0, [Beacon(Init(3, 0), 3, 0), Beacon(Init(2, 0), 2, 1)])
  }

  lemma AfterBoth()
    ensures After(BothHeard()) == Merge(Merge(Init(1, 0), Init(3, 0), 3, 0), Init(2, 0), 2, 1)
  {
    var h := BothHeard();
    assert Before(h).events == [Beacon(Init(3, 0), 3, 0)];
    assert Before(Before(h)).events == [];
  }

  /** Node 1 lists these ids, and last heard, of those, node 2 at time c2 and node 3 at time c3. */
  ghost predicate Stage(t: Topo, ids: seq<Id>, c2: int, c3: int) {
    && Hub(t) && t.ids == ids
    && (2 in ids ==> 2 in t.created && t.created[2] == c2) && (3 in ids ==> 3 in t.created && t.created[3] == c3)
  }

  lemma TwoIds(ids: seq<Id>, a: Id, b: Id)
    requires Ascending(ids) && a < b && forall x :: x in ids <==> x == a || x == b
    ensures ids == [a, b]
  {
    AscendingUnique(ids, [a, b]);
  }

  lemma ThreeIds(ids: seq<Id>, a: Id, b: Id, c: Id)
    requires Ascending(ids) && a < b < c && forall x :: x in ids <==> x == a || x == b || x == c
    ensures ids == [a, b, c]
  {
    AscendingUnique(ids, [a, b, c]);
  }

  lemma HearsThree(t: Topo, r: Topo)
    requires t == Init(1, 0) && r == Merge(t, Init(3, 0), 3, 0)
    ensures Stage(r, [1, 3], 0, 0)
  {
    StartIsHub();
    HubHears(t, 3, 0, r);
    HeardIsListed(t, 3, 0, r);
    TwoIds(r.ids, 1, 3);
  }

  lemma HearsTwo(t: Topo, r: Topo)
    requires Stage(t, [1, 3], 0, 0) && r == Merge(t, Init(2, 0), 2, 1)
    ensures Stage(r, [1, 2, 3], 1, 0)
  {
    StartIsBeacon(2, 1);
    HubHears(t, 2, 1, r);
    HeardIsListed(t, 2, 1, r);
    ThreeIds(r.ids, 1, 2, 3);
    IndirectNeverRefreshes(t, Init(2, 0), 2, 1, 3);
  }

  lemma LosesThree(t: Topo, r: Topo)
    requires Stage(t, [1, 2, 3], 1, 0) && r == Sweep(t, MAX_AGE)
    ensures Stage(r, [1, 2], 1, 0)
  {
    HubSweeps(t, MAX_AGE);
    TwoIds(r.ids, 1, 2);
  }

  lemma HearsTwoAgain(t: Topo, r: Topo)
    requires Stage(t, [1, 2], 1, 0) && r == Merge(t, Init(2, 0), 2, MAX_AGE)
    ensures Stage(r, [1, 2], MAX_AGE, 0)
  {
    assert t.ids[1] == 2;
    HubHears(t, 2, MAX_AGE, r);
    HeardIsListed(t, 2, MAX_AGE, r);
  }
}

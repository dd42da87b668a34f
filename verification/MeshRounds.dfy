/** A node while everybody in a small network announces its matrix three times within two seconds: what its matrix
    holds after each announcement it hears. */
module MeshRounds {
  import opened Base
  import opened Networks
  import opened Topology
  import opened MergeCells

  /** When node x announces its matrix in a round. */
  function Slot(round: nat, x: Id): int {
    500_000 * round + 20_000 * x
  }

  ghost predicate InTime(now: int) {
    0 <= now < 2_000_000
  }

  /** Every link of the row of x is there, and no other. */
  ghost predicate Complete(w: Network, t: Topo, x: Id) {
    x in t.ids && forall y: Id :: w.Has(y) ==> Cell(t.link, x, y) == w.Link(x, y)
  }

  /** No link is claimed that is not there, and qualities are the defaults of the links that are. */
  ghost predicate CellOk(w: Network, t: Topo, x: Id, y: Id) {
    && Cell(t.link, x, y) in {0, w.Link(x, y)}
    && Cell(t.quality, x, y) ==
         if Cell(t.link, x, y) == 0 then 0 else if x == t.me then BOOSTED_QUALITY else INITIAL_LINK_QUALITY
  }

  /** Everything known of x dates from an announcement of x: from its second one on its row is complete. */
  ghost predicate DatedOk(w: Network, t: Topo, now: int, x: Id) {
    && w.Has(x) && x in t.created && t.created[x] <= now && t.created[x] in {Slot(1, x), Slot(2, x), Slot(3, x)}
    && (t.created[x] != Slot(1, x) ==> Complete(w, t, x))
  }

  ghost predicate NodeOk(w: Network, t: Topo, now: int) {
    && Valid(t) && w.Has(t.me) && (forall x: Id, y: Id :: CellOk(w, t, x, y))
    && (forall x: Id :: x in t.ids && x != t.me ==> DatedOk(w, t, now, x))
  }

  lemma Later(w: Network, t: Topo, now: int, later: int)
    requires NodeOk(w, t, now) && now <= later
    ensures NodeOk(w, t, later)
  {
    forall x: Id | x in t.ids && x != t.me ensures DatedOk(w, t, later, x) {
      assert DatedOk(w, t, now, x);
    }
  }

  // ---------------------------------------------------------------- announcing

  /** Nothing has expired: an announcement changes only when I heard myself, and the ages. */
  lemma AnnouncedIs(w: Network, t: Topo, now: int)
    requires NodeOk(w, t, now) && InTime(now)
    ensures Announced(t, now) == Stamped(t, now)
  {
    forall x | x in t.ids ensures Alive(t, x, now) {
      assert x != t.me ==> DatedOk(w, t, now, x);
    }
    AliveIdsFixed(t, t.ids, now);
    RestrictAll(t);
  }

  lemma AnnouncedOk(w: Network, t: Topo, now: int)
    requires NodeOk(w, t, now) && InTime(now)
    ensures NodeOk(w, Announced(t, now), now)
  {
    AnnouncedIs(w, t, now);
    var b := Announced(t, now);
    StampedKeepsValid(t, now);
    forall x: Id, y: Id ensures CellOk(w, b, x, y) {
      assert CellOk(w, t, x, y);
    }
    forall x: Id | x in b.ids && x != b.me ensures DatedOk(w, b, now, x) {
      assert DatedOk(w, t, now, x);
    }
  }

  /** A beacon: what it says of anybody, the sender included, is dated. */
  ghost predicate BeaconOk(w: Network, b: Topo, now: int) {
    && Valid(b) && b.created[b.me] == now && (forall x: Id, y: Id :: Cell(b.link, x, y) in {0, w.Link(x, y)})
    && (forall x: Id :: x in b.ids ==> DatedOk(w, b, now, x) && b.age[x] == now - b.created[x])
  }

  lemma AnnouncedIsOk(w: Network, s: Topo, round: nat, now: int)
    requires NodeOk(w, s, now) && InTime(now) && now == Slot(round, s.me) && round in {1, 2, 3}
    requires round > 1 ==> Complete(w, s, s.me)
    ensures BeaconOk(w, Announced(s, now), now)
  {
    AnnouncedIs(w, s, now);
    AnnouncedOk(w, s, now);
    var b := Announced(s, now);
    forall x: Id, y: Id ensures Cell(b.link, x, y) in {0, w.Link(x, y)} {
      assert CellOk(w, b, x, y);
    }
    forall x: Id | x in b.ids ensures DatedOk(w, b, now, x) && b.age[x] == now - b.created[x] {
      assert x != b.me ==> DatedOk(w, b, now, x);
    }
  }

  // ---------------------------------------------------------------- hearing

  /** Whose row is taken from the beacon: with no entry expired, that of everybody heard later than I know of. */
  lemma TakesLater(w: Network, t: Topo, b: Topo, now: int, x: Id)
    requires NodeOk(w, t, now) && BeaconOk(w, b, now) && InTime(now)
    ensures Takes(t, b, b.me, now, x) <==> x in b.ids && x != t.me && (x in t.ids ==> t.created[x] < b.created[x])
  {
    if x in b.ids {
      assert DatedOk(w, b, now, x);
    }
    if x in t.ids && x != t.me {
      assert DatedOk(w, t, now, x);
    }
  }

  /** Beyond the listed ids all cells count as 0. */
  lemma OutsideLink(t: Topo, b: Topo, from: Id, now: int, x: Id, y: Id)
    requires Tidy(t) && Tidy(b) && from in b.ids && t.me in t.ids
    requires (x !in t.ids && x !in b.ids) || (y !in t.ids && y !in b.ids)
    ensures MergedLink(t, b, from, now, x, y) == 0
  {
  }

  lemma OutsideQuality(t: Topo, b: Topo, from: Id, now: int, x: Id, y: Id)
    requires Tidy(t) && Tidy(b) && from in b.ids && t.me in t.ids && from != t.me
    requires (x !in t.ids && x !in b.ids) || (y !in t.ids && y !in b.ids)
    ensures MergedQuality(t, b, from, now, x, y) == 0
  {
    OutsideLink(t, b, from, now, x, y);
    AdjustedOther(t, from, x, y);
  }

  lemma OutsideCell(t: Topo, b: Topo, from: Id, now: int, x: Id, y: Id)
    requires Tidy(t) && ((x !in t.ids && x !in b.ids) || (y !in t.ids && y !in b.ids))
    ensures Cell(Merge(t, b, from, now).link, x, y) == 0 && Cell(Merge(t, b, from, now).quality, x, y) == 0
  {
  }

  lemma AnyCell(t: Topo, b: Topo, from: Id, now: int, x: Id, y: Id)
    requires Tidy(t) && Tidy(b) && from in b.ids && t.me in t.ids && from != t.me
    ensures Cell(Merge(t, b, from, now).link, x, y) == MergedLink(t, b, from, now, x, y)
    ensures Cell(Merge(t, b, from, now).quality, x, y) == MergedQuality(t, b, from, now, x, y)
  {
    if (x in t.ids || x in b.ids) && (y in t.ids || y in b.ids) {
      MergedCell(t, b, from, now, x, y);
    } else {
      OutsideLink(t, b, from, now, x, y);
      OutsideQuality(t, b, from, now, x, y);
      OutsideCell(t, b, from, now, x, y);
    }
  }

  /** A node and a beacon it hears. */
  ghost predicate Hears(w: Network, t: Topo, b: Topo, now: int) {
    NodeOk(w, t, now) && BeaconOk(w, b, now) && InTime(now) && b.me != t.me && w.Link(t.me, b.me) == 1
  }

  /** If a known row is taken, it is complete there. */
  lemma TakenIsComplete(w: Network, t: Topo, b: Topo, now: int, x: Id)
    requires Hears(w, t, b, now) && Takes(t, b, b.me, now, x) && x in t.ids
    ensures Complete(w, b, x)
  {
    TakesLater(w, t, b, now, x);
    assert DatedOk(w, b, now, x) && DatedOk(w, t, now, x);
  }

  lemma RowTaken(w: Network, t: Topo, b: Topo, now: int, x: Id, r: Topo)
    requires Hears(w, t, b, now) && r == Merge(t, b, b.me, now) && Takes(t, b, b.me, now, x) && Complete(w, b, x)
    ensures Complete(w, r, x)
  {
    forall y: Id | w.Has(y) ensures Cell(r.link, x, y) == w.Link(x, y) {
      AnyCell(t, b, b.me, now, x, y);
    }
  }

  lemma RowKept(w: Network, t: Topo, b: Topo, now: int, x: Id, r: Topo)
    requires Hears(w, t, b, now) && r == Merge(t, b, b.me, now) && !Takes(t, b, b.me, now, x) && Complete(w, t, x)
    ensures Complete(w, r, x)
  {
    forall y: Id | w.Has(y) ensures Cell(r.link, x, y) == w.Link(x, y) {
      AnyCell(t, b, b.me, now, x, y);
    }
  }

  /** What is complete stays so. */
  lemma CompleteStays(w: Network, t: Topo, b: Topo, now: int, x: Id, r: Topo)
    requires Hears(w, t, b, now) && r == Merge(t, b, b.me, now) && Complete(w, t, x)
    ensures Complete(w, r, x)
  {
    if Takes(t, b, b.me, now, x) {
      TakenIsComplete(w, t, b, now, x);
      RowTaken(w, t, b, now, x, r);
    } else {
      RowKept(w, t, b, now, x, r);
    }
  }

  lemma LinkIsSound(w: Network, t: Topo, b: Topo, now: int, x: Id, y: Id)
    requires Hears(w, t, b, now)
    ensures MergedLink(t, b, b.me, now, x, y) in {0, w.Link(x, y)}
  {
    assert CellOk(w, t, x, y);
  }

  lemma IdIsInNetwork(w: Network, t: Topo, now: int, y: Id)
    requires NodeOk(w, t, now) && y in t.ids
    ensures w.Has(y)
  {
    if y != t.me {
      assert DatedOk(w, t, now, y);
    }
  }

  /** A link that is known is not forgotten. */
  lemma LinkStays(w: Network, t: Topo, b: Topo, now: int, x: Id, y: Id)
    requires Hears(w, t, b, now) && Cell(t.link, x, y) != 0
    ensures MergedLink(t, b, b.me, now, x, y) != 0
  {
    assert CellOk(w, t, x, y);
    assert x in t.ids && y in t.ids;
    if Takes(t, b, b.me, now, x) {
      TakenIsComplete(w, t, b, now, x);
      IdIsInNetwork(w, t, now, y);
    }
  }

  lemma CellAfter(w: Network, t: Topo, b: Topo, now: int, x: Id, y: Id, r: Topo)
    requires Hears(w, t, b, now) && r == Merge(t, b, b.me, now)
    ensures CellOk(w, r, x, y)
  {
    AnyCell(t, b, b.me, now, x, y);
    assert CellOk(w, t, x, y);
    LinkIsSound(w, t, b, now, x, y);
    if x != t.me {
      if Cell(t.link, x, y) != 0 {
        LinkStays(w, t, b, now, x, y);
      }
      QualityOfOther(t, b, b.me, now, x, y);
    } else if y == b.me {
      QualityOfSender(t, b, b.me, now);
    } else {
      QualityOfMine(t, b, b.me, now, y);
    }
  }

  lemma CreatedAfter(w: Network, t: Topo, b: Topo, now: int, x: Id, r: Topo)
    requires Hears(w, t, b, now) && r == Merge(t, b, b.me, now) && x in r.ids && x != t.me
    ensures x in r.created && (x in t.ids || Takes(t, b, b.me, now, x))
    ensures r.created[x] ==
              if Takes(t, b, b.me, now, x) && (x == b.me || x !in t.ids) then b.created[x] else t.created[x]
  {
    TakesLater(w, t, b, now, x);
    assert x in b.ids ==> DatedOk(w, b, now, x);
  }

  lemma DatedAfter(w: Network, t: Topo, b: Topo, now: int, x: Id, r: Topo)
    requires Hears(w, t, b, now) && r == Merge(t, b, b.me, now) && x in r.ids && x != t.me
    ensures DatedOk(w, r, now, x)
  {
    CreatedAfter(w, t, b, now, x, r);
    if x in t.ids {
      assert DatedOk(w, t, now, x);
      if Takes(t, b, b.me, now, x) {
        assert DatedOk(w, b, now, x);
        TakenIsComplete(w, t, b, now, x);
        RowTaken(w, t, b, now, x, r);
      } else if Complete(w, t, x) {
        RowKept(w, t, b, now, x, r);
      }
    } else {
      assert DatedOk(w, b, now, x);
      if Complete(w, b, x) {
        RowTaken(w, t, b, now, x, r);
      }
    }
  }

  /** Hearing a beacon keeps a node within what is known of the network. */
  lemma HearingKeeps(w: Network, t: Topo, b: Topo, now: int, r: Topo)
    requires Hears(w, t, b, now) && r == Merge(t, b, b.me, now)
    ensures NodeOk(w, r, now)
  {
    MergeKeepsValid(t, b, b.me, now);
    forall x: Id, y: Id ensures CellOk(w, r, x, y) {
      CellAfter(w, t, b, now, x, y, r);
    }
    forall x: Id | x in r.ids && x != r.me ensures DatedOk(w, r, now, x) {
      DatedAfter(w, t, b, now, x, r);
    }
  }

  // ---------------------------------------------------------------- what was heard

  /** Node s was heard in this round or later. */
  ghost predicate HasHeard(t: Topo, s: Id, round: nat) {
    s in t.ids && s in t.created && t.created[s] >= Slot(round, s) && Cell(t.link, t.me, s) != 0
  }

  lemma HearsSender(w: Network, t: Topo, b: Topo, round: nat, now: int, r: Topo)
    requires Hears(w, t, b, now) && r == Merge(t, b, b.me, now) && now == Slot(round, b.me)
    ensures HasHeard(r, b.me, round)
  {
    TakesLater(w, t, b, now, b.me);
    CreatedAfter(w, t, b, now, b.me, r);
    AnyCell(t, b, b.me, now, t.me, b.me);
  }

  lemma HeardStays(w: Network, t: Topo, b: Topo, now: int, r: Topo, s: Id, round: nat)
    requires Hears(w, t, b, now) && r == Merge(t, b, b.me, now) && HasHeard(t, s, round) && s != t.me
    ensures HasHeard(r, s, round)
  {
    TakesLater(w, t, b, now, s);
    CreatedAfter(w, t, b, now, s, r);
    AnyCell(t, b, b.me, now, t.me, s);
    LinkStays(w, t, b, now, t.me, s);
  }

  /** What the sender has heard twice, the receiver knows in full. */
  lemma Told(w: Network, t: Topo, b: Topo, now: int, x: Id, r: Topo)
    requires Hears(w, t, b, now) && r == Merge(t, b, b.me, now)
    requires x != t.me && x in b.ids && b.created[x] != Slot(1, x)
    ensures Complete(w, r, x)
  {
    assert DatedOk(w, b, now, x);
    TakesLater(w, t, b, now, x);
    if Takes(t, b, b.me, now, x) {
      RowTaken(w, t, b, now, x, r);
    } else {
      assert DatedOk(w, t, now, x);
      RowKept(w, t, b, now, x, r);
    }
  }

  /** Announcing forgets nothing. */
  lemma AnnouncedKeeps(w: Network, t: Topo, now: int)
    requires NodeOk(w, t, now) && InTime(now)
    ensures forall s: Id, round: nat :: s != t.me && HasHeard(t, s, round) ==> HasHeard(Announced(t, now), s, round)
    ensures forall x: Id :: Complete(w, t, x) ==> Complete(w, Announced(t, now), x)
  {
    AnnouncedIs(w, t, now);
  }

  /** Who has heard all its neighbours has a complete row itself. */
  lemma OwnRowComplete(w: Network, t: Topo, now: int, round: nat)
    requires NodeOk(w, t, now) && forall s: Id :: w.Has(s) && w.Link(t.me, s) == 1 ==> HasHeard(t, s, round)
    ensures Complete(w, t, t.me)
  {
    forall y: Id | w.Has(y) ensures Cell(t.link, t.me, y) == w.Link(t.me, y) {
      assert CellOk(w, t, t.me, y);
    }
  }
}

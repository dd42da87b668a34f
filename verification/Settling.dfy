/** How a node's matrix settles: what it holds once it has heard every neighbour it hears, and a run that gets it
    there. */
module Settling {
  import opened Base
  import opened Networks
  import opened MergeCells
  import opened Topology
  import opened TopologyRuns

  // ---------------------------------------------------------------- a network

  /** What any node announces, as far as its neighbours use it. */
  ghost function Announcement(w: Network, from: Id): Topo {
    Topo(from, w.Ids(), map p | p in Pairs(w.Ids()) :: w.Link(p.0, p.1), map p | p in Pairs(w.Ids()) :: 0,
         map x | x in w.Ids() :: 0, map x | x in w.Ids() :: 0)
  }

  lemma IdsAre(w: Network)
    requires w.Small()
    ensures Ascending(w.Ids()) && MeshIds(w.Ids())
  {
  }

  lemma AnnouncementIsBeacon(w: Network, from: Id)
    requires w.Small()
    ensures ValidBeacon(Announcement(w, from)) && EventOk(Beacon(Announcement(w, from), from, 0))
  {
    IdsAre(w);
  }

  lemma AnnouncedCell(w: Network, from: Id, x: Id, y: Id)
    requires w.Has(x) && w.Has(y)
    ensures Cell(Announcement(w, from).link, x, y) == w.Link(x, y)
    ensures x in Announcement(w, from).age && Announcement(w, from).age[x] == 0
  {
    HasId(w, x);
    HasId(w, y);
    assert (x, y) in Pairs(w.Ids());
  }

  // ---------------------------------------------------------------- hearing the neighbours

  /** A cell of node me after it has heard the nodes in heard. */
  ghost predicate CellIs(w: Network, me: Id, heard: set<Id>, t: Topo, x: Id, y: Id) {
    && Cell(t.link, x, y) == (if x != me then w.Link(x, y) else if y in heard then 1 else 0)
    && Cell(t.quality, x, y) ==
         if x != me then if w.Link(x, y) == 1 then INITIAL_LINK_QUALITY else 0
         else if y in heard then BOOSTED_QUALITY else 0
  }

  /** What the next beacon finds there: nothing yet in a row that is not listed, else what was settled so far. */
  ghost predicate CellBefore(w: Network, me: Id, heard: set<Id>, t: Topo, x: Id, y: Id) {
    || CellIs(w, me, heard, t, x, y)
    || (x != me && x !in t.created && Cell(t.quality, x, y) == 0)
  }

  ghost predicate CellsKnown(w: Network, me: Id, heard: set<Id>, t: Topo) {
    forall x: Id, y: Id :: w.Has(x) && w.Has(y) ==> CellBefore(w, me, heard, t, x, y)
  }

  /** The whole network is known unless nobody was heard. */
  ghost predicate IdsKnown(w: Network, heard: set<Id>, t: Topo) {
    (forall x :: x in t.ids ==> x in w.Ids()) && (heard != {} ==> t.ids == w.Ids())
  }

  /** One cell after the next beacon. */
  lemma CellAfter(w: Network, me: Id, heard: set<Id>, t: Topo, b: Topo, from: Id, x: Id, y: Id)
    requires Tidy(t) && t.me in t.ids && t.me == me && from != me && CellBefore(w, me, heard, t, x, y)
    requires Cell(b.link, x, y) == w.Link(x, y) && x in b.age && b.age[x] == 0
    ensures MergedLink(t, b, from, 0, x, y) ==
              (if x != me then w.Link(x, y) else if y in heard + {from} then 1 else 0)
    ensures MergedQuality(t, b, from, 0, x, y) ==
              if x != me then if w.Link(x, y) == 1 then INITIAL_LINK_QUALITY else 0
              else if y in heard + {from} then BOOSTED_QUALITY else 0
  {
    if x != me {
      LinkOfOther(t, b, from, x, y);
      QualityOfOther(t, b, from, 0, x, y);
    } else if y == from {
      QualityOfSender(t, b, from, 0);
    } else {
      QualityOfMine(t, b, from, 0, y);
    }
  }

  lemma CellsAfter(w: Network, me: Id, heard: set<Id>, t: Topo, from: Id)
    requires Tidy(t) && t.me in t.ids && t.me == me && from != me && CellsKnown(w, me, heard, t)
    ensures CellsKnown(w, me, heard + {from}, Merge(t, Announcement(w, from), from, 0))
  {
    var b, now := Announcement(w, from), heard + {from};
    var r := Merge(t, b, from, 0);
    forall x: Id, y: Id | w.Has(x) && w.Has(y) ensures CellBefore(w, me, now, r, x, y) {
      assert CellBefore(w, me, heard, t, x, y);
      AnnouncedCell(w, from, x, y);
      HasId(w, x);
      HasId(w, y);
      MergedCell(t, b, from, 0, x, y);
      CellAfter(w, me, heard, t, b, from, x, y);
    }
  }

  lemma IdsAfter(w: Network, heard: set<Id>, now: set<Id>, t: Topo, from: Id)
    requires w.Small() && Valid(t) && IdsKnown(w, heard, t)
    ensures IdsKnown(w, now, Merge(t, Announcement(w, from), from, 0))
  {
    AnnouncementIsBeacon(w, from);
    IdsAre(w);
    MergeKeepsValid(t, Announcement(w, from), from, 0);
    AscendingUnique(Merge(t, Announcement(w, from), from, 0).ids, w.Ids());
  }

  /** A run of node me that leads to t. */
  ghost predicate Leads(h: History, me: Id, t: Topo) {
    HistoryOk(h) && h.me == me && After(h) == t
  }

  /** Some run leaves node me having heard exactly the nodes in heard. */
  ghost predicate Reached(w: Network, me: Id, heard: set<Id>) {
    exists h, t :: Leads(h, me, t) && IdsKnown(w, heard, t) && CellsKnown(w, me, heard, t)
  }

  lemma HearNobody(w: Network, me: Id)
    requires w.Small() && w.Has(me)
    ensures Reached(w, me, {})
  {
    var h := History(me, 0, []);
    var t := After(h);
    HasId(w, me);
    forall x: Id, y: Id | w.Has(x) && w.Has(y) ensures CellBefore(w, me, {}, t, x, y) {
    }
    assert Leads(h, me, t);
  }

  lemma OneMoreEvent(h: History, e: Event) returns (next: History)
    requires HistoryOk(h) && EventOk(e)
    ensures Leads(next, h.me, Step(After(h), e)) && next.events != [] && next.events[|next.events| - 1] == e
  {
    next := h.(events := h.events + [e]);
    assert Before(next) == h;
  }

  lemma OneMoreBeacon(w: Network, h: History, from: Id) returns (next: History)
    requires w.Small() && HistoryOk(h)
    ensures Leads(next, h.me, Merge(After(h), Announcement(w, from), from, 0))
  {
    AnnouncementIsBeacon(w, from);
    next := OneMoreEvent(h, Beacon(Announcement(w, from), from, 0));
  }

  lemma HearOne(w: Network, me: Id, heard: set<Id>, from: Id)
    requires w.Small() && from != me && Reached(w, me, heard)
    ensures Reached(w, me, heard + {from})
  {
    var h, t :| Leads(h, me, t) && IdsKnown(w, heard, t) && CellsKnown(w, me, heard, t);
    var next := OneMoreBeacon(w, h, from);
    IdsAfter(w, heard, heard + {from}, t, from);
    CellsAfter(w, me, heard, t, from);
  }

  /** The ids among 1..k that node me hears. */
  ghost function HeardUpto(w: Network, me: Id, k: nat): (heard: set<Id>)
    requires k < 256
  {
    if k == 0 then {}
    else if w.Link(me, k) == 1 then HeardUpto(w, me, k - 1) + {k}
    else HeardUpto(w, me, k - 1)
  }

  lemma {:induction false} HeardAre(w: Network, me: Id, k: nat)
    requires k < 256
    ensures forall x: Id :: x in HeardUpto(w, me, k) <==> 1 <= x <= k && w.Link(me, x) == 1
  {
    if k > 0 {
      HeardAre(w, me, k - 1);
    }
  }

  /** The node can hear its neighbours one after the other. */
  lemma {:induction false} HearAll(w: Network, me: Id, k: nat)
    requires w.Small() && w.Has(me) && k < 256
    ensures Reached(w, me, HeardUpto(w, me, k))
  {
    if k == 0 {
      HearNobody(w, me);
    } else {
      HearAll(w, me, k - 1);
      if w.Link(me, k) == 1 {
        HearOne(w, me, HeardUpto(w, me, k - 1), k);
      }
    }
  }

  /** The state of node me once the network has settled. */
  ghost predicate IsSettled(w: Network, me: Id, t: Topo) {
    t.me == me && t.ids == w.Ids() && forall x: Id, y: Id :: w.Has(x) && w.Has(y) ==> CellSettled(w, me, t, x, y)
  }

  ghost predicate CellSettled(w: Network, me: Id, t: Topo, x: Id, y: Id) {
    Cell(t.link, x, y) == w.Link(x, y) && Cell(t.quality, x, y) == w.Quality(me, x, y)
  }

  /** Every network settles: some run leads each node in it that hears anybody to its settled state. */
  lemma SettledIsReached(w: Network, me: Id, y: Id) returns (h: History)
    requires w.Small() && w.Has(me) && w.Has(y) && w.Link(me, y) == 1
    ensures HistoryOk(h) && h.me == me && IsSettled(w, me, After(h))
  {
    var heard := HeardUpto(w, me, w.n);
    HearAll(w, me, w.n);
    HeardAre(w, me, w.n);
    assert y in heard;
    var t;
    h, t :| Leads(h, me, t) && IdsKnown(w, heard, t) && CellsKnown(w, me, heard, t);
    KnownIsSettled(w, me, heard, t);
  }

  lemma KnownIsSettled(w: Network, me: Id, heard: set<Id>, t: Topo)
    requires Tidy(t) && t.me == me && t.ids == w.Ids() && CellsKnown(w, me, heard, t)
    requires forall x: Id :: x in heard <==> 1 <= x <= w.n && w.Link(me, x) == 1
    ensures IsSettled(w, me, t)
  {
    forall x: Id, y: Id | w.Has(x) && w.Has(y) ensures CellSettled(w, me, t, x, y) {
      HasId(w, x);
      assert CellBefore(w, me, heard, t, x, y);
    }
  }
}

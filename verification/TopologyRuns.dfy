/** Whole runs of a node's matrix: beacons, sweeps, announcements and quality changes in any order. */
module TopologyRuns {
  import opened Base
  import opened Topology

  datatype Event =
    | Beacon(b: Topo, from: Id, now: int)
    | SweepAt(now: int)
    | Announce(now: int)
    | SlotMiss(id: Id)
    | Measured(id: Id, q: Byte)

  /** Clocks count from the epoch, received matrices are well formed, received ages are not negative. */
  ghost predicate EventOk(e: Event) {
    match e
    case Beacon(b, from, now) => now >= 0 && ValidBeacon(b) && forall a :: a in b.ids ==> b.age[a] >= 0
    case _ => true
  }

  ghost function Step(t: Topo, e: Event): Topo
    requires Valid(t) && EventOk(e)
  {
    match e
    case Beacon(b, from, now) => Merge(t, b, from, now)
    case SweepAt(now) => Sweep(t, now)
    case Announce(now) => SweepKeepsValid(t, now); Announced(t, now)
    case SlotMiss(id) => Adjusted(t, id, true)
    case Measured(id, q) => WithQuality(t, id, q)
  }

  lemma WithQualityKeepsValid(t: Topo, id: Id, q: Byte)
    requires Valid(t)
    ensures Valid(WithQuality(t, id, q))
  {
  }

  lemma StepKeepsValid(t: Topo, e: Event)
    requires Valid(t) && EventOk(e)
    ensures Valid(Step(t, e)) && Step(t, e).me == t.me
  {
    match e
    case Beacon(b, from, now) => MergeKeepsValid(t, b, from, now);
    case SweepAt(now) => SweepKeepsValid(t, now);
    case Announce(now) => AnnouncedIsBeacon(t, now);
    case SlotMiss(id) => AdjustedKeepsValid(t, id);
    case Measured(id, q) => WithQualityKeepsValid(t, id, q);
  }

  lemma AdjustedKeepsValid(t: Topo, id: Id)
    requires Valid(t)
    ensures Valid(Adjusted(t, id, true))
  {
    if id in t.ids {
      WithQualityKeepsValid(t, id, AdjustQuality(t.quality[(t.me, id)], true));
    }
  }

  lemma MergeOwnRow(t: Topo, b: Topo, from: Id, now: int, k: Id)
    requires Valid(t) && ValidBeacon(b) && k in UnionIds(t.ids, b.ids)
    ensures (t.me, k) in Merge(t, b, from, now).link
    ensures Merge(t, b, from, now).link[(t.me, k)] == if k == from then 1 else Cell(t.link, t.me, k)
  {
    assert (t.me, k) in Pairs(UnionIds(t.ids, b.ids));
  }

  lemma SweepOwnRow(t: Topo, now: int, k: Id)
    requires Valid(t) && k in Sweep(t, now).ids
    ensures (t.me, k) in Sweep(t, now).link && Sweep(t, now).link[(t.me, k)] == Cell(t.link, t.me, k)
  {
    assert t.me in Sweep(t, now).ids && k in t.ids;
  }

  lemma RestOwnRow(t: Topo, id: Id, q: Byte, k: Id)
    requires Valid(t) && k in t.ids
    ensures (t.me, k) in t.link
    ensures WithQuality(t, id, q).link == t.link && Adjusted(t, id, true).link == t.link
  {
  }

  /** What one event does to my row. */
  lemma StepOwnRow(t: Topo, e: Event, k: Id)
    requires Valid(t) && EventOk(e) && k in Step(t, e).ids
    ensures (t.me, k) in Step(t, e).link
    ensures Step(t, e).link[(t.me, k)] == if e.Beacon? && e.from == k then 1 else Cell(t.link, t.me, k)
  {
    match e
    case Beacon(b, from, now) => MergeOwnRow(t, b, from, now, k);
    case SweepAt(now) => SweepOwnRow(t, now, k);
    case Announce(now) => SweepOwnRow(t, now, k);
    case SlotMiss(id) => RestOwnRow(t, id, 0, k);
    case Measured(id, q) => RestOwnRow(t, id, q, k);
  }

  /** What one event does to the creation time of another node. */
  lemma StepCreated(t: Topo, e: Event, k: Id)
    requires Valid(t) && EventOk(e) && k in Step(t, e).ids && k != t.me
    ensures k in Step(t, e).created
    ensures k in t.ids && !(e.Beacon? && e.from == k) ==> Step(t, e).created[k] == t.created[k]
    ensures k !in t.ids ==> e.Beacon? && Step(t, e).created[k] <= e.now
    ensures k in t.ids && e.Beacon? ==> Step(t, e).created[k] <= e.now || Step(t, e).created[k] == t.created[k]
  {
    if e.Beacon? {
      assert k in UnionIds(t.ids, e.b.ids);
    }
  }

  /** MATRIX_init: I know only myself. */
  ghost function Init(me: Id, now: int): (t: Topo)
    requires 1 <= me <= MAX_NODES
    ensures Valid(t) && t.me == me
  {
    Topo(me, [me], map[(me, me) := 0], map[(me, me) := 0], map[me := now], map[me := 0])
  }

  /** A start and what happened since. */
  datatype History = History(me: Id, start: int, events: seq<Event>)

  ghost predicate HistoryOk(h: History) {
    1 <= h.me <= MAX_NODES && forall e :: e in h.events ==> EventOk(e)
  }

  ghost function After(h: History): (t: Topo)
    requires HistoryOk(h)
    ensures Valid(t) && t.me == h.me
    decreases |h.events|
  {
    if h.events == [] then Init(h.me, h.start)
    else
      var e := h.events[|h.events| - 1];
      StepKeepsValid(After(Before(h)), e);
      Step(After(Before(h)), e)
  }

  ghost function Before(h: History): (p: History)
    requires h.events != []
    ensures |p.events| == |h.events| - 1 && (HistoryOk(h) ==> HistoryOk(p))
  {
    h.(events := h.events[..|h.events| - 1])
  }

  // ---------------------------------------------------------------- quality, packet by packet

  /** So many events in a row: slots of node id that stayed silent, or packets from it. */
  ghost function Adjustments(t: Topo, id: Id, missed: bool, k: nat): (r: Topo)
    requires Valid(t)
    ensures Valid(r) && r.me == t.me && r.ids == t.ids
  {
    if k == 0 then t
    else
      var before := Adjustments(t, id, missed, k - 1);
      AdjustedStaysValid(before, id, missed);
      Adjusted(before, id, missed)
  }

  lemma AdjustedStaysValid(t: Topo, id: Id, missed: bool)
    requires Valid(t)
    ensures Valid(Adjusted(t, id, missed)) && Adjusted(t, id, missed).me == t.me && Adjusted(t, id, missed).ids == t.ids
  {
    if id in t.ids {
      WithQualityKeepsValid(t, id, AdjustQuality(t.quality[(t.me, id)], missed));
    }
  }

  /** A slot miss is one of them. */
  lemma MissIsAdjustment(t: Topo, id: Id)
    requires Valid(t)
    ensures Step(t, SlotMiss(id)) == Adjustments(t, id, true, 1)
  {
    assert Adjustments(t, id, true, 0) == t;
  }

  function Adjusting(q: Byte, missed: bool, k: nat): Byte {
    if k == 0 then q else AdjustQuality(Adjusting(q, missed, k - 1), missed)
  }

  /** Every miss costs 40 down to 0, so that three in a row bring a default or boosted quality to 0; every packet
      earns 3 up to 100, and one brings a boosted quality back to 100. */
  lemma {:induction false} QualityAddsUp(q: Byte, k: nat)
    ensures Adjusting(q, true, k) == if q > 40 * k then q - 40 * k else 0
    ensures k > 0 ==> Adjusting(q, false, k) == if q + 3 * k < 100 then q + 3 * k else 100
  {
    if k > 0 {
      QualityAddsUp(q, k - 1);
    }
  }

  ghost predicate Requality(t: Topo, id: Id, q: Byte, r: Topo) {
    r == t.(quality := t.quality[(t.me, id) := q])
  }

  lemma AdjustedNext(t: Topo, id: Id, q: Byte, missed: bool, r: Topo)
    requires Valid(r) && id in r.ids && Requality(t, id, q, r)
    ensures Requality(t, id, AdjustQuality(q, missed), Adjusted(r, id, missed))
  {
    assert t.quality[(t.me, id) := q][(t.me, id) := AdjustQuality(q, missed)]
        == t.quality[(t.me, id) := AdjustQuality(q, missed)];
  }

  lemma NothingAdjusted(t: Topo, id: Id, missed: bool)
    requires Valid(t) && (t.me, id) in t.quality
    ensures Requality(t, id, t.quality[(t.me, id)], Adjustments(t, id, missed, 0))
  {
    assert t.quality[(t.me, id) := t.quality[(t.me, id)]] == t.quality;
  }

  lemma OneMoreAdjusted(t: Topo, id: Id, missed: bool, j: nat, k: nat, q: Byte)
    requires Valid(t) && id in t.ids && k == j + 1 && Requality(t, id, q, Adjustments(t, id, missed, j))
    ensures Requality(t, id, AdjustQuality(q, missed), Adjustments(t, id, missed, k))
  {
    hide Requality, Adjusted, AdjustQuality, Valid;
    AdjustedNext(t, id, q, missed, Adjustments(t, id, missed, j));
  }

  /** It is my quality of that link that changes, and nothing else. */
  lemma {:induction false} AdjustmentsChange(t: Topo, id: Id, missed: bool, k: nat)
    requires Valid(t) && id in t.ids && (t.me, id) in t.quality
    ensures Requality(t, id, Adjusting(t.quality[(t.me, id)], missed, k), Adjustments(t, id, missed, k))
  {
    hide Requality, Valid;
    if k == 0 {
      NothingAdjusted(t, id, missed);
    } else {
      var j := k - 1;
      AdjustmentsChange(t, id, missed, j);
      OneMoreAdjusted(t, id, missed, j, k, Adjusting(t.quality[(t.me, id)], missed, j));
    }
  }

  // ---------------------------------------------------------------- my own row

  /** The id lists of a run: before it, and after each event. */
  ghost function Lists(h: History): (r: seq<seq<Id>>)
    requires HistoryOk(h)
    ensures |r| == |h.events| + 1 && r[|h.events|] == After(h).ids
    decreases |h.events|
  {
    if h.events == [] then [After(h).ids] else Lists(Before(h)) + [After(h).ids]
  }

  /** Event i is a beacon from k, and k is listed after it and after every later event. */
  ghost predicate HeardAt(events: seq<Event>, lists: seq<seq<Id>>, k: Id, i: nat) {
    && i < |events| && events[i].Beacon? && events[i].from == k
    && forall j :: i < j < |lists| ==> k in lists[j]
  }

  /** A beacon from k was processed since k last entered the list. */
  ghost predicate HeardSince(h: History, k: Id)
    requires HistoryOk(h)
  {
    exists i: nat :: HeardAt(h.events, Lists(h), k, i)
  }

  lemma HeardAtStep(events: seq<Event>, lists: seq<seq<Id>>, e: Event, last: seq<Id>, k: Id, i: nat)
    requires |lists| == |events| + 1
    ensures HeardAt(events + [e], lists + [last], k, i) <==>
              k in last && if i == |events| then e.Beacon? && e.from == k else HeardAt(events, lists, k, i)
  {
    assert forall j :: 0 <= j < |lists| ==> (lists + [last])[j] == lists[j];
    assert (lists + [last])[|lists|] == last;
  }

  lemma HeardSinceStep(h: History, k: Id)
    requires HistoryOk(h) && h.events != []
    ensures HeardSince(h, k) <==>
              && k in After(h).ids
              && ((h.events[|h.events| - 1].Beacon? && h.events[|h.events| - 1].from == k) || HeardSince(Before(h), k))
  {
    var p, n, e := Before(h), |h.events|, h.events[|h.events| - 1];
    assert h.events == p.events + [e];
    forall i: nat
      ensures HeardAt(h.events, Lists(h), k, i) <==>
                k in After(h).ids && if i == n - 1 then e.Beacon? && e.from == k else HeardAt(p.events, Lists(p), k, i)
    {
      HeardAtStep(p.events, Lists(p), e, After(h).ids, k, i);
    }
    if HeardSince(p, k) {
      var i: nat :| HeardAt(p.events, Lists(p), k, i);
      assert HeardAt(h.events, Lists(h), k, i) <==> k in After(h).ids;
    }
    assert HeardAt(h.events, Lists(h), k, n - 1) <==> k in After(h).ids && e.Beacon? && e.from == k;
  }

  lemma HeardMeansListed(h: History, k: Id)
    requires HistoryOk(h) && HeardSince(h, k)
    ensures k in After(h).ids
  {
    var i: nat :| HeardAt(h.events, Lists(h), k, i);
    assert k in Lists(h)[|h.events|];
  }

  /** In every run, my row says 1 for a listed node exactly when one of its beacons was processed since it was
      last listed anew, and 0 otherwise. */
  lemma {:induction false} OwnRowMeansHeard(h: History, k: Id)
    requires HistoryOk(h) && k in After(h).ids
    ensures After(h).link[(h.me, k)] == if HeardSince(h, k) then 1 else 0
    decreases |h.events|
  {
    if h.events != [] {
      HeardSinceStep(h, k);
      var p, e := Before(h), h.events[|h.events| - 1];
      StepOwnRow(After(p), e, k);
      if k in After(p).ids {
        OwnRowMeansHeard(p, k);
      } else if HeardSince(p, k) {
        HeardMeansListed(p, k);
      }
    }
  }

  // ---------------------------------------------------------------- freshness

  /** Latest time at which k was heard directly, or entered the list. */
  ghost function LastNews(h: History, k: Id): int
    requires HistoryOk(h)
    decreases |h.events|
  {
    if h.events == [] then h.start
    else
      var e, earlier := h.events[|h.events| - 1], LastNews(Before(h), k);
      if e.Beacon? && (e.from == k || k !in After(Before(h)).ids) && e.now > earlier then e.now else earlier
  }

  lemma {:induction false} CreatedIsOldNews(h: History, k: Id)
    requires HistoryOk(h) && k in After(h).ids && k != h.me
    ensures After(h).created[k] <= LastNews(h, k)
    decreases |h.events|
  {
    if h.events != [] {
      var p, e := Before(h), h.events[|h.events| - 1];
      StepCreated(After(p), e, k);
      if k in After(p).ids {
        CreatedIsOldNews(p, k);
      }
    }
  }

  /** After a sweep at time now, in every run, every other listed node was heard directly, or entered the list,
      less than MAX_AGE ago: second-hand reports alone cannot keep a silent node alive. */
  lemma SweepLeavesOnlyRecent(h: History, now: int, k: Id)
    requires HistoryOk(h) && k != h.me
    requires k in After(h.(events := h.events + [SweepAt(now)])).ids
    ensures now - LastNews(h, k) < MAX_AGE
  {
    var g := h.(events := h.events + [SweepAt(now)]);
    assert Before(g) == h;
    assert Alive(After(h), k, now);
    CreatedIsOldNews(h, k);
  }
}

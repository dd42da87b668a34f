/** When a node may send: the slot test, the guarded end of the slot as the transmit loop computes it, and why two
    synchronised nodes never send at the same time. */
module SlotWindows {
  import opened Base
  import opened Sync
  import opened SyncProtocol

  const GUARD_US := 5000

  /** sync_in_slot: now is an instant of the node's own clock. */
  predicate InSlot(s: State, now: int)
    requires s.period > 0
  {
    var t := now % (1000 * s.period) / 1000;
    if s.begin <= s.end then s.begin <= t < s.end else t >= s.begin || t < s.end
  }

  /** The instant, on the node's own clock, after which tx_loop stops sending in a slot it entered at now. */
  function SlotEnd(s: State, now: int): int
    requires s.period > 0
  {
    var frame := 1000 * s.period;
    var frameStart := now - now % frame;
    var end := if s.end > s.begin then frameStart + 1000 * s.end else frameStart + frame + 1000 * s.end;
    if end > GUARD_US then end - GUARD_US else end
  }

  /** Where the slot that contains now really began. */
  function SlotBegan(s: State, now: int): int
    requires s.period > 0
  {
    var frame := 1000 * s.period;
    var position := now % frame;
    if position >= 1000 * s.begin then now - position + 1000 * s.begin
    else now - position - frame + 1000 * s.begin
  }

  /** The test means: in the 50 ms from begin_ms on, round and round the frame. Only a node alone in its frame is
      never in its slot, which would begin where it ends. */
  lemma InSlotIff(s: Station, n: int, now: int)
    requires n > 0 && StationOk(s, n)
    ensures InSlot(s.sync, now) <==> n >= 2 && (now / 1000 - s.sync.begin) % (50 * n) < 50
  {
    WidthIs50(s, n);
    var b, e, period := s.sync.begin, s.sync.end, s.sync.period;
    EndOfWidth(b, e, period);
    MsOfFrame(now, period);
    ShiftedMod(now / 1000, b, period);
  }

  /** Milliseconds in the frame. */
  lemma MsOfFrame(now: int, period: int)
    requires period > 0
    ensures now % (1000 * period) / 1000 == now / 1000 % period
  {
    var ms := now / 1000;
    var q, r := ms / period, ms % period;
    assert now == 1000 * (q * period + r) + now % 1000;
    assert now == q * (1000 * period) + (1000 * r + now % 1000);
    RestIs(now, 1000 * period, q, 1000 * r + now % 1000);
  }

  lemma RestIs(x: int, m: int, q: int, r: int)
    requires m > 0 && 0 <= r < m && x == q * m + r
    ensures x % m == r
  {
    CongruentMod(x, m);
    assert Multiple(x, r, m, q);
    CongruentTrans(x % m, x, r, m);
    CongruentBound(x % m, r, m);
  }

  lemma ShiftedMod(x: int, b: int, m: int)
    requires 0 <= b < m
    ensures (x - b) % m == if x % m >= b then x % m - b else x % m - b + m
  {
    var q, r := x / m, x % m;
    assert x == q * m + r;
    if r >= b {
      RestIs(x - b, m, q, r - b);
    } else {
      assert (q - 1) * m == q * m - m;
      RestIs(x - b, m, q - 1, r - b + m);
    }
  }

  /** Every node has its 50 ms in every frame. */
  lemma SlotInEveryFrame(s: Station, n: int, k: int)
    requires n >= 2 && StationOk(s, n)
    ensures var start := k * Frame(n) + 1000 * s.sync.begin;
            forall now :: start <= now < start + 50_000 ==> InSlot(s.sync, now)
  {
    var start := k * Frame(n) + 1000 * s.sync.begin;
    forall now | start <= now < start + 50_000 ensures InSlot(s.sync, now) {
      InSlotIff(s, n, now);
      var ms := (now - start) / 1000;
      assert k * Frame(n) == 1000 * (k * (50 * n));
      assert now / 1000 == k * (50 * n) + s.sync.begin + ms;
      RestIs(now / 1000 - s.sync.begin, 50 * n, k, ms);
    }
  }

  /** Right after sync_init and by one clock, the slots of the nodes take turns: at every instant exactly one node
      is in its slot, the one whose turn it is. */
  lemma SlotsTakeTurns(n: int, id: int, now: int)
    requires n >= 2 && 1 <= id <= n
    ensures InSlot(Initial(id, n, 50 * n), now) <==> now % Frame(n) / 50_000 == id - 1
  {
    var s := Station(Initial(id, n, 50 * n), 0, 0);
    CongruentShift(0, Frame(n), 0);
    FreshStationIsOk(s, n);
    FrameOverNodes(n);
    assert s.sync.begin == 50 * (id - 1);
    InSlotIff(s, n, now);
    ShiftedMod(now / 1000, 50 * (id - 1), 50 * n);
    MsOfFrame(now, 50 * n);
  }

  /** The computed end is the true end of the slot less the guard exactly when the slot was entered at or after
      begin_ms of the frame; in the wrapped tail of a slot it is one whole frame late. */
  lemma SlotEndIsGuarded(s: Station, n: int, now: int)
    requires n > 0 && StationOk(s, n) && now >= Frame(n) && InSlot(s.sync, now)
    ensures SlotEnd(s.sync, now) == SlotBegan(s.sync, now) + 1000 * SLOT_MS - GUARD_US <==>
              now % Frame(n) >= 1000 * s.sync.begin
    ensures now % Frame(n) < 1000 * s.sync.begin ==>
              SlotEnd(s.sync, now) == SlotBegan(s.sync, now) + 1000 * SLOT_MS - GUARD_US + Frame(n)
  {
    WidthIs50(s, n);
    var frame, b, e := Frame(n), s.sync.begin, s.sync.end;
    assert 1000 * s.sync.period == frame;
    EndOfWidth(b, e, s.sync.period);
    var position := now % frame;
    assert b >= e ==> e == b + SLOT_MS - s.sync.period;
    if position < 1000 * b {
      assert position / 1000 < b;
    }
  }

  /** A slot of 50 ms either ends later in the same frame or wraps. */
  lemma EndOfWidth(begin: int, end: int, period: int)
    requires 0 <= begin < period && period >= SLOT_MS && end == (begin + SLOT_MS) % period
    ensures end == if begin + SLOT_MS < period then begin + SLOT_MS else begin + SLOT_MS - period
  {
  }

  /** Node s, having entered its slot at now (own clock), may start a transmission at the instant t of common time. */
  ghost predicate MaySend(s: Station, n: int, now: int, t: int)
    requires n > 0 && StationOk(s, n)
  {
    now >= Frame(n) && InSlot(s.sync, now) && now <= t + s.clock < SlotEnd(s.sync, now)
  }

  /** All that is then sent begins in the first 45 ms of the slot. */
  ghost predicate KeepsWindow(s: Station, n: int, now: int)
    requires n > 0 && StationOk(s, n)
  {
    forall t :: MaySend(s, n, now, t) ==> t + s.clock < SlotBegan(s.sync, now) + 1000 * SLOT_MS - GUARD_US
  }

  lemma InsideSlot(s: Station, n: int, now: int)
    requires n > 0 && StationOk(s, n) && InSlot(s.sync, now)
    ensures SlotBegan(s.sync, now) <= now < SlotBegan(s.sync, now) + 1000 * SLOT_MS
  {
    WidthIs50(s, n);
    EndOfWidth(s.sync.begin, s.sync.end, s.sync.period);
  }

  /** The guard holds exactly for a slot entered at or after begin_ms of the frame: in the wrapped tail the loop may
      go on sending after its slot has ended. */
  lemma KeepsWindowIff(s: Station, n: int, now: int)
    requires n > 0 && StationOk(s, n) && now >= Frame(n) && InSlot(s.sync, now)
    ensures KeepsWindow(s, n, now) <==> now % Frame(n) >= 1000 * s.sync.begin
  {
    SlotEndIsGuarded(s, n, now);
    if now % Frame(n) < 1000 * s.sync.begin {
      InsideSlot(s, n, now);
      assert MaySend(s, n, now, SlotBegan(s.sync, now) + 1000 * SLOT_MS - s.clock);
    }
  }

  /** It may send, and has entered its slot at or after the beginning in the frame. */
  ghost predicate Sends(s: Station, n: int, now: int, t: int)
    requires n > 0 && StationOk(s, n)
  {
    MaySend(s, n, now, t) && now % Frame(n) >= 1000 * s.sync.begin
  }

  /** Having entered its slot then, it may send until 45 ms of the slot are over, and not longer. */
  lemma SendsExactly(s: Station, n: int, now: int, t: int)
    requires n > 0 && StationOk(s, n) && now >= Frame(n) && InSlot(s.sync, now)
    requires now % Frame(n) >= 1000 * s.sync.begin
    ensures Sends(s, n, now, t) <==> now <= t + s.clock < SlotBegan(s.sync, now) + 45_000
  {
    SlotEndIsGuarded(s, n, now);
  }

  /** The beginning of the slot, on the common clock, is where the unrolled offset puts it. */
  lemma SlotBeganAt(s: Station, n: int, now: int)
    requires n > 0 && StationOk(s, n) && now % Frame(n) >= 1000 * s.sync.begin
    ensures Congruent(SlotBegan(s.sync, now) - s.clock, s.offset + 1000 * SLOT_MS * (s.sync.slotId - 1), Frame(n))
  {
    var frame, slot := Frame(n), 1000 * SLOT_MS * (s.sync.slotId - 1);
    var x := now - now % frame + 1000 * s.sync.begin - s.clock;
    assert 1000 * s.sync.begin - s.clock == SlotPhase(s) + slot;
    assert x == now / frame * frame + SlotPhase(s) + slot;
    CongruentShift(SlotPhase(s) + slot, frame, now / frame);
    CongruentSwap(s.offset, SlotPhase(s), frame);
    CongruentShift(slot, frame, 0);
    CongruentSub(SlotPhase(s), s.offset, slot, slot, frame);
    CongruentTrans(x, SlotPhase(s) + slot, s.offset + slot, frame);
  }

  /** Every transmission starts within the first 45 ms of the sender's slot, placed on the common clock. */
  lemma SendsInWindow(s: Station, n: int, now: int, t: int) returns (x: int)
    requires n > 0 && StationOk(s, n) && Sends(s, n, now, t)
    ensures Congruent(x, s.offset + 1000 * SLOT_MS * (s.sync.slotId - 1), Frame(n))
    ensures x <= t < x + 1000 * SLOT_MS - GUARD_US
  {
    SlotEndIsGuarded(s, n, now);
    SlotBeganAt(s, n, now);
    x := SlotBegan(s.sync, now) - s.clock;
  }

  /** Windows of different slots never overlap while the offsets differ by less than the guard, anywhere in the
      frame and across its ends. */
  lemma WindowsApart(x: int, y: int, a: Station, b: Station, n: int, t: int)
    requires n > 0 && 1 <= a.sync.slotId <= n && 1 <= b.sync.slotId <= n && a.sync.slotId != b.sync.slotId
    requires Congruent(x, a.offset + 1000 * SLOT_MS * (a.sync.slotId - 1), Frame(n))
    requires Congruent(y, b.offset + 1000 * SLOT_MS * (b.sync.slotId - 1), Frame(n))
    requires -GUARD_US < a.offset - b.offset < GUARD_US
    requires x <= t < x + 1000 * SLOT_MS - GUARD_US
    ensures !(y <= t < y + 1000 * SLOT_MS - GUARD_US)
  {
    var k :| Multiple(x, a.offset + 1000 * SLOT_MS * (a.sync.slotId - 1), Frame(n), k);
    var l :| Multiple(y, b.offset + 1000 * SLOT_MS * (b.sync.slotId - 1), Frame(n), l);
    var turns := (k - l) * n;
    assert k * Frame(n) - l * Frame(n) == 50000 * turns;
    MultipleIsFar(k - l, n);
    assert x - y == (a.offset - b.offset) + 50000 * (a.sync.slotId - b.sync.slotId + turns);
  }

  /** Safety of the guard: two nodes whose offsets differ by less than it never start transmissions at the same
      instant, whatever the number of nodes, the common rotation of the slots and the frame the instants fall in. */
  lemma CloseNeverBothSend(a: Station, b: Station, n: int, nowA: int, nowB: int, t: int)
    requires n > 0 && StationOk(a, n) && StationOk(b, n) && a.sync.slotId != b.sync.slotId
    requires -GUARD_US < a.offset - b.offset < GUARD_US
    ensures !(Sends(a, n, nowA, t) && Sends(b, n, nowB, t))
  {
    if Sends(a, n, nowA, t) && Sends(b, n, nowB, t) {
      var x := SendsInWindow(a, n, nowA, t);
      var y := SendsInWindow(b, n, nowB, t);
      WindowsApart(x, y, a, b, n, t);
    }
  }

  // ---------------------------------------------------------------- what a round in the dead band says

  lemma {:induction false} SumIsAtLeast(delays: seq<int>, d: int)
    requires forall i :: 0 <= i < |delays| ==> delays[i] >= d
    ensures Sum(delays) >= |delays| * d
  {
    if delays != [] {
      SumIsAtLeast(delays[..|delays| - 1], d);
      assert (|delays| - 1) * d + d == |delays| * d;
    }
  }

  /** Delays of at least k ms have a mean of at least k ms. */
  lemma MeanIsAtLeast(delays: seq<int>, k: nat)
    requires delays != [] && forall i :: 0 <= i < |delays| ==> delays[i] >= 1000 * k
    ensures MeanMs(delays) >= k
  {
    SumIsAtLeast(delays, 1000 * k);
    var n, sum := |delays|, Sum(delays);
    assert n * (1000 * k) == k * (1000 * n) >= 0;
    QuotientIsAtLeast(sum, 1000 * n, k);
  }

  lemma QuotientIsAtLeast(x: int, m: int, k: int)
    requires m > 0 && x >= k * m
    ensures x / m >= k
  {
    var q := x / m;
    assert x == q * m + x % m;
    assert k * m == q * m + (k - q) * m;
    MultipleIsFar(k - q, m);
  }

  /** The largest mean is no smaller than that of any sender heard. */
  lemma {:induction false} DeltaIsAtLeast(records: seq<Record>, sender: int, k: nat)
    requires 1 <= sender <= k && DelaysOf(records, sender) != []
    ensures DeltaUpto(records, k) >= MeanMs(DelaysOf(records, sender))
  {
    if sender < k {
      DeltaIsAtLeast(records, sender, k - 1);
    }
  }

  /** Every delay recorded from this slot is at least d. */
  ghost predicate AtLeast(records: seq<Record>, sender: int, d: int) {
    forall k :: 0 <= k < |records| && records[k].sender == sender ==> records[k].delay >= d
  }

  lemma {:induction false} DelaysAreAtLeast(records: seq<Record>, sender: int, d: int)
    requires AtLeast(records, sender, d)
    ensures forall i :: 0 <= i < |DelaysOf(records, sender)| ==> DelaysOf(records, sender)[i] >= d
  {
    if records != [] {
      DelaysAreAtLeast(records[..|records| - 1], sender, d);
    }
  }

  /** A round in the dead band that recorded somebody bounds how far that somebody is ahead. */
  lemma DeadBandBounds(records: seq<Record>, sender: int, d: int)
    requires 1 <= sender <= MAX_NODES && DelaysOf(records, sender) != [] && AtLeast(records, sender, d)
    requires Delta(records) <= SYNC_DEADBAND_MS
    ensures d < GUARD_US
  {
    if d >= GUARD_US {
      DelaysAreAtLeast(records, sender, d);
      MeanIsAtLeast(DelaysOf(records, sender), 5);
      DeltaIsAtLeast(records, sender, MAX_NODES);
    }
  }

  // ---------------------------------------------------------------- over a run

  ghost predicate OwnSlots(m: Mesh) {
    forall k, l :: 0 <= k < l < |m| ==> m[k].sync.slotId != m[l].sync.slotId
  }

  /** The mesh after the first k events. */
  ghost function At(m: Mesh, n: int, top: int, terms: Terms, events: seq<Event>, k: nat): (r: Mesh)
    requires Inv(m, n, top, terms) && RunOk(m, events, terms) && k <= |events|
    ensures Inv(r, n, top, terms) && |r| == |m|
  {
    After(m, n, top, terms, events[..k])
  }

  lemma AtNext(m: Mesh, n: int, top: int, terms: Terms, events: seq<Event>, k: nat)
    requires Inv(m, n, top, terms) && RunOk(m, events, terms) && k < |events|
    ensures EventOk(At(m, n, top, terms, events, k), events[k], terms)
    ensures At(m, n, top, terms, events, k + 1) == Step(At(m, n, top, terms, events, k), events[k])
  {
    assert events[..k + 1][..k] == events[..k];
  }

  lemma StepKeepsIds(m: Mesh, n: int, top: int, terms: Terms, e: Event, r: Mesh)
    requires Inv(m, n, top, terms) && EventOk(m, e, terms) && r == Step(m, e)
    ensures |r| == |m| && forall x :: 0 <= x < |m| ==> r[x].sync.slotId == m[x].sync.slotId
  {
  }

  lemma {:induction false} SlotIdsStay(m: Mesh, n: int, top: int, terms: Terms, events: seq<Event>, k: nat)
    requires Inv(m, n, top, terms) && RunOk(m, events, terms) && k <= |events|
    ensures forall x :: 0 <= x < |m| ==> At(m, n, top, terms, events, k)[x].sync.slotId == m[x].sync.slotId
  {
    hide Inv, EventOk, Step;
    if k > 0 {
      var j := k - 1;
      SlotIdsStay(m, n, top, terms, events, j);
      AtNext(m, n, top, terms, events, j);
      StepKeepsIds(At(m, n, top, terms, events, j), n, top, terms, events[j], At(m, n, top, terms, events, k));
    }
  }

  lemma OffsetGrows(before: Mesh, after: Mesh, n: int, top: int, terms: Terms, e: Event, i: nat)
    requires Inv(before, n, top, terms) && EventOk(before, e, terms) && after == Step(before, e) && i < |before|
    ensures |after| == |before| && before[i].offset <= after[i].offset
  {
    StepOffset(before, n, top, terms, e, i);
  }

  /** Node i at offset x after the first a events has not moved back after the first k. */
  lemma {:induction false} OffsetsGrow(m: Mesh, n: int, top: int, terms: Terms, events: seq<Event>,
                                       a: nat, k: nat, i: nat, x: int, late: Mesh)
    requires Inv(m, n, top, terms) && RunOk(m, events, terms) && a <= k <= |events| && i < |m|
    requires At(m, n, top, terms, events, a)[i].offset == x && At(m, n, top, terms, events, k) == late
    ensures x <= late[i].offset
    decreases k
  {
    hide Inv, EventOk, Step;
    if a < k {
      var j := k - 1;
      var mid := At(m, n, top, terms, events, j);
      OffsetsGrow(m, n, top, terms, events, a, j, i, x, mid);
      AtNext(m, n, top, terms, events, j);
      OffsetGrows(mid, late, n, top, terms, events[j], i);
    }
  }

  /** Node i does not move after the first a events. */
  ghost predicate Rests(m: Mesh, n: int, top: int, terms: Terms, events: seq<Event>, a: nat, i: nat)
    requires Inv(m, n, top, terms) && RunOk(m, events, terms) && a <= |events| && i < |m|
  {
    At(m, n, top, terms, events, a)[i].offset == At(m, n, top, terms, events, |events|)[i].offset
  }

  lemma RestsBetween(m: Mesh, n: int, top: int, terms: Terms, events: seq<Event>, a: nat, k: nat, i: nat)
    requires Inv(m, n, top, terms) && RunOk(m, events, terms) && a <= k <= |events| && i < |m|
    requires Rests(m, n, top, terms, events, a, i)
    ensures At(m, n, top, terms, events, k)[i].offset == At(m, n, top, terms, events, |events|)[i].offset
  {
    var early, mid := At(m, n, top, terms, events, a), At(m, n, top, terms, events, k);
    OffsetsGrow(m, n, top, terms, events, a, k, i, early[i].offset, mid);
    OffsetsGrow(m, n, top, terms, events, k, |events|, i, mid[i].offset, At(m, n, top, terms, events, |events|));
  }

  /** While j is d ahead of i, node i records no less from it. */
  lemma StepRecordsAtLeast(m: Mesh, n: int, top: int, terms: Terms, e: Event, i: nat, j: nat, d: int)
    requires Inv(m, n, top, terms) && EventOk(m, e, terms) && OwnSlots(m) && i < |m| && j < |m| && i != j
    requires m[j].offset - m[i].offset == d && 2 * (d + terms.late) <= Frame(n)
    requires AtLeast(m[i].sync.records, m[j].sync.slotId, d)
    ensures AtLeast(Step(m, e)[i].sync.records, m[j].sync.slotId, d)
  {
    assert StationOk(m[i], n) && StationOk(m[j], n);
    if e.Beacon? && e.receiver == i && e.sender == j {
      BeaconAddsLateness(m[i], m[j], n, e.instant, e.late);
    }
  }

  /** How far j is ahead of i at the end of the run. */
  ghost function Ahead(m: Mesh, n: int, top: int, terms: Terms, events: seq<Event>, i: nat, j: nat): int
    requires Inv(m, n, top, terms) && RunOk(m, events, terms) && i < |m| && j < |m|
  {
    At(m, n, top, terms, events, |events|)[j].offset - At(m, n, top, terms, events, |events|)[i].offset
  }

  lemma SlotsStayOwn(m: Mesh, n: int, top: int, terms: Terms, events: seq<Event>, k: nat, mid: Mesh)
    requires Inv(m, n, top, terms) && RunOk(m, events, terms) && OwnSlots(m) && k <= |events|
    requires mid == At(m, n, top, terms, events, k)
    ensures OwnSlots(mid) && forall x :: 0 <= x < |m| ==> mid[x].sync.slotId == m[x].sync.slotId
  {
    SlotIdsStay(m, n, top, terms, events, k);
  }

  lemma StaysAhead(m: Mesh, n: int, top: int, terms: Terms, events: seq<Event>,
                   i: nat, j: nat, a: nat, b: nat, mid: Mesh)
    requires Inv(m, n, top, terms) && RunOk(m, events, terms) && i < |m| && j < |m| && a <= b <= |events|
    requires Rests(m, n, top, terms, events, a, i) && Rests(m, n, top, terms, events, a, j)
    requires mid == At(m, n, top, terms, events, b)
    ensures mid[j].offset - mid[i].offset == Ahead(m, n, top, terms, events, i, j)
  {
    RestsBetween(m, n, top, terms, events, a, b, i);
    RestsBetween(m, n, top, terms, events, a, b, j);
  }

  /** What node i records while neither i nor j, which is d ahead, moves any more. */
  lemma {:induction false} RecordsAreAtLeast(m: Mesh, n: int, top: int, terms: Terms, events: seq<Event>,
                                             i: nat, j: nat, a: nat, k: nat, d: int, late: Mesh)
    requires Inv(m, n, top, terms) && RunOk(m, events, terms) && OwnSlots(m) && i < |m| && j < |m| && i != j
    requires a <= k <= |events| && Rests(m, n, top, terms, events, a, i) && Rests(m, n, top, terms, events, a, j)
    requires At(m, n, top, terms, events, a)[i].sync.records == [] && late == At(m, n, top, terms, events, k)
    requires d == Ahead(m, n, top, terms, events, i, j) && 2 * (d + terms.late) <= Frame(n)
    ensures AtLeast(late[i].sync.records, m[j].sync.slotId, d)
    decreases k
  {
    hide Inv, EventOk, Step;
    if a < k {
      var b := k - 1;
      var mid := At(m, n, top, terms, events, b);
      RecordsAreAtLeast(m, n, top, terms, events, i, j, a, b, d, mid);
      StaysAhead(m, n, top, terms, events, i, j, a, b, mid);
      SlotsStayOwn(m, n, top, terms, events, b, mid);
      AtNext(m, n, top, terms, events, b);
      StepRecordsAtLeast(mid, n, top, terms, events[b], i, j, d);
    }
  }

  /** Between the events a and b node i heard a whole round, j among others, which the end of its slot at event b
      found within the dead band; since a neither i nor j moved. */
  ghost predicate EndedInDeadBand(m: Mesh, n: int, top: int, terms: Terms, events: seq<Event>,
                                  i: nat, j: nat, a: nat, b: nat)
    requires Inv(m, n, top, terms) && RunOk(m, events, terms) && i < |m| && j < |m|
  {
    && a <= b < |events| && events[b].EndOfSlot? && events[b].node == i
    && At(m, n, top, terms, events, a)[i].sync.records == []
    && DelaysOf(At(m, n, top, terms, events, b)[i].sync.records, m[j].sync.slotId) != []
    && Delta(At(m, n, top, terms, events, b)[i].sync.records) <= SYNC_DEADBAND_MS
    && Rests(m, n, top, terms, events, a, i) && Rests(m, n, top, terms, events, a, j)
  }

  /** Such a round says that j is not ahead of i by as much as the guard. */
  lemma RoundBounds(m: Mesh, n: int, top: int, terms: Terms, events: seq<Event>, i: nat, j: nat, a: nat, b: nat)
    requires Inv(m, n, top, terms) && RunOk(m, events, terms) && OwnSlots(m) && i < |m| && j < |m| && i != j
    requires n <= MAX_NODES && EndedInDeadBand(m, n, top, terms, events, i, j, a, b)
    requires 2 * (Ahead(m, n, top, terms, events, i, j) + terms.late) <= Frame(n)
    ensures Ahead(m, n, top, terms, events, i, j) < GUARD_US
  {
    var d, late := Ahead(m, n, top, terms, events, i, j), At(m, n, top, terms, events, b);
    RecordsAreAtLeast(m, n, top, terms, events, i, j, a, b, d, late);
    assert StationOk(m[j], n);
    DeadBandBounds(late[i].sync.records, m[j].sync.slotId, d);
  }

  /** The nodes of the mesh lie, with the lateness of a measurement, within half a frame. */
  ghost predicate WithinHalf(m: Mesh, n: int, top: int, terms: Terms) {
    forall i :: 0 <= i < |m| ==> 2 * (top - m[i].offset + terms.late) <= Frame(n)
  }

  lemma AheadIsWithinHalf(m: Mesh, n: int, top: int, terms: Terms, events: seq<Event>, i: nat, j: nat)
    requires Inv(m, n, top, terms) && RunOk(m, events, terms) && i < |m| && j < |m| && WithinHalf(m, n, top, terms)
    ensures 2 * (Ahead(m, n, top, terms, events, i, j) + terms.late) <= Frame(n)
  {
    assert events[..0] == [];
    OffsetsGrow(m, n, top, terms, events, 0, |events|, i, m[i].offset, At(m, n, top, terms, events, |events|));
  }

  /** Safety of the protocol, over every run: once two nodes have each ended a round in the dead band that recorded
      the other, and neither has moved since that round began, they never start transmissions at the same instant.
      */
  lemma NeverBothSend(m: Mesh, n: int, top: int, terms: Terms, events: seq<Event>, i: nat, j: nat,
                      a: nat, b: nat, c: nat, d: nat, nowI: int, nowJ: int, t: int)
    requires Inv(m, n, top, terms) && RunOk(m, events, terms) && OwnSlots(m) && n <= MAX_NODES
    requires WithinHalf(m, n, top, terms) && i < |m| && j < |m| && i != j
    requires EndedInDeadBand(m, n, top, terms, events, i, j, a, b)
    requires EndedInDeadBand(m, n, top, terms, events, j, i, c, d)
    ensures var r := After(m, n, top, terms, events);
            !(Sends(r[i], n, nowI, t) && Sends(r[j], n, nowJ, t))
  {
    var r := At(m, n, top, terms, events, |events|);
    assert events[..|events|] == events;
    AheadIsWithinHalf(m, n, top, terms, events, i, j);
    AheadIsWithinHalf(m, n, top, terms, events, j, i);
    RoundBounds(m, n, top, terms, events, i, j, a, b);
    RoundBounds(m, n, top, terms, events, j, i, c, d);
    SlotIdsStay(m, n, top, terms, events, |events|);
    CloseNeverBothSend(r[i], r[j], n, nowI, nowJ, t);
  }
}

/** The distributed protocol: any number of nodes, each moving its own slot from the beacons it hears. */
module SyncProtocol {
  import opened Base
  import opened Sync

  const SLOT_MS := 50
  const SAFE_LATENESS := 1000   // a beacon no later than this never makes a correction overshoot
  const STEP_US := 4000          // a correction that is not the full share
  const FULL_US := 5000          // the full share

  /** A node: its synchronisation state, how far its clock runs ahead of common time, and the unrolled offset of its
      slot. The offset is where its slot would begin in common time if the node had slot 1, without folding
      it into the frame; it grows by every shift the node makes. */
  datatype Station = Station(sync: State, clock: int, offset: int)

  type Mesh = seq<Station>

  datatype Event =
    | Beacon(sender: nat, receiver: nat, instant: int, late: int)  // sent at an instant of common time, heard late
    | EndOfSlot(node: nat, rnd: int)

  /** Frame length in microseconds for n nodes. */
  function Frame(n: int): int { 1000 * SLOT_MS * n }

  /** Where a slot really begins, folded or not, on the common clock and for slot 1. */
  function SlotPhase(s: Station): int {
    1000 * s.sync.begin - s.clock - 1000 * SLOT_MS * (s.sync.slotId - 1)
  }

  ghost predicate StationOk(s: Station, n: int) {
    && s.sync.Valid() && s.sync.numNodes == n && s.sync.period == SLOT_MS * n
    && Congruent(s.offset, SlotPhase(s), Frame(n))
  }

  /** How late beacons may be heard, and whether the full share of a correction may be drawn. */
  datatype Terms = Terms(late: int, full: bool)

  /** By how much a late measurement can make a correction of 4 ms overshoot. */
  function Excess(late: int): int {
    if late > SAFE_LATENESS then late - SAFE_LATENESS else 0
  }

  /** No number of steps of 4 ms takes an offset past top by at most the excess. */
  ghost predicate Clear(m: Mesh, top: int, late: int) {
    forall i :: 0 <= i < |m| ==> (m[i].offset - top - 1) % STEP_US >= Excess(late)
  }

  /** The nodes beyond base. */
  ghost function Beyond(m: Mesh, base: int): set<nat> {
    set i: nat | i < |m| && m[i].offset > base
  }

  /** Where each of them can have got by passing all others once, by the lateness of its beacons. */
  ghost function Lid(m: Mesh, base: int, late: int): int {
    base + late * |Beyond(m, base)|
  }

  /** How far beyond base all but one of the nodes can get. */
  ghost function Spare(late: int, nodes: nat): int {
    late * (nodes - 1)
  }

  ghost predicate StationUpto(s: Station, bound: int, late: int) {
    forall k :: 0 <= k < |s.sync.records| ==> s.offset + s.sync.records[k].delay <= bound + late
  }

  /** Nobody has recorded a delay that reaches beyond bound by more than the lateness of a beacon. */
  ghost predicate RecordsUpto(m: Mesh, bound: int, late: int) {
    forall i :: 0 <= i < |m| ==> StationUpto(m[i], bound, late)
  }

  /** The most advanced node rests at base, and the others have passed it at most once each; even if all had, this
      would not be enough to make anybody who is at base or beyond move. */
  ghost predicate Lifted(m: Mesh, base: int, late: int) {
    && |m| * late < FULL_US && RecordsUpto(m, Lid(m, base, late), late)
    && (exists i: nat :: i < |m| && m[i].offset == base)
    && forall i :: 0 <= i < |m| ==> m[i].offset <= Lid(m, base, late)
  }

  /** Why nobody gets beyond top: if the full share may be drawn, since nobody overshoots twice; if not, since top
      is out of reach of an overshoot. */
  ghost predicate Held(m: Mesh, top: int, terms: Terms) {
    if terms.full then Lifted(m, top - Spare(terms.late, |m|), terms.late)
    else Clear(m, top, terms.late) && RecordsUpto(m, top, terms.late)
  }

  /** Nobody is beyond top, nor can be, or more than half a frame behind it. */
  ghost predicate Inv(m: Mesh, n: int, top: int, terms: Terms) {
    && n > 0 && 0 <= terms.late && Held(m, top, terms)
    && (forall i :: 0 <= i < |m| ==> StationOk(m[i], n))
    && (forall i :: 0 <= i < |m| ==> m[i].offset <= top && 2 * (top - m[i].offset) < Frame(n))
  }

  predicate Possible(m: Mesh, e: Event) {
    match e
    case Beacon(sender, receiver, instant, late) =>
      sender < |m| && receiver < |m| && instant + m[sender].clock >= 0 && late >= 0
    case EndOfSlot(node, rnd) => node < |m| && 0 <= rnd <= 100
  }

  /** Beacons are heard late (transit, processing) by no more than the terms say, and any share of a correction may be
      drawn, the full one only if they say so. */
  predicate EventOk(m: Mesh, e: Event, terms: Terms) {
    && Possible(m, e)
    && match e {
         case Beacon(_, _, _, late) => late <= terms.late
         case EndOfSlot(_, rnd) => rnd < 100 || terms.full
       }
  }

  /** What a beacon makes the receiver record. */
  function Heard(s: Station, from: Station, instant: int, late: int): int
    requires s.sync.numNodes > 0 && s.sync.period > 0
  {
    Misalignment(s.sync, from.sync.slotId, instant + from.clock, from.sync.begin,
                 (instant + late + s.clock) % (1000 * s.sync.period))
  }

  /** What a beacon does to the station that hears it. */
  function Hearing(s: Station, from: Station, instant: int, late: int): Station
    requires s.sync.Valid()
  {
    s.(sync := Recorded(s.sync, from.sync.slotId, Heard(s, from, instant, late)))
  }

  /** What a round does to the station that ends it. */
  function Round(s: Station, rnd: int): Station
    requires s.sync.Valid() && 0 <= rnd <= 100
  {
    s.(sync := AfterRound(s.sync, rnd), offset := s.offset + 1000 * ShiftOf(s.sync, rnd))
  }

  function Step(m: Mesh, e: Event): Mesh
    requires Possible(m, e)
    requires forall i :: 0 <= i < |m| ==> m[i].sync.Valid()
  {
    match e
    case Beacon(sender, receiver, instant, late) =>
      assert m[receiver].sync.Valid();
      m[receiver := Hearing(m[receiver], m[sender], instant, late)]
    case EndOfSlot(node, rnd) => m[node := Round(m[node], rnd)]
  }

  lemma FreshStationIsOk(s: Station, n: int)
    requires 1 <= s.sync.slotId <= n && s.sync == Initial(s.sync.slotId, n, SLOT_MS * n)
    requires Congruent(s.offset, -s.clock, Frame(n))
    ensures StationOk(s, n) && s.sync.records == []
  {
    assert s.sync.Valid() by { InitialIsValid(s.sync.slotId, n, SLOT_MS * n); }
    assert s.sync.begin == SLOT_MS * (s.sync.slotId - 1) by { FrameOverNodes(n); }
  }

  lemma FrameOverNodes(n: int)
    requires n > 0
    ensures SLOT_MS * n / n == SLOT_MS
  {
  }

  /** Right after sync_init nobody has recorded anything. */
  ghost predicate Fresh(m: Mesh, n: int) {
    forall i :: 0 <= i < |m| ==>
      && 1 <= m[i].sync.slotId <= n && m[i].sync == Initial(m[i].sync.slotId, n, SLOT_MS * n)
      && Congruent(m[i].offset, -m[i].clock, Frame(n))
  }

  lemma FreshIsOk(m: Mesh, n: int)
    requires n >= 1 && Fresh(m, n)
    ensures forall i :: 0 <= i < |m| ==> StationOk(m[i], n) && m[i].sync.records == []
  {
    forall i | 0 <= i < |m| ensures StationOk(m[i], n) && m[i].sync.records == [] {
      FreshStationIsOk(m[i], n);
    }
  }

  /** Whoever rests at base is not beyond it. */
  lemma LidIsBelow(m: Mesh, base: int, late: int)
    requires late >= 0 && exists i: nat :: i < |m| && m[i].offset == base
    ensures |Beyond(m, base)| < |m| && base <= Lid(m, base, late) <= base + Spare(late, |m|)
    ensures Lid(m, base, late) + late - base <= |m| * late
  {
    var i: nat :| i < |m| && m[i].offset == base;
    SubsetCount(Beyond(m, base) + {i}, Below(|m|));
    Products(late, |Beyond(m, base)|, |m| - 1);
  }

  lemma Products(late: int, x: int, y: int)
    requires late >= 0 && 0 <= x <= y
    ensures 0 <= late * x <= late * y && late * y + late == (y + 1) * late
  {
  }

  /** A mesh right after sync_init satisfies the invariant for any slot ids and any constant clock differences that
      can be unrolled to lie within less than half a frame of what late beacons can make of the most advanced offset:
      whatever is drawn, if the lateness of all nodes together is less than the full share. */
  lemma FreshMeshIsOk(m: Mesh, n: int, lead: nat, late: int)
    requires n >= 1 && 0 <= late && Fresh(m, n) && |m| * late < FULL_US
    requires lead < |m| && forall i :: 0 <= i < |m| ==> m[i].offset <= m[lead].offset
    requires forall i :: 0 <= i < |m| ==> 2 * (m[lead].offset + Spare(late, |m|) - m[i].offset) < Frame(n)
    ensures Inv(m, n, m[lead].offset + Spare(late, |m|), Terms(late, true))
  {
    FreshIsOk(m, n);
    var base := m[lead].offset;
    assert Beyond(m, base) == {};
    LidIsBelow(m, base, late);
    assert Lifted(m, base, late);
  }

  /** If the full share is not drawn, any top will do that is out of reach of an overshoot. */
  lemma FreshMeshIsClear(m: Mesh, n: int, top: int, late: int)
    requires n >= 1 && 0 <= late && Fresh(m, n) && Clear(m, top, late)
    requires forall i :: 0 <= i < |m| ==> m[i].offset <= top && 2 * (top - m[i].offset) < Frame(n)
    ensures Inv(m, n, top, Terms(late, false))
  {
    FreshIsOk(m, n);
  }

  // ---------------------------------------------------------------- exact measurement

  /** The width of a slot is 50 ms whatever the number of nodes. */
  lemma WidthIs50(s: Station, n: int)
    requires n > 0 && StationOk(s, n)
    ensures s.sync.Width() == SLOT_MS && s.sync.Even()
  {
    FrameOverNodes(n);
  }

  /** A beacon measures the difference of the two offsets, and its own lateness, up to whole frames. */
  lemma HeardIsCongruent(s: Station, from: Station, n: int, instant: int, late: int)
    requires n > 0 && StationOk(s, n) && StationOk(from, n)
    ensures var h := Heard(s, from, instant, late);
            -Frame(n) < 2 * h <= Frame(n) && Congruent(h, from.offset - s.offset + late, Frame(n))
  {
    var frame := Frame(n);
    WidthIs50(s, n);
    assert 1000 * s.sync.period == frame;
    var heardAt := instant + late + s.clock;
    var now := heardAt % frame;
    var target := now - (instant + from.clock - 1000 * from.sync.begin)
                  - 1000 * (s.sync.begin + (from.sync.slotId - s.sync.slotId) * SLOT_MS);
    CenteredIs(target, frame);
    CongruentMod(heardAt, frame);
    var rest := SlotPhase(from) - SlotPhase(s) + late;
    assert target - now == rest - heardAt;
    CongruentShift(rest - heardAt, frame, 0);
    CongruentSub(now, heardAt, rest - heardAt, rest - heardAt, frame);
    CongruentSub(from.offset, SlotPhase(from), s.offset, SlotPhase(s), frame);
    CongruentSwap(from.offset - s.offset, SlotPhase(from) - SlotPhase(s), frame);
    CongruentShift(late, frame, 0);
    CongruentSub(SlotPhase(from) - SlotPhase(s), from.offset - s.offset, late, late, frame);
    CongruentTrans(target, rest, from.offset - s.offset + late, frame);
    CongruentTrans(Centered(target, frame), target, from.offset - s.offset + late, frame);
  }

  /** On time, and with less than half a frame between the nodes, it measures the difference exactly. */
  lemma BeaconIsExact(s: Station, from: Station, n: int, instant: int)
    requires n > 0 && StationOk(s, n) && StationOk(from, n)
    requires -Frame(n) < 2 * (from.offset - s.offset) < Frame(n)
    ensures Heard(s, from, instant, 0) == from.offset - s.offset
  {
    HeardIsCongruent(s, from, n, instant, 0);
    CongruentBound(Heard(s, from, instant, 0), from.offset - s.offset, Frame(n));
  }

  /** Late, it never measures more than the difference and the lateness together. */
  lemma BeaconIsBounded(s: Station, from: Station, n: int, instant: int, late: int)
    requires n > 0 && StationOk(s, n) && StationOk(from, n) && late >= 0
    requires -Frame(n) < 2 * (from.offset - s.offset) < Frame(n)
    ensures Heard(s, from, instant, late) <= from.offset - s.offset + late
  {
    HeardIsCongruent(s, from, n, instant, late);
    var h, x := Heard(s, from, instant, late), from.offset - s.offset + late;
    if 2 * x <= Frame(n) {
      CongruentBound(h, x, Frame(n));
    }
  }

  /** Short of half a frame it measures exactly that. */
  lemma BeaconAddsLateness(s: Station, from: Station, n: int, instant: int, late: int)
    requires n > 0 && StationOk(s, n) && StationOk(from, n) && late >= 0
    requires -Frame(n) < 2 * (from.offset - s.offset) && 2 * (from.offset - s.offset + late) <= Frame(n)
    ensures Heard(s, from, instant, late) == from.offset - s.offset + late
  {
    HeardIsCongruent(s, from, n, instant, late);
    CongruentBound(Heard(s, from, instant, late), from.offset - s.offset + late, Frame(n));
  }

  lemma CongruentSwap(x: int, y: int, t: int)
    requires Congruent(x, y, t)
    ensures Congruent(y, x, t)
  {
    var k :| Multiple(x, y, t, k);
    assert -k * t == -(k * t);
    assert Multiple(y, x, t, -k);
  }

  // ---------------------------------------------------------------- one correction

  /** A mean of at least k ms needs a single delay of at least k ms. */
  lemma {:induction false} SomeDelayIsLarge(delays: seq<int>, bound: int)
    requires delays != [] && forall i :: 0 <= i < |delays| ==> delays[i] <= bound
    ensures Sum(delays) <= |delays| * bound
  {
    var init := delays[..|delays| - 1];
    if init != [] {
      SomeDelayIsLarge(init, bound);
    }
    assert (|delays| - 1) * bound + bound == |delays| * bound;
  }

  lemma MeanIsBounded(delays: seq<int>, bound: int)
    requires delays != [] && forall i :: 0 <= i < |delays| ==> delays[i] <= bound
    requires MeanMs(delays) > 0
    ensures 1000 * MeanMs(delays) <= bound
  {
    SomeDelayIsLarge(delays, bound);
    var n, sum, mean := |delays|, Sum(delays), MeanMs(delays);
    assert sum >= 0;
    assert mean * (1000 * n) <= sum;
    assert mean * (1000 * n) == n * (1000 * mean);
    CancelFactor(n, 1000 * mean, bound);
  }

  lemma CancelFactor(n: int, x: int, y: int)
    requires n > 0 && n * x <= n * y
    ensures x <= y
  {
  }

  lemma {:induction false} DelaysAreBounded(records: seq<Record>, sender: int, bound: int)
    requires forall k :: 0 <= k < |records| ==> records[k].delay <= bound
    ensures forall i :: 0 <= i < |DelaysOf(records, sender)| ==> DelaysOf(records, sender)[i] <= bound
  {
    if records != [] {
      DelaysAreBounded(records[..|records| - 1], sender, bound);
    }
  }

  lemma {:induction false} DeltaIsBounded(records: seq<Record>, k: nat, bound: int)
    requires forall i :: 0 <= i < |records| ==> records[i].delay <= bound
    ensures DeltaUpto(records, k) > 0 ==> 1000 * DeltaUpto(records, k) <= bound
  {
    if k > 0 {
      DeltaIsBounded(records, k - 1, bound);
      var own := DelaysOf(records, k);
      DelaysAreBounded(records, k, bound);
      if own != [] && MeanMs(own) > 0 {
        MeanIsBounded(own, bound);
      }
    }
  }

  lemma ShiftIsStep(s: Station, n: int, rnd: int)
    requires n > 0 && StationOk(s, n) && 0 <= rnd <= 100
    ensures ShiftOf(s.sync, rnd) in {0, 4, 5} && (ShiftOf(s.sync, rnd) == 5 ==> rnd == 100)
    ensures ShiftOf(s.sync, rnd) > 0 <==> Delta(s.sync.records) > SYNC_DEADBAND_MS
  {
    WidthIs50(s, n);
    assert Limit(SLOT_MS) == 5;
    assert Share(5, rnd) == (2000 + 5 * rnd) / 500;
  }

  /** With 50 ms slots every correction is 4 or 5 ms, 5 only for the full share; and it takes measurements of at least
      5 ms, so a correction exceeds the true misalignment that caused it by no more than the lateness of the beacons,
      and one of 4 ms only by what this exceeds 1 ms. */
  lemma ShiftIsSmall(s: Station, n: int, rnd: int, bound: int, late: int)
    requires n > 0 && StationOk(s, n) && 0 <= rnd <= 100
    requires forall k :: 0 <= k < |s.sync.records| ==> s.sync.records[k].delay <= bound + late
    ensures ShiftOf(s.sync, rnd) in {0, 4, 5} && (ShiftOf(s.sync, rnd) == 5 ==> rnd == 100)
    ensures ShiftOf(s.sync, rnd) > 0 <==> Delta(s.sync.records) > SYNC_DEADBAND_MS
    ensures ShiftOf(s.sync, rnd) > 0 ==> FULL_US <= bound + late
    ensures ShiftOf(s.sync, rnd) == 5 ==> 1000 * ShiftOf(s.sync, rnd) <= bound + late
    ensures ShiftOf(s.sync, rnd) == 4 ==> 1000 * ShiftOf(s.sync, rnd) <= bound + Excess(late)
  {
    ShiftIsStep(s, n, rnd);
    DeltaIsBounded(s.sync.records, MAX_NODES, bound + late);
  }

  /** One beacon, heard late, and the correction at the end of the round: if the slot moves, it does not pass the
      sender's. */
  ghost predicate StaysBehind(s: Station, from: Station, n: int, instant: int, late: int, rnd: int)
    requires n > 0 && StationOk(s, n) && StationOk(from, n) && 0 <= rnd <= 100
  {
    var heard := Recorded(s.sync, from.sync.slotId, Heard(s, from, instant, late));
    ShiftOf(heard, rnd) > 0 ==> s.offset + 1000 * ShiftOf(heard, rnd) <= from.offset
  }

  /** Two nodes of different slots, less than half a frame apart, the receiver with nothing recorded so far. */
  ghost predicate Encounter(s: Station, from: Station, n: int, instant: int) {
    && n > 0 && StationOk(s, n) && StationOk(from, n) && s.sync.slotId != from.sync.slotId <= MAX_NODES
    && s.sync.records == [] && instant + from.clock >= 0
    && -Frame(n) < 2 * (from.offset - s.offset) < Frame(n)
  }

  ghost predicate NeverOvershoots(n: int, late: int, rnd: int)
    requires 0 <= rnd <= 100
  {
    forall s, from, instant :: Encounter(s, from, n, instant) ==> StaysBehind(s, from, n, instant, late, rnd)
  }

  /** Two nodes right after sync_init, the second gap microseconds ahead, or behind if negative. */
  function Pair(n: int, gap: int): (Station, Station)
    requires n >= 2
  {
    (Station(Initial(1, n, SLOT_MS * n), 0, 0), Station(Initial(2, n, SLOT_MS * n), -gap, gap))
  }

  lemma PairMeets(n: int, gap: int)
    requires n >= 2 && -Frame(n) < 2 * gap < Frame(n)
    ensures var (s, from) := Pair(n, gap); Encounter(s, from, n, gap)
  {
    var (s, from) := Pair(n, gap);
    CongruentShift(0, Frame(n), 0);
    CongruentShift(gap, Frame(n), 0);
    FreshStationIsOk(s, n);
    FreshStationIsOk(from, n);
  }

  lemma PairMeasures(n: int, gap: int, late: int)
    requires n >= 2 && -Frame(n) < 2 * gap < Frame(n) && -Frame(n) < 2 * (gap + late) <= Frame(n)
    ensures var (s, from) := Pair(n, gap);
            && Encounter(s, from, n, gap) && Heard(s, from, gap, late) == gap + late
  {
    var (s, from) := Pair(n, gap);
    PairMeets(n, gap);
    HeardIsCongruent(s, from, n, gap, late);
    CongruentBound(Heard(s, from, gap, late), gap + late, Frame(n));
  }

  /** A single measurement of at least 5 ms moves the slot by the largest shift. */
  lemma OneRecordMoves(s: State, n: int, sender: int, delay: int, rnd: int)
    requires n > 0 && s.Valid() && s.numNodes == n && s.period == SLOT_MS * n && s.records == []
    requires 1 <= sender <= MAX_NODES && delay >= 5000 && 0 <= rnd <= 100
    ensures Recorded(s, sender, delay).Valid()
    ensures ShiftOf(Recorded(s, sender, delay), rnd) == if rnd == 100 then 5 else 4
  {
    FrameOverNodes(n);
    assert Recorded(s, sender, delay).records == [Record(sender, delay)];
    OneRecord(sender, delay);
    assert Share(5, rnd) == (2000 + 5 * rnd) / 500;
  }

  /** Not as far behind as the shift is long, and measured as 5 ms or more, the first of them passes the second. */
  lemma PairOvershoots(n: int, gap: int, late: int, rnd: int)
    requires n >= 2 && late >= 0 && -Frame(n) < 2 * gap && 5000 <= gap + late && 2 * (gap + late) <= Frame(n)
    requires 0 <= rnd <= 100 && gap < if rnd == 100 then 5000 else 4000
    ensures !NeverOvershoots(n, late, rnd)
  {
    var (s, from) := Pair(n, gap);
    PairMeasures(n, gap, late);
    OneRecordMoves(s.sync, n, 2, gap + late, rnd);
    assert !StaysBehind(s, from, n, gap, late, rnd);
  }

  /** Whole frames of lateness are not seen. */
  lemma HeardIsPeriodic(s: Station, from: Station, n: int, instant: int, late: int)
    requires n > 0 && StationOk(s, n) && StationOk(from, n)
    ensures Heard(s, from, instant, late) == Heard(s, from, instant, late % Frame(n))
  {
    var c, frame := late % Frame(n), Frame(n);
    HeardIsCongruent(s, from, n, instant, late);
    HeardIsCongruent(s, from, n, instant, c);
    CongruentMod(late, frame);
    CongruentShift(from.offset - s.offset, frame, 0);
    CongruentSub(from.offset - s.offset, from.offset - s.offset, c, late, frame);
    CongruentSwap(from.offset - s.offset + c, from.offset - s.offset + late, frame);
    CongruentSwap(Heard(s, from, instant, c), from.offset - s.offset + c, frame);
    CongruentTrans(Heard(s, from, instant, late), from.offset - s.offset + late, from.offset - s.offset + c, frame);
    CongruentTrans(Heard(s, from, instant, late), from.offset - s.offset + c, Heard(s, from, instant, c), frame);
    CongruentBound(Heard(s, from, instant, late), Heard(s, from, instant, c), frame);
  }

  lemma LatenessIsPeriodic(n: int, late: int, rnd: int)
    requires n > 0 && 0 <= rnd <= 100
    ensures NeverOvershoots(n, late, rnd) <==> NeverOvershoots(n, late % Frame(n), rnd)
  {
    forall s, from, instant | Encounter(s, from, n, instant)
      ensures StaysBehind(s, from, n, instant, late, rnd) <==> StaysBehind(s, from, n, instant, late % Frame(n), rnd)
    {
      HeardIsPeriodic(s, from, n, instant, late);
    }
  }

  lemma SmallLatenessIsSafe(n: int, late: int, rnd: int)
    requires n > 0 && 0 <= late <= SAFE_LATENESS && 0 <= rnd <= 100 && (late > 0 ==> rnd < 100)
    ensures NeverOvershoots(n, late, rnd)
  {
    forall s, from, instant | Encounter(s, from, n, instant)
      ensures StaysBehind(s, from, n, instant, late, rnd)
    {
      BeaconIsBounded(s, from, n, instant, late);
      var heard := Recorded(s.sync, from.sync.slotId, Heard(s, from, instant, late));
      ShiftIsSmall(s.(sync := heard), n, rnd, from.offset - s.offset, late);
    }
  }

  /** When a correction never passes the node it was measured from, whatever the gap between the two: exactly for a
      beacon heard on time, or one heard at most 1 ms late if the full share is not drawn. A whole frame of lateness
      counts as none. */
  lemma NeverOvershootsIff(n: int, late: int, rnd: int)
    requires n >= 2 && late >= 0 && 0 <= rnd <= 100
    ensures NeverOvershoots(n, late, rnd) <==>
              late % Frame(n) == 0 || (late % Frame(n) <= SAFE_LATENESS && rnd < 100)
  {
    var c := late % Frame(n);
    LatenessIsPeriodic(n, late, rnd);
    if c == 0 || (c <= SAFE_LATENESS && rnd < 100) {
      SmallLatenessIsSafe(n, c, rnd);
    } else if 2 * c > Frame(n) {
      PairOvershoots(n, Frame(n) / 2 - c, c, rnd);
    } else {
      PairOvershoots(n, if c >= 5000 then 0 else if rnd == 100 then 4999 else 3999, c, rnd);
    }
  }

  /** A single record decides alone. */
  lemma OneRecord(sender: int, delay: int)
    requires 1 <= sender <= MAX_NODES && delay >= 0
    ensures Delta([Record(sender, delay)]) == delay / 1000
  {
    var records := [Record(sender, delay)];
    assert records[..0] == [];
    OneRecordUpto(sender, delay, MAX_NODES);
  }

  lemma {:induction false} OneRecordUpto(sender: int, delay: int, k: nat)
    requires 1 <= sender && delay >= 0
    ensures DeltaUpto([Record(sender, delay)], k) == if k >= sender then delay / 1000 else 0
  {
    if k > 0 {
      OneRecordUpto(sender, delay, k - 1);
      var records := [Record(sender, delay)];
      assert records[..0] == [] && DelaysOf(records[..0], k) == [];
      assert DelaysOf(records, k) == if k == sender then [delay] else [];
      assert [delay][..0] == [] && Sum([delay]) == delay;
    }
  }

  // ---------------------------------------------------------------- every step keeps the invariant

  /** A station that hears another records no more than the other is ahead, and the lateness. */
  lemma HearingRecords(s: Station, from: Station, n: int, bound: int, most: int, instant: int, late: int)
    requires n > 0 && StationOk(s, n) && StationOk(from, n) && 0 <= late <= most && from.offset <= bound
    requires -Frame(n) < 2 * (from.offset - s.offset) < Frame(n) && StationUpto(s, bound, most)
    ensures var r := Hearing(s, from, instant, late);
            StationOk(r, n) && r.offset == s.offset && StationUpto(r, bound, most)
  {
    BeaconIsBounded(s, from, n, instant, late);
    assert SlotPhase(Hearing(s, from, instant, late)) == SlotPhase(s);
  }

  /** One station of the mesh changes, and does not move back. */
  lemma OneKeeps(m: Mesh, n: int, top: int, terms: Terms, node: nat, s: Station)
    requires Inv(m, n, top, terms) && node < |m| && StationOk(s, n) && m[node].offset <= s.offset <= top
    requires Held(m[node := s], top, terms)
    ensures Inv(m[node := s], n, top, terms)
  {
    hide Held, StationOk, Congruent;
  }

  lemma SameStaysLifted(m: Mesh, base: int, late: int, node: nat, s: Station)
    requires node < |m| && late >= 0 && Lifted(m, base, late) && s.offset == m[node].offset
    requires StationUpto(s, Lid(m, base, late), late)
    ensures Lifted(m[node := s], base, late)
  {
    LidAfterMove(m, base, late, node, s);
    var lead: nat :| lead < |m| && m[lead].offset == base;
    assert m[node := s][lead].offset == base;
  }

  /** Whom a node may hear: somebody no further ahead than this. */
  ghost function Reach(m: Mesh, top: int, terms: Terms): int {
    if terms.full then Lid(m, top - Spare(terms.late, |m|), terms.late) else top
  }

  lemma ReachBounds(m: Mesh, top: int, terms: Terms, i: nat)
    requires Held(m, top, terms) && i < |m| && m[i].offset <= top
    ensures m[i].offset <= Reach(m, top, terms) && StationUpto(m[i], Reach(m, top, terms), terms.late)
  {
  }

  lemma SameStaysHeld(m: Mesh, top: int, terms: Terms, node: nat, s: Station)
    requires node < |m| && terms.late >= 0 && Held(m, top, terms) && s.offset == m[node].offset
    requires StationUpto(s, Reach(m, top, terms), terms.late)
    ensures Held(m[node := s], top, terms)
  {
    if terms.full {
      SameStaysLifted(m, top - Spare(terms.late, |m|), terms.late, node, s);
    }
  }

  lemma BeaconKeeps(m: Mesh, n: int, top: int, terms: Terms, sender: nat, receiver: nat, instant: int, late: int)
    requires Inv(m, n, top, terms) && EventOk(m, Beacon(sender, receiver, instant, late), terms)
    ensures Inv(Step(m, Beacon(sender, receiver, instant, late)), n, top, terms)
  {
    var s, from := m[receiver], m[sender];
    assert StationOk(s, n) && StationOk(from, n);
    ReachBounds(m, top, terms, sender);
    ReachBounds(m, top, terms, receiver);
    HearingRecords(s, from, n, Reach(m, top, terms), terms.late, instant, late);
    SameStaysHeld(m, top, terms, receiver, Hearing(s, from, instant, late));
    OneKeeps(m, n, top, terms, receiver, Hearing(s, from, instant, late));
  }

  lemma BeginAfterRound(s: State, rnd: int)
    requires s.Valid() && 0 <= rnd <= 100
    ensures Congruent(AfterRound(s, rnd).begin, s.begin + ShiftOf(s, rnd), s.period)
  {
    CongruentMod(s.begin + ShiftOf(s, rnd), s.period);
    if s.records == [] || Delta(s.records) <= SYNC_DEADBAND_MS {
      EmptyDelta(s.records, MAX_NODES);
      CongruentShift(s.begin, s.period, 0);
    }
  }

  lemma RoundKeepsStation(s: Station, n: int, rnd: int)
    requires n > 0 && StationOk(s, n) && 0 <= rnd <= 100
    ensures StationOk(Round(s, rnd), n)
  {
    var frame, shift := Frame(n), ShiftOf(s.sync, rnd);
    var s' := Round(s, rnd);
    SlotStaysInFrame(s.sync, 0, 0, rnd);
    BeginAfterRound(s.sync, rnd);
    CongruentScale(s'.sync.begin, s.sync.begin + shift, s.sync.period, 1000);
    CongruentSwap(1000 * s'.sync.begin, 1000 * (s.sync.begin + shift), frame);
    CongruentShift(1000 * shift, frame, 0);
    CongruentSub(s.offset, SlotPhase(s), 1000 * shift, 1000 * shift, frame);
    var rest := s.clock + 1000 * SLOT_MS * (s.sync.slotId - 1);
    CongruentShift(rest, frame, 0);
    CongruentSub(1000 * (s.sync.begin + shift), 1000 * s'.sync.begin, rest, rest, frame);
    CongruentTrans(s'.offset, SlotPhase(s) + 1000 * shift, SlotPhase(s'), frame);
  }

  lemma {:induction false} EmptyDelta(records: seq<Record>, k: nat)
    ensures records == [] ==> DeltaUpto(records, k) == 0
  {
    if k > 0 {
      EmptyDelta(records, k - 1);
    }
  }

  /** A step that exceeds top by no more than the excess does not exceed it, and stays out of reach of it. */
  lemma MoveStaysClear(offset: int, top: int, late: int, move: int)
    requires offset <= top && (offset - top - 1) % STEP_US >= Excess(late) && move in {0, STEP_US}
    requires move > 0 ==> move <= top - offset + Excess(late)
    ensures offset + move <= top && (offset + move - top - 1) % STEP_US >= Excess(late)
  {
  }

  lemma BeyondAfterMove(m: Mesh, base: int, node: nat, s: Station)
    requires node < |m| && s.offset >= m[node].offset
    ensures |Beyond(m[node := s], base)| == |Beyond(m, base)| + if s.offset > base >= m[node].offset then 1 else 0
  {
    if s.offset > base >= m[node].offset {
      assert Beyond(m[node := s], base) == Beyond(m, base) + {node};
    } else {
      assert Beyond(m[node := s], base) == Beyond(m, base);
    }
  }

  lemma LidAfterMove(m: Mesh, base: int, late: int, node: nat, s: Station)
    requires node < |m| && s.offset >= m[node].offset
    ensures Lid(m[node := s], base, late)
         == Lid(m, base, late) + if s.offset > base >= m[node].offset then late else 0
  {
    BeyondAfterMove(m, base, node, s);
    Distribute(late, |Beyond(m, base)|);
  }

  lemma Distribute(x: int, y: int)
    ensures x * (y + 1) == x * y + x
  {
  }

  /** A node that moves was behind base; if it gets beyond, this lifts the lid by one lateness. */
  lemma MoveStaysLifted(m: Mesh, base: int, late: int, node: nat, s: Station)
    requires node < |m| && late >= 0 && Lifted(m, base, late) && s.sync.records == [] && s.offset >= m[node].offset
    requires s.offset > m[node].offset ==> FULL_US <= Lid(m, base, late) + late - m[node].offset
    requires s.offset > m[node].offset ==> s.offset <= Lid(m, base, late) + late
    ensures Lifted(m[node := s], base, late)
  {
    LidIsBelow(m, base, late);
    LidAfterMove(m, base, late, node, s);
    var lead: nat :| lead < |m| && m[lead].offset == base;
    assert m[node := s][lead].offset == base;
  }

  /** What a round can move the slot by. */
  lemma RoundMoves(s: Station, n: int, rnd: int, bound: int, late: int)
    requires n > 0 && StationOk(s, n) && 0 <= rnd <= 100 && StationUpto(s, bound, late)
    ensures var r := Round(s, rnd);
            && StationOk(r, n) && r.sync.records == []
            && r.offset - s.offset in {0, STEP_US, FULL_US} && (r.offset - s.offset == FULL_US ==> rnd == 100)
            && (r.offset > s.offset ==> FULL_US <= bound + late - s.offset)
            && (r.offset == s.offset + STEP_US ==> r.offset <= bound + Excess(late))
  {
    RoundKeepsStation(s, n, rnd);
    ShiftIsSmall(s, n, rnd, bound - s.offset, late);
  }

  lemma LiftedIsBelow(m: Mesh, base: int, late: int, i: nat)
    requires late >= 0 && Lifted(m, base, late) && i < |m|
    ensures m[i].offset <= base + Spare(late, |m|)
  {
    LidIsBelow(m, base, late);
  }

  lemma RoundStaysHeld(m: Mesh, n: int, top: int, terms: Terms, node: nat, rnd: int)
    requires n > 0 && terms.late >= 0 && node < |m| && StationOk(m[node], n) && m[node].offset <= top
    requires Held(m, top, terms) && 0 <= rnd <= 100 && (rnd < 100 || terms.full)
    ensures Held(m[node := Round(m[node], rnd)], top, terms) && Round(m[node], rnd).offset <= top
  {
    RoundMoves(m[node], n, rnd, Reach(m, top, terms), terms.late);
    var r := Round(m[node], rnd);
    if terms.full {
      MoveStaysLifted(m, top - Spare(terms.late, |m|), terms.late, node, r);
      LiftedIsBelow(m[node := r], top - Spare(terms.late, |m|), terms.late, node);
    } else {
      MoveStaysClear(m[node].offset, top, terms.late, r.offset - m[node].offset);
    }
  }

  lemma RoundKeeps(m: Mesh, n: int, top: int, terms: Terms, node: nat, rnd: int)
    requires Inv(m, n, top, terms) && EventOk(m, EndOfSlot(node, rnd), terms)
    ensures Inv(Step(m, EndOfSlot(node, rnd)), n, top, terms)
    ensures Step(m, EndOfSlot(node, rnd))[node].offset - m[node].offset in {0, STEP_US, FULL_US}
  {
    assert StationOk(m[node], n);
    ReachBounds(m, top, terms, node);
    RoundMoves(m[node], n, rnd, Reach(m, top, terms), terms.late);
    RoundStaysHeld(m, n, top, terms, node, rnd);
    OneKeeps(m, n, top, terms, node, Round(m[node], rnd));
  }

  lemma StepKeeps(m: Mesh, n: int, top: int, terms: Terms, e: Event)
    requires Inv(m, n, top, terms) && EventOk(m, e, terms)
    ensures Inv(Step(m, e), n, top, terms) && |Step(m, e)| == |m|
  {
    match e
    case Beacon(sender, receiver, instant, late) => BeaconKeeps(m, n, top, terms, sender, receiver, instant, late);
    case EndOfSlot(node, rnd) => RoundKeeps(m, n, top, terms, node, rnd);
  }

  // ---------------------------------------------------------------- whole runs

  /** Every event of a run is possible in the mesh it starts from: nodes exist, draws are in range. */
  ghost predicate RunOk(m: Mesh, events: seq<Event>, terms: Terms) {
    forall i :: 0 <= i < |events| ==> EventOk(m, events[i], terms)
  }

  ghost function After(m: Mesh, n: int, top: int, terms: Terms, events: seq<Event>): (r: Mesh)
    requires Inv(m, n, top, terms) && RunOk(m, events, terms)
    ensures Inv(r, n, top, terms) && |r| == |m| && forall i :: 0 <= i < |m| ==> r[i].clock == m[i].clock
  {
    if events == [] then m
    else
      var last := events[|events| - 1];
      var before := After(m, n, top, terms, events[..|events| - 1]);
      assert EventOk(before, last, terms);
      StepKeeps(before, n, top, terms, last);
      Step(before, last)
  }

  ghost function Before(m: Mesh, n: int, top: int, terms: Terms, events: seq<Event>): Mesh
    requires Inv(m, n, top, terms) && RunOk(m, events, terms) && events != []
  {
    After(m, n, top, terms, events[..|events| - 1])
  }

  /** The last event of a run moves the slot of node i. */
  ghost predicate Moves(m: Mesh, n: int, top: int, terms: Terms, events: seq<Event>, i: nat)
    requires Inv(m, n, top, terms) && RunOk(m, events, terms) && events != [] && i < |m|
  {
    After(m, n, top, terms, events)[i].offset != Before(m, n, top, terms, events)[i].offset
  }

  /** How often the slot of node i moved. */
  ghost function Shifts(m: Mesh, n: int, top: int, terms: Terms, events: seq<Event>, i: nat): nat
    requires Inv(m, n, top, terms) && RunOk(m, events, terms) && i < |m|
  {
    if events == [] then 0
    else Shifts(m, n, top, terms, events[..|events| - 1], i) + if Moves(m, n, top, terms, events, i) then 1 else 0
  }

  lemma StepOffset(m: Mesh, n: int, top: int, terms: Terms, e: Event, i: nat)
    requires Inv(m, n, top, terms) && EventOk(m, e, terms) && i < |m|
    ensures Step(m, e)[i].offset - m[i].offset in {0, STEP_US, FULL_US}
  {
    if e.EndOfSlot? {
      RoundKeeps(m, n, top, terms, e.node, e.rnd);
    }
  }

  /** Slots only ever move forward, in steps of 4 or 5 ms. */
  lemma {:induction false} ShiftsAddUp(m: Mesh, n: int, top: int, terms: Terms, events: seq<Event>, i: nat)
    requires Inv(m, n, top, terms) && RunOk(m, events, terms) && i < |m|
    ensures m[i].offset + 4000 * Shifts(m, n, top, terms, events, i) <= After(m, n, top, terms, events)[i].offset
    ensures After(m, n, top, terms, events)[i].offset <= m[i].offset + 5000 * Shifts(m, n, top, terms, events, i)
  {
    if events != [] {
      var init, last := events[..|events| - 1], events[|events| - 1];
      ShiftsAddUp(m, n, top, terms, init, i);
      StepOffset(After(m, n, top, terms, init), n, top, terms, last, i);
    }
  }

  /** In every run, in every order of beacons and rounds, nobody passes top, which is the most advanced node if all
      beacons are on time, and a node moves at most once for every 4 ms it started behind it. */
  lemma MovesAreBounded(m: Mesh, n: int, top: int, terms: Terms, events: seq<Event>, i: nat)
    requires Inv(m, n, top, terms) && RunOk(m, events, terms) && i < |m|
    ensures m[i].offset <= After(m, n, top, terms, events)[i].offset <= top
    ensures 4000 * Shifts(m, n, top, terms, events, i) <= top - m[i].offset
    ensures m[i].offset == top ==> Shifts(m, n, top, terms, events, i) == 0
  {
    ShiftsAddUp(m, n, top, terms, events, i);
  }

  lemma LeaderRests(m: Mesh, n: int, top: int, terms: Terms, e: Event, i: nat)
    requires Inv(m, n, top, terms) && EventOk(m, e, terms) && i < |m|
    requires terms.full && m[i].offset >= top - Spare(terms.late, |m|)
    ensures Step(m, e)[i].offset == m[i].offset
  {
    if e.EndOfSlot? && e.node == i {
      var base := top - Spare(terms.late, |m|);
      assert StationOk(m[i], n);
      RoundMoves(m[i], n, e.rnd, Lid(m, base, terms.late), terms.late);
      LidIsBelow(m, base, terms.late);
    }
  }

  /** Where every draw is allowed, a node that has come up with where the most advanced one began never moves again:
      it overshoots at most once. */
  lemma {:induction false} OvershootsOnce(m: Mesh, n: int, top: int, terms: Terms, events: seq<Event>, i: nat)
    requires Inv(m, n, top, terms) && RunOk(m, events, terms) && i < |m|
    requires terms.full && m[i].offset >= top - Spare(terms.late, |m|)
    ensures Shifts(m, n, top, terms, events, i) == 0
    ensures After(m, n, top, terms, events)[i].offset == m[i].offset
  {
    if events != [] {
      var init, last := events[..|events| - 1], events[|events| - 1];
      OvershootsOnce(m, n, top, terms, init, i);
      LeaderRests(After(m, n, top, terms, init), n, top, terms, last, i);
    }
  }

  /** Sum over the first k nodes of how far each is behind. */
  ghost function Gaps(m: Mesh, top: int, k: nat): int
    requires k <= |m|
  {
    if k == 0 then 0 else Gaps(m, top, k - 1) + top - m[k - 1].offset
  }

  /** How often each node moved. */
  ghost function MoveCounts(m: Mesh, n: int, top: int, terms: Terms, events: seq<Event>): seq<nat>
    requires Inv(m, n, top, terms) && RunOk(m, events, terms)
  {
    seq(|m|, i requires 0 <= i < |m| => Shifts(m, n, top, terms, events, i))
  }

  ghost function TotalOf(counts: seq<nat>, k: nat): nat
    requires k <= |counts|
  {
    if k == 0 then 0 else TotalOf(counts, k - 1) + counts[k - 1]
  }

  lemma {:induction false} BoundsAddUp(counts: seq<nat>, m: Mesh, top: int, k: nat)
    requires |counts| == |m| && k <= |m|
    requires forall i :: 0 <= i < |m| ==> 4000 * counts[i] <= top - m[i].offset
    ensures 4000 * TotalOf(counts, k) <= Gaps(m, top, k)
  {
    if k > 0 {
      BoundsAddUp(counts, m, top, k - 1);
    }
  }

  /** Taken together the nodes move at most as often as the sum of their gaps holds 4 ms. */
  lemma AllMovesAreBounded(m: Mesh, n: int, top: int, terms: Terms, events: seq<Event>)
    requires Inv(m, n, top, terms) && RunOk(m, events, terms)
    ensures 4000 * TotalOf(MoveCounts(m, n, top, terms, events), |m|) <= Gaps(m, top, |m|)
  {
    forall i | 0 <= i < |m| ensures 4000 * MoveCounts(m, n, top, terms, events)[i] <= top - m[i].offset {
      MovesAreBounded(m, n, top, terms, events, i);
    }
    BoundsAddUp(MoveCounts(m, n, top, terms, events), m, top, |m|);
  }

  // ---------------------------------------------------------------- stability

  /** The last event ends a slot of node i in a round in which it heard somebody, and leaves it unstable. */
  ghost predicate EndsUnstable(m: Mesh, n: int, top: int, terms: Terms, events: seq<Event>, i: nat)
    requires Inv(m, n, top, terms) && RunOk(m, events, terms) && events != [] && i < |m|
  {
    && events[|events| - 1].EndOfSlot? && events[|events| - 1].node == i
    && Before(m, n, top, terms, events)[i].sync.records != []
    && !After(m, n, top, terms, events)[i].sync.IsStable()
  }

  ghost function UnstableRounds(m: Mesh, n: int, top: int, terms: Terms, events: seq<Event>, i: nat): nat
    requires Inv(m, n, top, terms) && RunOk(m, events, terms) && i < |m|
  {
    if events == [] then 0
    else
      UnstableRounds(m, n, top, terms, events[..|events| - 1], i)
        + if EndsUnstable(m, n, top, terms, events, i) then 1 else 0
  }

  function AtMost(k: int, most: int): int {
    if k < most then k else most
  }

  /** What one event does to the stability counter of node i: only a move resets it, only a heard round adds. */
  lemma StepStable(m: Mesh, n: int, top: int, terms: Terms, e: Event, i: nat)
    requires Inv(m, n, top, terms) && EventOk(m, e, terms) && i < |m|
    ensures var s, r := m[i], Step(m, e)[i];
            if e.EndOfSlot? && e.node == i && s.sync.records != [] then
              if r.offset != s.offset then r.sync.stable == 0
              else r.sync.stable == (if s.sync.stable < STABLE_CAP then s.sync.stable + 1 else s.sync.stable)
            else r.sync.stable == s.sync.stable && r.offset == s.offset
  {
    if e.EndOfSlot? && e.node == i {
      var s := m[i];
      assert StationOk(s, n);
      ShiftIsStep(s, n, e.rnd);
      EmptyDelta(s.sync.records, MAX_NODES);
    }
  }

  lemma {:induction false} UnstableRoundsInvariant(m: Mesh, n: int, top: int, terms: Terms, events: seq<Event>, i: nat)
    requires Inv(m, n, top, terms) && RunOk(m, events, terms) && i < |m|
    ensures UnstableRounds(m, n, top, terms, events, i) <=
              8 * Shifts(m, n, top, terms, events, i) + AtMost(After(m, n, top, terms, events)[i].sync.stable, 7)
  {
    assert StationOk(m[i], n);
    if events != [] {
      var init, last := events[..|events| - 1], events[|events| - 1];
      UnstableRoundsInvariant(m, n, top, terms, init, i);
      var before := After(m, n, top, terms, init);
      StepStable(before, n, top, terms, last, i);
      assert StationOk(before[i], n);
    }
  }

  /** Convergence: in every run a node is stable at the end of all but a bounded number of the rounds in which it
      hears anybody. The bound depends only on how far behind the most advanced node it started. */
  lemma UnstableRoundsAreFew(m: Mesh, n: int, top: int, terms: Terms, events: seq<Event>, i: nat)
    requires Inv(m, n, top, terms) && RunOk(m, events, terms) && i < |m|
    ensures UnstableRounds(m, n, top, terms, events, i) <= 8 * ((top - m[i].offset) / 4000) + 7
  {
    UnstableRoundsInvariant(m, n, top, terms, events, i);
    MovesAreBounded(m, n, top, terms, events, i);
    RoundsFromMoves(UnstableRounds(m, n, top, terms, events, i), Shifts(m, n, top, terms, events, i),
                    top - m[i].offset);
  }

  lemma RoundsFromMoves(rounds: int, moves: int, gap: int)
    requires rounds <= 8 * moves + 7 && 4000 * moves <= gap
    ensures rounds <= 8 * (gap / 4000) + 7
  {
    WholeSteps(gap, moves);
  }

  lemma WholeSteps(gap: int, steps: int)
    requires 4000 * steps <= gap
    ensures steps <= gap / 4000
  {
  }

  /** A stable node stays stable until it moves. */
  lemma StableUntilItMoves(m: Mesh, n: int, top: int, terms: Terms, events: seq<Event>, i: nat)
    requires Inv(m, n, top, terms) && RunOk(m, events, terms) && events != [] && i < |m|
    requires Before(m, n, top, terms, events)[i].sync.IsStable() && !Moves(m, n, top, terms, events, i)
    ensures After(m, n, top, terms, events)[i].sync.IsStable()
  {
    StepStable(Before(m, n, top, terms, events), n, top, terms, events[|events| - 1], i);
  }

  /** How many rounds in which node i heard anybody have ended since its slot last moved, with those it had counted
      when the run began. */
  ghost function QuietRounds(m: Mesh, n: int, top: int, terms: Terms, events: seq<Event>, i: nat): int
    requires Inv(m, n, top, terms) && RunOk(m, events, terms) && i < |m|
  {
    if events == [] then m[i].sync.stable
    else
      var init, last := events[..|events| - 1], events[|events| - 1];
      var rest := QuietRounds(m, n, top, terms, init, i);
      if last.EndOfSlot? && last.node == i && After(m, n, top, terms, init)[i].sync.records != [] then
        if Moves(m, n, top, terms, events, i) then 0 else rest + 1
      else rest
  }

  lemma {:induction false} CountIsCapped(m: Mesh, n: int, top: int, terms: Terms, events: seq<Event>, i: nat)
    requires Inv(m, n, top, terms) && RunOk(m, events, terms) && i < |m|
    ensures After(m, n, top, terms, events)[i].sync.stable ==
              AtMost(QuietRounds(m, n, top, terms, events, i), STABLE_CAP)
  {
    assert StationOk(m[i], n);
    if events != [] {
      var init, last := events[..|events| - 1], events[|events| - 1];
      CountIsCapped(m, n, top, terms, init, i);
      StepStable(After(m, n, top, terms, init), n, top, terms, last, i);
    }
  }

  /** A node counts as stable exactly when 8 such rounds have ended. */
  lemma StableIff(m: Mesh, n: int, top: int, terms: Terms, events: seq<Event>, i: nat)
    requires Inv(m, n, top, terms) && RunOk(m, events, terms) && i < |m|
    ensures After(m, n, top, terms, events)[i].sync.IsStable() <==> QuietRounds(m, n, top, terms, events, i) >= 8
  {
    CountIsCapped(m, n, top, terms, events, i);
  }
}

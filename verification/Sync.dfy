/** Relative slot synchronisation: how one node measures its misalignment and moves its slot. Instants and delays
    are in microseconds, slot limits and shifts in milliseconds. */
module Sync {
  import opened Base

  const PKTDELAY_ARRAY_SIZE: nat := 64
  const SYNC_DEADBAND_MS := 4
  const SYNC_STABLE_ROUNDS := 8
  const STABLE_CAP := 1_000_000

  /** One measured delay and the slot id of the node that sent the packet. */
  datatype Record = Record(sender: int, delay: int)

  /** The whole synchronisation state of a node. */
  datatype State = State(slotId: int, numNodes: int, period: int, begin: int, end: int,
                         records: seq<Record>, stable: int)
  {
    function Width(): int
      requires numNodes > 0
    {
      period / numNodes
    }

    /** Slot limits inside the frame, the end one width after the beginning. */
    ghost predicate Valid() {
      && 1 <= slotId <= numNodes && 0 < period
      && 0 <= begin < period && end == (begin + Width()) % period
      && |records| <= PKTDELAY_ARRAY_SIZE && 0 <= stable <= STABLE_CAP
    }

    /** The frame divides evenly into slots, as it does when the period is 50 ms times the number of nodes. */
    ghost predicate Even() {
      numNodes > 0 && period == numNodes * Width()
    }

    predicate IsStable() {
      stable >= SYNC_STABLE_ROUNDS
    }
  }

  // ---------------------------------------------------------------- modular arithmetic

  /** The representative of x modulo t that lies in (-t/2, t/2]. */
  function Centered(x: int, t: int): (r: int)
    requires t > 0
  {
    var m := x % t;
    if 2 * m > t then m - t else m
  }

  ghost predicate Congruent(x: int, y: int, t: int) {
    exists k: int :: Multiple(x, y, t, k)
  }

  ghost predicate Multiple(x: int, y: int, t: int, k: int) {
    x - y == k * t
  }

  lemma CongruentTrans(x: int, y: int, z: int, t: int)
    requires Congruent(x, y, t) && Congruent(y, z, t)
    ensures Congruent(x, z, t)
  {
    var k :| Multiple(x, y, t, k);
    var l :| Multiple(y, z, t, l);
    assert Multiple(x, z, t, k + l);
  }

  lemma CongruentSub(x: int, y: int, u: int, v: int, t: int)
    requires Congruent(x, y, t) && Congruent(u, v, t)
    ensures Congruent(x - u, y - v, t) && Congruent(x + u, y + v, t)
  {
    var k :| Multiple(x, y, t, k);
    var l :| Multiple(u, v, t, l);
    assert Multiple(x - u, y - v, t, k - l);
    assert Multiple(x + u, y + v, t, k + l);
  }

  lemma CongruentShift(x: int, t: int, k: int)
    ensures Congruent(x + k * t, x, t)
  {
    assert Multiple(x + k * t, x, t, k);
  }

  lemma CongruentMod(x: int, t: int)
    requires t > 0
    ensures Congruent(x % t, x, t)
  {
    assert Multiple(x % t, x, t, -(x / t)) by {
      assert x == x / t * t + x % t;
    }
  }

  lemma CongruentBound(x: int, y: int, t: int)
    requires t > 0 && Congruent(x, y, t) && -t < x - y < t
    ensures x == y
  {
    var k :| Multiple(x, y, t, k);
    MultipleIsFar(k, t);
  }

  lemma MultipleIsFar(k: int, t: int)
    requires t > 0
    ensures k >= 1 ==> k * t >= t
    ensures k <= -1 ==> k * t <= -t
  {
  }

  lemma CongruentScale(x: int, y: int, t: int, c: int)
    requires Congruent(x, y, t)
    ensures Congruent(c * x, c * y, c * t)
  {
    var k :| Multiple(x, y, t, k);
    assert c * x - c * y == c * (x - y) == c * (k * t) == k * (c * t);
    assert Multiple(c * x, c * y, c * t, k);
  }

  lemma CenteredIs(x: int, t: int)
    requires t > 0
    ensures -t < 2 * Centered(x, t) <= t && Congruent(Centered(x, t), x, t)
  {
    CongruentMod(x, t);
    if 2 * (x % t) > t {
      CongruentShift(x % t, t, -1);
      CongruentTrans(x % t - t, x % t, x, t);
    }
  }

  /** It is the only one. */
  lemma CenteredUnique(x: int, t: int, y: int)
    requires t > 0 && -t < 2 * y <= t && Congruent(y, x, t)
    ensures y == Centered(x, t)
  {
    CenteredIs(x, t);
    var k :| Multiple(y, x, t, k);
    assert Multiple(x, y, t, -k) by {
      assert -k * t == -(k * t);
    }
    CongruentTrans(Centered(x, t), x, y, t);
    CongruentBound(Centered(x, t), y, t);
  }

  // ---------------------------------------------------------------- the measured delay

  /** Distance in slots from me to the sender, the two ends of the frame being neighbours. */
  function SlotDifference(s: State, sender: int): int {
    var d := sender - s.slotId;
    if d == s.numNodes - 1 then -1 else if -d == s.numNodes - 1 then 1 else d
  }

  /** Where the slot of the sender should begin on my clock, in ms: three cases. */
  function IdealSlotInit(s: State, sender: int): int
    requires s.numNodes > 0
  {
    var d := SlotDifference(s, sender);
    if d == 1 then s.end
    else if d == -1 then s.begin - s.Width()
    else s.begin + d * s.Width() + s.period
  }

  /** All three cases mean the same instant of the frame. */
  lemma IdealIsRelative(s: State, sender: int)
    requires s.Valid() && s.Even()
    ensures Congruent(IdealSlotInit(s, sender), s.begin + (sender - s.slotId) * s.Width(), s.period)
  {
    var w, d, e := s.Width(), sender - s.slotId, SlotDifference(s, sender);
    SameDifference(s, sender);
    assert Congruent(e * w, d * w, s.period);
    if e == 1 {
      CongruentMod(s.begin + w, s.period);
      CongruentSub(s.begin, s.begin, e * w, d * w, s.period) by { CongruentShift(s.begin, s.period, 0); }
      CongruentTrans(s.end, s.begin + w, s.begin + d * w, s.period);
    } else if e == -1 {
      CongruentSub(s.begin, s.begin, e * w, d * w, s.period) by { CongruentShift(s.begin, s.period, 0); }
    } else {
      CongruentShift(s.begin + d * w, s.period, 1);
    }
  }

  lemma SameDifference(s: State, sender: int)
    requires s.Valid() && s.Even()
    ensures Congruent(SlotDifference(s, sender) * s.Width(), (sender - s.slotId) * s.Width(), s.period)
  {
    var w, d, e, n := s.Width(), sender - s.slotId, SlotDifference(s, sender), s.numNodes;
    if d == n - 1 {
      assert -w - d * w == -(n * w);
      assert Multiple(e * w, d * w, s.period, -1);
    } else if -d == n - 1 {
      assert w - d * w == n * w;
      assert Multiple(e * w, d * w, s.period, 1);
    } else {
      assert Multiple(e * w, d * w, s.period, 0);
    }
  }

  /** How late the sender's slot begins compared with where my own slot says it should. */
  function Misalignment(s: State, sender: int, timestamp: int, senderBegin: int, now: int): int
    requires s.numNodes > 0 && s.period > 0
  {
    Centered(now - (timestamp - 1000 * senderBegin) - 1000 * (s.begin + (sender - s.slotId) * s.Width()),
             1000 * s.period)
  }

  /** compute_delay: now is the time in the frame at reception, timestamp the sender's clock at sending. The result
      is the unique representative of the misalignment in (-T/2, T/2]. */
  method ComputeDelay(s: State, sender: int, timestamp: int, senderBegin: int, now: int) returns (delay: int)
    requires s.Valid() && s.Even() && timestamp >= 0 && 0 <= senderBegin < s.period && 0 <= now < 1000 * s.period
    ensures delay == Misalignment(s, sender, timestamp, senderBegin, now)
  {
    var frame := 1000 * s.period;
    var senderInRound := timestamp % frame;
    var msgPosition := senderInRound - 1000 * senderBegin;
    if msgPosition < 0 {
      msgPosition := msgPosition + frame;
    }
    var slotDifference := sender - s.slotId;
    if slotDifference == s.numNodes - 1 {
      slotDifference := -1;
    } else if -slotDifference == s.numNodes - 1 {
      slotDifference := 1;
    }
    var ideal;
    if slotDifference == 1 {
      ideal := s.end;
    } else if slotDifference == -1 {
      ideal := s.begin - s.Width();
    } else {
      ideal := s.begin + slotDifference * s.Width() + s.period;
    }
    ghost var target := now - (timestamp - 1000 * senderBegin) - 1000 * (s.begin + (sender - s.slotId) * s.Width());
    RawDelay(s, sender, timestamp, senderBegin, now, msgPosition);
    delay := now - msgPosition - 1000 * ideal;
    while delay < 0
      invariant Congruent(delay, target, frame)
      decreases -delay
    {
      CongruentShift(delay, frame, 1);
      CongruentTrans(delay + frame, delay, target, frame);
      delay := delay + frame;
    }
    CongruentMod(delay, frame);
    CongruentTrans(delay % frame, delay, target, frame);
    delay := delay % frame;
    if 2 * delay > frame {
      CongruentShift(delay, frame, -1);
      CongruentTrans(delay - frame, delay, target, frame);
      delay := delay - frame;
    }
    CenteredUnique(target, frame, delay);
  }

  /** Before folding, the delay is the misalignment up to whole frames. */
  lemma RawDelay(s: State, sender: int, timestamp: int, senderBegin: int, now: int, msgPosition: int)
    requires s.Valid() && s.Even()
    requires msgPosition == timestamp % (1000 * s.period) - 1000 * senderBegin
          || msgPosition == timestamp % (1000 * s.period) - 1000 * senderBegin + 1000 * s.period
    ensures Congruent(now - msgPosition - 1000 * IdealSlotInit(s, sender),
                      now - (timestamp - 1000 * senderBegin) - 1000 * (s.begin + (sender - s.slotId) * s.Width()),
                      1000 * s.period)
  {
    var frame, position := 1000 * s.period, timestamp - 1000 * senderBegin;
    CongruentMod(timestamp, frame);
    CongruentShift(1000 * senderBegin, frame, 0);
    CongruentSub(timestamp % frame, timestamp, 1000 * senderBegin, 1000 * senderBegin, frame);
    if msgPosition != timestamp % frame - 1000 * senderBegin {
      CongruentShift(timestamp % frame - 1000 * senderBegin, frame, 1);
      CongruentTrans(msgPosition, timestamp % frame - 1000 * senderBegin, position, frame);
    }
    CongruentShift(now, frame, 0);
    CongruentSub(now, now, msgPosition, position, frame);
    var ideal, relative := IdealSlotInit(s, sender), s.begin + (sender - s.slotId) * s.Width();
    IdealIsRelative(s, sender);
    CongruentScale(ideal, relative, s.period, 1000);
    CongruentSub(now - msgPosition, now - position, 1000 * ideal, 1000 * relative, frame);
  }

  // ---------------------------------------------------------------- the correction of one round

  function Sum(s: seq<int>): int {
    if s == [] then 0 else Sum(s[..|s| - 1]) + s[|s| - 1]
  }

  /** Division as C does it: towards zero. */
  function TruncDiv(a: int, b: int): int
    requires b > 0
  {
    if a >= 0 then a / b else -(-a / b)
  }

  /** Mean delay in whole milliseconds, as the cast to an integer leaves it. */
  function MeanMs(delays: seq<int>): int
    requires delays != []
  {
    TruncDiv(Sum(delays), 1000 * |delays|)
  }

  /** The delays recorded from one sender, in order. */
  function DelaysOf(records: seq<Record>, sender: int): seq<int> {
    if records == [] then []
    else
      var init, last := DelaysOf(records[..|records| - 1], sender), records[|records| - 1];
      if last.sender == sender then init + [last.delay] else init
  }

  /** The largest mean over the senders 1..k, or 0 if none is positive. */
  function DeltaUpto(records: seq<Record>, k: nat): (delta: int)
    ensures delta >= 0
  {
    if k == 0 then 0
    else
      var rest, own := DeltaUpto(records, k - 1), DelaysOf(records, k);
      if own != [] && MeanMs(own) > rest then MeanMs(own) else rest
  }

  function Delta(records: seq<Record>): int {
    DeltaUpto(records, MAX_NODES)
  }

  /** A tenth of the slot, at least 1 ms. */
  function Limit(width: int): int
    requires width >= 0
  {
    if width / 10 < 1 then 1 else width / 10
  }

  /** The share of a correction that is applied: 80 to 100 per cent, drawn anew each time (rnd in 0..100). */
  function Share(delta: int, rnd: int): (share: int)
    requires delta >= 0 && 0 <= rnd <= 100
    ensures 0 <= share <= delta
  {
    ShareBounds(delta, rnd);
    delta * (400 + rnd) / 500
  }

  lemma ShareBounds(delta: int, rnd: int)
    requires delta >= 0 && 0 <= rnd <= 100
    ensures 0 <= delta * (400 + rnd) / 500 <= delta
  {
    assert 0 <= delta * (400 + rnd) <= delta * 500;
  }

  /** By how many milliseconds the slot moves at the end of a round. */
  function ShiftOf(s: State, rnd: int): int
    requires s.Valid() && 0 <= rnd <= 100
  {
    var delta := Delta(s.records);
    if delta <= SYNC_DEADBAND_MS then 0
    else Share(if delta > Limit(s.Width()) then Limit(s.Width()) else delta, rnd)
  }

  function Recorded(s: State, sender: int, delay: int): State {
    if |s.records| < PKTDELAY_ARRAY_SIZE then s.(records := s.records + [Record(sender, delay)]) else s
  }

  /** The state after sync_adjust_slot. */
  function AfterRound(s: State, rnd: int): State
    requires s.Valid() && 0 <= rnd <= 100
  {
    if s.records == [] then s
    else if Delta(s.records) <= SYNC_DEADBAND_MS then
      s.(records := [], stable := if s.stable < STABLE_CAP then s.stable + 1 else s.stable)
    else
      var begin := (s.begin + ShiftOf(s, rnd)) % s.period;
      s.(records := [], stable := 0, begin := begin, end := (begin + s.Width()) % s.period)
  }

  /** sync_init. */
  function Initial(slotId: int, numNodes: int, period: int): State
    requires numNodes > 0 && period > 0
  {
    var width := period / numNodes;
    State(slotId, numNodes, period, width * (slotId - 1), (width * (slotId - 1) + width) % period, [], 0)
  }

  /** In every reachable state the slot begins inside the frame and is one width long, so the range check that
      would reset the slot never fires. */
  lemma SlotStaysInFrame(s: State, sender: int, delay: int, rnd: int)
    requires s.Valid() && 0 <= rnd <= 100
    ensures Recorded(s, sender, delay).Valid() && AfterRound(s, rnd).Valid()
    ensures !(AfterRound(s, rnd).begin > s.period || AfterRound(s, rnd).end > s.period)
  {
    assert AfterRound(s, rnd).Width() == s.Width();
  }

  lemma InitialIsValid(slotId: int, numNodes: int, period: int)
    requires 1 <= slotId <= numNodes <= period
    ensures Initial(slotId, numNodes, period).Valid()
  {
    var width := period / numNodes;
    assert width >= 1 && numNodes * width <= period;
    assert width * (slotId - 1) + width == width * slotId <= width * numNodes;
  }

  class SlotSync {
    var slotId: int
    var numNodes: int
    var period: int
    var begin: int
    var end: int
    const delays: array<int>   // entry 0 is not used
    const senders: array<int>
    var delayCount: nat
    var stableRounds: int

    ghost function Records(): (r: seq<Record>)
      requires delays.Length == senders.Length == PKTDELAY_ARRAY_SIZE + 1 && delayCount <= PKTDELAY_ARRAY_SIZE
      reads this, delays, senders
      ensures |r| == delayCount
      ensures forall i :: 0 <= i < delayCount ==> r[i] == Record(senders[i + 1], delays[i + 1])
    {
      seq(delayCount, i requires 0 <= i < delayCount && delayCount < delays.Length && delayCount < senders.Length
        reads this, delays, senders => Record(senders[i + 1], delays[i + 1]))
    }

    ghost predicate Shape()
      reads this
    {
      && delays.Length == senders.Length == PKTDELAY_ARRAY_SIZE + 1 && delays != senders
      && delayCount <= PKTDELAY_ARRAY_SIZE
    }

    ghost function Now(): State
      requires Shape()
      reads this, delays, senders
    {
      State(slotId, numNodes, period, begin, end, Records(), stableRounds)
    }

    /** sync_init. */
    constructor (slotId: int, numNodes: int, period: int)
      requires 1 <= slotId <= numNodes <= period
      ensures Shape() && Now() == Initial(slotId, numNodes, period) && Now().Valid()
      ensures fresh(delays) && fresh(senders)
    {
      this.slotId, this.numNodes, this.period := slotId, numNodes, period;
      var width := period / numNodes;
      begin := width * (slotId - 1);
      end := (width * (slotId - 1) + width) % period;
      delays := new int[PKTDELAY_ARRAY_SIZE + 1];
      senders := new int[PKTDELAY_ARRAY_SIZE + 1];
      delayCount, stableRounds := 0, 0;
      InitialIsValid(slotId, numNodes, period);
    }

    /** sync_record_delay: the misalignment of the sender is measured and kept, if there is room. */
    method RecordDelay(sender: int, timestamp: int, senderBegin: int, now: int)
      requires Shape() && Now().Valid() && Now().Even()
      requires timestamp >= 0 && 0 <= senderBegin < period && 0 <= now < 1000 * period
      modifies this, delays, senders
      ensures Shape()
      ensures Now() == Recorded(old(Now()), sender, Misalignment(old(Now()), sender, timestamp, senderBegin, now))
    {
      ghost var was := Now();
      var delay := ComputeDelay(State(slotId, numNodes, period, begin, end, [], stableRounds),
                                sender, timestamp, senderBegin, now);
      if delayCount < PKTDELAY_ARRAY_SIZE {
        delayCount := delayCount + 1;
        delays[delayCount] := delay;
        senders[delayCount] := sender;
        assert Records() == was.records + [Record(sender, delay)];
      }
    }

    /** shiftSlot. */
    method ShiftSlot(delta: int)
      requires numNodes > 0 && period > 0 && 0 <= begin && delta >= 0
      modifies `begin, `end
      ensures begin == (old(begin) + delta) % period && 0 <= begin < period
      ensures end == (begin + period / numNodes) % period
    {
      var width := period / numNodes;
      FullTurn(begin + delta, period);
      begin := (begin + delta + period) % period;
      end := (begin + width) % period;
    }

    /** The correction proper: limited, scaled by the draw, applied, and range-checked. */
    method Correct(delta: int, rnd: int)
      requires numNodes > 0 && period > 0 && 0 <= begin < period && end == (begin + period / numNodes) % period
      requires delta >= 0 && 0 <= rnd <= 100
      modifies `begin, `end
      ensures var width := period / numNodes;
              && begin == (old(begin) + Share(if delta > Limit(width) then Limit(width) else delta, rnd)) % period
              && end == (begin + width) % period
    {
      var width := period / numNodes;
      var lim := width / 10;
      if lim < 1 { lim := 1; }
      var step := if delta > lim then lim else delta;
      step := Share(step, rnd);
      if step == 0 {
        NoTurn(begin, period);
        return;
      }
      ShiftSlot(step);
      InFrame(begin, end, width, period);
      if begin > period || end > period {
        assert false; // the reset to the initial slot is never reached
      }
    }

    /** sync_adjust_slot, at the end of the own slot; rnd is the random draw. */
    method AdjustSlot(rnd: int)
      requires Shape() && Now().Valid() && 0 <= rnd <= 100
      modifies this
      ensures Shape() && Now() == AfterRound(old(Now()), rnd)
    {
      var records := TakeRecords();
      assert Records() == [];
      if |records| == 0 {
        return;
      }
      var delta := LargestMean(records);
      if delta <= SYNC_DEADBAND_MS {
        if stableRounds < STABLE_CAP { stableRounds := stableRounds + 1; }
      } else {
        stableRounds := 0;
        Correct(delta, rnd);
      }
      assert Records() == [];
    }

    /** Copies the recorded delays out and forgets them. */
    method TakeRecords() returns (records: seq<Record>)
      requires Shape()
      modifies `delayCount
      ensures Shape() && records == old(Records()) && delayCount == 0
    {
      records := seq(delayCount, i requires 0 <= i < delayCount && Shape() reads this, delays, senders =>
        Record(senders[i + 1], delays[i + 1]));
      delayCount := 0;
    }
  }

  lemma FullTurn(x: int, t: int)
    requires t > 0
    ensures (x + t) % t == x % t
  {
    CongruentMod(x, t);
    CongruentMod(x + t, t);
    CongruentShift(x, t, 1);
    CongruentTrans((x + t) % t, x + t, x, t);
    var k :| Multiple(x % t, x, t, k);
    assert Multiple(x, x % t, t, -k) by {
      assert -k * t == -(k * t);
    }
    CongruentTrans((x + t) % t, x, x % t, t);
    CongruentBound((x + t) % t, x % t, t);
  }

  lemma InFrame(begin: int, end: int, width: int, t: int)
    requires t > 0 && 0 <= begin < t && end == (begin + width) % t
    ensures !(begin > t || end > t)
  {
  }

  lemma NoTurn(x: int, t: int)
    requires 0 <= x < t
    ensures x % t == x
  {
  }

  /** computeMean, in exact arithmetic: the sum and the count it divides. */
  method ComputeMean(delays: seq<int>) returns (sum: int, n: nat)
    ensures sum == Sum(delays) && n == |delays|
  {
    sum := 0;
    for i := 0 to |delays|
      invariant sum == Sum(delays[..i])
    {
      assert delays[..i + 1][..i] == delays[..i];
      sum := sum + delays[i];
    }
    assert delays[..|delays|] == delays;
    n := |delays|;
  }

  /** Sorts the recorded delays by sender; senders out of range are skipped. */
  method GroupBySender(records: seq<Record>) returns (byNode: seq<seq<int>>)
    ensures |byNode| == MAX_NODES
    ensures forall k :: 0 <= k < MAX_NODES ==> byNode[k] == DelaysOf(records, k + 1)
  {
    byNode := seq(MAX_NODES, _ => []);
    for i := 0 to |records|
      invariant |byNode| == MAX_NODES
      invariant forall k :: 0 <= k < MAX_NODES ==> byNode[k] == DelaysOf(records[..i], k + 1)
    {
      assert records[..i + 1][..i] == records[..i];
      var sender := records[i].sender;
      if !(sender <= 0 || sender > MAX_NODES) {
        byNode := byNode[sender - 1 := byNode[sender - 1] + [records[i].delay]];
      }
    }
    assert records[..|records|] == records;
  }

  /** The largest mean delay over the senders heard, in whole milliseconds. */
  method LargestMean(records: seq<Record>) returns (delta: int)
    ensures delta == Delta(records)
  {
    var byNode := GroupBySender(records);
    delta := 0;
    for nj := 0 to MAX_NODES
      invariant delta == DeltaUpto(records, nj)
    {
      if byNode[nj] != [] {
        var sum, n := ComputeMean(byNode[nj]);
        var mean := TruncDiv(sum, 1000 * n);
        if mean > delta { delta := mean; }
      }
    }
  }
}

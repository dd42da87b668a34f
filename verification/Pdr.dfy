/** Packet delivery ratio of one incoming link, estimated from the message ids received. */
module Pdr {
  import opened Base

  const TABLE_SIZE: nat := 300
  const PAIRS: nat := 299   // consecutive slots; the pair from the last slot back to the first is not one of them
  const UPDATE_INTERVAL: nat := 10

  type MsgId = x: int | 0 <= x < 0x1_0000

  /** A percentage num / den, or nothing yet. */
  datatype Estimate = Unknown | Ratio(num: int, den: int)

  /** What is kept for one source; slot value 0 means empty. */
  datatype Source = Source(table: seq<MsgId>, write: nat, count: nat, pdr: Estimate)
  {
    ghost predicate Valid() {
      && |table| == TABLE_SIZE && write < TABLE_SIZE && 0 <= count < 0x1_0000
      && (pdr.Ratio? ==> pdr.den > 0 && 0 <= pdr.num <= 100 * pdr.den)
    }
  }

  /** A pair of slots takes part only if both are filled. */
  predicate Filled(table: seq<MsgId>, i: nat)
    requires i + 1 < |table|
  {
    table[i] != 0 && table[i + 1] != 0
  }

  /** How many ids were sent from one id on up to another. */
  function Span(a: int, b: int): int {
    b - a
  }

  /** How many ids lie between two. */
  function Between(a: int, b: int): int {
    b - a - 1
  }

  /** Ids missing between two consecutive slots. */
  function Gap(table: seq<MsgId>, i: nat): (g: nat)
    requires i + 1 < |table|
  {
    if Filled(table, i) && Between(table[i], table[i + 1]) > 0 then Between(table[i], table[i + 1]) else 0
  }

  function Missed(table: seq<MsgId>, n: nat): nat
    requires n < |table|
  {
    if n == 0 then 0 else Missed(table, n - 1) + Gap(table, n - 1)
  }

  function Least(table: seq<MsgId>, id: MsgId, n: nat): MsgId
    requires n < |table|
  {
    if n == 0 then id
    else
      var rest := Least(table, id, n - 1);
      if Filled(table, n - 1) && table[n - 1] < rest then table[n - 1] else rest
  }

  /** The earliest id that takes part: the one just received or one that starts a filled pair. */
  lemma {:induction false} LeastIsMinimum(table: seq<MsgId>, id: MsgId, n: nat)
    requires n < |table|
    ensures var m := Least(table, id, n);
            && m <= id && (forall i :: 0 <= i < n && Filled(table, i) ==> m <= table[i])
            && (m == id || exists i :: 0 <= i < n && Filled(table, i) && m == table[i])
  {
    if n > 0 {
      LeastIsMinimum(table, id, n - 1);
    }
  }

  /** A filled pair starts with an id later than the one just received. */
  predicate OutOfOrder(table: seq<MsgId>, id: MsgId, n: nat)
    requires n < |table|
  {
    exists i :: 0 <= i < n && Filled(table, i) && table[i] > id
  }

  function Empty(): seq<MsgId> {
    seq(TABLE_SIZE, _ => 0)
  }

  function Clamp(x: int, hi: int): int {
    if x < 0 then 0 else if x > hi then hi else x
  }

  /** The estimate read off a table that is in order; it stays what it was while all ids seen are equal. */
  function EstimateOf(table: seq<MsgId>, id: MsgId, was: Estimate): Estimate
    requires |table| == TABLE_SIZE
  {
    var range := Span(Least(table, id, PAIRS), id);
    if range <= 0 then was else Ratio(Clamp(100 * (range - Missed(table, PAIRS)), 100 * range), range)
  }

  /** pdr_estimate. */
  function Estimated(s: Source, id: MsgId): Source
    requires s.Valid()
  {
    var table := s.table[s.write := id];
    var stored := s.(table := table, write := (s.write + 1) % TABLE_SIZE);
    if OutOfOrder(table, id, PAIRS) then stored.(table := Empty())
    else stored.(pdr := EstimateOf(table, id, s.pdr))
  }

  /** pdr_update: counts the packet (in 16 bits) and estimates. */
  function Updated(s: Source, id: MsgId): Source
    requires s.Valid()
  {
    Estimated(s.(count := (s.count + 1) % 0x1_0000), id)
  }

  /** The link quality an update hands to the topology matrix, if any: every tenth packet, the percentage without
      its fraction. */
  function QualitySet(s: Source): (q: seq<Byte>)
    requires s.Valid()
    ensures forall x :: x in q ==> x <= 100 && s.pdr.Ratio? && x * s.pdr.den <= s.pdr.num < (x + 1) * s.pdr.den
  {
    if s.count % UPDATE_INTERVAL == 0 && s.pdr.Ratio? then
      PercentIsSmall(s.pdr.num, s.pdr.den);
      [s.pdr.num / s.pdr.den]
    else []
  }

  lemma PercentIsSmall(num: int, den: int)
    requires den > 0 && 0 <= num <= 100 * den
    ensures 0 <= num / den <= 100
    ensures num / den * den <= num < (num / den + 1) * den
  {
    var q := num / den;
    assert num == q * den + num % den;
    Cancel(den, q, 100);
    Cancel(den, 0, q + 1);
  }

  lemma Cancel(den: int, x: int, y: int)
    requires den > 0 && den * x <= den * y
    ensures x <= y
  {
  }

  lemma UpdateKeepsValid(s: Source, id: MsgId)
    requires s.Valid()
    ensures Updated(s, id).Valid()
  {
  }

  // ---------------------------------------------------------------- the estimate, from an empty table

  /** pdr_init. */
  function Initial(): Source {
    Source(Empty(), 0, 0, Unknown)
  }

  /** Nothing is held: at the start, or after a reset, with the write position anywhere. */
  ghost predicate Cleared(s: Source) {
    s.Valid() && s.table == Empty()
  }

  /** Message ids from one sender as they arrive when the network keeps their order: increasing, none of them 0. */
  type Arriving = ids: seq<MsgId> | Increasing(ids)

  ghost predicate Increasing(ids: seq<MsgId>) {
    && (forall i :: 0 <= i < |ids| ==> ids[i] > 0)
    && (forall i, j :: 0 <= i < j < |ids| ==> ids[i] < ids[j])
  }

  function Fed(s: Source, ids: seq<MsgId>): (r: Source)
    requires s.Valid()
    ensures r.Valid()
  {
    if ids == [] then s
    else
      UpdateKeepsValid(Fed(s, ids[..|ids| - 1]), ids[|ids| - 1]);
      Updated(Fed(s, ids[..|ids| - 1]), ids[|ids| - 1])
  }

  /** Slot of the newest id once k > 0 slots were written, counted from slot 0 on. */
  function Newest(k: nat): nat
    requires k > 0
  {
    (k - 1) % TABLE_SIZE
  }

  /** Which of k written slots stands at a place; negative if none. */
  function Holds(k: nat, slot: nat): int
    requires k > 0
  {
    k - 1 - Newest(k) + slot - if slot <= Newest(k) then 0 else TABLE_SIZE
  }

  /** The table after some ids, the first of which went to slot write: the newest 300 of them, round and round. */
  function TableOf(write: nat, ids: seq<MsgId>): seq<MsgId> {
    seq(TABLE_SIZE, j requires 0 <= j < TABLE_SIZE => SlotOf(write, ids, j))
  }

  function SlotOf(write: nat, ids: seq<MsgId>, slot: nat): MsgId {
    if ids != [] && 0 <= Holds(write + |ids|, slot) - write < |ids| then ids[Holds(write + |ids|, slot) - write] else 0
  }

  lemma HoldsNext(k: nat, slot: nat)
    requires k > 0 && slot < TABLE_SIZE
    ensures Newest(k + 1) == k % TABLE_SIZE
    ensures Holds(k + 1, slot) == if slot == k % TABLE_SIZE then k else Holds(k, slot)
    ensures Holds(k, slot) < k
  {
  }

  /** Nothing in a table of increasing ids is later than the newest, so nothing is out of order. */
  lemma NothingOutOfOrder(write: nat, ids: Arriving)
    requires ids != []
    ensures !OutOfOrder(TableOf(write, ids), ids[|ids| - 1], PAIRS)
  {
  }

  lemma WriteNext(k: nat)
    ensures (k % TABLE_SIZE + 1) % TABLE_SIZE == (k + 1) % TABLE_SIZE
  {
  }

  lemma TableNext(write: nat, ids: seq<MsgId>, id: MsgId)
    requires write < TABLE_SIZE
    ensures TableOf(write, ids + [id]) == TableOf(write, ids)[(write + |ids|) % TABLE_SIZE := id]
  {
    var k := write + |ids|;
    forall j | 0 <= j < TABLE_SIZE
      ensures TableOf(write, ids + [id])[j] == TableOf(write, ids)[k % TABLE_SIZE := id][j]
    {
      if k > 0 {
        HoldsNext(k, j);
      }
    }
  }

  /** The table holds what some ids left that began at slot write. */
  ghost predicate Holding(s: Source, write: nat, ids: seq<MsgId>) {
    s.Valid() && write < TABLE_SIZE && s.table == TableOf(write, ids) && s.write == (write + |ids|) % TABLE_SIZE
  }

  /** One more id, later than all before it: the table goes on holding the newest ones and is never emptied. */
  lemma TrackStep(s: Source, write: nat, ids: seq<MsgId>, id: MsgId)
    requires Holding(s, write, ids) && Increasing(ids + [id])
    ensures Holding(Updated(s, id), write, ids + [id])
    ensures Updated(s, id).pdr == EstimateOf(TableOf(write, ids + [id]), id, s.pdr)
  {
    var table := s.table[s.write := id];
    assert table == TableOf(write, ids + [id]) by { TableNext(write, ids, id); }
    assert !OutOfOrder(table, id, PAIRS) by { NothingOutOfOrder(write, ids + [id]); }
    WriteNext(write + |ids|);
  }

  lemma {:induction false} TableHoldsNewest(s: Source, ids: Arriving)
    requires Cleared(s)
    ensures Holding(Fed(s, ids), s.write, ids)
    ensures ids != [] ==>
              Fed(s, ids).pdr == EstimateOf(TableOf(s.write, ids), ids[|ids| - 1], Fed(s, ids[..|ids| - 1]).pdr)
  {
    if ids == [] {
      assert TableOf(s.write, []) == Empty();
    } else {
      var init, last := ids[..|ids| - 1], ids[|ids| - 1];
      var before := Fed(s, init);
      assert Holding(before, s.write, init) by { TableHoldsNewest(s, init); }
      assert init + [last] == ids;
      assert Fed(s, ids) == Updated(before, last);
      TrackStep(before, s.write, init, last);
    }
  }

  /** Slots a to b hold increasing ids. */
  ghost predicate Rises(table: seq<MsgId>, a: nat, b: int) {
    && b < |table|
    && (forall i :: a <= i <= b ==> table[i] > 0)
    && (forall i, j :: a <= i < j <= b ==> table[i] < table[j])
  }

  /** Over slots with increasing ids the gaps telescope. */
  lemma {:induction false} GapsTelescope(table: seq<MsgId>, a: nat, b: nat)
    requires a <= b && Rises(table, a, b)
    ensures Missed(table, b) == Missed(table, a) + table[b] - table[a] - (b - a)
  {
    if a < b {
      GapsTelescope(table, a, b - 1);
    }
  }

  lemma {:induction false} NoGaps(table: seq<MsgId>, a: nat, b: nat)
    requires a <= b < |table|
    requires forall j :: a <= j < b ==> Gap(table, j) == 0
    ensures Missed(table, b) == Missed(table, a)
  {
    if a < b {
      NoGaps(table, a, b - 1);
    }
  }

  lemma IsLeast(table: seq<MsgId>, id: MsgId, n: nat, k: nat)
    requires k < n < |table| && Filled(table, k) && table[k] <= id
    requires forall i :: 0 <= i < n && Filled(table, i) ==> table[k] <= table[i]
    ensures Least(table, id, n) == table[k]
  {
    LeastIsMinimum(table, id, n);
  }

  /** How the estimate comes about: ids received, out of ids sent since the earliest one counted. */
  lemma EstimateIs(table: seq<MsgId>, id: MsgId, was: Estimate, least: MsgId, received: int)
    requires |table| == TABLE_SIZE && Least(table, id, PAIRS) == least < id
    requires 0 <= received == Span(least, id) - Missed(table, PAIRS)
    ensures EstimateOf(table, id, was) == Ratio(100 * received, Span(least, id))
  {
  }

  lemma {:induction false} Rising(table: seq<MsgId>, a: nat, b: nat)
    requires a <= b && Rises(table, a, b)
    ensures table[b] - table[a] >= b - a
  {
    if a < b {
      Rising(table, a, b - 1);
    }
  }

  // ---------------------------------------------------------------- a table in one piece

  /** Increasing ids in slots a to p, nothing elsewhere. */
  ghost predicate OnePiece(table: seq<MsgId>, a: nat, p: nat) {
    && |table| == TABLE_SIZE && a <= p < TABLE_SIZE && Rises(table, a, p)
    && (forall j :: 0 <= j < a || p < j < TABLE_SIZE ==> table[j] == 0)
  }

  lemma OnePieceMissed(table: seq<MsgId>, a: nat, p: nat)
    requires OnePiece(table, a, p)
    ensures Missed(table, PAIRS) == table[p] - table[a] - (p - a)
  {
    NoGaps(table, 0, a);
    GapsTelescope(table, a, p);
    NoGaps(table, p, PAIRS);
  }

  lemma OnePieceEstimate(table: seq<MsgId>, a: nat, p: nat, was: Estimate)
    requires OnePiece(table, a, p) && a < p
    ensures EstimateOf(table, table[p], was) == Ratio(100 * (p - a), Span(table[a], table[p]))
  {
    OnePieceMissed(table, a, p);
    Rising(table, a, p);
    IsLeast(table, table[p], PAIRS, a);
    EstimateIs(table, table[p], was, table[a], p - a);
  }

  lemma TableIsOnePiece(write: nat, ids: Arriving)
    requires write < TABLE_SIZE && 1 <= |ids| <= TABLE_SIZE - write
    ensures var table, p := TableOf(write, ids), write + |ids| - 1;
            OnePiece(table, write, p) && table[write] == ids[0] && table[p] == ids[|ids| - 1]
  {
    var k := write + |ids|;
    assert Newest(k) == k - 1;
    forall j | 0 <= j < TABLE_SIZE
      ensures TableOf(write, ids)[j] == if write <= j < k then ids[j - write] else 0
    {
      assert Holds(k, j) == if j < k then j else j - TABLE_SIZE;
    }
  }

  /** Until the last slot is written the estimate is exact: ids received per id sent, to any destination, the first
      one not counted. */
  lemma ExactUntilFull(s: Source, ids: Arriving)
    requires Cleared(s) && 2 <= |ids| <= TABLE_SIZE - s.write
    ensures Fed(s, ids).pdr == Ratio(100 * (|ids| - 1), Span(ids[0], ids[|ids| - 1]))
  {
    TableHoldsNewest(s, ids);
    TableIsOnePiece(s.write, ids);
    OnePieceEstimate(TableOf(s.write, ids), s.write, s.write + |ids| - 1, Fed(s, ids[..|ids| - 1]).pdr);
  }

  // ---------------------------------------------------------------- when a quality is handed on

  lemma CountsOne(s: Source, id: MsgId)
    requires s.Valid()
    ensures Updated(s, id).count == (s.count + 1) % 65_536
  {
  }

  lemma NextCount(x: nat)
    ensures (x % 65_536 + 1) % 65_536 == (x + 1) % 65_536
  {
  }

  lemma {:induction false} CountsAll(s: Source, ids: seq<MsgId>)
    requires s.Valid()
    ensures Fed(s, ids).count == (s.count + |ids|) % 65_536
  {
    hide Updated, QualitySet;
    if ids != [] {
      CountsAll(s, ids[..|ids| - 1]);
      CountsOne(Fed(s, ids[..|ids| - 1]), ids[|ids| - 1]);
      NextCount(s.count + |ids| - 1);
    }
  }

  /** Increasing 16-bit ids above 0 are fewer than 2^16. */
  lemma {:induction false} ArrivingAreFew(ids: Arriving)
    ensures ids != [] ==> ids[|ids| - 1] >= |ids|
  {
    if |ids| > 1 {
      ArrivingAreFew(ids[..|ids| - 1]);
    }
  }

  /** From the second id on there is an estimate. */
  lemma {:induction false} EstimateIsKnown(ids: Arriving)
    requires |ids| >= 2
    ensures Fed(Initial(), ids).pdr.Ratio?
  {
    if |ids| == 2 {
      ExactUntilFull(Initial(), ids);
    } else {
      EstimateIsKnown(ids[..|ids| - 1]);
      TableHoldsNewest(Initial(), ids);
    }
  }

  lemma QualityOf(s: Source)
    requires s.Valid() && (s.count >= 2 ==> s.pdr.Ratio?) && (s.count == 0 ==> s.pdr.Unknown?)
    ensures |QualitySet(s)| == if s.count > 0 && s.count % 10 == 0 then 1 else 0
    ensures s.count > 0 && s.count % 10 == 0 ==> QualitySet(s) == [s.pdr.num / s.pdr.den]
  {
  }

  lemma FedIsCounted(ids: Arriving)
    ensures var s := Fed(Initial(), ids);
            s.Valid() && s.count == |ids| && (|ids| >= 2 ==> s.pdr.Ratio?) && (|ids| == 0 ==> s.pdr.Unknown?)
  {
    hide Updated, QualitySet;
    CountsAll(Initial(), ids);
    ArrivingAreFew(ids);
    if |ids| >= 2 {
      EstimateIsKnown(ids);
    }
  }

  lemma SpanIsPositive(ids: Arriving)
    requires |ids| >= 2
    ensures Span(ids[0], ids[|ids| - 1]) == ids[|ids| - 1] - ids[0] > 0
  {
  }

  /** Every tenth update hands a quality on, and no other; until the table is full it is the whole percentage of the
      ids received, the first one not counted, among those sent since. */
  lemma EveryTenthHandsOn(ids: Arriving)
    ensures |QualitySet(Fed(Initial(), ids))| == if |ids| > 0 && |ids| % 10 == 0 then 1 else 0
    ensures 0 < |ids| <= 300 && |ids| % 10 == 0 ==>
              var sent: int := ids[|ids| - 1] - ids[0] as int;
              sent > 0 && QualitySet(Fed(Initial(), ids)) == [100 * (|ids| - 1) / sent]
  {
    hide Fed, QualitySet, Increasing, Span;
    FedIsCounted(ids);
    QualityOf(Fed(Initial(), ids));
    if 2 <= |ids| <= 300 {
      ExactUntilFull(Initial(), ids);
      SpanIsPositive(ids);
    }
  }

  // ---------------------------------------------------------------- a table in two pieces

  /** The newest ids in slots 0 to p, older ones in slots a to 299, nothing in between. */
  ghost predicate TwoPieces(table: seq<MsgId>, p: nat, a: nat) {
    && |table| == TABLE_SIZE && p < a < TABLE_SIZE && Rises(table, 0, p) && Rises(table, a, PAIRS)
    && table[PAIRS] < table[0] && (forall j :: p < j < a ==> table[j] == 0)
  }

  lemma TwoPiecesMissed(table: seq<MsgId>, p: nat, a: nat)
    requires TwoPieces(table, p, a)
    ensures Missed(table, PAIRS) == table[p] - table[0] - p + table[PAIRS] - table[a] - (PAIRS - a)
  {
    GapsTelescope(table, 0, p);
    Rising(table, 0, p);
    Rising(table, a, PAIRS);
    NoGaps(table, p, a);
    GapsTelescope(table, a, PAIRS);
  }

  lemma TwoPiecesEstimate(table: seq<MsgId>, p: nat, a: nat, was: Estimate)
    requires TwoPieces(table, p, a) && a < PAIRS
    ensures EstimateOf(table, table[p], was) ==
              Ratio(100 * (p + TABLE_SIZE - a + Between(table[PAIRS], table[0])), Span(table[a], table[p]))
  {
    TwoPiecesMissed(table, p, a);
    Rising(table, 0, p);
    Rising(table, a, PAIRS);
    IsLeast(table, table[p], PAIRS, a);
    EstimateIs(table, table[p], was, table[a], p + TABLE_SIZE - a + Between(table[PAIRS], table[0]));
  }

  lemma OldestAloneEstimate(table: seq<MsgId>, p: nat, was: Estimate)
    requires TwoPieces(table, p, PAIRS)
    ensures EstimateOf(table, table[p], was) == if p == 0 then was else Ratio(100 * p, Span(table[0], table[p]))
  {
    TwoPiecesMissed(table, p, PAIRS);
    Rising(table, 0, p);
    if p > 0 {
      IsLeast(table, table[p], PAIRS, 0);
      EstimateIs(table, table[p], was, table[0], p);
    } else {
      LeastIsMinimum(table, table[p], PAIRS);
    }
  }

  /** First slot of the older piece: the one after the newest id when the table is full, else where the ids began. */
  function OlderFrom(write: nat, k: nat, p: nat): nat {
    if k >= TABLE_SIZE then p + 1 else write
  }

  /** Which of the ids each slot holds once the last slot was passed. */
  lemma SlotsInOrder(write: nat, ids: Arriving, p: nat)
    requires write < TABLE_SIZE < write + |ids| && p == Newest(write + |ids|)
    ensures p + 1 < |ids| && (|ids| < TABLE_SIZE ==> p < write)
    ensures forall j :: 0 <= j <= p ==> TableOf(write, ids)[j] == ids[|ids| - 1 - p + j]
    ensures forall j :: p < j < TABLE_SIZE ==>
              TableOf(write, ids)[j] ==
                if j < OlderFrom(write, |ids|, p) then 0 else ids[|ids| - 1 - p + j - TABLE_SIZE]
  {
    PiecesMeet(write, |ids|, p);
  }

  lemma PiecesMeet(write: nat, k: nat, p: nat)
    requires write < TABLE_SIZE < write + k && p == Newest(write + k)
    ensures write + k - 1 - p >= TABLE_SIZE && (k < TABLE_SIZE ==> write + k - 1 - p == TABLE_SIZE)
  {
  }

  lemma TableIsTwoPieces(write: nat, ids: Arriving, p: nat)
    requires write < TABLE_SIZE < write + |ids| && p == Newest(write + |ids|) < PAIRS
    ensures var table, a, k := TableOf(write, ids), OlderFrom(write, |ids|, p), |ids|;
            && p + 1 < k && TwoPieces(table, p, a)
            && table[p] == ids[k - 1] && table[0] == ids[k - 1 - p] && table[PAIRS] == ids[k - 2 - p]
            && table[a] == ids[if k < TABLE_SIZE then 0 else k - TABLE_SIZE]
  {
    SlotsInOrder(write, ids, p);
    PiecesMeet(write, |ids|, p);
  }

  /** The table behind the estimate once the last slot was passed. */
  lemma TableBehind(s: Source, ids: Arriving, p: nat, a: nat) returns (table: seq<MsgId>, was: Estimate)
    requires Cleared(s) && s.write + |ids| > TABLE_SIZE && p == Newest(s.write + |ids|) < PAIRS
    requires a == OlderFrom(s.write, |ids|, p)
    ensures p + 1 < |ids| && TwoPieces(table, p, a)
    ensures was == Fed(s, ids[..|ids| - 1]).pdr && Fed(s, ids).pdr == EstimateOf(table, table[p], was)
    ensures table[p] == ids[|ids| - 1] && table[0] == ids[|ids| - 1 - p] && table[PAIRS] == ids[|ids| - 2 - p]
    ensures table[a] == ids[if |ids| < TABLE_SIZE then 0 else |ids| - TABLE_SIZE]
  {
    TableHoldsNewest(s, ids);
    TableIsTwoPieces(s.write, ids, p);
    table, was := TableOf(s.write, ids), Fed(s, ids[..|ids| - 1]).pdr;
  }

  lemma HeldAre(write: nat, k: nat, p: nat)
    requires write < TABLE_SIZE < write + k && p == Newest(write + k) < PAIRS
    ensures p + TABLE_SIZE - OlderFrom(write, k, p) == (if k < TABLE_SIZE then k else TABLE_SIZE) - 1
  {
    PiecesMeet(write, k, p);
  }

  lemma PiecesEstimate(table: seq<MsgId>, p: nat, a: nat, was: Estimate, held: int,
                       last: MsgId, next: MsgId, oldest: MsgId, newest: MsgId)
    requires TwoPieces(table, p, a) && a < PAIRS && p + TABLE_SIZE - a == held - 1
    requires table[PAIRS] == last && table[0] == next && table[a] == oldest && table[p] == newest
    ensures EstimateOf(table, newest, was) == Ratio(100 * (held - 1 + Between(last, next)), Span(oldest, newest))
  {
    TwoPiecesEstimate(table, p, a, was);
  }

  lemma ClearedHolds(s: Source, k: nat, p: nat)
    requires Cleared(s) && s.write + k > TABLE_SIZE && p == Newest(s.write + k) < PAIRS
    ensures p + TABLE_SIZE - OlderFrom(s.write, k, p) == (if k < TABLE_SIZE then k else TABLE_SIZE) - 1
  {
    HeldAre(s.write, k, p);
  }

  lemma GapEstimate(s: Source, ids: Arriving, p: nat, a: nat, held: int)
    requires Cleared(s) && s.write + |ids| > TABLE_SIZE && p == Newest(s.write + |ids|) < PAIRS
    requires a == OlderFrom(s.write, |ids|, p) < PAIRS && p + TABLE_SIZE - a == held - 1
    requires held == if |ids| < TABLE_SIZE then |ids| else TABLE_SIZE
    ensures var k := |ids|;
            p + 1 < k && Fed(s, ids).pdr ==
              Ratio(100 * (held - 1 + Between(ids[k - 2 - p], ids[k - 1 - p])), Span(ids[k - held], ids[k - 1]))
  {
    hide *;
    var table, was := TableBehind(s, ids, p, a);
    var k := |ids|;
    PiecesEstimate(table, p, a, was, held, ids[k - 2 - p], ids[k - 1 - p], ids[k - held], ids[k - 1]);
  }

  /** Once the last slot was passed, the gap between the last slot and the first is not counted: the ids missing there
      pass for received. */
  lemma OneGapUncounted(s: Source, ids: Arriving, p: nat)
    requires Cleared(s) && s.write + |ids| > TABLE_SIZE && p == Newest(s.write + |ids|) < PAIRS
    requires OlderFrom(s.write, |ids|, p) < PAIRS
    ensures var k := |ids|;
            var held := if k < TABLE_SIZE then k else TABLE_SIZE;
            p + 1 < k && Fed(s, ids).pdr ==
              Ratio(100 * (held - 1 + Between(ids[k - 2 - p], ids[k - 1 - p])), Span(ids[k - held], ids[k - 1]))
  {
    hide *;
    ClearedHolds(s, |ids|, p);
    GapEstimate(s, ids, p, OlderFrom(s.write, |ids|, p), if |ids| < TABLE_SIZE then |ids| else TABLE_SIZE);
  }

  /** If the oldest id stands alone in the last slot, it is not counted at all. */
  lemma OldestIgnoredInLastSlot(s: Source, ids: Arriving, p: nat)
    requires Cleared(s) && s.write + |ids| > TABLE_SIZE && p == Newest(s.write + |ids|) < PAIRS
    requires OlderFrom(s.write, |ids|, p) == PAIRS
    ensures var k := |ids|;
            p + 1 < k && Fed(s, ids).pdr ==
              if p == 0 then Fed(s, ids[..k - 1]).pdr else Ratio(100 * p, Span(ids[k - 1 - p], ids[k - 1]))
  {
    var table, was := TableBehind(s, ids, p, PAIRS);
    OldestAloneEstimate(table, p, was);
  }

  lemma TableIsFull(write: nat, ids: Arriving)
    requires write < TABLE_SIZE < write + |ids| && Newest(write + |ids|) == PAIRS
    ensures |ids| >= TABLE_SIZE && OnePiece(TableOf(write, ids), 0, PAIRS)
    ensures TableOf(write, ids)[0] == ids[|ids| - TABLE_SIZE] && TableOf(write, ids)[PAIRS] == ids[|ids| - 1]
  {
    SlotsInOrder(write, ids, PAIRS);
    PiecesMeet(write, |ids|, PAIRS);
  }

  lemma FullTableBehind(s: Source, ids: Arriving) returns (table: seq<MsgId>, was: Estimate)
    requires Cleared(s) && s.write + |ids| > TABLE_SIZE && Newest(s.write + |ids|) == PAIRS
    ensures |ids| >= TABLE_SIZE && OnePiece(table, 0, PAIRS)
    ensures Fed(s, ids).pdr == EstimateOf(table, table[PAIRS], was)
    ensures table[0] == ids[|ids| - TABLE_SIZE] && table[PAIRS] == ids[|ids| - 1]
  {
    TableHoldsNewest(s, ids);
    TableIsFull(s.write, ids);
    table, was := TableOf(s.write, ids), Fed(s, ids[..|ids| - 1]).pdr;
  }

  /** With the newest id in the last slot and the table full, nothing is left out. */
  lemma ExactInLastSlot(s: Source, ids: Arriving)
    requires Cleared(s) && s.write + |ids| > TABLE_SIZE && Newest(s.write + |ids|) == PAIRS
    ensures |ids| >= TABLE_SIZE
    ensures Fed(s, ids).pdr == Ratio(100 * PAIRS, Span(ids[|ids| - TABLE_SIZE], ids[|ids| - 1]))
  {
    var table, was := FullTableBehind(s, ids);
    OnePieceEstimate(table, 0, PAIRS, was);
  }

  // ---------------------------------------------------------------- when the table is emptied

  /** Whether an id empties a table of increasing ids: it is earlier than the one before it, or, written to slot 0,
      than the one before that, since the last slot starts no pair. Id 0 counts as no id: it empties the table as
      soon as some pair is left. */
  predicate ResetsOn(write: nat, ids: seq<MsgId>, id: MsgId) {
    var k, slot := |ids|, (write + |ids|) % TABLE_SIZE;
    if id == 0 then k >= if slot == 1 then 3 else 2
    else if slot == 0 then k >= 2 && ids[k - 2] > id
    else k >= 1 && ids[k - 1] > id
  }

  /** How many ids ago a slot was written, the slot about to be written being the 300th. */
  function AgeOf(slot: nat, next: nat): nat
    requires slot < TABLE_SIZE && next < TABLE_SIZE
  {
    if slot < next then next - slot else next - slot + TABLE_SIZE
  }

  lemma SlotByAge(write: nat, ids: seq<MsgId>, slot: nat)
    requires write < TABLE_SIZE && slot < TABLE_SIZE
    ensures var age := AgeOf(slot, (write + |ids|) % TABLE_SIZE);
            TableOf(write, ids)[slot] == if age <= |ids| then ids[|ids| - age] else 0
  {
    var k, next := write + |ids|, (write + |ids|) % TABLE_SIZE;
    if ids != [] {
      assert Newest(k) == if next == 0 then PAIRS else next - 1;
      assert Holds(k, slot) == k - AgeOf(slot, next);
    }
  }

  /** The table just after the id was written, by age. */
  ghost predicate ByAge(table: seq<MsgId>, next: nat, ids: seq<MsgId>, id: MsgId) {
    && |table| == TABLE_SIZE && next < TABLE_SIZE && table[next] == id
    && forall j: nat :: j < TABLE_SIZE && j != next ==>
         table[j] == if AgeOf(j, next) <= |ids| then ids[|ids| - AgeOf(j, next)] else 0
  }

  lemma WrittenByAge(s: Source, write: nat, ids: seq<MsgId>, id: MsgId)
    requires Holding(s, write, ids)
    ensures ByAge(s.table[s.write := id], s.write, ids, id)
  {
    forall j: nat | j < TABLE_SIZE && j != s.write
      ensures s.table[j] == if AgeOf(j, s.write) <= |ids| then ids[|ids| - AgeOf(j, s.write)] else 0
    {
      SlotByAge(write, ids, j);
    }
  }

  lemma ResetNeeds(table: seq<MsgId>, next: nat, ids: Arriving, id: MsgId, i: nat)
    requires ByAge(table, next, ids, id) && i < PAIRS && Filled(table, i) && table[i] > id
    ensures if id == 0 then |ids| >= if next == 1 then 3 else 2
            else if next == 0 then |ids| >= 2 && ids[|ids| - 2] > id
            else |ids| >= 1 && ids[|ids| - 1] > id
  {
  }

  lemma ResetSuffices(table: seq<MsgId>, next: nat, ids: Arriving, id: MsgId)
    requires ByAge(table, next, ids, id)
    requires if id == 0 then |ids| >= if next == 1 then 3 else 2
             else if next == 0 then |ids| >= 2 && ids[|ids| - 2] > id
             else |ids| >= 1 && ids[|ids| - 1] > id
    ensures OutOfOrder(table, id, PAIRS)
  {
    var i := if next < 2 && (id == 0 || next == 0) then 298 else if id == 0 then next - 2 else next - 1;
    assert Filled(table, i) && table[i] > id;
  }

  lemma OutOfOrderExactly(s: Source, write: nat, ids: Arriving, id: MsgId)
    requires Holding(s, write, ids)
    ensures OutOfOrder(s.table[s.write := id], id, PAIRS) <==> ResetsOn(write, ids, id)
  {
    var table := s.table[s.write := id];
    WrittenByAge(s, write, ids, id);
    if OutOfOrder(table, id, PAIRS) {
      var i :| 0 <= i < PAIRS && Filled(table, i) && table[i] > id;
      ResetNeeds(table, s.write, ids, id, i);
    }
    if ResetsOn(write, ids, id) {
      ResetSuffices(table, s.write, ids, id);
    }
  }

  /** Exactly when an id that follows increasing ones empties the table, wherever these began: as when the 16-bit ids
      start over. What was learnt is then forgotten, except for the last estimate and the write position. */
  lemma ResetsExactly(s: Source, write: nat, ids: Arriving, id: MsgId)
    requires Holding(s, write, ids)
    ensures var r := Updated(s, id);
            && r.write == (s.write + 1) % TABLE_SIZE
            && if ResetsOn(write, ids, id) then Cleared(r) && r.pdr == s.pdr else r.table == s.table[s.write := id]
  {
    OutOfOrderExactly(s, write, ids, id);
    UpdateKeepsValid(s, id);
  }

  // ---------------------------------------------------------------- the estimator

  class Estimator {
    const table: array<MsgId>
    var write: nat
    var count: nat
    var pdr: Estimate

    ghost predicate Shape()
      reads this, table
    {
      table.Length == TABLE_SIZE && Now().Valid()
    }

    ghost function Now(): Source
      reads this, table
    {
      Source(table[..], write, count, pdr)
    }

    /** pdr_init, for one source. */
    constructor ()
      ensures Shape() && Now() == Initial() && fresh(table)
    {
      table := new MsgId[TABLE_SIZE](_ => 0);
      write, count, pdr := 0, 0, Unknown;
      new;
      assert table[..] == Empty();
    }

    /** Walks over the pairs of slots. */
    method Scan(id: MsgId) returns (missed: nat, least: MsgId, inOrder: bool)
      requires table.Length == TABLE_SIZE
      ensures inOrder <==> !OutOfOrder(table[..], id, PAIRS)
      ensures inOrder ==> missed == Missed(table[..], PAIRS) && least == Least(table[..], id, PAIRS)
    {
      missed, least, inOrder := 0, id, true;
      ghost var t := table[..];
      for i := 0 to PAIRS
        invariant !OutOfOrder(t, id, i) && missed == Missed(t, i) && least == Least(t, id, i)
      {
        if table[i] == 0 { continue; }
        if table[i + 1] == 0 { continue; }
        assert Filled(t, i);
        var diff := Between(table[i], table[i + 1]);
        if diff > 0 { missed := missed + diff; }
        if table[i] < least { least := table[i]; }
        if table[i] > id {
          return missed, least, false;
        }
      }
    }

    /** pdr_estimate. */
    method Estimate(id: MsgId)
      requires Shape()
      modifies this, table
      ensures Shape() && Now() == Estimated(old(Now()), id)
    {
      table[write] := id;
      write := (write + 1) % TABLE_SIZE;
      var missed, least, inOrder := Scan(id);
      if !inOrder {
        Reset();
        return;
      }
      Conclude(id, missed, least);
    }

    method Reset()
      requires table.Length == TABLE_SIZE
      modifies table
      ensures table[..] == Empty()
    {
      for j := 0 to TABLE_SIZE
        invariant forall i :: 0 <= i < j ==> table[i] == 0
      {
        table[j] := 0;
      }
    }

    /** Turns the missing ids into a percentage. */
    method Conclude(id: MsgId, missed: nat, least: MsgId)
      requires table.Length == TABLE_SIZE
      requires missed == Missed(table[..], PAIRS) && least == Least(table[..], id, PAIRS)
      modifies `pdr
      ensures pdr == EstimateOf(table[..], id, old(pdr))
    {
      var range := Span(least, id);
      if range <= 0 {
        return;
      }
      var num := 100 * (range - missed);
      if num < 0 { num := 0; }
      if num > 100 * range { num := 100 * range; }
      pdr := Ratio(num, range);
    }

    /** pdr_update; the result is the quality to set, if any. */
    method Update(id: MsgId) returns (quality: seq<Byte>)
      requires Shape()
      modifies this, table
      ensures Shape() && Now() == Updated(old(Now()), id) && quality == QualitySet(Now())
    {
      count := (count + 1) % 0x1_0000;
      Estimate(id);
      quality := [];
      if count % UPDATE_INTERVAL == 0 {
        if pdr.Ratio? {
          PercentIsSmall(pdr.num, pdr.den);
          quality := [pdr.num / pdr.den];
        }
      }
    }
  }
}

/** A round of one node in terms of the delays it recorded: what is averaged, when the slot moves, and how far. */
module SyncRounds {
  import opened Base
  import opened Sync

  /** How many delays were recorded from a sender, and what they add up to. */
  function CountFrom(records: seq<Record>, sender: int): nat {
    if records == [] then 0
    else CountFrom(records[..|records| - 1], sender) + if records[|records| - 1].sender == sender then 1 else 0
  }

  function TotalFrom(records: seq<Record>, sender: int): int {
    if records == [] then 0
    else
      var last := records[|records| - 1];
      TotalFrom(records[..|records| - 1], sender) + if last.sender == sender then last.delay else 0
  }

  lemma {:induction false} DelaysAddUp(records: seq<Record>, sender: int)
    ensures |DelaysOf(records, sender)| == CountFrom(records, sender)
    ensures Sum(DelaysOf(records, sender)) == TotalFrom(records, sender)
  {
    if records != [] {
      var init, last := records[..|records| - 1], records[|records| - 1];
      DelaysAddUp(init, sender);
      assert (DelaysOf(init, sender) + [last.delay])[..|DelaysOf(init, sender)|] == DelaysOf(init, sender);
    }
  }

  /** The mean of a sender, in whole milliseconds towards zero, of all that was recorded from it. */
  lemma MeanIsExact(records: seq<Record>, sender: int)
    requires CountFrom(records, sender) > 0
    ensures DelaysOf(records, sender) != []
    ensures var n, total := CountFrom(records, sender), TotalFrom(records, sender);
            var mean := MeanMs(DelaysOf(records, sender));
            if total >= 0 then 1000 * n * mean <= total < 1000 * n * (mean + 1)
            else 1000 * n * (mean - 1) < total <= 1000 * n * mean
  {
    DelaysAddUp(records, sender);
    QuotientIs(TotalFrom(records, sender), 1000 * CountFrom(records, sender));
  }

  lemma QuotientIs(x: int, m: int)
    requires m > 0
    ensures if x >= 0 then m * TruncDiv(x, m) <= x < m * (TruncDiv(x, m) + 1)
            else m * (TruncDiv(x, m) - 1) < x <= m * TruncDiv(x, m)
  {
    if x < 0 {
      var q := -x / m;
      assert m * (-q) == -(m * q) && m * (-q - 1) == -(m * q) - m;
    }
  }

  // ---------------------------------------------------------------- when the slot moves

  /** The delays of this sender are 5 ms and more on average. */
  ghost predicate IsAhead(records: seq<Record>, sender: int) {
    && 1 <= sender <= 20 && CountFrom(records, sender) > 0
    && TotalFrom(records, sender) >= 5000 * CountFrom(records, sender)
  }

  lemma MeanIsAhead(records: seq<Record>, sender: int)
    requires 1 <= sender <= 20
    ensures IsAhead(records, sender) <==>
              DelaysOf(records, sender) != [] && MeanMs(DelaysOf(records, sender)) > SYNC_DEADBAND_MS
  {
    DelaysAddUp(records, sender);
    if CountFrom(records, sender) > 0 {
      MeanIsExact(records, sender);
      var n, mean := CountFrom(records, sender), MeanMs(DelaysOf(records, sender));
      Compare(n, mean, TotalFrom(records, sender));
    }
  }

  lemma Compare(n: nat, mean: int, total: int)
    requires n > 0
    requires if total >= 0 then 1000 * n * mean <= total < 1000 * n * (mean + 1)
             else 1000 * n * (mean - 1) < total <= 1000 * n * mean
    ensures total >= 5000 * n <==> mean >= 5
  {
    if mean >= 5 {
      MultipleIsFar(mean - 4, 1000 * n);
      assert 1000 * n * mean == (mean - 4) * (1000 * n) + 4000 * n;
    } else {
      assert 1000 * n * (mean + 1) == (mean - 4) * (1000 * n) + 5000 * n;
      if mean < 4 {
        MultipleIsFar(mean - 4, 1000 * n);
      }
    }
  }

  lemma {:induction false} DeltaIsBeyond(records: seq<Record>, k: nat)
    requires k <= 20
    ensures DeltaUpto(records, k) > SYNC_DEADBAND_MS <==> exists sender :: sender <= k && IsAhead(records, sender)
  {
    if k > 0 {
      DeltaIsBeyond(records, k - 1);
      MeanIsAhead(records, k);
      if sender :| sender <= k && IsAhead(records, sender) {
        assert sender < k ==> sender <= k - 1;
      }
    }
  }

  /** With slots of 50 ms: the slot moves, by 5 ms if the full share is drawn and by 4 ms otherwise, exactly if the
      delays recorded from some sender in range are 5 ms and more on average; then the rounds that count towards
      stability begin anew. A round that heard somebody and moves nothing counts. */
  lemma MovesIff(s: State, rnd: int)
    requires s.Valid() && s.Width() == 50 && 0 <= rnd <= 100
    ensures var r, moves := AfterRound(s, rnd), exists sender :: IsAhead(s.records, sender);
            && ShiftOf(s, rnd) == (if !moves then 0 else if rnd == 100 then 5 else 4)
            && r.records == [] && r.begin == (s.begin + ShiftOf(s, rnd)) % s.period
            && r.end == (r.begin + 50) % s.period
            && r.stable == if moves then 0
                           else if s.records == [] || s.stable >= 1_000_000 then s.stable else s.stable + 1
  {
    DeltaIsBeyond(s.records, MAX_NODES);
    NothingHeard(s.records);
    assert Limit(50) == 5 && Share(5, rnd) == (2000 + 5 * rnd) / 500;
    NoTurn(s.begin, s.period);
  }

  lemma NothingHeard(records: seq<Record>)
    ensures records == [] ==> !exists sender :: IsAhead(records, sender)
  {
  }

  /** For slots of any width, a move is at most a tenth of the slot (but 1 ms); with the full share drawn it is
      that, or the whole misalignment; and never less than four fifths of what the full share is, down to whole
      milliseconds. */
  lemma ShareIsDrawn(s: State, rnd: int)
    requires s.Valid() && 0 <= rnd <= 100 && Delta(s.records) > 4
    ensures ShiftOf(s, rnd) <= ShiftOf(s, 100) <= Delta(s.records) && 4 * ShiftOf(s, 100) < 5 * (ShiftOf(s, rnd) + 1)
    ensures 10 * ShiftOf(s, 100) <= s.Width() || ShiftOf(s, 100) == 1
    ensures ShiftOf(s, 100) == Delta(s.records) || 10 * (ShiftOf(s, 100) + 1) > s.Width()
  {
    ShareOf(if Delta(s.records) > Limit(s.Width()) then Limit(s.Width()) else Delta(s.records), rnd);
    hide Share;
  }

  lemma ShareOf(d: int, rnd: int)
    requires d >= 0 && 0 <= rnd <= 100
    ensures Share(d, rnd) <= Share(d, 100) == d && 4 * d < 5 * (Share(d, rnd) + 1)
  {
    assert d * (400 + rnd) == 400 * d + d * rnd && 0 <= d * rnd;
  }

  // ---------------------------------------------------------------- the order of arrival

  lemma {:induction false} CountOfSum(a: seq<Record>, b: seq<Record>, sender: int)
    ensures CountFrom(a + b, sender) == CountFrom(a, sender) + CountFrom(b, sender)
    ensures TotalFrom(a + b, sender) == TotalFrom(a, sender) + TotalFrom(b, sender)
  {
    if b == [] {
      assert a + b == a;
    } else {
      CountOfSum(a, b[..|b| - 1], sender);
      assert (a + b)[..|a + b| - 1] == a + b[..|b| - 1];
    }
  }

  lemma Remove(b: seq<Record>, i: nat, sender: int)
    requires i < |b|
    ensures CountFrom(b, sender) == CountFrom(b[..i] + b[i + 1..], sender) + CountFrom([b[i]], sender)
    ensures TotalFrom(b, sender) == TotalFrom(b[..i] + b[i + 1..], sender) + TotalFrom([b[i]], sender)
    ensures multiset(b) == multiset(b[..i] + b[i + 1..]) + multiset{b[i]}
  {
    assert b == (b[..i] + [b[i]]) + b[i + 1..];
    CountOfSum(b[..i] + [b[i]], b[i + 1..], sender);
    CountOfSum(b[..i], [b[i]], sender);
    CountOfSum(b[..i], b[i + 1..], sender);
  }

  lemma {:induction false} SameRecords(a: seq<Record>, b: seq<Record>, sender: int)
    requires multiset(a) == multiset(b)
    ensures CountFrom(a, sender) == CountFrom(b, sender) && TotalFrom(a, sender) == TotalFrom(b, sender)
  {
    if a == [] {
      assert |multiset(b)| == |b|;
    } else {
      var k := |a| - 1;
      assert a[k] in multiset(b);
      var i: nat :| i < |b| && b[i] == a[k];
      Remove(a, k, sender);
      Remove(b, i, sender);
      assert a[..k] + a[k + 1..] == a[..k];
      assert multiset(a[..k]) == multiset(a) - multiset{a[k]};
      assert multiset(b[..i] + b[i + 1..]) == multiset(b) - multiset{b[i]};
      SameRecords(a[..k], b[..i] + b[i + 1..], sender);
    }
  }

  lemma SameMean(a: seq<Record>, b: seq<Record>, sender: int)
    requires multiset(a) == multiset(b)
    ensures DelaysOf(a, sender) == [] <==> DelaysOf(b, sender) == []
    ensures DelaysOf(a, sender) != [] ==> MeanMs(DelaysOf(a, sender)) == MeanMs(DelaysOf(b, sender))
  {
    SameRecords(a, b, sender);
    DelaysAddUp(a, sender);
    DelaysAddUp(b, sender);
  }

  lemma {:induction false} SameDelta(a: seq<Record>, b: seq<Record>, k: nat)
    requires multiset(a) == multiset(b)
    ensures DeltaUpto(a, k) == DeltaUpto(b, k)
  {
    if k > 0 {
      SameDelta(a, b, k - 1);
      SameMean(a, b, k);
    }
  }

  /** The order in which the delays of a round arrived does not matter. */
  lemma OrderIsIrrelevant(s: State, records: seq<Record>, rnd: int)
    requires s.Valid() && 0 <= rnd <= 100 && multiset(records) == multiset(s.records)
    ensures s.(records := records).Valid() && AfterRound(s.(records := records), rnd) == AfterRound(s, rnd)
  {
    assert |multiset(records)| == |records| && |multiset(s.records)| == |s.records|;
    SameDelta(records, s.records, MAX_NODES);
  }

  // ---------------------------------------------------------------- what is kept of a round

  function RecordedAll(s: State, records: seq<Record>): State {
    if records == [] then s
    else
      var last := records[|records| - 1];
      Recorded(RecordedAll(s, records[..|records| - 1]), last.sender, last.delay)
  }

  /** The first 64 delays of a round are kept, in order, and nothing else changes. */
  lemma {:induction false} FirstAreKept(s: State, records: seq<Record>)
    requires s.records == []
    ensures RecordedAll(s, records) == s.(records := if |records| <= 64 then records else records[..64])
  {
    if records != [] {
      var init := records[..|records| - 1];
      FirstAreKept(s, init);
      assert init + [records[|records| - 1]] == records;
    }
  }
}

/** How late beacons may be before nodes chase each other for ever: exactly when their lateness, summed over the
    nodes, makes up the full share of 5 ms; if the full share is never drawn, when its excess makes up a step of 4
    ms. */
module LateBeacons {
  import opened Base
  import opened Sync
  import opened SyncProtocol

  /** A mesh and the events it can take, lateness and all. */
  ghost predicate Playable(m: Mesh, events: seq<Event>) {
    && (forall i :: 0 <= i < |m| ==> m[i].sync.Valid())
    && (forall k :: 0 <= k < |events| ==> Possible(m, events[k]))
  }

  lemma StepIsPlayable(m: Mesh, e: Event)
    requires Possible(m, e) && forall i :: 0 <= i < |m| ==> m[i].sync.Valid()
    ensures |Step(m, e)| == |m| && forall i :: 0 <= i < |m| ==> Step(m, e)[i].sync.Valid()
    ensures forall i :: 0 <= i < |m| ==> Step(m, e)[i].clock == m[i].clock
  {
    match e
    case Beacon(sender, receiver, instant, late) =>
      SlotStaysInFrame(m[receiver].sync, m[sender].sync.slotId, Heard(m[receiver], m[sender], instant, late), 0);
    case EndOfSlot(node, rnd) => SlotStaysInFrame(m[node].sync, 0, 0, rnd);
  }

  ghost function Played(m: Mesh, events: seq<Event>): (r: Mesh)
    requires Playable(m, events)
    ensures |r| == |m| && forall i :: 0 <= i < |m| ==> r[i].sync.Valid() && r[i].clock == m[i].clock
  {
    if events == [] then m
    else
      var before, last := Played(m, events[..|events| - 1]), events[|events| - 1];
      assert Possible(m, last);
      StepIsPlayable(before, last);
      Step(before, last)
  }

  /** Beacons at most as late as the terms say, any draws, the full share only if they say so. */
  ghost predicate LateRun(m: Mesh, events: seq<Event>, terms: Terms) {
    && Playable(m, events)
    && forall k :: 0 <= k < |events| ==> Allowed(events[k], terms)
  }

  predicate Allowed(e: Event, terms: Terms) {
    if e.Beacon? then e.late <= terms.late else e.rnd < 100 || terms.full
  }

  ghost predicate StaysBelow(m: Mesh, terms: Terms, bound: int) {
    forall events :: LateRun(m, events, terms) ==> forall i :: 0 <= i < |m| ==> Played(m, events)[i].offset <= bound
  }

  /** The longest step that can be drawn, and how far it can overshoot. */
  function StepOf(terms: Terms): int {
    if terms.full then FULL_US else STEP_US
  }

  function Surplus(terms: Terms): int {
    if terms.full then terms.late else Excess(terms.late)
  }

  /** As many nodes as slots right after sync_init, well within half a frame of each other. */
  ghost predicate Together(m: Mesh, n: int) {
    && |m| == n
    && (forall i :: 0 <= i < n ==>
          m[i].sync == Initial(i + 1, n, SLOT_MS * n) && Congruent(m[i].offset, -m[i].clock, Frame(n)))
    && (forall i, j :: 0 <= i < n && 0 <= j < n ==> 2 * (m[i].offset - m[j].offset + FULL_US) < Frame(n))
  }

  // ---------------------------------------------------------------- little lateness

  /** How far beyond top + x an offset comes when its steps of 4 ms first pass it, less one. */
  function Overshoot(offset: int, top: int, x: nat): nat {
    (offset - top - x - 1) % STEP_US
  }

  /** The places within the next step that an overshoot from this offset could jump over. */
  ghost function Reachable(offset: int, top: int, excess: nat): set<nat> {
    set x: nat | x < STEP_US && Overshoot(offset, top, x) < excess
  }

  lemma ReachableCount(offset: int, top: int, excess: nat)
    ensures |Reachable(offset, top, excess)| <= excess
  {
    var s := Reachable(offset, top, excess);
    var image := set x | x in s :: Overshoot(offset, top, x);
    ImageCount(s, offset, top);
    assert forall y :: y in image ==> y in Below(excess);
    SubsetCount(image, Below(excess));
  }

  lemma OvershootDiffers(offset: int, top: int, x: nat, y: nat)
    requires x < y < STEP_US
    ensures Overshoot(offset, top, x) != Overshoot(offset, top, y)
  {
    var a := offset - top - 1;
    assert (a - x) - (a - y) == y - x;
  }

  lemma {:induction false} ImageCount(s: set<nat>, offset: int, top: int)
    requires forall x :: x in s ==> x < STEP_US
    ensures |set x | x in s :: Overshoot(offset, top, x)| == |s|
  {
    if s != {} {
      var x :| x in s;
      var rest := s - {x};
      ImageCount(rest, offset, top);
      var image, less := set y | y in s :: Overshoot(offset, top, y), set y | y in rest :: Overshoot(offset, top, y);
      assert image == less + {Overshoot(offset, top, x)};
      forall y | y in rest ensures Overshoot(offset, top, y) != Overshoot(offset, top, x) {
        OvershootDiffers(offset, top, if x < y then x else y, if x < y then y else x);
      }
    }
  }

  ghost function ReachableByAny(m: Mesh, top: int, excess: nat, k: nat): (s: set<nat>)
    requires k <= |m|
    ensures |s| <= k * excess
    ensures forall i, x: nat :: 0 <= i < k && x in Reachable(m[i].offset, top, excess) ==> x in s
  {
    if k == 0 then {}
    else
      var rest, last := ReachableByAny(m, top, excess, k - 1), Reachable(m[k - 1].offset, top, excess);
      ReachableCount(m[k - 1].offset, top, excess);
      UnionCount(rest, last);
      assert (k - 1) * excess + excess == k * excess;
      rest + last
  }

  lemma UnionCount<T>(x: set<T>, y: set<T>)
    ensures |x + y| <= |x| + |y|
  {
    assert x + y == x + (y - x);
    SubsetCount(y - x, y);
  }

  /** If the excess of all nodes does not make up a step, some ceiling within the next step is out of reach of all. */
  lemma CeilingExists(m: Mesh, top: int, late: int) returns (ceiling: int)
    requires |m| * Excess(late) < STEP_US
    ensures top <= ceiling < top + STEP_US && Clear(m, ceiling, late)
  {
    var bad := ReachableByAny(m, top, Excess(late), |m|);
    if forall x: nat :: x < STEP_US ==> x in bad {
      SubsetCount(Below(STEP_US), bad);
    }
    var x: nat :| x < STEP_US && x !in bad;
    ceiling := top + x;
    forall i | 0 <= i < |m| ensures (m[i].offset - ceiling - 1) % STEP_US >= Excess(late) {
      assert x !in Reachable(m[i].offset, top, Excess(late));
    }
  }

  lemma {:induction false} Leader(m: Mesh, k: nat) returns (i: nat)
    requires 0 < k <= |m|
    ensures i < k && forall j :: 0 <= j < k ==> m[j].offset <= m[i].offset
  {
    if k == 1 {
      i := 0;
    } else {
      i := Leader(m, k - 1);
      i := if m[k - 1].offset > m[i].offset then k - 1 else i;
    }
  }

  lemma {:induction false} PlayedIsAfter(m: Mesh, n: int, top: int, terms: Terms, events: seq<Event>)
    requires Inv(m, n, top, terms) && RunOk(m, events, terms) && Playable(m, events)
    ensures Played(m, events) == After(m, n, top, terms, events)
  {
    if events != [] {
      PlayedIsAfter(m, n, top, terms, events[..|events| - 1]);
    }
  }

  lemma TogetherIsFresh(m: Mesh, n: int)
    requires n >= 1 && Together(m, n)
    ensures Fresh(m, n)
  {
  }

  /** A mesh is held below a ceiling less than one step above the most advanced node i. */
  lemma CeilingHolds(m: Mesh, n: int, terms: Terms, i: nat) returns (ceiling: int)
    requires n >= 1 && terms.late >= 0 && Together(m, n) && n * Surplus(terms) < StepOf(terms)
    requires i < n && forall j :: 0 <= j < n ==> m[j].offset <= m[i].offset
    ensures Inv(m, n, ceiling, terms) && ceiling < m[i].offset + StepOf(terms)
  {
    TogetherIsFresh(m, n);
    if terms.full {
      ceiling := m[i].offset + Spare(terms.late, n);
      Products(terms.late, 0, n - 1);
      FreshMeshIsOk(m, n, i, terms.late);
      assert terms == Terms(terms.late, true);
    } else {
      ceiling := CeilingExists(m, m[i].offset, terms.late);
      FreshMeshIsClear(m, n, ceiling, terms.late);
      assert terms == Terms(terms.late, false);
    }
  }

  lemma HeldStaysBelow(m: Mesh, n: int, top: int, terms: Terms)
    requires Inv(m, n, top, terms)
    ensures StaysBelow(m, terms, top)
  {
    forall events | LateRun(m, events, terms)
      ensures forall j :: 0 <= j < |m| ==> Played(m, events)[j].offset <= top
    {
      PlayedIsAfter(m, n, top, terms, events);
    }
  }

  /** With little lateness nobody ever passes a ceiling less than one step above the most advanced node. */
  lemma LittleLatenessIsBounded(m: Mesh, n: int, terms: Terms) returns (ceiling: int)
    requires n >= 1 && terms.late >= 0 && Together(m, n) && n * Surplus(terms) < StepOf(terms)
    ensures StaysBelow(m, terms, ceiling)
    ensures exists i :: 0 <= i < n && ceiling < m[i].offset + StepOf(terms)
  {
    var i := Leader(m, n);
    ceiling := CeilingHolds(m, n, terms, i);
    HeldStaysBelow(m, n, ceiling, terms);
  }

  // ---------------------------------------------------------------- much lateness

  /** Offsets that rise by no more than an overshoot reaches, from 0 until a whole step is made up. */
  ghost predicate Ladder(at: seq<int>, terms: Terms) {
    && |at| >= 2 && at[0] == 0 && StepOf(terms) - at[|at| - 1] <= Surplus(terms)
    && (forall i :: 0 <= i < |at| ==> 0 <= at[i] <= StepOf(terms))
    && (forall i :: 1 <= i < |at| ==> at[i - 1] <= at[i] <= at[i - 1] + Surplus(terms))
  }

  /** Lateness that can be measured, and that can make a correction overshoot. */
  predicate Chasing(terms: Terms) {
    && (if terms.full then 0 else SAFE_LATENESS) < terms.late <= FULL_US
  }

  /** The draw that makes the longest step. */
  function Draw(terms: Terms): int {
    if terms.full then 100 else 0
  }

  function StartAt(at: seq<int>, i: int): Station
    requires 0 <= i < |at|
  {
    Station(Initial(i + 1, |at|, SLOT_MS * |at|), -at[i], at[i])
  }

  function Start(at: seq<int>): Mesh {
    seq(|at|, i requires 0 <= i < |at| => StartAt(at, i))
  }

  /** After r moves of every node and one more of the first k. */
  ghost predicate Wave(m: Mesh, at: seq<int>, terms: Terms, r: nat, k: int) {
    && |m| == |at| > 0
    && forall i :: 0 <= i < |at| ==> InWave(m[i], at, terms, i, MovesOf(i, r, k))
  }

  function MovesOf(i: int, r: nat, k: int): nat {
    if i < k then r + 1 else r
  }

  function Rise(terms: Terms, moves: nat): int {
    if terms.full then FULL_US * moves else STEP_US * moves
  }

  lemma RiseMore(terms: Terms, moves: nat)
    ensures Rise(terms, moves + 1) == Rise(terms, moves) + StepOf(terms) && Rise(terms, moves) >= moves
  {
  }

  ghost predicate InWave(s: Station, at: seq<int>, terms: Terms, i: int, moves: nat)
    requires 0 <= i < |at|
  {
    && StationOk(s, |at|) && s.sync.slotId == i + 1 && s.sync.records == [] && s.clock == -at[i]
    && s.offset == at[i] + Rise(terms, moves)
  }

  lemma StartStation(at: seq<int>, terms: Terms, i: int)
    requires 0 <= i < |at|
    ensures InWave(StartAt(at, i), at, terms, i, 0)
    ensures Congruent(StartAt(at, i).offset, -StartAt(at, i).clock, Frame(|at|))
  {
    CongruentShift(at[i], Frame(|at|), 0);
    FreshStationIsOk(StartAt(at, i), |at|);
  }

  /** Together, for stations one by one. */
  lemma TogetherIf(m: Mesh, n: int)
    requires |m| == n > 0
    requires forall i :: 0 <= i < n ==> m[i].sync == Initial(i + 1, n, SLOT_MS * n)
    requires forall i :: 0 <= i < n ==> Congruent(m[i].offset, -m[i].clock, Frame(n))
    requires forall i :: 0 <= i < n ==> 0 <= m[i].offset <= FULL_US
    ensures Together(m, n)
  {
  }

  lemma StartIsWave(at: seq<int>, terms: Terms)
    requires Ladder(at, terms)
    ensures Wave(Start(at), at, terms, 0, 0) && Together(Start(at), |at|)
  {
    var m, n := Start(at), |at|;
    forall i | 0 <= i < n
      ensures InWave(m[i], at, terms, i, MovesOf(i, 0, 0)) && Congruent(m[i].offset, -m[i].clock, Frame(n))
    {
      StartStation(at, terms, i);
    }
    TogetherIf(m, n);
  }

  /** Whom node k hears in its turn: the one that moved before it. */
  function Previous(n: nat, k: nat): nat
    requires k < n
  {
    if k == 0 then n - 1 else k - 1
  }

  /** ... is nearly a whole step ahead. */
  lemma PreviousIsAhead(m: Mesh, at: seq<int>, terms: Terms, r: nat, k: nat)
    requires Ladder(at, terms) && k < |at| && Wave(m, at, terms, r, k)
    ensures StepOf(terms) - Surplus(terms) <= m[Previous(|at|, k)].offset - m[k].offset <= StepOf(terms)
  {
    var p := Previous(|at|, k);
    assert InWave(m[p], at, terms, p, MovesOf(p, r, k)) && InWave(m[k], at, terms, k, MovesOf(k, r, k));
    RiseMore(terms, r);
  }

  /** A measurement of at least 5 ms, though of less than half a frame, makes a step. */
  ghost predicate Behind(s: Station, from: Station, n: int, late: int) {
    && n >= 2 && StationOk(s, n) && StationOk(from, n) && s.sync.records == [] && 1 <= from.sync.slotId <= MAX_NODES
    && 0 <= late <= FULL_US && 0 <= from.offset - s.offset <= FULL_US <= from.offset - s.offset + late
  }

  lemma BehindMeasures(s: Station, from: Station, n: int, late: int)
    requires Behind(s, from, n, late)
    ensures Heard(s, from, FULL_US, late) == from.offset - s.offset + late >= FULL_US
  {
    hide StationOk, Heard;
    assert Frame(n) >= 1000 * SLOT_MS * 2;
    BeaconAddsLateness(s, from, n, FULL_US, late);
  }

  /** Node k hears the one before it, late, and ends its round: it moves by a whole step. */
  lemma TurnMoves(s: Station, from: Station, n: int, late: int, rnd: int)
    requires Behind(s, from, n, late) && 0 <= rnd <= 100
    ensures var heard := Hearing(s, from, FULL_US, late);
            && heard.sync.Valid() && ShiftOf(heard.sync, rnd) == (if rnd == 100 then 5 else 4) && StationOk(heard, n)
  {
    BehindMeasures(s, from, n, late);
    hide Heard, ShiftOf;
    OneRecordMoves(s.sync, n, from.sync.slotId, Heard(s, from, FULL_US, late), rnd);
    assert SlotPhase(Hearing(s, from, FULL_US, late)) == SlotPhase(s);
  }

  lemma TurnStation(s: Station, from: Station, at: seq<int>, terms: Terms, k: nat, r: nat, late: int)
    requires 2 <= |at| && k < |at| && InWave(s, at, terms, k, r) && Behind(s, from, |at|, late)
    ensures Hearing(s, from, FULL_US, late).sync.Valid()
    ensures InWave(Round(Hearing(s, from, FULL_US, late), Draw(terms)), at, terms, k, r + 1)
  {
    TurnMoves(s, from, |at|, late, Draw(terms));
    RoundKeepsStation(Hearing(s, from, FULL_US, late), |at|, Draw(terms));
    RiseMore(terms, r);
  }

  lemma OneMoves(m: Mesh, at: seq<int>, terms: Terms, r: nat, k: nat, s: Station)
    requires Wave(m, at, terms, r, k) && k < |at| && InWave(s, at, terms, k, r + 1)
    ensures Wave(m[k := s], at, terms, r, k + 1)
  {
    var m' := m[k := s];
    forall i | 0 <= i < |at| ensures InWave(m'[i], at, terms, i, MovesOf(i, r, k + 1)) {
      assert InWave(m[i], at, terms, i, MovesOf(i, r, k));
    }
  }

  /** The two events of a turn. */
  function Hears(n: nat, k: nat, late: int): Event
    requires k < n
  {
    Beacon(Previous(n, k), k, FULL_US, late)
  }

  /** A mesh that can take a turn, and the mesh after it. */
  ghost predicate CanTurn(m: Mesh, n: nat, k: nat, terms: Terms) {
    && k < n && Possible(m, Hears(n, k, terms.late)) && (forall i :: 0 <= i < |m| ==> m[i].sync.Valid())
    && Possible(Step(m, Hears(n, k, terms.late)), EndOfSlot(k, Draw(terms)))
    && (forall i :: 0 <= i < |m| ==> Step(m, Hears(n, k, terms.late))[i].sync.Valid())
  }

  ghost function Turned(m: Mesh, n: nat, k: nat, terms: Terms): Mesh
    requires CanTurn(m, n, k, terms)
  {
    Step(Step(m, Hears(n, k, terms.late)), EndOfSlot(k, Draw(terms)))
  }

  lemma PreviousIsBehind(m: Mesh, at: seq<int>, terms: Terms, r: nat, k: nat)
    requires |at| <= MAX_NODES && k < |at| && Wave(m, at, terms, r, k) && Chasing(terms) && Ladder(at, terms)
    ensures Behind(m[k], m[Previous(|at|, k)], |at|, terms.late)
  {
    PreviousIsAhead(m, at, terms, r, k);
    var p := Previous(|at|, k);
    assert InWave(m[k], at, terms, k, MovesOf(k, r, k)) && InWave(m[p], at, terms, p, MovesOf(p, r, k));
  }

  /** A turn moves its node by one step and nobody else. */
  lemma TurnWaves(m: Mesh, at: seq<int>, terms: Terms, r: nat, k: nat)
    requires 2 <= |at| <= MAX_NODES && k < |at| && Wave(m, at, terms, r, k)
    requires Chasing(terms) && CanTurn(m, |at|, k, terms) && Ladder(at, terms)
    ensures Wave(Turned(m, |at|, k, terms), at, terms, r, k + 1)
  {
    var p := Previous(|at|, k);
    var s, from := m[k], m[p];
    PreviousIsBehind(m, at, terms, r, k);
    assert InWave(s, at, terms, k, MovesOf(k, r, k));
    TurnStation(s, from, at, terms, k, r, terms.late);
    var heard := Hearing(s, from, FULL_US, terms.late);
    var moved := Round(heard, Draw(terms));
    OneMoves(m, at, terms, r, k, moved);
    assert m[k := heard][k := moved] == m[k := moved];
  }

  lemma PlayedMore(m: Mesh, events: seq<Event>, e: Event)
    requires Playable(m, events) && Possible(m, e)
    ensures Playable(m, events + [e]) && Possible(Played(m, events), e)
    ensures Played(m, events + [e]) == Step(Played(m, events), e)
  {
    var all := events + [e];
    assert all[..|events|] == events;
  }

  lemma LateMore(m: Mesh, events: seq<Event>, e: Event, terms: Terms)
    requires LateRun(m, events, terms) && Possible(m, e) && Allowed(e, terms)
    ensures LateRun(m, events + [e], terms)
  {
  }

  ghost predicate WaveRun(at: seq<int>, terms: Terms, events: seq<Event>, r: nat, k: nat) {
    |at| > 0 && LateRun(Start(at), events, terms) && Wave(Played(Start(at), events), at, terms, r, k)
  }

  lemma OneTurn(at: seq<int>, terms: Terms, r: nat, k: nat, events: seq<Event>)
    requires 2 <= |at| <= MAX_NODES && k < |at| && Ladder(at, terms)
    requires Chasing(terms) && WaveRun(at, terms, events, r, k)
    ensures WaveRun(at, terms, events + [Hears(|at|, k, terms.late)] + [EndOfSlot(k, Draw(terms))], r, k + 1)
  {
    var m, a, b := Start(at), Hears(|at|, k, terms.late), EndOfSlot(k, Draw(terms));
    assert Possible(m, a) && Possible(m, b);
    PlayedMore(m, events, a);
    PlayedMore(m, events + [a], b);
    LateMore(m, events, a, terms);
    LateMore(m, events + [a], b, terms);
    TurnWaves(Played(m, events), at, terms, r, k);
  }

  lemma WaveTurnsOver(m: Mesh, at: seq<int>, terms: Terms, r: nat)
    requires Wave(m, at, terms, r, |at|)
    ensures Wave(m, at, terms, r + 1, 0)
  {
    forall i | 0 <= i < |at| ensures InWave(m[i], at, terms, i, MovesOf(i, r + 1, 0)) {
      assert InWave(m[i], at, terms, i, MovesOf(i, r, |at|));
    }
  }

  lemma {:induction false} WaveGoesOn(at: seq<int>, terms: Terms, r: nat, k: nat) returns (events: seq<Event>)
    requires 2 <= |at| <= MAX_NODES && k <= |at| && Ladder(at, terms) && Chasing(terms)
    ensures WaveRun(at, terms, events, r, k)
    decreases r, k
  {
    if k > 0 {
      var before := WaveGoesOn(at, terms, r, k - 1);
      OneTurn(at, terms, r, k - 1, before);
      events := before + [Hears(|at|, k - 1, terms.late)] + [EndOfSlot(k - 1, Draw(terms))];
    } else if r > 0 {
      events := WaveGoesOn(at, terms, r - 1, |at|);
      WaveTurnsOver(Played(Start(at), events), at, terms, r - 1);
    } else {
      StartIsWave(at, terms);
      events := [];
    }
  }

  // ---------------------------------------------------------------- nodes spread evenly over a step

  /** Where node i of n begins. */
  function Rung(n: nat, step: nat, i: int): int
    requires n > 0
  {
    i * step / n
  }

  lemma RungIs(n: nat, step: nat, i: int)
    requires n > 0
    ensures Rung(n, step, i) * n <= i * step < Rung(n, step, i) * n + n
  {
  }

  lemma RungBounds(n: nat, step: nat, i: int)
    requires n > 0 && 0 <= i <= n
    ensures 0 <= Rung(n, step, i) <= step
    ensures (i == 0 ==> Rung(n, step, i) == 0) && (i == n ==> Rung(n, step, i) == step)
  {
    RungIs(n, step, i);
    var p := Rung(n, step, i);
    Products(step, i, n);
    assert step * n == n * step && step * i == i * step;
    assert (p - step) * n == p * n - step * n;
    MultipleIsFar(p - step, n);
    MultipleIsFar(p, n);
  }

  lemma RungsAreClose(n: nat, step: nat, i: int, surplus: int)
    requires n > 0 && n * surplus >= step
    ensures Rung(n, step, i - 1) <= Rung(n, step, i) <= Rung(n, step, i - 1) + surplus
  {
    RungIs(n, step, i - 1);
    RungIs(n, step, i);
    var p, q := Rung(n, step, i - 1), Rung(n, step, i);
    assert i * step == (i - 1) * step + step;
    assert (p - q) * n == p * n - q * n;
    assert (q - p - surplus) * n == q * n - p * n - n * surplus;
    MultipleIsFar(p - q, n);
    MultipleIsFar(q - p - surplus, n);
  }

  lemma LadderExists(n: nat, terms: Terms) returns (at: seq<int>)
    requires n >= 2 && n * Surplus(terms) >= StepOf(terms)
    ensures |at| == n && Ladder(at, terms)
  {
    var step, surplus := StepOf(terms), Surplus(terms);
    at := seq(n, i requires 0 <= i < n => Rung(n, step, i));
    forall i | 0 <= i < n ensures 0 <= at[i] <= step && (i == 0 ==> at[i] == 0) {
      RungBounds(n, step, i);
    }
    forall i | 1 <= i < n ensures at[i - 1] <= at[i] <= at[i - 1] + surplus {
      RungsAreClose(n, step, i, surplus);
    }
    RungBounds(n, step, n);
    RungsAreClose(n, step, n, surplus);
  }

  // ---------------------------------------------------------------- both halves

  /** With much lateness the evenly spread nodes chase each other beyond every bound. */
  lemma MuchLatenessIsEndless(at: seq<int>, terms: Terms, bound: int)
    requires 2 <= |at| <= MAX_NODES && Ladder(at, terms) && Chasing(terms)
    ensures !StaysBelow(Start(at), terms, bound)
  {
    var r: nat := if bound < 0 then 1 else bound + 1;
    var events := WaveGoesOn(at, terms, r, 0);
    var m := Played(Start(at), events);
    assert InWave(m[0], at, terms, 0, MovesOf(0, r, 0));
    RiseMore(terms, r);
    assert m[0].offset > bound;
  }

  ghost predicate ComesToRest(m: Mesh, terms: Terms) {
    exists bound :: StaysBelow(m, terms, bound)
  }

  /** Lateness of more than 5 ms allows no less than lateness of 5 ms. */
  function Capped(terms: Terms): Terms {
    terms.(late := if terms.late > FULL_US then FULL_US else terms.late)
  }

  lemma CappedIsLess(m: Mesh, terms: Terms)
    requires ComesToRest(m, terms)
    ensures ComesToRest(m, Capped(terms))
  {
    var bound :| StaysBelow(m, terms, bound);
    forall events | LateRun(m, events, Capped(terms))
      ensures forall i :: 0 <= i < |m| ==> Played(m, events)[i].offset <= bound
    {
      assert forall k :: 0 <= k < |events| ==> Allowed(events[k], Capped(terms));
      assert LateRun(m, events, terms);
    }
    assert StaysBelow(m, Capped(terms), bound);
  }

  lemma CappedChases(n: nat, terms: Terms)
    requires n >= 2 && terms.late >= 0 && n * Surplus(terms) >= StepOf(terms)
    ensures n * Surplus(Capped(terms)) >= StepOf(terms) && Chasing(Capped(terms))
  {
  }

  /** A mesh of n nodes that never comes to rest. */
  lemma SomeMeshGoesOn(n: nat, terms: Terms) returns (m: Mesh)
    requires 2 <= n <= MAX_NODES && terms.late >= 0 && n * Surplus(terms) >= StepOf(terms)
    ensures Together(m, n) && !ComesToRest(m, terms)
  {
    var capped := Capped(terms);
    CappedChases(n, terms);
    var at := LadderExists(n, capped);
    StartIsWave(at, capped);
    m := Start(at);
    forall bound ensures !StaysBelow(m, capped, bound) {
      MuchLatenessIsEndless(at, capped, bound);
    }
    if ComesToRest(m, terms) {
      CappedIsLess(m, terms);
    }
  }

  /** Slots stop moving in every run of every mesh of n nodes that hear beacons at most this late, whatever is
      drawn, if and only if the lateness of all nodes together is less than 5 ms; if the full share is never drawn,
      if and only if the lateness exceeds 1 ms by less than 4 ms / n. */
  lemma ComesToRestIff(n: nat, terms: Terms)
    requires 2 <= n <= MAX_NODES && terms.late >= 0
    ensures (forall m :: Together(m, n) ==> ComesToRest(m, terms)) <==>
              if terms.full then n * terms.late < FULL_US else n * Excess(terms.late) < STEP_US
  {
    if n * Surplus(terms) < StepOf(terms) {
      forall m | Together(m, n) ensures ComesToRest(m, terms) {
        var ceiling := LittleLatenessIsBounded(m, n, terms);
      }
    } else {
      var m := SomeMeshGoesOn(n, terms);
    }
  }

  /** With the 3 ms for which the dead band was made, two nodes already chase each other for ever, even if the full
      share is never drawn. */
  lemma ThreeMillisecondsAreTooMany(n: nat, full: bool)
    requires 2 <= n <= MAX_NODES
    ensures exists m :: Together(m, n) && !ComesToRest(m, Terms(3000, full))
  {
    ComesToRestIff(n, Terms(3000, full));
  }
}

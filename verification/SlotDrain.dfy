/** How the transmit loop empties the queue during its slot: until the queue is empty, the slot is over or its byte
    budget is spent, with other threads using the queue meanwhile. */
module SlotDrain {
  import opened Base
  import opened TxQueue

  const MAX_BYTES_SLOT := 135_000   // 90 packets of 1500 bytes: 45000 us at 500 us each
  const TDMA_HEADER := 18
  const MSG_DATA_HEADER := 6
  const FRAME_PREFIX := 4

  /** 28 bytes around the data. */
  function FrameLen(p: Packet): (len: nat)
    ensures len == 28 + |p.data|
  {
    FRAME_PREFIX + TDMA_HEADER + MSG_DATA_HEADER + |p.data|
  }

  /** What the surroundings do during one turn of the loop: what other threads do to the queue before and after the
      pop, the clock, the next hop found for the popped packet (0 for none), whether its address and a connection
      are known, and what the send call returns; it never sends more than the frame. */
  datatype Turn = Turn(before: seq<Op>, after: seq<Op>, now: int, nextHop: Id, ipKnown: bool, connected: bool,
                       sendResult: int)

  /** What became of one popped packet. */
  datatype Fate =
    | Sent(packet: Packet, id: int, bytes: int)
    | NoRoute(packet: Packet)
    | Unsent(packet: Packet, id: int)     // no address, no connection, or the send failed: discarded
    | Late(packet: Packet)                // back to the tail: the slot is over
    | OverBudget(packet: Packet, id: int) // back to the tail: the budget is spent
  {
    predicate Deferred() { Late? || OverBudget? }

    predicate HasId() { Sent? || Unsent? || OverBudget? }

    function Bytes(): int { if Sent? then bytes else 0 }
  }

  /** The variables of the loop: what it did so far, bytes counted, next message id, and whether it has ended. */
  datatype Tally = Tally(log: seq<Fate>, bytes: int, nextId: int, over: bool)

  /** The loop, the queue, and the history of the queue: exits and accepted arrivals, each in order. */
  datatype Drain = Drain(queue: seq<Packet>, exits: seq<(Packet, Exit)>, arrived: seq<Packet>, tally: Tally)

  function Others(d: Drain, ops: seq<Op>): Drain {
    d.(queue := ApplyAll(d.queue, ops),
       exits := d.exits + Departures(d.queue, ops),
       arrived := d.arrived + Arrivals(ops))
  }

  function Popping(d: Drain): Drain
    requires d.queue != []
  {
    d.(queue := d.queue[1..], exits := d.exits + [(d.queue[0], Popped)])
  }

  function Requeue(d: Drain, p: Packet): Drain {
    d.(queue := Apply(d.queue, Push(p)), exits := d.exits + Leaving(d.queue, Push(p)))
  }

  function MinOf(a: int, b: int): int {
    if a < b then a else b
  }

  /** What the loop decides about a popped packet. */
  function FateOf(tally: Tally, p: Packet, t: Turn, slotEnd: int): (f: Fate)
    ensures f.packet == p
  {
    if t.now >= slotEnd then Late(p)
    else if t.nextHop == 0 then NoRoute(p)
    else if tally.bytes + TDMA_HEADER + MSG_DATA_HEADER + |p.data| > MAX_BYTES_SLOT then OverBudget(p, tally.nextId)
    else if t.ipKnown && t.connected && t.sendResult > 0 then
      Sent(p, tally.nextId, MinOf(t.sendResult, FrameLen(p)))
    else Unsent(p, tally.nextId)
  }

  function NextId(id: int): int {
    (id + 1) % 0x1_0000
  }

  function Noted(tally: Tally, f: Fate): Tally {
    Tally(tally.log + [f], tally.bytes + f.Bytes(), if f.HasId() then NextId(tally.nextId) else tally.nextId,
          tally.over || f.Deferred())
  }

  /** One turn of the loop. */
  function Iterate(d: Drain, t: Turn, slotEnd: int): Drain {
    if d.tally.over then d
    else
      var start := Others(d, t.before);
      if start.queue == [] then start.(tally := d.tally.(over := true))
      else
        var p, rest := start.queue[0], Others(Popping(start), t.after);
        var fate := FateOf(d.tally, p, t, slotEnd);
        (if fate.Deferred() then Requeue(rest, p) else rest).(tally := Noted(d.tally, fate))
  }

  function Run(d: Drain, turns: seq<Turn>, slotEnd: int): Drain {
    if turns == [] then d else Iterate(Run(d, turns[..|turns| - 1], slotEnd), turns[|turns| - 1], slotEnd)
  }

  function Begin(queue: seq<Packet>, firstId: int): Drain {
    Drain(queue, [], [], Tally([], 0, firstId, false))
  }

  /** What one turn does to the tally. */
  lemma IterateTally(d: Drain, t: Turn, slotEnd: int)
    ensures var queue, r := Others(d, t.before).queue, Iterate(d, t, slotEnd).tally;
            if d.tally.over then r == d.tally
            else if queue == [] then r == d.tally.(over := true)
            else r == Noted(d.tally, FateOf(d.tally, queue[0], t, slotEnd))
  {
  }

  // ---------------------------------------------------------------- each packet has one fate

  /** Only the last fate can be a deferral, and it ends the loop. */
  ghost predicate OneDeferral(tally: Tally) {
    && (forall i :: 0 <= i < |tally.log| - 1 ==> !tally.log[i].Deferred())
    && (tally.log != [] && tally.log[|tally.log| - 1].Deferred() ==> tally.over)
  }

  lemma NotedDeferral(tally: Tally, f: Fate)
    requires OneDeferral(tally) && !tally.over
    ensures OneDeferral(Noted(tally, f))
  {
    var log' := tally.log + [f];
    forall i | 0 <= i < |tally.log| ensures !log'[i].Deferred() {
      assert log'[i] == tally.log[i];
    }
  }

  lemma {:induction false} AtMostOneDeferral(d: Drain, turns: seq<Turn>, slotEnd: int)
    requires OneDeferral(d.tally)
    ensures OneDeferral(Run(d, turns, slotEnd).tally)
  {
    if turns != [] {
      var before, t := Run(d, turns[..|turns| - 1], slotEnd), turns[|turns| - 1];
      AtMostOneDeferral(d, turns[..|turns| - 1], slotEnd);
      IterateTally(before, t, slotEnd);
      var queue := Others(before, t.before).queue;
      if !before.tally.over && queue != [] {
        NotedDeferral(before.tally, FateOf(before.tally, queue[0], t, slotEnd));
      }
    }
  }

  /** The packet put back, if there is one. */
  function Returned(tally: Tally): seq<Packet> {
    if tally.log != [] && tally.log[|tally.log| - 1].Deferred() then [tally.log[|tally.log| - 1].packet] else []
  }

  predicate AllAccepted(queue: seq<Packet>) {
    forall i :: 0 <= i < |queue| ==> Accepted(queue[i])
  }

  lemma {:induction false} QueueStaysAccepted(queue: seq<Packet>, ops: seq<Op>)
    requires AllAccepted(queue)
    ensures AllAccepted(ApplyAll(queue, ops))
  {
    if ops != [] {
      QueueStaysAccepted(queue, ops[..|ops| - 1]);
    }
  }

  /** Everything the queue held or accepted has left it or is still in it, in order. */
  ghost predicate Balanced(d: Drain, first: seq<Packet>, returned: seq<Packet>) {
    PacketsOf(d.exits) + d.queue == (first + d.arrived) + returned
  }

  lemma OthersBalance(d: Drain, first: seq<Packet>, ops: seq<Op>)
    requires Balanced(d, first, [])
    ensures Balanced(Others(d, ops), first, [])
  {
    var left, rest := PacketsOf(Departures(d.queue, ops)), ApplyAll(d.queue, ops);
    AcceptedIsDepartedPlusQueued(d.queue, ops);
    PacketsOfSum(d.exits, Departures(d.queue, ops));
    Regroup(PacketsOf(d.exits), left, rest, d.queue, Arrivals(ops), first, d.arrived);
    assert (first + d.arrived) + [] == first + d.arrived;
    assert first + (d.arrived + Arrivals(ops)) + [] == first + (d.arrived + Arrivals(ops));
  }

  lemma PoppingBalance(d: Drain, first: seq<Packet>)
    requires Balanced(d, first, []) && d.queue != []
    ensures Balanced(Popping(d), first, [])
  {
    PacketsOfSum(d.exits, [(d.queue[0], Popped)]);
    assert d.queue == [d.queue[0]] + d.queue[1..];
  }

  lemma RequeueBalance(d: Drain, first: seq<Packet>, p: Packet)
    requires Balanced(d, first, []) && Accepted(p)
    ensures Balanced(Requeue(d, p), first, [p])
  {
    StepConserves(d.queue, Push(p));
    PacketsOfSum(d.exits, Leaving(d.queue, Push(p)));
    var left := PacketsOf(Leaving(d.queue, Push(p)));
    assert (first + d.arrived) + [] == first + d.arrived;
    assert (PacketsOf(d.exits) + left) + Apply(d.queue, Push(p)) == PacketsOf(d.exits) + (d.queue + [p]);
  }

  lemma IterateBalance(d: Drain, first: seq<Packet>, t: Turn, slotEnd: int)
    requires AllAccepted(d.queue) && OneDeferral(d.tally) && Balanced(d, first, Returned(d.tally))
    ensures AllAccepted(Iterate(d, t, slotEnd).queue)
    ensures Balanced(Iterate(d, t, slotEnd), first, Returned(Iterate(d, t, slotEnd).tally))
  {
    if !d.tally.over {
      var start := Others(d, t.before);
      OthersBalance(d, first, t.before);
      QueueStaysAccepted(d.queue, t.before);
      if start.queue != [] {
        PoppingBalance(start, first);
        OthersBalance(Popping(start), first, t.after);
        QueueStaysAccepted(Popping(start).queue, t.after);
        RequeueBalance(Others(Popping(start), t.after), first, start.queue[0]);
      }
    }
  }

  /** Conservation over a slot, in order: the packets that left the queue (popped, evicted or flushed) followed by
      those in it are those it held, those that arrived meanwhile, and at the very end the one put back. */
  lemma {:induction false} DrainConserves(first: seq<Packet>, firstId: int, turns: seq<Turn>, slotEnd: int)
    requires AllAccepted(first)
    ensures var r := Run(Begin(first, firstId), turns, slotEnd);
            AllAccepted(r.queue) && Balanced(r, first, Returned(r.tally))
  {
    if turns == [] {
      assert first + [] + [] == first;
    } else {
      var init := turns[..|turns| - 1];
      DrainConserves(first, firstId, init, slotEnd);
      AtMostOneDeferral(Begin(first, firstId), init, slotEnd);
      IterateBalance(Run(Begin(first, firstId), init, slotEnd), first, turns[|turns| - 1], slotEnd);
    }
  }

  // ---------------------------------------------------------------- the log is the list of popped packets

  function PoppedOf(exits: seq<(Packet, Exit)>): seq<Packet> {
    if exits == [] then []
    else
      var last := exits[|exits| - 1];
      PoppedOf(exits[..|exits| - 1]) + if last.1 == Popped then [last.0] else []
  }

  function Logged(log: seq<Fate>): seq<Packet> {
    seq(|log|, i requires 0 <= i < |log| => log[i].packet)
  }

  lemma {:induction false} PoppedOfSum(a: seq<(Packet, Exit)>, b: seq<(Packet, Exit)>)
    ensures PoppedOf(a + b) == PoppedOf(a) + PoppedOf(b)
  {
    if b == [] {
      assert a + b == a;
    } else {
      var init := b[..|b| - 1];
      PoppedOfSum(a, init);
      assert (a + b)[..|a + b| - 1] == a + init;
    }
  }

  lemma {:induction false} NonePopped(exits: seq<(Packet, Exit)>)
    requires forall i :: 0 <= i < |exits| ==> exits[i].1 != Popped
    ensures PoppedOf(exits) == []
  {
    if exits != [] {
      NonePopped(exits[..|exits| - 1]);
    }
  }

  /** Nobody else takes packets out of the queue. */
  ghost predicate OnlyConsumer(turns: seq<Turn>) {
    forall i :: 0 <= i < |turns| ==> NoPops(turns[i].before) && NoPops(turns[i].after)
  }

  ghost predicate NoPops(ops: seq<Op>) {
    forall i :: 0 <= i < |ops| ==> !ops[i].Pop?
  }

  lemma {:induction false} OthersPopNothing(queue: seq<Packet>, ops: seq<Op>)
    requires NoPops(ops)
    ensures PoppedOf(Departures(queue, ops)) == []
  {
    if ops != [] {
      var init := ops[..|ops| - 1];
      OthersPopNothing(queue, init);
      NonePopped(Leaving(ApplyAll(queue, init), ops[|ops| - 1]));
      PoppedOfSum(Departures(queue, init), Leaving(ApplyAll(queue, init), ops[|ops| - 1]));
    }
  }

  lemma OthersLog(d: Drain, ops: seq<Op>)
    requires NoPops(ops)
    ensures PoppedOf(Others(d, ops).exits) == PoppedOf(d.exits)
  {
    PoppedOfSum(d.exits, Departures(d.queue, ops));
    OthersPopNothing(d.queue, ops);
  }

  lemma PoppingLogs(d: Drain)
    requires d.queue != []
    ensures PoppedOf(Popping(d).exits) == PoppedOf(d.exits) + [d.queue[0]]
  {
    var last := [(d.queue[0], Popped)];
    PoppedOfSum(d.exits, last);
    assert PoppedOf(last[..0]) == [];
  }

  lemma RequeueLogs(d: Drain, p: Packet)
    ensures PoppedOf(Requeue(d, p).exits) == PoppedOf(d.exits)
  {
    PoppedOfSum(d.exits, Leaving(d.queue, Push(p)));
    NonePopped(Leaving(d.queue, Push(p)));
  }

  lemma IterateLogs(d: Drain, t: Turn, slotEnd: int)
    requires NoPops(t.before) && NoPops(t.after) && PoppedOf(d.exits) == Logged(d.tally.log)
    ensures PoppedOf(Iterate(d, t, slotEnd).exits) == Logged(Iterate(d, t, slotEnd).tally.log)
  {
    if !d.tally.over {
      var start := Others(d, t.before);
      OthersLog(d, t.before);
      if start.queue != [] {
        PoppingLogs(start);
        OthersLog(Popping(start), t.after);
        RequeueLogs(Others(Popping(start), t.after), start.queue[0]);
        var fate := FateOf(d.tally, start.queue[0], t, slotEnd);
        assert Logged(d.tally.log + [fate]) == Logged(d.tally.log) + [fate.packet];
      }
    }
  }

  /** Each popped packet has exactly one fate, in the order in which the packets were popped. */
  lemma {:induction false} EveryPoppedPacketHasOneFate(first: seq<Packet>, firstId: int, turns: seq<Turn>, slotEnd: int)
    requires OnlyConsumer(turns)
    ensures var r := Run(Begin(first, firstId), turns, slotEnd);
            PoppedOf(r.exits) == Logged(r.tally.log)
  {
    if turns != [] {
      var init := turns[..|turns| - 1];
      EveryPoppedPacketHasOneFate(first, firstId, init, slotEnd);
      IterateLogs(Run(Begin(first, firstId), init, slotEnd), turns[|turns| - 1], slotEnd);
    }
  }

  // ---------------------------------------------------------------- bytes and message ids

  function BytesOf(log: seq<Fate>): int {
    if log == [] then 0 else BytesOf(log[..|log| - 1]) + log[|log| - 1].Bytes()
  }

  function IdsUsed(log: seq<Fate>): nat {
    if log == [] then 0 else IdsUsed(log[..|log| - 1]) + if log[|log| - 1].HasId() then 1 else 0
  }

  /** Every packet sent was admitted while the bytes sent before it left room for it, the prefix of its frame not
      counted; what was sent of it is at most its frame. */
  ghost predicate WithinBudget(log: seq<Fate>) {
    log != [] ==>
      var init, f := log[..|log| - 1], log[|log| - 1];
      && WithinBudget(init)
      && (f.Sent? ==> 0 < f.bytes <= FrameLen(f.packet) <= MAX_BYTES_SLOT + FRAME_PREFIX - BytesOf(init))
  }

  /** Message ids are taken in sequence, modulo 2^16, by every packet that has a route: also by one that is then
      put back over budget, which takes a new one in a later slot. */
  ghost predicate IdsInSequence(log: seq<Fate>, firstId: int) {
    log != [] ==>
      var init, f := log[..|log| - 1], log[|log| - 1];
      && IdsInSequence(init, firstId)
      && match f {
           case Sent(_, id, _) => id == IdAfter(firstId, IdsUsed(init))
           case Unsent(_, id) => id == IdAfter(firstId, IdsUsed(init))
           case OverBudget(_, id) => id == IdAfter(firstId, IdsUsed(init))
           case _ => true
         }
  }

  function IdAfter(firstId: int, k: nat): int {
    (firstId + k) % 0x1_0000
  }

  ghost predicate TallyOk(tally: Tally, firstId: int) {
    && tally.bytes == BytesOf(tally.log) && WithinBudget(tally.log)
    && tally.nextId == IdAfter(firstId, IdsUsed(tally.log)) && IdsInSequence(tally.log, firstId)
  }

  lemma NextIdAfter(firstId: int, k: nat)
    ensures NextId(IdAfter(firstId, k)) == IdAfter(firstId, k + 1)
  {
  }

  lemma NotedBytes(log: seq<Fate>, f: Fate)
    ensures BytesOf(log + [f]) == BytesOf(log) + f.Bytes()
    ensures IdsUsed(log + [f]) == IdsUsed(log) + if f.HasId() then 1 else 0
  {
    assert (log + [f])[..|log + [f]| - 1] == log;
  }

  lemma NotedWithinBudget(tally: Tally, p: Packet, t: Turn, slotEnd: int)
    requires tally.bytes == BytesOf(tally.log) && WithinBudget(tally.log)
    ensures WithinBudget(tally.log + [FateOf(tally, p, t, slotEnd)])
  {
    var log' := tally.log + [FateOf(tally, p, t, slotEnd)];
    assert log'[..|log'| - 1] == tally.log;
  }

  lemma NotedInSequence(tally: Tally, firstId: int, p: Packet, t: Turn, slotEnd: int)
    requires tally.nextId == IdAfter(firstId, IdsUsed(tally.log)) && IdsInSequence(tally.log, firstId)
    ensures IdsInSequence(tally.log + [FateOf(tally, p, t, slotEnd)], firstId)
  {
    var log' := tally.log + [FateOf(tally, p, t, slotEnd)];
    assert log'[..|log'| - 1] == tally.log;
  }

  lemma NotedOk(tally: Tally, firstId: int, p: Packet, t: Turn, slotEnd: int)
    requires TallyOk(tally, firstId)
    ensures TallyOk(Noted(tally, FateOf(tally, p, t, slotEnd)), firstId)
  {
    NotedBytes(tally.log, FateOf(tally, p, t, slotEnd));
    NotedWithinBudget(tally, p, t, slotEnd);
    NotedInSequence(tally, firstId, p, t, slotEnd);
    NextIdAfter(firstId, IdsUsed(tally.log));
  }

  /** Over a whole slot and whatever happens around it: the bytes counted are those of the packets sent, every packet
      sent was admitted within the budget, and message ids run in sequence. */
  lemma {:induction false} TallyStaysOk(first: seq<Packet>, firstId: int, turns: seq<Turn>, slotEnd: int)
    requires 0 <= firstId < 0x1_0000
    ensures TallyOk(Run(Begin(first, firstId), turns, slotEnd).tally, firstId)
  {
    if turns != [] {
      var init, t := turns[..|turns| - 1], turns[|turns| - 1];
      TallyStaysOk(first, firstId, init, slotEnd);
      var before := Run(Begin(first, firstId), init, slotEnd);
      IterateTally(before, t, slotEnd);
      var queue := Others(before, t.before).queue;
      if !before.tally.over && queue != [] {
        NotedOk(before.tally, firstId, queue[0], t, slotEnd);
      }
    }
  }

  lemma {:induction false} BudgetBounds(log: seq<Fate>)
    requires WithinBudget(log)
    ensures 0 <= BytesOf(log) <= MAX_BYTES_SLOT + FRAME_PREFIX
  {
    if log != [] {
      BudgetBounds(log[..|log| - 1]);
    }
  }

  /** Over a whole slot at most 135004 bytes are counted: the budget of 135000 and one 4-byte prefix, which the
      budget check leaves out. */
  lemma {:induction false} BytesAreBounded(first: seq<Packet>, firstId: int, turns: seq<Turn>, slotEnd: int)
    requires 0 <= firstId < 0x1_0000
    ensures 0 <= Run(Begin(first, firstId), turns, slotEnd).tally.bytes <= 135_004
  {
    var r := Run(Begin(first, firstId), turns, slotEnd).tally;
    assert r.bytes == BytesOf(r.log) && WithinBudget(r.log) by {
      TallyStaysOk(first, firstId, turns, slotEnd);
    }
    BudgetBounds(r.log);
  }

  // ---------------------------------------------------------------- what becomes of the next packet

  /** A turn of the loop that finds a packet. */
  ghost predicate Finds(d: Drain, t: Turn, p: Packet) {
    && !d.tally.over && Others(d, t.before).queue != [] && Others(d, t.before).queue[0] == p
  }

  /** Whether a packet goes back to the tail after some packets were sent: the slot is over, or it has a route but its
      frame, less the prefix, does not fit into what they left of the budget. */
  ghost predicate GoesBack(sent: seq<Fate>, p: Packet, t: Turn, slotEnd: int) {
    || t.now >= slotEnd
    || (t.nextHop != 0 && BytesOf(sent) + 24 + |p.data| > 135_000)
  }

  /** Whether a packet can be sent in this turn: there is a route, the address and a connection are known, and the
      send call sends something. */
  predicate CanSend(t: Turn) {
    t.nextHop != 0 && t.ipKnown && t.connected && t.sendResult > 0
  }

  /** What handling a packet p after some log adds to it: f is what becomes of it. */
  ghost predicate Handled(log: seq<Fate>, p: Packet, t: Turn, slotEnd: int, r: Tally, f: Fate) {
    && r.log == log + [f] && f.packet == p
    && (r.over <==> GoesBack(log, p, t, slotEnd))
    && (f.Deferred() <==> GoesBack(log, p, t, slotEnd)) && (f.Late? <==> t.now >= slotEnd)
    && (f.Sent? <==> !GoesBack(log, p, t, slotEnd) && CanSend(t))
    && (f.Sent? ==> f.bytes == if t.sendResult < 28 + |p.data| then t.sendResult else 28 + |p.data|)
    && (f.NoRoute? <==> t.now < slotEnd && t.nextHop == 0)
    && BytesOf(r.log) == BytesOf(log) + (if f.Sent? then f.bytes else 0)
    && IdsUsed(r.log) == IdsUsed(log) + if t.now < slotEnd && t.nextHop != 0 then 1 else 0
  }

  lemma NotedHandles(tally: Tally, p: Packet, t: Turn, slotEnd: int)
    requires tally.bytes == BytesOf(tally.log) && !tally.over
    ensures Handled(tally.log, p, t, slotEnd, Noted(tally, FateOf(tally, p, t, slotEnd)), FateOf(tally, p, t, slotEnd))
  {
    var f := FateOf(tally, p, t, slotEnd);
    assert (tally.log + [f])[..|tally.log|] == tally.log;
  }

  /** In every slot, for every packet popped: it is put back, and the loop ends, exactly when it goes back by the
      bytes really sent so far; otherwise it is sent exactly when it can be, with what the send call took of its
      frame, and these are the bytes added; and it uses up a message id exactly when the slot is not over and it has
      a route, put back or not. */
  lemma NextPacketExactly(first: seq<Packet>, firstId: int, turns: seq<Turn>, t: Turn, slotEnd: int, p: Packet)
    returns (f: Fate)
    requires 0 <= firstId < 0x1_0000 && Finds(Run(Begin(first, firstId), turns, slotEnd), t, p)
    ensures var d, r := Run(Begin(first, firstId), turns, slotEnd), Run(Begin(first, firstId), turns + [t], slotEnd);
            Handled(d.tally.log, p, t, slotEnd, r.tally, f)
  {
    var d := Run(Begin(first, firstId), turns, slotEnd);
    f := FateOf(d.tally, p, t, slotEnd);
    assert (turns + [t])[..|turns|] == turns;
    assert d.tally.bytes == BytesOf(d.tally.log) by {
      TallyStaysOk(first, firstId, turns, slotEnd);
    }
    IterateTally(d, t, slotEnd);
    NotedHandles(d.tally, p, t, slotEnd);
  }

  /** Nobody else uses the queue, and the clock stays before the end of the slot. */
  ghost predicate Quiet(turns: seq<Turn>, slotEnd: int) {
    forall i :: 0 <= i < |turns| ==> turns[i].before == [] && turns[i].after == [] && turns[i].now < slotEnd
  }

  function FramesLen(packets: seq<Packet>): nat {
    if packets == [] then 0 else FramesLen(packets[..|packets| - 1]) + FrameLen(packets[|packets| - 1])
  }

  lemma {:induction false} FramesLenGrows(packets: seq<Packet>, k: nat)
    requires k <= |packets|
    ensures FramesLen(packets[..k]) <= FramesLen(packets)
  {
    if k < |packets| {
      FramesLenGrows(packets[..|packets| - 1], k);
      assert packets[..|packets| - 1][..k] == packets[..k];
    } else {
      assert packets[..k] == packets;
    }
  }

  lemma QuietTurn(d: Drain, t: Turn, slotEnd: int)
    requires t.before == [] && t.after == [] && t.now < slotEnd && d.queue != [] && !d.tally.over && d.tally.bytes >= 0
    requires d.tally.bytes + FrameLen(d.queue[0]) <= MAX_BYTES_SLOT
    ensures var r := Iterate(d, t, slotEnd);
            && r.queue == d.queue[1..] && !r.tally.over
            && d.tally.bytes <= r.tally.bytes <= d.tally.bytes + FrameLen(d.queue[0])
            && Logged(r.tally.log) == Logged(d.tally.log) + [d.queue[0]]
  {
  }

  /** How far a quiet drain has come after each packet. */
  ghost predicate Drained(first: seq<Packet>, k: nat, d: Drain) {
    && k <= |first| && d.queue == first[k..] && !d.tally.over
    && 0 <= d.tally.bytes <= FramesLen(first[..k]) && Logged(d.tally.log) == first[..k]
  }

  lemma DrainedMore(first: seq<Packet>, k: nat, d: Drain, r: Drain)
    requires k < |first| && Drained(first, k, d) && r.queue == d.queue[1..] && !r.tally.over
    requires d.tally.bytes <= r.tally.bytes <= d.tally.bytes + FrameLen(d.queue[0])
    requires Logged(r.tally.log) == Logged(d.tally.log) + [d.queue[0]]
    ensures Drained(first, k + 1, r)
  {
    assert first[..k + 1][..k] == first[..k];
  }

  lemma RoomForNext(first: seq<Packet>, k: nat)
    requires k < |first|
    ensures FramesLen(first[..k]) + FrameLen(first[k]) <= FramesLen(first)
  {
    FramesLenGrows(first, k + 1);
    assert first[..k + 1][..k] == first[..k];
  }

  lemma DrainedNext(first: seq<Packet>, k: nat, d: Drain, t: Turn, slotEnd: int)
    requires k < |first| && Drained(first, k, d) && FramesLen(first) <= MAX_BYTES_SLOT
    requires t.before == [] && t.after == [] && t.now < slotEnd
    ensures Drained(first, k + 1, Iterate(d, t, slotEnd))
  {
    RoomForNext(first, k);
    QuietTurn(d, t, slotEnd);
    DrainedMore(first, k, d, Iterate(d, t, slotEnd));
  }

  lemma {:induction false} QuietRun(first: seq<Packet>, firstId: int, turns: seq<Turn>, slotEnd: int)
    requires Quiet(turns, slotEnd) && FramesLen(first) <= MAX_BYTES_SLOT && |turns| <= |first|
    ensures Drained(first, |turns|, Run(Begin(first, firstId), turns, slotEnd))
  {
    if turns == [] {
      assert first[0..] == first;
    } else {
      var init, t := turns[..|turns| - 1], turns[|turns| - 1];
      QuietRun(first, firstId, init, slotEnd);
      DrainedNext(first, |init|, Run(Begin(first, firstId), init, slotEnd), t, slotEnd);
    }
  }

  /** A slot with time and budget for all frames empties the queue: every packet is handled once, in order, and none
      is put back, whatever the routes, addresses, connections and send results. */
  lemma QuietSlotEmptiesQueue(first: seq<Packet>, firstId: int, turns: seq<Turn>, slotEnd: int)
    requires Quiet(turns, slotEnd) && FramesLen(first) <= MAX_BYTES_SLOT && |turns| == |first| + 1
    ensures var r := Run(Begin(first, firstId), turns, slotEnd);
            r.queue == [] && r.tally.over && Logged(r.tally.log) == first && Returned(r.tally) == []
  {
    var init := turns[..|first|];
    QuietRun(first, firstId, init, slotEnd);
    var d := Run(Begin(first, firstId), init, slotEnd);
    AtMostOneDeferral(Begin(first, firstId), init, slotEnd);
    assert first[|first|..] == [] && first[..|first|] == first;
    assert turns[|first|].before == [];
  }

  // ---------------------------------------------------------------- a slot in which everything can be sent

  /** Each packet finds a turn that can send all of its frame. */
  ghost predicate CanSendAll(turns: seq<Turn>, packets: seq<Packet>) {
    && |packets| <= |turns|
    && forall i :: 0 <= i < |packets| ==> CanSend(turns[i]) && turns[i].sendResult >= 28 + |packets[i].data|
  }

  /** All of them sent, whole, with message ids in sequence modulo 2^16. */
  function AllSent(packets: seq<Packet>, firstId: int): (log: seq<Fate>)
    ensures |log| == |packets|
  {
    seq(|packets|, i requires 0 <= i < |packets| => Sent(packets[i], (firstId + i) % 65_536, 28 + |packets[i].data|))
  }

  /** ... and the bytes this takes. */
  ghost predicate SentSoFar(packets: seq<Packet>, firstId: int, tally: Tally) {
    && tally.log == AllSent(packets, firstId) && tally.bytes == FramesLen(packets)
    && tally.nextId == (firstId + |packets|) % 65_536
  }

  lemma SendOne(packets: seq<Packet>, firstId: int, p: Packet, tally: Tally, t: Turn, slotEnd: int)
    requires SentSoFar(packets, firstId, tally) && CanSend(t) && t.sendResult >= 28 + |p.data| && t.now < slotEnd
    requires FramesLen(packets) + 28 + |p.data| <= 135_000
    ensures SentSoFar(packets + [p], firstId, Noted(tally, FateOf(tally, p, t, slotEnd)))
  {
    var more, f := packets + [p], FateOf(tally, p, t, slotEnd);
    assert more[..|packets|] == packets;
    SentNext(packets, firstId, p);
    NextIdAfter(firstId, |packets|);
    assert f == Sent(p, (firstId + |packets|) % 65_536, 28 + |p.data|);
    hide FateOf, NextId;
  }

  lemma SentNext(packets: seq<Packet>, firstId: int, p: Packet)
    ensures AllSent(packets + [p], firstId) ==
              AllSent(packets, firstId) + [Sent(p, (firstId + |packets|) % 65_536, 28 + |p.data|)]
  {
  }

  lemma {:induction false} AllAreSent(first: seq<Packet>, firstId: int, turns: seq<Turn>, slotEnd: int)
    requires Quiet(turns, slotEnd) && FramesLen(first) <= 135_000 && |turns| <= |first| && 0 <= firstId < 65_536
    requires CanSendAll(turns, first[..|turns|])
    ensures SentSoFar(first[..|turns|], firstId, Run(Begin(first, firstId), turns, slotEnd).tally)
  {
    if turns == [] {
      assert first[..0] == [];
    } else {
      var init, t, k := turns[..|turns| - 1], turns[|turns| - 1], |turns| - 1;
      var d := Run(Begin(first, firstId), init, slotEnd);
      assert first[..|turns|][..k] == first[..k];
      AllAreSent(first, firstId, init, slotEnd);
      QuietRun(first, firstId, init, slotEnd);
      assert d.queue[0] == first[k];
      RoomForNext(first, k);
      assert first[..|turns|][k] == first[k];
      SendOne(first[..k], firstId, first[k], d.tally, t, slotEnd);
      IterateTally(d, t, slotEnd);
      assert first[..k] + [first[k]] == first[..|turns|];
    }
  }

  /** A quiet slot with room for all frames, in which all can be sent, sends all of them, whole and in order, and
      counts their bytes. */
  lemma QuietSlotSendsAll(first: seq<Packet>, firstId: int, turns: seq<Turn>, slotEnd: int)
    requires Quiet(turns, slotEnd) && FramesLen(first) <= 135_000 && |turns| == |first| + 1 && 0 <= firstId < 65_536
    requires CanSendAll(turns, first)
    ensures var r := Run(Begin(first, firstId), turns, slotEnd);
            r.queue == [] && r.tally.log == AllSent(first, firstId) && r.tally.bytes == FramesLen(first)
  {
    var init := turns[..|first|];
    assert first[..|first|] == first;
    AllAreSent(first, firstId, init, slotEnd);
    QuietRun(first, firstId, init, slotEnd);
    QuietSlotEmptiesQueue(first, firstId, turns, slotEnd);
    var d := Run(Begin(first, firstId), init, slotEnd);
    assert turns[|first|].before == [] && d.queue == [];
    IterateTally(d, turns[|first|], slotEnd);
  }

  // ---------------------------------------------------------------- message ids do not repeat

  lemma {:induction false} IdAt(log: seq<Fate>, firstId: int, j: nat)
    requires IdsInSequence(log, firstId) && j < |log| && log[j].HasId()
    ensures log[j].id == IdAfter(firstId, IdsUsed(log[..j]))
  {
    if j < |log| - 1 {
      IdAt(log[..|log| - 1], firstId, j);
      assert log[..|log| - 1][..j] == log[..j];
    }
  }

  lemma {:induction false} IdsUsedGrow(log: seq<Fate>, i: nat, j: nat)
    requires i < j <= |log| && log[i].HasId()
    ensures IdsUsed(log[..i]) < IdsUsed(log[..j]) <= j
  {
    assert log[..j][..j - 1] == log[..j - 1];
    if i < j - 1 {
      IdsUsedGrow(log, i, j - 1);
    } else {
      IdsUsedBound(log[..i]);
    }
  }

  lemma {:induction false} IdsUsedBound(log: seq<Fate>)
    ensures IdsUsed(log) <= |log|
  {
    if log != [] {
      IdsUsedBound(log[..|log| - 1]);
    }
  }

  lemma IdsOfLogDiffer(log: seq<Fate>, firstId: int, i: nat, j: nat)
    requires IdsInSequence(log, firstId) && i < j < |log| <= 65_536 && log[i].HasId() && log[j].HasId()
    ensures 0 <= log[i].id < 65_536 && log[i].id != log[j].id
  {
    IdAt(log, firstId, i);
    IdAt(log, firstId, j);
    IdsUsedGrow(log, i, j);
    Apart(firstId, IdsUsed(log[..i]), IdsUsed(log[..j]));
  }

  /** In a slot that handles no more than 2^16 packets no two have the same message id. */
  lemma IdsDiffer(first: seq<Packet>, firstId: int, turns: seq<Turn>, slotEnd: int, i: nat, j: nat)
    requires 0 <= firstId < 65_536 && i < j < |Run(Begin(first, firstId), turns, slotEnd).tally.log| <= 65_536
    requires Run(Begin(first, firstId), turns, slotEnd).tally.log[i].HasId()
    requires Run(Begin(first, firstId), turns, slotEnd).tally.log[j].HasId()
    ensures var log := Run(Begin(first, firstId), turns, slotEnd).tally.log;
            0 <= log[i].id < 65_536 && log[i].id != log[j].id
  {
    TallyStaysOk(first, firstId, turns, slotEnd);
    IdsOfLogDiffer(Run(Begin(first, firstId), turns, slotEnd).tally.log, firstId, i, j);
  }

  lemma Apart(f: int, x: nat, y: nat)
    requires x < y < x + 65_536
    ensures (f + x) % 65_536 != (f + y) % 65_536
  {
  }

  // ---------------------------------------------------------------- the loop

  lemma {:induction false} OverIsFinal(d: Drain, turns: seq<Turn>, k: nat, slotEnd: int)
    requires k <= |turns| && Run(d, turns[..k], slotEnd).tally.over
    ensures Run(d, turns, slotEnd) == Run(d, turns[..k], slotEnd)
  {
    if k == |turns| {
      assert turns[..k] == turns;
    } else {
      assert turns[..|turns| - 1][..k] == turns[..k];
      OverIsFinal(d, turns[..|turns| - 1], k, slotEnd);
    }
  }

  /** What other threads do to the queue between two steps of the loop. */
  method OthersAct(q: Queue, ops: seq<Op>)
    requires q.Valid()
    modifies q, q.repr
    ensures q.Valid() && fresh(q.repr - old(q.repr))
    ensures q.Contents() == ApplyAll(old(q.Contents()), ops)
  {
    for i := 0 to |ops|
      invariant q.Valid() && fresh(q.repr - old(q.repr))
      invariant q.Contents() == ApplyAll(old(q.Contents()), ops[..i])
    {
      assert ops[..i + 1][..i] == ops[..i];
      q.Perform(ops[i]);
    }
    assert ops[..|ops|] == ops;
  }

  /** What is done with one popped packet, apart from putting it back. */
  method HandlePacket(tally: Tally, p: Packet, t: Turn, slotEnd: int)
    returns (next: Tally, putBack: bool)
    ensures putBack <==>
      t.now >= slotEnd ||
      (t.nextHop != 0 && tally.bytes + TDMA_HEADER + MSG_DATA_HEADER + |p.data| > MAX_BYTES_SLOT)
    ensures tally.bytes <= next.bytes <= tally.bytes + FrameLen(p)
    ensures var fate := FateOf(tally, p, t, slotEnd); next == Noted(tally, fate) && putBack == fate.Deferred()
  {
    putBack := false;
    if t.now >= slotEnd {
      return tally.(log := tally.log + [Late(p)], over := true), true;
    }
    if t.nextHop == 0 {
      return tally.(log := tally.log + [NoRoute(p)]), false;
    }
    var id := tally.nextId;
    var nextId := (tally.nextId + 1) % 0x1_0000;
    if tally.bytes + TDMA_HEADER + MSG_DATA_HEADER + |p.data| > MAX_BYTES_SLOT {
      return tally.(log := tally.log + [OverBudget(p, id)], nextId := nextId, over := true), true;
    }
    var frameLen := FRAME_PREFIX + TDMA_HEADER + MSG_DATA_HEADER + |p.data|;
    var sent := -1;
    if t.ipKnown && t.connected {
      sent := MinOf(t.sendResult, frameLen);
    }
    if sent > 0 {
      next := tally.(log := tally.log + [Sent(p, id, sent)], nextId := nextId, bytes := tally.bytes + sent);
    } else {
      next := tally.(log := tally.log + [Unsent(p, id)], nextId := nextId);
    }
  }

  /** The queue after one turn. */
  function QueueAfter(queue: seq<Packet>, tally: Tally, t: Turn, slotEnd: int): seq<Packet> {
    var start := ApplyAll(queue, t.before);
    if start == [] then []
    else
      var rest := ApplyAll(Apply(start, Pop), t.after);
      if FateOf(tally, start[0], t, slotEnd).Deferred() then Apply(rest, Push(start[0])) else rest
  }

  lemma IterateQueue(d: Drain, t: Turn, slotEnd: int)
    requires !d.tally.over
    ensures Iterate(d, t, slotEnd).queue == QueueAfter(d.queue, d.tally, t, slotEnd)
  {
  }

  /** Pops a packet, if there is one, while other threads go on using the queue. */
  method NextPacket(q: Queue, before: seq<Op>, after: seq<Op>) returns (popped: seq<Packet>)
    requires q.Valid()
    modifies q, q.repr
    ensures q.Valid() && fresh(q.repr - old(q.repr))
    ensures var start := ApplyAll(old(q.Contents()), before);
            if start == [] then popped == [] && q.Contents() == []
            else popped == start[..1] && q.Contents() == ApplyAll(Apply(start, Pop), after)
  {
    OthersAct(q, before);
    var cell := q.Pop();
    if cell == null {
      return [];
    }
    OthersAct(q, after);
    popped := [cell.packet];
  }

  /** One turn of the loop: pop a packet, decide, send or put it back. */
  method TakeTurn(q: Queue, tally: Tally, t: Turn, slotEnd: int) returns (next: Tally)
    requires q.Valid() && !tally.over
    modifies q, q.repr
    ensures q.Valid() && fresh(q.repr - old(q.repr))
    ensures q.Contents() == QueueAfter(old(q.Contents()), tally, t, slotEnd)
    ensures var queue := ApplyAll(old(q.Contents()), t.before);
            next == if queue == [] then tally.(over := true) else Noted(tally, FateOf(tally, queue[0], t, slotEnd))
  {
    var popped := NextPacket(q, t.before, t.after);
    if popped == [] {
      return tally.(over := true);
    }
    var p := popped[0];
    var putBack;
    next, putBack := HandlePacket(tally, p, t, slotEnd);
    if putBack {
      q.Push(p);
    }
  }

  lemma RunStep(d: Drain, turns: seq<Turn>, i: nat, slotEnd: int)
    requires i < |turns|
    ensures Run(d, turns[..i + 1], slotEnd) == Iterate(Run(d, turns[..i], slotEnd), turns[i], slotEnd)
  {
    assert turns[..i + 1][..i] == turns[..i];
  }

  /** The drain loop of tx_loop, against any surroundings in which the clock reaches the end of the slot. */
  method DrainQueue(q: Queue, firstId: int, turns: seq<Turn>, slotEnd: int) returns (tally: Tally)
    requires q.Valid() && turns != [] && turns[|turns| - 1].now >= slotEnd
    modifies q, q.repr
    ensures q.Valid()
    ensures var r := Run(Begin(old(q.Contents()), firstId), turns, slotEnd);
            q.Contents() == r.queue && tally == r.tally && tally.over
  {
    tally := Tally([], 0, firstId, false);
    ghost var begin := Begin(q.Contents(), firstId);
    ghost var d := begin;
    var i := 0;
    while !tally.over
      invariant q.Valid() && fresh(q.repr - old(q.repr))
      invariant 0 <= i <= |turns| && (!tally.over ==> i < |turns|)
      invariant d == Run(begin, turns[..i], slotEnd) && q.Contents() == d.queue && tally == d.tally
      decreases |turns| - i
    {
      RunStep(begin, turns, i, slotEnd);
      IterateQueue(d, turns[i], slotEnd);
      IterateTally(d, turns[i], slotEnd);
      tally := TakeTurn(q, tally, turns[i], slotEnd);
      d := Iterate(d, turns[i], slotEnd);
      i := i + 1;
    }
    OverIsFinal(begin, turns, i, slotEnd);
  }
}

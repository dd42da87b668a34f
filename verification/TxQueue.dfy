/** The transmit queue between the tunnel reader and the slot: a linked list that never blocks and drops its oldest
    packet when it is full. */
module TxQueue {
  import opened Base

  const TX_QUEUE_CAPACITY: nat := 64
  const TX_QUEUE_MAX_PKT_SIZE: nat := 2048

  datatype Packet = Packet(data: seq<Byte>, dst: Id)

  datatype Op = Push(packet: Packet) | Pop | Flush

  /** Where an accepted packet went when it left the queue. */
  datatype Exit = Popped | Evicted | Flushed

  /** A packet outside these sizes is ignored. */
  predicate Accepted(p: Packet) {
    0 < |p.data| <= TX_QUEUE_MAX_PKT_SIZE
  }

  /** The queue as a sequence, oldest packet first. */
  function Pushed(queue: seq<Packet>, p: Packet): seq<Packet> {
    if !Accepted(p) then queue
    else if |queue| >= TX_QUEUE_CAPACITY then queue[1..] + [p]
    else queue + [p]
  }

  function Apply(queue: seq<Packet>, op: Op): (r: seq<Packet>)
    ensures |queue| <= TX_QUEUE_CAPACITY ==> |r| <= TX_QUEUE_CAPACITY
  {
    match op
    case Push(p) => Pushed(queue, p)
    case Pop => if queue == [] then [] else queue[1..]
    case Flush => []
  }

  function ApplyAll(queue: seq<Packet>, ops: seq<Op>): (r: seq<Packet>)
    ensures |queue| <= TX_QUEUE_CAPACITY ==> |r| <= TX_QUEUE_CAPACITY
  {
    if ops == [] then queue else Apply(ApplyAll(queue, ops[..|ops| - 1]), ops[|ops| - 1])
  }

  // ---------------------------------------------------------------- nothing is lost unaccounted

  /** The packets accepted over a run, in order of arrival. */
  function Arrivals(ops: seq<Op>): seq<Packet> {
    if ops == [] then []
    else
      var init, last := Arrivals(ops[..|ops| - 1]), ops[|ops| - 1];
      if last.Push? && Accepted(last.packet) then init + [last.packet] else init
  }

  /** The packets one operation removes, and how. */
  function Leaving(queue: seq<Packet>, op: Op): seq<(Packet, Exit)> {
    match op
    case Push(p) => if Accepted(p) && |queue| >= TX_QUEUE_CAPACITY then [(queue[0], Evicted)] else []
    case Pop => if queue == [] then [] else [(queue[0], Popped)]
    case Flush => seq(|queue|, i requires 0 <= i < |queue| => (queue[i], Flushed))
  }

  /** All packets removed over a run, in the order in which they left. */
  function Departures(queue: seq<Packet>, ops: seq<Op>): seq<(Packet, Exit)> {
    if ops == [] then []
    else
      var init := ops[..|ops| - 1];
      Departures(queue, init) + Leaving(ApplyAll(queue, init), ops[|ops| - 1])
  }

  function PacketsOf(exits: seq<(Packet, Exit)>): (r: seq<Packet>)
    ensures |r| == |exits|
  {
    seq(|exits|, i requires 0 <= i < |exits| => exits[i].0)
  }

  function CountOf(exits: seq<(Packet, Exit)>, kind: Exit): nat {
    if exits == [] then 0
    else CountOf(exits[..|exits| - 1], kind) + if exits[|exits| - 1].1 == kind then 1 else 0
  }

  lemma StepConserves(queue: seq<Packet>, op: Op)
    ensures PacketsOf(Leaving(queue, op)) + Apply(queue, op) ==
              queue + (if op.Push? && Accepted(op.packet) then [op.packet] else [])
  {
    match op
    case Push(p) => if Accepted(p) && |queue| >= TX_QUEUE_CAPACITY {
      assert queue == [queue[0]] + queue[1..];
    }
    case Pop =>
    case Flush => assert PacketsOf(Leaving(queue, op)) == queue;
  }

  lemma PacketsOfSum(a: seq<(Packet, Exit)>, b: seq<(Packet, Exit)>)
    ensures PacketsOf(a + b) == PacketsOf(a) + PacketsOf(b)
  {
  }

  /** First in, first out, and nothing lost: over any run, the packets that left the queue followed by those still
      in it are those it held at first and the accepted ones, in order of arrival. */
  lemma {:induction false} AcceptedIsDepartedPlusQueued(queue: seq<Packet>, ops: seq<Op>)
    ensures PacketsOf(Departures(queue, ops)) + ApplyAll(queue, ops) == queue + Arrivals(ops)
  {
    if ops != [] {
      var init, last := ops[..|ops| - 1], ops[|ops| - 1];
      AcceptedIsDepartedPlusQueued(queue, init);
      var middle, gone := ApplyAll(queue, init), PacketsOf(Departures(queue, init));
      var left := PacketsOf(Leaving(middle, last));
      var added := if last.Push? && Accepted(last.packet) then [last.packet] else [];
      StepConserves(middle, last);
      PacketsOfSum(Departures(queue, init), Leaving(middle, last));
      Regroup(gone, left, Apply(middle, last), middle, added, queue, Arrivals(init));
    }
  }

  lemma Regroup<T>(a: seq<T>, b: seq<T>, c: seq<T>, d: seq<T>, e: seq<T>, f: seq<T>, g: seq<T>)
    requires b + c == d + e && a + d == f + g
    ensures (a + b) + c == f + (g + e)
  {
    assert (a + b) + c == a + (b + c);
    assert a + (d + e) == (a + d) + e;
  }

  lemma {:induction false} KindsAddUp(exits: seq<(Packet, Exit)>)
    ensures CountOf(exits, Popped) + CountOf(exits, Evicted) + CountOf(exits, Flushed) == |exits|
  {
    if exits != [] {
      KindsAddUp(exits[..|exits| - 1]);
    }
  }

  /** The balance of a queue: accepted = popped + evicted + flushed + queued, and at most 64 are queued. */
  lemma QueueBalance(ops: seq<Op>)
    ensures |Arrivals(ops)| == CountOf(Departures([], ops), Popped) + CountOf(Departures([], ops), Evicted)
                               + CountOf(Departures([], ops), Flushed) + |ApplyAll([], ops)|
    ensures |ApplyAll([], ops)| <= TX_QUEUE_CAPACITY
  {
    AcceptedIsDepartedPlusQueued([], ops);
    KindsAddUp(Departures([], ops));
  }

  /** The packets of 1 to 2048 bytes, in order. */
  function Fitting(packets: seq<Packet>): seq<Packet> {
    if packets == [] then []
    else
      var init, last := Fitting(packets[..|packets| - 1]), packets[|packets| - 1];
      if 1 <= |last.data| <= 2048 then init + [last] else init
  }

  function Pushes(packets: seq<Packet>): (ops: seq<Op>)
    ensures |ops| == |packets|
  {
    seq(|packets|, i requires 0 <= i < |packets| => Op.Push(packets[i]))
  }

  function Newest64(packets: seq<Packet>): seq<Packet> {
    if |packets| <= 64 then packets else packets[|packets| - 64..]
  }

  /** However many packets are pushed while nothing is taken, the queue ends up with the newest 64 of those it held
      and of those that came with 1 to 2048 bytes. */
  lemma {:induction false} PushesKeepNewest(queue: seq<Packet>, packets: seq<Packet>)
    requires |queue| <= 64
    ensures ApplyAll(queue, Pushes(packets)) == Newest64(queue + Fitting(packets))
  {
    if packets == [] {
      assert queue + [] == queue;
    } else {
      var init, last := packets[..|packets| - 1], packets[|packets| - 1];
      PushesKeepNewest(queue, init);
      assert Pushes(packets)[..|packets| - 1] == Pushes(init);
      assert queue + (Fitting(init) + [last]) == (queue + Fitting(init)) + [last];
    }
  }

  // ---------------------------------------------------------------- the linked list

  class Cell {
    const packet: Packet
    var next: Cell?

    constructor (packet: Packet)
      ensures this.packet == packet && next == null
    {
      this.packet := packet;
      next := null;
    }
  }

  ghost function PacketsIn(cells: seq<Cell>): (r: seq<Packet>)
    ensures |r| == |cells| && forall i :: 0 <= i < |cells| ==> r[i] == cells[i].packet
  {
    seq(|cells|, i requires 0 <= i < |cells| => cells[i].packet)
  }

  /** Unlinking the oldest of too many cells and linking one at the end is a push on the packets. */
  lemma PushedPackets(cells: seq<Cell>, cell: Cell)
    requires Accepted(cell.packet)
    ensures PacketsIn((if |cells| >= TX_QUEUE_CAPACITY then cells[1..] else cells) + [cell]) ==
              Pushed(PacketsIn(cells), cell.packet)
  {
  }

  /** The cell at position k of a list, or the null that ends it. */
  ghost function At(cells: seq<Cell>, k: nat): Cell? {
    if k < |cells| then cells[k] else null
  }

  class Queue {
    var head: Cell?
    var tail: Cell?
    var count: int
    ghost var cells: seq<Cell>   // the list, from head to tail
    ghost var repr: set<Cell>    // every cell it ever held

    ghost predicate Linked()
      reads this, repr
    {
      && (forall i :: 0 <= i < |cells| ==> cells[i] in repr)
      && (forall i, j :: 0 <= i < j < |cells| ==> cells[i] != cells[j])
      && (forall i :: 0 <= i < |cells| ==> cells[i].next == At(cells, i + 1))
    }

    ghost predicate Valid()
      reads this, repr
    {
      && Linked()
      && head == At(cells, 0)
      && tail == (if cells == [] then null else cells[|cells| - 1])
      && count == |cells| <= TX_QUEUE_CAPACITY
    }

    ghost function Contents(): (r: seq<Packet>)
      reads this
    {
      PacketsIn(cells)
    }

    /** tx_queue_create. */
    constructor ()
      ensures Valid() && Contents() == [] && repr == {}
    {
      head, tail, count := null, null, 0;
      cells, repr := [], {};
    }

    /** Takes the oldest cell off the list. */
    method Unlink() returns (oldest: Cell)
      requires Valid() && cells != []
      modifies `head, `tail, `count, `cells
      ensures Valid() && oldest == old(cells[0]) && cells == old(cells[1..])
    {
      oldest := head;
      head := oldest.next;
      if head == null { tail := null; }
      count := count - 1;
      cells := cells[1..];
    }

    /** Drops the oldest packet of a full queue. */
    method MakeRoom()
      requires Valid()
      modifies `head, `tail, `count, `cells
      ensures Valid() && |cells| < TX_QUEUE_CAPACITY
      ensures cells == if |old(cells)| >= TX_QUEUE_CAPACITY then old(cells)[1..] else old(cells)
    {
      if count >= TX_QUEUE_CAPACITY {
        var _ := Unlink();
      }
    }

    /** Links a fresh cell behind the last one. */
    method Link(cell: Cell)
      requires Valid() && |cells| < TX_QUEUE_CAPACITY && cell !in repr && cell.next == null
      modifies this, repr
      ensures Valid() && cells == old(cells) + [cell] && repr == old(repr) + {cell}
    {
      if tail != null {
        tail.next := cell;
        tail := cell;
      } else {
        head := cell;
        tail := cell;
      }
      count := count + 1;
      cells, repr := cells + [cell], repr + {cell};
    }

    /** tx_queue_push. */
    method Push(p: Packet)
      requires Valid()
      modifies this, repr
      ensures Valid() && fresh(repr - old(repr))
      ensures Contents() == Apply(old(Contents()), Op.Push(p))
    {
      if |p.data| == 0 || |p.data| > TX_QUEUE_MAX_PKT_SIZE {
        return;
      }
      ghost var before := cells;
      MakeRoom();
      var cell := new Cell(p);
      Link(cell);
      PushedPackets(before, cell);
    }

    /** tx_queue_pop. */
    method Pop() returns (cell: Cell?)
      requires Valid()
      modifies this, repr
      ensures Valid() && repr == old(repr)
      ensures cell == null <==> old(Contents()) == []
      ensures cell != null ==> cell.packet == old(Contents())[0] && cell.next == null
      ensures Contents() == Apply(old(Contents()), Op.Pop)
    {
      cell := head;
      if cell != null {
        cell := Unlink();
        cell.next := null;
      }
    }

    /** tx_queue_size. */
    method Size() returns (n: int)
      requires Valid()
      ensures n == |Contents()|
    {
      n := count;
    }

    /** tx_queue_flush: walks the list and then forgets it. */
    method Flush() returns (dropped: nat)
      requires Valid()
      modifies this
      ensures Valid() && repr == old(repr)
      ensures Contents() == Apply(old(Contents()), Op.Flush) && dropped == |old(Contents())|
    {
      var p := head;
      dropped := 0;
      while p != null
        invariant 0 <= dropped <= |cells| && p == At(cells, dropped)
        decreases |cells| - dropped
      {
        p := p.next;
        dropped := dropped + 1;
      }
      head, tail, count := null, null, 0;
      cells := [];
    }

    /** One operation of some thread. */
    method Perform(op: Op)
      requires Valid()
      modifies this, repr
      ensures Valid() && fresh(repr - old(repr))
      ensures Contents() == Apply(old(Contents()), op)
    {
      match op {
        case Push(p) => Push(p);
        case Pop => var _ := Pop();
        case Flush => var _ := Flush();
      }
    }
  }
}

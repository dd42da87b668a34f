/** Runs of a whole mesh, in which every beacon is what its sender announces, and a network that settles in one. */
module MeshRuns {
  import opened Base
  import opened Networks
  import opened Topology
  import opened TopologyRuns
  import opened Settling

  /** A node: its matrix, and what this was when the last beacon came in. Prim ran then, so that the tree the node
      holds is the one built from these tables, whatever has been measured or has expired since. */
  datatype Peer = Peer(topo: Topo, read: Topo)

  /** All nodes, node x at position x - 1. */
  type Mesh = seq<Peer>

  /** One announcement and one node that hears it, or a new measurement of one of the links of a node. What is
      announced and not heard is lost. */
  datatype Act =
    | Air(sender: nat, receiver: nat, now: int)
    | Gauge(node: nat, id: Id, q: Byte)

  ghost predicate MeshValid(w: Network, m: Mesh) {
    |m| == w.n && forall v: nat :: v < w.n ==> IsNode(m[v].topo, v)
  }

  ghost predicate IsNode(t: Topo, v: nat) {
    Valid(t) && t.me == v + 1
  }

  /** What a node announces, and what it makes of a beacon. */
  ghost function Said(t: Topo, now: int): Topo {
    if Valid(t) then Announced(t, now) else t
  }

  ghost function Taken(t: Topo, b: Topo, now: int): Topo {
    if Valid(t) then Merge(t, b, b.me, now) else t
  }

  /** No age is negative: the clock has not gone back. */
  ghost predicate CanSay(t: Topo, now: int) {
    EventOk(Beacon(Said(t, now), t.me, now))
  }

  ghost predicate AirOk(w: Network, m: Mesh, a: Act) {
    && a.Air? && a.sender < |m| && a.receiver < |m| && w.Link(a.receiver + 1, a.sender + 1) == 1
    && CanSay(m[a.sender].topo, a.now)
  }

  /** A node that has heard a beacon builds its tree anew. */
  ghost function Hearing(p: Peer, b: Topo, now: int): (r: Peer)
    ensures r.topo == r.read == Taken(p.topo, b, now)
  {
    Peer(Taken(p.topo, b, now), Taken(p.topo, b, now))
  }

  ghost function Transmit(m: Mesh, a: Act): (r: Mesh)
    requires a.Air? && a.sender < |m| && a.receiver < |m|
    ensures |r| == |m|
    ensures forall v: nat :: v < |m| ==>
              r[v] == if v == a.receiver then Hearing(m[v], Said(m[a.sender].topo, a.now), a.now)
                      else if v == a.sender then m[v].(topo := Said(m[v].topo, a.now))
                      else m[v]
  {
    var b := Said(m[a.sender].topo, a.now);
    m[a.sender := m[a.sender].(topo := b)][a.receiver := Hearing(m[a.receiver], b, a.now)]
  }

  ghost function Gauged(t: Topo, id: Id, q: Byte): Topo {
    if Valid(t) then WithQuality(t, id, q) else t
  }

  ghost function Measure(m: Mesh, a: Act): (r: Mesh)
    requires a.Gauge? && a.node < |m|
    ensures |r| == |m|
    ensures forall v: nat :: v < |m| ==>
              r[v] == if v == a.node then m[v].(topo := Gauged(m[v].topo, a.id, a.q)) else m[v]
  {
    m[a.node := m[a.node].(topo := Gauged(m[a.node].topo, a.id, a.q))]
  }

  lemma SaidIsNode(t: Topo, now: int, v: nat)
    requires IsNode(t, v)
    ensures IsNode(Said(t, now), v) && ValidBeacon(Said(t, now))
  {
    AnnouncedIsBeacon(t, now);
  }

  ghost function Starts(w: Network): (m: Mesh)
    requires w.Small()
    ensures MeshValid(w, m)
  {
    seq(w.n, v requires 0 <= v < w.n => Peer(Init(v + 1, 0), Init(v + 1, 0)))
  }

  ghost predicate IsNext(w: Network, p: Mesh, a: Act, m: Mesh) {
    && MeshValid(w, p)
    && if a.Air? then AirOk(w, p, a) && m == Transmit(p, a) else a.node < |p| && m == Measure(p, a)
  }

  /** The states a mesh passes through, its nodes started together at time 0. */
  ghost predicate IsMeshRun(w: Network, states: seq<Mesh>, acts: seq<Act>) {
    && w.Small() && |states| == |acts| + 1 && states[0] == Starts(w)
    && forall k :: 0 <= k < |acts| ==> IsNext(w, states[k], acts[k], states[k + 1])
  }

  ghost predicate MeshReached(w: Network, m: Mesh) {
    exists states, acts :: IsMeshRun(w, states, acts) && states[|acts|] == m
  }

  lemma LongerRun(w: Network, states: seq<Mesh>, acts: seq<Act>, p: Mesh, a: Act, m: Mesh)
    requires IsMeshRun(w, states, acts) && states[|acts|] == p && IsNext(w, p, a, m)
    ensures MeshReached(w, m)
  {
    hide IsNext, Starts;
    var more, next := states + [m], acts + [a];
    forall k | 0 <= k < |next| ensures IsNext(w, more[k], next[k], more[k + 1]) {
      if k < |acts| {
        assert more[k] == states[k] && next[k] == acts[k] && more[k + 1] == states[k + 1];
      }
    }
    assert IsMeshRun(w, more, next);
  }

  lemma OneMoreAct(w: Network, p: Mesh, a: Act, m: Mesh)
    ensures MeshReached(w, p) && IsNext(w, p, a, m) ==> MeshReached(w, m)
  {
    hide IsNext;
    if MeshReached(w, p) && IsNext(w, p, a, m) {
      var states, acts :| IsMeshRun(w, states, acts) && states[|acts|] == p;
      LongerRun(w, states, acts, p, a, m);
    }
  }

  lemma AirIs(w: Network, p: Mesh, a: Act, t: Topo, now: int)
    requires a.Air? && a.sender < |p| && a.receiver < |p| && p[a.sender].topo == t && a.now == now
    ensures CanSay(t, now) && w.Link(a.receiver + 1, a.sender + 1) == 1 ==> AirOk(w, p, a)
  {
  }

  lemma AirIsNext(w: Network, p: Mesh, a: Act)
    requires a.Air? && a.sender < |p| && a.receiver < |p|
    ensures MeshValid(w, p) && AirOk(w, p, a) ==> IsNext(w, p, a, Transmit(p, a))
  {
  }

  lemma OneMoreAir(w: Network, p: Mesh, s: nat, v: nat, now: int, a: Act)
    requires a == Air(s, v, now) && s < |p| && v < |p| && w.Link(v + 1, s + 1) == 1
    ensures MeshReached(w, p) && MeshValid(w, p) && CanSay(p[s].topo, now) ==> MeshReached(w, Transmit(p, a))
  {
    hide *;
    AirIs(w, p, a, p[s].topo, now);
    AirIsNext(w, p, a);
    OneMoreAct(w, p, a, Transmit(p, a));
  }

  lemma OneMoreGauge(w: Network, p: Mesh, a: Act)
    requires a.Gauge? && a.node < |p|
    ensures MeshReached(w, p) && MeshValid(w, p) ==> MeshReached(w, Measure(p, a))
  {
    OneMoreAct(w, p, a, Measure(p, a));
  }

  // ---------------------------------------------------------------- each node has its own run

  /** Every matrix, and every matrix a tree was built from, is what some run of its node leads to. */
  ghost predicate AllLed(w: Network, m: Mesh) {
    |m| == w.n && forall v: nat, me: Id :: v < w.n && me == v + 1 ==> Led(me, m[v].topo) && Led(me, m[v].read)
  }

  ghost predicate Led(me: Id, t: Topo) {
    exists h :: Leads(h, me, t)
  }

  lemma LedOn(me: Id, t: Topo, e: Event)
    requires Valid(t) && EventOk(e) && Led(me, t)
    ensures Led(me, Step(t, e))
  {
    var h :| Leads(h, me, t);
    var next := OneMoreEvent(h, e);
  }

  lemma TransmitLeads(w: Network, m: Mesh, a: Act, r: Mesh)
    requires MeshValid(w, m) && AirOk(w, m, a) && AllLed(w, m) && r == Transmit(m, a)
    ensures AllLed(w, r)
  {
    var b := Said(m[a.sender].topo, a.now);
    SaidIsNode(m[a.sender].topo, a.now, a.sender);
    forall v: nat, me: Id | v < w.n && me == v + 1 ensures Led(me, r[v].topo) && Led(me, r[v].read) {
      assert Led(me, m[v].topo) && IsNode(m[v].topo, v);
      if v == a.receiver {
        LedOn(me, m[v].topo, Beacon(b, b.me, a.now));
      } else if v == a.sender {
        LedOn(me, m[v].topo, Announce(a.now));
      }
    }
  }

  lemma MeasureLeads(w: Network, m: Mesh, a: Act, r: Mesh)
    requires MeshValid(w, m) && a.Gauge? && a.node < |m| && AllLed(w, m) && r == Measure(m, a)
    ensures AllLed(w, r)
  {
    forall v: nat, me: Id | v < w.n && me == v + 1 ensures Led(me, r[v].topo) && Led(me, r[v].read) {
      assert Led(me, m[v].topo) && IsNode(m[v].topo, v);
      if v == a.node {
        LedOn(me, m[v].topo, Measured(a.id, a.q));
      }
    }
  }

  lemma StartsLed(w: Network, m: Mesh)
    requires w.Small() && m == Starts(w)
    ensures AllLed(w, m)
  {
    forall v: nat, me: Id | v < w.n && me == v + 1 ensures Led(me, m[v].topo) && Led(me, m[v].read) {
      assert Leads(History(me, 0, []), me, m[v].topo);
    }
  }

  lemma NextLeads(w: Network, p: Mesh, a: Act, m: Mesh)
    requires AllLed(w, p) && IsNext(w, p, a, m)
    ensures AllLed(w, m)
  {
    if a.Air? {
      TransmitLeads(w, p, a, m);
    } else {
      MeasureLeads(w, p, a, m);
    }
  }

  lemma {:induction false} RunLeads(w: Network, states: seq<Mesh>, acts: seq<Act>, k: nat)
    requires IsMeshRun(w, states, acts) && k <= |acts|
    ensures AllLed(w, states[k])
  {
    if k == 0 {
      StartsLed(w, states[0]);
    } else {
      RunLeads(w, states, acts, k - 1);
      NextLeads(w, states[k - 1], acts[k - 1], states[k]);
    }
  }

  /** In a run of the mesh every node goes through a run of its own, so that all that is proved of these holds in
      it. */
  lemma MeshRunsAreRuns(w: Network, m: Mesh)
    requires MeshReached(w, m)
    ensures AllLed(w, m)
  {
    var states, acts :| IsMeshRun(w, states, acts) && states[|acts|] == m;
    RunLeads(w, states, acts, |acts|);
  }
}

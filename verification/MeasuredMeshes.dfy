/** A run of the whole mesh after which every node reads its own measurements, whatever these are. */
module MeasuredMeshes {
  import opened Base
  import opened Networks
  import opened NetworkNets
  import opened Topology
  import opened Settling
  import opened Readings
  import opened MeasuredRows
  import opened MeshRuns
  import opened MeshSettles
  import opened MeshMeasures

  /** What the nodes are to measure, and whom each of them is to hear last. */
  ghost predicate RowsOk(w: Network, rows: seq<seq<Byte>>, zs: seq<Id>) {
    |rows| == |zs| == w.n && forall v: nat :: v < w.n ==> RowZOk(w, v, rows[v], zs[v])
  }

  ghost predicate RowZOk(w: Network, v: nat, row: seq<Byte>, z: Id) {
    RowAt(w, v, row) && |row| == w.n && w.Has(z) && w.Link(v + 1, z) == 1
  }

  // ---------------------------------------------------------------- measuring

  /** How many links the node at position u has measured when v is at its k-th. */
  ghost function Count(w: Network, u: nat, v: nat, k: nat): nat {
    if u < v then w.n else if u == v then k else 0
  }

  ghost predicate Gauging(w: Network, m: Mesh, rows: seq<seq<Byte>>, v: nat, k: nat) {
    && |m| == |rows| == w.n
    && forall u: nat :: u < w.n ==> GaugedTo(w, m[u].topo, u, rows[u], Count(w, u, v, k), 1_900_000)
  }

  ghost predicate GetsGauging(w: Network, rows: seq<seq<Byte>>, v: nat, k: nat) {
    exists m :: MeshReached(w, m) && Gauging(w, m, rows, v, k)
  }

  lemma GaugedIsNode(w: Network, t: Topo, u: nat, row: seq<Byte>, k: nat, now: int)
    ensures GaugedTo(w, t, u, row, k, now) ==> IsNode(t, u)
  {
  }

  lemma GaugingIsValid(w: Network, m: Mesh, rows: seq<seq<Byte>>, v: nat, k: nat)
    requires Gauging(w, m, rows, v, k)
    ensures MeshValid(w, m)
  {
    forall u: nat | u < w.n ensures IsNode(m[u].topo, u) {
      GaugedIsNode(w, m[u].topo, u, rows[u], Count(w, u, v, k), 1_900_000);
    }
  }

  lemma GaugeOne(w: Network, m: Mesh, rows: seq<seq<Byte>>, v: nat, j: nat, k: nat, a: Act, r: Mesh)
    requires Gauging(w, m, rows, v, j) && v < w.n && k == j + 1 <= w.n == |rows[v]| && w.Link(v + 1, k) == 1
    requires a == Gauge(v, k, rows[v][j]) && r == Measure(m, a)
    ensures Gauging(w, r, rows, v, k)
  {
    forall u: nat | u < w.n ensures GaugedTo(w, r[u].topo, u, rows[u], Count(w, u, v, k), 1_900_000) {
      var before := GaugedTo(w, m[u].topo, u, rows[u], Count(w, u, v, j), 1_900_000);
      assert u != v ==> Count(w, u, v, k) == Count(w, u, v, j) && r[u] == m[u];
      if u == v {
        GaugeNext(w, m[v].topo, v, rows[v], j, k, k, 1_900_000);
      }
    }
  }

  lemma SkipOne(w: Network, m: Mesh, rows: seq<seq<Byte>>, v: nat, j: nat, k: nat)
    requires Gauging(w, m, rows, v, j) && v < w.n && k == j + 1 <= w.n && w.Link(v + 1, k) != 1
    ensures Gauging(w, m, rows, v, k)
  {
    forall u: nat | u < w.n ensures GaugedTo(w, m[u].topo, u, rows[u], Count(w, u, v, k), 1_900_000) {
      var before := GaugedTo(w, m[u].topo, u, rows[u], Count(w, u, v, j), 1_900_000);
      assert u != v ==> Count(w, u, v, k) == Count(w, u, v, j);
      if u == v {
        GaugeSkip(w, m[v].topo, v, rows[v], j, k, 1_900_000);
      }
    }
  }

  lemma NextGauge(w: Network, rows: seq<seq<Byte>>, v: nat, j: nat, k: nat)
    requires GetsGauging(w, rows, v, j) && |rows| == w.n && v < w.n && k == j + 1 <= w.n == |rows[v]|
    ensures GetsGauging(w, rows, v, k)
  {
    var m: Mesh :| MeshReached(w, m) && Gauging(w, m, rows, v, j);
    if w.Link(v + 1, k) == 1 {
      var a := Gauge(v, k, rows[v][j]);
      GaugingIsValid(w, m, rows, v, j);
      OneMoreGauge(w, m, a);
      GaugeOne(w, m, rows, v, j, k, a, Measure(m, a));
    } else {
      SkipOne(w, m, rows, v, j, k);
    }
  }

  lemma {:induction false} NodeGauges(w: Network, rows: seq<seq<Byte>>, v: nat, k: nat)
    requires GetsGauging(w, rows, v, 0) && |rows| == w.n && v < w.n && k <= w.n == |rows[v]|
    ensures GetsGauging(w, rows, v, k)
  {
    if k > 0 {
      var j := k - 1;
      NodeGauges(w, rows, v, j);
      NextGauge(w, rows, v, j, k);
    }
  }

  lemma NextNode(w: Network, rows: seq<seq<Byte>>, v: nat, next: nat)
    requires GetsGauging(w, rows, v, w.n) && next == v + 1
    ensures GetsGauging(w, rows, next, 0)
  {
    var m: Mesh :| MeshReached(w, m) && Gauging(w, m, rows, v, w.n);
    forall u: nat | u < w.n ensures GaugedTo(w, m[u].topo, u, rows[u], Count(w, u, next, 0), 1_900_000) {
      assert Count(w, u, next, 0) == Count(w, u, v, w.n);
    }
    assert Gauging(w, m, rows, next, 0);
  }

  lemma {:induction false} AllGauge(w: Network, rows: seq<seq<Byte>>, zs: seq<Id>, v: nat)
    requires RowsOk(w, rows, zs) && GetsGauging(w, rows, 0, 0) && v <= w.n
    ensures GetsGauging(w, rows, v, 0)
  {
    if v > 0 {
      var u := v - 1;
      AllGauge(w, rows, zs, u);
      assert RowZOk(w, u, rows[u], zs[u]);
      NodeGauges(w, rows, u, w.n);
      NextNode(w, rows, u, v);
    }
  }

  lemma SettledGauges(w: Network, t: Topo, v: nat, me: Id, row: seq<Byte>)
    requires Valid(t) && IsSettled(w, me, t) && InRounds(t) && me == v + 1
    ensures GaugedTo(w, t, v, row, 0, 1_900_000)
  {
    SettledIsMeasuredUpto0(w, me, row, t);
    assert Knows(w, t, me, 1_900_000);
  }

  lemma GaugingStarts(w: Network, rows: seq<seq<Byte>>)
    requires w.Small() && TwoHops(w) && w.n > 0 && |rows| == w.n
    ensures GetsGauging(w, rows, 0, 0)
  {
    var m := AllSettle(w);
    forall u: nat | u < w.n ensures GaugedTo(w, m[u].topo, u, rows[u], Count(w, u, 0, 0), 1_900_000) {
      var me: Id := u + 1;
      assert SettledPeer(w, m[u], me);
      SettledGauges(w, m[u].topo, u, me, rows[u]);
    }
    assert Gauging(w, m, rows, 0, 0);
  }

  // ---------------------------------------------------------------- hearing

  /** When the node at position v hears its last beacon. */
  function Turn(v: nat): int {
    2_000_000 + 20_000 * v
  }

  ghost predicate ReadsRow(w: Network, t: Topo, me: Id, row: seq<Byte>, z: Id) {
    t.ids == w.Ids() && NetOfState(t) == MeasuredNet(w, me, row, z)
  }

  ghost predicate ReadsAt(w: Network, t: Topo, u: nat, row: seq<Byte>, z: Id) {
    forall me: Id :: me == u + 1 ==> ReadsRow(w, t, me, row, z)
  }

  /** Once the node has heard its last beacon, the tree it holds is built from all it has measured. */
  ghost predicate ListensAt(w: Network, p: Peer, u: nat, row: seq<Byte>, z: Id, done: bool, now: int) {
    if done then HeardFrom(w, p.topo, u, row, z, now) && ReadsAt(w, p.read, u, row, z)
    else GaugedTo(w, p.topo, u, row, w.n, now)
  }

  ghost predicate Listening(w: Network, m: Mesh, rows: seq<seq<Byte>>, zs: seq<Id>, v: nat, now: int) {
    && |m| == |rows| == |zs| == w.n && Late(now)
    && forall u: nat :: u < w.n ==> ListensAt(w, m[u], u, rows[u], zs[u], u < v, now)
  }

  ghost predicate GetsListening(w: Network, rows: seq<seq<Byte>>, zs: seq<Id>, v: nat) {
    exists m, now :: MeshReached(w, m) && Listening(w, m, rows, zs, v, now) && now <= Turn(v)
  }

  lemma ListenIsNode(w: Network, p: Peer, u: nat, row: seq<Byte>, z: Id, done: bool, now: int)
    ensures ListensAt(w, p, u, row, z, done, now) ==> IsNode(p.topo, u)
  {
  }

  lemma ListeningIsValid(w: Network, m: Mesh, rows: seq<seq<Byte>>, zs: seq<Id>, v: nat, now: int)
    requires Listening(w, m, rows, zs, v, now)
    ensures MeshValid(w, m)
  {
    forall u: nat | u < w.n ensures IsNode(m[u].topo, u) {
      ListenIsNode(w, m[u], u, rows[u], zs[u], u < v, now);
    }
  }

  lemma ListeningLater(w: Network, m: Mesh, rows: seq<seq<Byte>>, zs: seq<Id>, v: nat, now: int, later: int)
    requires Listening(w, m, rows, zs, v, now) && now <= later && Late(later)
    ensures Listening(w, m, rows, zs, v, later)
  {
    forall u: nat | u < w.n ensures ListensAt(w, m[u], u, rows[u], zs[u], u < v, later) {
      if u < v {
        LaterHeard(w, m[u].topo, u, rows[u], zs[u], now, later);
      } else {
        LaterGauged(w, m[u].topo, u, rows[u], w.n, now, later);
      }
    }
  }

  lemma SpeaksAt(w: Network, p: Peer, s: nat, row: seq<Byte>, z: Id, done: bool, now: int, b: Topo)
    requires ListensAt(w, p, s, row, z, done, now) && Late(now) && b == Said(p.topo, now)
    ensures ListensAt(w, p.(topo := b), s, row, z, done, now) && CanSay(p.topo, now) && TellsAll(w, b, s, now)
  {
    if done {
      HeardSays(w, p.topo, s, row, z, now, b);
    } else {
      GaugedSays(w, p.topo, s, row, w.n, now, b);
    }
  }

  lemma ReadsLast(w: Network, t: Topo, v: nat, row: seq<Byte>, z: Id, now: int, me: Id)
    requires HeardFrom(w, t, v, row, z, now) && me == v + 1
    ensures ReadsRow(w, t, me, row, z)
  {
    LastNet(w, me, row, z, t);
  }

  lemma HeardReads(w: Network, t: Topo, v: nat, row: seq<Byte>, z: Id, now: int)
    requires HeardFrom(w, t, v, row, z, now)
    ensures ReadsAt(w, t, v, row, z)
  {
    hide HeardFrom, ReadsRow;
    forall me: Id | me == v + 1 ensures ReadsRow(w, t, me, row, z) {
      ReadsLast(w, t, v, row, z, now, me);
    }
  }

  /** What becomes of the node at position u when v hears s. */
  lemma ListensNext(w: Network, p: Peer, u: nat, row: seq<Byte>, z: Id, v: nat, s: nat, now: int, b: Topo)
    requires Late(now) && TellsAll(w, b, s, now) && RowZOk(w, u, row, z) && u < w.n && (u == v ==> z == s + 1)
    ensures u == v && ListensAt(w, p, u, row, z, u < v, now) ==>
              ListensAt(w, Hearing(p, b, now), u, row, z, u < v + 1, now)
  {
    if u == v && ListensAt(w, p, u, row, z, u < v, now) {
      GaugedHears(w, p.topo, u, row, z, now, b);
      HeardReads(w, Taken(p.topo, b, now), u, row, z, now);
    }
  }

  lemma ListenOne(w: Network, m: Mesh, rows: seq<seq<Byte>>, zs: seq<Id>, v: nat, s: nat, now: int, a: Act, r: Mesh)
    requires Listening(w, m, rows, zs, v, now) && RowsOk(w, rows, zs) && v < w.n && s < w.n && zs[v] == s + 1
    requires a == Air(s, v, now) && r == Transmit(m, a)
    ensures Listening(w, r, rows, zs, v + 1, now)
  {
    var b := Said(m[s].topo, now);
    SpeaksAt(w, m[s], s, rows[s], zs[s], s < v, now, b);
    forall u: nat | u < w.n ensures ListensAt(w, r[u], u, rows[u], zs[u], u < v + 1, now) {
      assert RowZOk(w, u, rows[u], zs[u]);
      var before := ListensAt(w, m[u], u, rows[u], zs[u], u < v, now);
      assert u != v ==> (u < v + 1) == (u < v) && r[u] == if u == s then m[u].(topo := b) else m[u];
      assert u == v ==> r[u] == Hearing(m[u], b, now);
      ListensNext(w, m[u], u, rows[u], zs[u], v, s, now, b);
    }
  }

  lemma SpeakerCan(w: Network, m: Mesh, rows: seq<seq<Byte>>, zs: seq<Id>, v: nat, s: nat, now: int)
    requires Listening(w, m, rows, zs, v, now) && s < w.n
    ensures CanSay(m[s].topo, now)
  {
    SpeaksAt(w, m[s], s, rows[s], zs[s], s < v, now, Said(m[s].topo, now));
  }

  lemma ListenOnce(w: Network, m: Mesh, rows: seq<seq<Byte>>, zs: seq<Id>, v: nat, s: nat, now: int, a: Act)
    requires Listening(w, m, rows, zs, v, now) && v < w.n && s < w.n && w.Link(v + 1, s + 1) == 1
    requires a == Air(s, v, now) && MeshReached(w, m)
    ensures MeshReached(w, Transmit(m, a))
  {
    ListeningIsValid(w, m, rows, zs, v, now);
    SpeakerCan(w, m, rows, zs, v, s, now);
    OneMoreAir(w, m, s, v, now, a);
  }

  lemma ListenFrom(w: Network, m: Mesh, rows: seq<seq<Byte>>, zs: seq<Id>, v: nat, s: nat, now: int, next: nat)
    requires Listening(w, m, rows, zs, v, now) && MeshReached(w, m) && RowsOk(w, rows, zs) && now == Turn(v)
    requires |m| == w.n && v < w.n && s < w.n && zs[v] == s + 1 && w.Link(v + 1, s + 1) == 1 && next == v + 1
    ensures GetsListening(w, rows, zs, next)
  {
    hide Listening, RowsOk;
    var a := Air(s, v, now);
    ListenOnce(w, m, rows, zs, v, s, now, a);
    ListenOne(w, m, rows, zs, v, s, now, a, Transmit(m, a));
  }

  lemma ListenInTurn(w: Network, m: Mesh, rows: seq<seq<Byte>>, zs: seq<Id>, v: nat, z: Id, now: int, next: nat)
    requires w.Small() && v < w.n && next == v + 1 && now <= Turn(v) && RowsOk(w, rows, zs) && zs[v] == z
    requires MeshReached(w, m) && Listening(w, m, rows, zs, v, now)
    ensures GetsListening(w, rows, zs, next)
  {
    hide MeshReached, GetsListening;
    ListeningLater(w, m, rows, zs, v, now, Turn(v));
    assert RowZOk(w, v, rows[v], zs[v]);
    hide Listening, RowsOk, RowZOk;
    ListenFrom(w, m, rows, zs, v, z - 1, Turn(v), next);
  }

  lemma NextListens(w: Network, rows: seq<seq<Byte>>, zs: seq<Id>, v: nat, next: nat)
    requires w.Small() && RowsOk(w, rows, zs) && GetsListening(w, rows, zs, v) && v < w.n && next == v + 1
    ensures GetsListening(w, rows, zs, next)
  {
    var m: Mesh, now: int :| MeshReached(w, m) && Listening(w, m, rows, zs, v, now) && now <= Turn(v);
    hide MeshReached, Listening, GetsListening;
    ListenInTurn(w, m, rows, zs, v, zs[v], now, next);
  }

  lemma {:induction false} AllListen(w: Network, rows: seq<seq<Byte>>, zs: seq<Id>, v: nat)
    requires w.Small() && RowsOk(w, rows, zs) && GetsListening(w, rows, zs, 0) && v <= w.n
    ensures GetsListening(w, rows, zs, v)
  {
    if v > 0 {
      var u := v - 1;
      AllListen(w, rows, zs, u);
      NextListens(w, rows, zs, u, v);
    }
  }

  lemma ListeningStarts(w: Network, rows: seq<seq<Byte>>, zs: seq<Id>)
    requires RowsOk(w, rows, zs) && GetsGauging(w, rows, w.n, 0)
    ensures GetsListening(w, rows, zs, 0)
  {
    var m: Mesh :| MeshReached(w, m) && Gauging(w, m, rows, w.n, 0);
    forall u: nat | u < w.n ensures ListensAt(w, m[u], u, rows[u], zs[u], u < 0, 1_900_000) {
      assert Count(w, u, w.n, 0) == w.n;
    }
    assert Listening(w, m, rows, zs, 0, 1_900_000);
  }

  // ---------------------------------------------------------------- what is read

  /** Every node holds the tree that Prim builds from these measurements and the boost of the last beacon. */
  ghost predicate AllMeasured(w: Network, m: Mesh, rows: seq<seq<Byte>>, zs: seq<Id>) {
    && |m| == |rows| == |zs| == w.n
    && forall v: nat, me: Id :: v < w.n && me == v + 1 ==> ReadsRow(w, m[v].read, me, rows[v], zs[v])
  }

  /** In a network of at most two hops, whatever each node measures of its own links, none of it 0, and whoever it
      hears last: some run of the mesh leads to the state in which all nodes hold trees built from just that. */
  lemma AnyMeasurementsMeet(w: Network, rows: seq<seq<Byte>>, zs: seq<Id>) returns (m: Mesh)
    requires w.Small() && TwoHops(w) && w.n > 0 && RowsOk(w, rows, zs)
    ensures MeshReached(w, m) && AllMeasured(w, m, rows, zs)
  {
    GaugingStarts(w, rows);
    AllGauge(w, rows, zs, w.n);
    ListeningStarts(w, rows, zs);
    AllListen(w, rows, zs, w.n);
    var now;
    m, now :| MeshReached(w, m) && Listening(w, m, rows, zs, w.n, now) && now <= Turn(w.n);
    forall v: nat, me: Id | v < w.n && me == v + 1 ensures ReadsRow(w, m[v].read, me, rows[v], zs[v]) {
      assert ListensAt(w, m[v], v, rows[v], zs[v], v < w.n, now);
    }
  }
}

/** A small network in which everybody hears everybody, directly or from a neighbour, settles in three rounds of a
    run of the whole mesh. */
module MeshSettles {
  import opened Base
  import opened Networks
  import opened Topology
  import opened TopologyRuns
  import opened Settling
  import opened MeshRounds
  import opened MeshRuns

  /** The sender was heard in this round; in the third, what it has heard itself is known in full. */
  ghost predicate PairDone(w: Network, t: Topo, s: Id, round: nat) {
    && HasHeard(t, s, round)
    && (round == 3 ==> forall x: Id :: w.Has(x) && w.Link(s, x) == 1 && x != t.me ==> Complete(w, t, x))
  }

  /** The node has heard, in this round, all its neighbours up to s. */
  ghost predicate NodeDone(w: Network, t: Topo, s: nat, round: nat) {
    forall y: Id :: 1 <= y <= s && w.Link(t.me, y) == 1 ==> PairDone(w, t, y, round)
  }

  /** A node that has heard all its neighbours in the rounds before, and those up to s in this one. */
  ghost predicate At(w: Network, t: Topo, round: nat, s: nat, now: int) {
    NodeOk(w, t, now) && (round > 1 ==> NodeDone(w, t, w.n, round - 1)) && NodeDone(w, t, s, round)
  }

  lemma DoneStays(w: Network, t: Topo, b: Topo, now: int, r: Topo, s: nat, round: nat)
    requires Hears(w, t, b, now) && r == Merge(t, b, b.me, now) && NodeDone(w, t, s, round)
    ensures NodeDone(w, r, s, round)
  {
    forall y: Id | 1 <= y <= s && w.Link(r.me, y) == 1 ensures PairDone(w, r, y, round) {
      assert PairDone(w, t, y, round);
      HeardStays(w, t, b, now, r, y, round);
      if round == 3 {
        forall x: Id | w.Has(x) && w.Link(y, x) == 1 && x != t.me ensures Complete(w, r, x) {
          CompleteStays(w, t, b, now, x, r);
        }
      }
    }
  }

  lemma DoneAnnounced(w: Network, t: Topo, now: int, s: nat, round: nat)
    requires NodeOk(w, t, now) && InTime(now) && NodeDone(w, t, s, round)
    ensures NodeDone(w, Announced(t, now), s, round)
  {
    AnnouncedKeeps(w, t, now);
    AnnouncedIs(w, t, now);
    forall y: Id | 1 <= y <= s && w.Link(t.me, y) == 1 ensures PairDone(w, Announced(t, now), y, round) {
      assert PairDone(w, t, y, round);
    }
  }

  /** The pair of sender and receiver is done. */
  lemma HearingIsDone(w: Network, t: Topo, b: Topo, now: int, r: Topo, round: nat)
    requires Hears(w, t, b, now) && r == Merge(t, b, b.me, now) && now == Slot(round, b.me)
    requires round == 3 ==> NodeDone(w, b, w.n, 2)
    ensures PairDone(w, r, b.me, round)
  {
    HearsSender(w, t, b, round, now, r);
    if round == 3 {
      forall x: Id | w.Has(x) && w.Link(b.me, x) == 1 && x != t.me ensures Complete(w, r, x) {
        assert PairDone(w, b, x, 2);
        Told(w, t, b, now, x, r);
      }
    }
  }

  lemma ReceiverStep(w: Network, t: Topo, b: Topo, round: nat, s: nat, now: int, r: Topo)
    requires At(w, t, round, s, now) && Hears(w, t, b, now) && r == Merge(t, b, b.me, now)
    requires b.me == s + 1 && now == Slot(round, b.me) && (round == 3 ==> NodeDone(w, b, w.n, 2))
    ensures At(w, r, round, s + 1, now) && r.me == t.me
  {
    HearingKeeps(w, t, b, now, r);
    if round > 1 {
      DoneStays(w, t, b, now, r, w.n, round - 1);
    }
    DoneStays(w, t, b, now, r, s, round);
    HearingIsDone(w, t, b, now, r, round);
  }

  lemma SenderStep(w: Network, t: Topo, round: nat, s: nat, now: int)
    requires At(w, t, round, s, now) && InTime(now)
    ensures At(w, Announced(t, now), round, s, now) && Announced(t, now).me == t.me
  {
    AnnouncedOk(w, t, now);
    if round > 1 {
      DoneAnnounced(w, t, now, w.n, round - 1);
    }
    DoneAnnounced(w, t, now, s, round);
    AnnouncedIs(w, t, now);
  }

  lemma SenderIsOk(w: Network, t: Topo, round: nat, s: nat, now: int)
    requires At(w, t, round, s, now) && InTime(now) && now == Slot(round, t.me) && 1 <= round <= 3
    ensures BeaconOk(w, Announced(t, now), now)
  {
    if round > 1 {
      forall y: Id | w.Has(y) && w.Link(t.me, y) == 1 ensures HasHeard(t, y, round - 1) {
        assert PairDone(w, t, y, round - 1);
      }
      OwnRowComplete(w, t, now, round - 1);
    }
    AnnouncedIsOk(w, t, round, now);
  }

  lemma BeaconIsEvent(w: Network, b: Topo, now: int)
    requires BeaconOk(w, b, now) && now >= 0
    ensures EventOk(Beacon(b, b.me, now))
  {
    forall x | x in b.ids ensures b.age[x] >= 0 {
      assert DatedOk(w, b, now, x);
    }
  }

  // ---------------------------------------------------------------- one announcement

  ghost predicate StageAt(w: Network, t: Topo, v: nat, round: nat, s: nat, now: int) {
    t.me == v + 1 && 1 <= round <= 3 && InTime(now) && At(w, t, round, s, now)
  }

  /** The tables are those the tree was built from: nothing has been measured since, and nobody has gone. */
  ghost predicate UpToDate(read: Topo, t: Topo) {
    t.me == read.me && t.ids == read.ids && t.link == read.link && t.quality == read.quality
  }

  ghost predicate PeerAt(w: Network, p: Peer, v: nat, round: nat, s: nat, now: int) {
    StageAt(w, p.topo, v, round, s, now) && UpToDate(p.read, p.topo)
  }

  /** A beacon of this round. */
  ghost predicate Speaks(w: Network, b: Topo, s: nat, round: nat, now: int) {
    && BeaconOk(w, b, now) && EventOk(Beacon(b, b.me, now)) && b.me == s + 1 && now == Slot(round, b.me)
    && (round == 3 ==> NodeDone(w, b, w.n, 2))
  }

  lemma SpeakerAt(w: Network, t: Topo, v: nat, round: nat, s: nat, now: int, b: Topo)
    requires StageAt(w, t, v, round, s, now) && now == Slot(round, t.me) && b == Said(t, now)
    ensures Speaks(w, b, v, round, now) && StageAt(w, b, v, round, s, now) && UpToDate(t, b)
  {
    AnnouncedIs(w, t, now);
    SenderStep(w, t, round, s, now);
    SenderIsOk(w, t, round, s, now);
    BeaconIsEvent(w, b, now);
  }

  lemma ListenerAt(w: Network, t: Topo, v: nat, round: nat, s: nat, now: int, b: Topo, r: Topo)
    requires StageAt(w, t, v, round, s, now) && Speaks(w, b, s, round, now) && w.Link(v + 1, s + 1) == 1
    requires r == Taken(t, b, now)
    ensures StageAt(w, r, v, round, s + 1, now)
  {
    ReceiverStep(w, t, b, round, s, now, r);
  }

  // ---------------------------------------------------------------- the mesh

  /** With sender s on its way, how many senders the node at position v has heard: one more if it comes before k. */
  ghost function Heard(v: nat, k: nat, s: nat): nat {
    if v < k then s + 1 else s
  }

  /** Round by round, sender by sender, receiver by receiver: where the mesh is. */
  ghost predicate Stage(w: Network, m: Mesh, round: nat, s: nat, k: nat, now: int) {
    && s < w.n == |m| && now == Slot(round, s + 1)
    && forall v: nat :: v < w.n ==> PeerAt(w, m[v], v, round, Heard(v, k, s), now)
  }

  lemma StageIsValid(w: Network, m: Mesh, round: nat, s: nat, k: nat, now: int)
    requires Stage(w, m, round, s, k, now)
    ensures MeshValid(w, m)
  {
    forall v: nat | v < w.n ensures IsNode(m[v].topo, v) {
      assert PeerAt(w, m[v], v, round, Heard(v, k, s), now);
    }
  }

  lemma SpeaksNow(w: Network, m: Mesh, round: nat, s: nat, k: nat, j: nat, now: int, b: Topo)
    requires Stage(w, m, round, s, k, now) && b == Said(m[s].topo, now) && j == Heard(s, k, s)
    ensures Speaks(w, b, s, round, now) && PeerAt(w, m[s].(topo := b), s, round, j, now)
  {
    assert PeerAt(w, m[s], s, round, j, now);
    SpeakerAt(w, m[s].topo, s, round, j, now, b);
  }

  lemma ListensAt(w: Network, p: Peer, v: nat, round: nat, s: nat, now: int, b: Topo)
    requires w.Link(v + 1, s + 1) == 1
    ensures PeerAt(w, p, v, round, s, now) && Speaks(w, b, s, round, now) ==>
              PeerAt(w, Hearing(p, b, now), v, round, s + 1, now)
  {
    if PeerAt(w, p, v, round, s, now) && Speaks(w, b, s, round, now) {
      ListenerAt(w, p.topo, v, round, s, now, b, Taken(p.topo, b, now));
    }
  }

  lemma NextStage(w: Network, m: Mesh, round: nat, s: nat, k: nat, now: int, a: Act, r: Mesh)
    requires Stage(w, m, round, s, k, now) && k < w.n && w.Link(k + 1, s + 1) == 1
    requires a == Air(s, k, now) && r == Transmit(m, a)
    ensures Stage(w, r, round, s, k + 1, now)
  {
    var b := Said(m[s].topo, now);
    SpeaksNow(w, m, round, s, k, Heard(s, k, s), now, b);
    ListensAt(w, m[k], k, round, s, now, b);
    forall v: nat | v < w.n ensures PeerAt(w, r[v], v, round, Heard(v, k + 1, s), now) {
      var before := PeerAt(w, m[v], v, round, Heard(v, k, s), now);
      assert v != k ==> Heard(v, k + 1, s) == Heard(v, k, s) && r[v] == if v == s then m[v].(topo := b) else m[v];
      assert v == k ==> Heard(v, k + 1, s) == s + 1 && r[v] == Hearing(m[k], b, now);
    }
  }

  lemma SpeakerCanSay(w: Network, t: Topo, s: nat, round: nat, now: int)
    ensures Speaks(w, Said(t, now), s, round, now) ==> CanSay(t, now)
  {
  }

  /** Some run of the mesh gets there. */
  ghost predicate GetsTo(w: Network, round: nat, s: nat, k: nat) {
    exists m, now :: MeshReached(w, m) && Stage(w, m, round, s, k, now)
  }

  lemma ReachedNext(w: Network, m: Mesh, round: nat, s: nat, k: nat, now: int, a: Act, r: Mesh)
    requires MeshReached(w, m) && Stage(w, m, round, s, k, now) && k < w.n && w.Link(k + 1, s + 1) == 1
    requires a == Air(s, k, now) && r == Transmit(m, a)
    ensures MeshReached(w, r)
  {
    StageIsValid(w, m, round, s, k, now);
    SpeaksNow(w, m, round, s, k, Heard(s, k, s), now, Said(m[s].topo, now));
    SpeakerCanSay(w, m[s].topo, s, round, now);
    OneMoreAir(w, m, s, k, now, a);
  }

  // ---------------------------------------------------------------- on and on

  lemma SkipAt(w: Network, p: Peer, v: nat, round: nat, s: nat, now: int)
    requires PeerAt(w, p, v, round, s, now) && w.Link(v + 1, s + 1) != 1
    ensures PeerAt(w, p, v, round, s + 1, now)
  {
    forall y: Id | 1 <= y <= s + 1 && w.Link(p.topo.me, y) == 1 ensures PairDone(w, p.topo, y, round) {
      assert y <= s;
    }
  }

  lemma SkipStage(w: Network, m: Mesh, round: nat, s: nat, k: nat, now: int)
    requires Stage(w, m, round, s, k, now) && k < w.n && w.Link(k + 1, s + 1) != 1
    ensures Stage(w, m, round, s, k + 1, now)
  {
    forall v: nat | v < w.n ensures PeerAt(w, m[v], v, round, Heard(v, k + 1, s), now) {
      assert PeerAt(w, m[v], v, round, Heard(v, k, s), now);
      if v == k {
        SkipAt(w, m[v], v, round, s, now);
      }
    }
  }

  lemma NextReceiver(w: Network, round: nat, s: nat, k: nat, next: nat)
    requires GetsTo(w, round, s, k) && k < w.n && next == k + 1
    ensures GetsTo(w, round, s, next)
  {
    var m: Mesh, now: int :| MeshReached(w, m) && Stage(w, m, round, s, k, now);
    if w.Link(k + 1, s + 1) == 1 {
      var a := Air(s, k, now);
      var r := Transmit(m, a);
      ReachedNext(w, m, round, s, k, now, a, r);
      NextStage(w, m, round, s, k, now, a, r);
    } else {
      SkipStage(w, m, round, s, k, now);
    }
  }

  lemma {:induction false} AllReceivers(w: Network, round: nat, s: nat, k: nat)
    requires GetsTo(w, round, s, 0) && k <= w.n
    ensures GetsTo(w, round, s, k)
  {
    if k > 0 {
      var j := k - 1;
      AllReceivers(w, round, s, j);
      NextReceiver(w, round, s, j, k);
    }
  }

  lemma LaterAt(w: Network, p: Peer, v: nat, round: nat, s: nat, now: int, later: int)
    requires PeerAt(w, p, v, round, s, now) && now <= later && InTime(later)
    ensures PeerAt(w, p, v, round, s, later)
  {
    Later(w, p.topo, now, later);
  }

  lemma NextSender(w: Network, round: nat, s: nat, next: nat)
    requires w.Small() && GetsTo(w, round, s, w.n) && next == s + 1 < w.n
    ensures GetsTo(w, round, next, 0)
  {
    var m: Mesh, now: int :| MeshReached(w, m) && Stage(w, m, round, s, w.n, now);
    var later := Slot(round, next + 1);
    forall v: nat | v < w.n ensures PeerAt(w, m[v], v, round, next, later) {
      assert PeerAt(w, m[v], v, round, s + 1, now);
      LaterAt(w, m[v], v, round, next, now, later);
    }
    assert Stage(w, m, round, next, 0, later);
  }

  lemma {:induction false} AllSenders(w: Network, round: nat, s: nat)
    requires w.Small() && GetsTo(w, round, 0, 0) && s < w.n
    ensures GetsTo(w, round, s, w.n)
  {
    if s > 0 {
      var r := s - 1;
      AllSenders(w, round, r);
      NextSender(w, round, r, s);
    }
    AllReceivers(w, round, s, w.n);
  }

  lemma RoundOver(w: Network, p: Peer, v: nat, round: nat, next: nat, now: int, later: int)
    requires PeerAt(w, p, v, round, w.n, now) && next == round + 1 <= 3 && now <= later && InTime(later)
    ensures PeerAt(w, p, v, next, 0, later)
  {
    Later(w, p.topo, now, later);
  }

  lemma NextRound(w: Network, round: nat, s: nat, next: nat)
    requires w.Small() && GetsTo(w, round, s, w.n) && s + 1 == w.n && next == round + 1 <= 3
    ensures GetsTo(w, next, 0, 0)
  {
    var m: Mesh, now: int :| MeshReached(w, m) && Stage(w, m, round, s, w.n, now);
    var later := Slot(next, 1);
    forall v: nat | v < w.n ensures PeerAt(w, m[v], v, next, 0, later) {
      assert PeerAt(w, m[v], v, round, s + 1, now);
      RoundOver(w, m[v], v, round, next, now, later);
    }
    assert Stage(w, m, next, 0, 0, later);
  }

  lemma StartAt(w: Network, v: nat, p: Peer, now: int)
    requires v < w.n && w.Small() && p.topo == p.read == Init(v + 1, 0) && InTime(now)
    ensures PeerAt(w, p, v, 1, 0, now)
  {
    forall x: Id, y: Id ensures CellOk(w, p.topo, x, y) {
    }
  }

  lemma MeshStarts(w: Network)
    requires w.Small() && w.n > 0
    ensures GetsTo(w, 1, 0, 0)
  {
    var m, now := Starts(w), Slot(1, 1);
    assert IsMeshRun(w, [m], []);
    forall v: nat | v < w.n ensures PeerAt(w, m[v], v, 1, 0, now) {
      StartAt(w, v, m[v], now);
    }
    assert Stage(w, m, 1, 0, 0, now);
  }

  lemma ThreeRounds(w: Network, s: nat)
    requires w.Small() && s + 1 == w.n
    ensures GetsTo(w, 3, s, w.n)
  {
    MeshStarts(w);
    AllSenders(w, 1, s);
    NextRound(w, 1, s, 2);
    AllSenders(w, 2, s);
    NextRound(w, 2, s, 3);
    AllSenders(w, 3, s);
  }

  // ---------------------------------------------------------------- settled

  /** Everybody hears everybody, directly or from a neighbour. */
  ghost predicate TwoHops(w: Network) {
    forall x: Id, y: Id :: w.Has(x) && w.Has(y) && x != y ==> w.Link(x, y) == 1 || Between(w, x, y)
  }

  ghost predicate Between(w: Network, x: Id, y: Id) {
    exists z: Id :: w.Has(z) && w.Link(x, z) == 1 && w.Link(z, y) == 1
  }

  lemma RowIsComplete(w: Network, t: Topo, now: int, x: Id)
    requires At(w, t, 3, w.n, now) && TwoHops(w) && w.Has(x)
    ensures Complete(w, t, x)
  {
    if x == t.me {
      forall y: Id | w.Has(y) && w.Link(t.me, y) == 1 ensures HasHeard(t, y, 3) {
        assert PairDone(w, t, y, 3);
      }
      OwnRowComplete(w, t, now, 3);
    } else if w.Link(t.me, x) == 1 {
      assert PairDone(w, t, x, 3);
      assert DatedOk(w, t, now, x);
    } else {
      var z: Id :| w.Has(z) && w.Link(t.me, z) == 1 && w.Link(z, x) == 1;
      assert PairDone(w, t, z, 3);
    }
  }

  lemma AllIds(w: Network, t: Topo, now: int)
    requires w.Small() && NodeOk(w, t, now) && forall x: Id :: w.Has(x) ==> Complete(w, t, x)
    ensures t.ids == w.Ids()
  {
    IdsAre(w);
    forall x: Id ensures x in t.ids <==> x in w.Ids() {
      HasId(w, x);
      assert w.Has(x) ==> Complete(w, t, x);
      if x in t.ids {
        IdIsInNetwork(w, t, now, x);
      }
    }
    AscendingUnique(t.ids, w.Ids());
  }

  /** Everybody was heard of during the rounds. */
  ghost predicate InRounds(t: Topo) {
    forall x: Id :: x in t.ids && x != t.me ==> x in t.created && 520_000 <= t.created[x] <= 1_900_000
  }

  lemma SettledAt(w: Network, t: Topo, now: int, me: Id)
    requires w.Small() && TwoHops(w) && At(w, t, 3, w.n, now) && t.me == me
    ensures IsSettled(w, me, t)
  {
    forall x: Id | w.Has(x) ensures Complete(w, t, x) {
      RowIsComplete(w, t, now, x);
    }
    AllIds(w, t, now);
    forall x: Id, y: Id | w.Has(x) && w.Has(y) ensures CellSettled(w, me, t, x, y) {
      assert Complete(w, t, x) && CellOk(w, t, x, y);
    }
  }

  lemma HeardInRounds(w: Network, t: Topo, now: int)
    requires w.Small() && NodeOk(w, t, now)
    ensures InRounds(t)
  {
    forall x: Id | x in t.ids && x != t.me ensures x in t.created && 520_000 <= t.created[x] <= 1_900_000 {
      assert DatedOk(w, t, now, x);
    }
  }

  /** All nodes of the mesh have settled, and built their trees since. */
  ghost predicate AllSettled(w: Network, m: Mesh) {
    |m| == w.n && forall v: nat, me: Id :: v < w.n && me == v + 1 ==> SettledPeer(w, m[v], me)
  }

  ghost predicate SettledPeer(w: Network, p: Peer, me: Id) {
    Valid(p.topo) && IsSettled(w, me, p.topo) && InRounds(p.topo) && IsSettled(w, me, p.read)
  }

  lemma SettledPeerAt(w: Network, p: Peer, v: nat, now: int, me: Id)
    requires w.Small() && TwoHops(w) && PeerAt(w, p, v, 3, w.n, now) && me == v + 1
    ensures SettledPeer(w, p, me)
  {
    SettledAt(w, p.topo, now, me);
    HeardInRounds(w, p.topo, now);
    forall x: Id, y: Id | w.Has(x) && w.Has(y) ensures CellSettled(w, me, p.read, x, y) {
      assert CellSettled(w, me, p.topo, x, y);
    }
  }

  /** If nobody is more than two hops away, some run of the mesh, in which all beacons are what their senders
      announce, leads all nodes to their settled states at the same time. */
  lemma AllSettle(w: Network) returns (m: Mesh)
    requires w.Small() && TwoHops(w) && w.n > 0
    ensures MeshReached(w, m) && AllSettled(w, m)
  {
    var s := w.n - 1;
    ThreeRounds(w, s);
    var now;
    m, now :| MeshReached(w, m) && Stage(w, m, 3, s, w.n, now);
    forall v: nat, me: Id | v < w.n && me == v + 1 ensures SettledPeer(w, m[v], me) {
      assert PeerAt(w, m[v], v, 3, s + 1, now);
      SettledPeerAt(w, m[v], v, now, me);
    }
  }
}

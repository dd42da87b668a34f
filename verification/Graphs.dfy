/** Walks, reachability, forests and distances on a finite graph whose vertices are table positions. */
module Graphs {

  type Edge = (nat, nat)

  /** A directed graph; an undirected one holds both directions of each edge. */
  type Graph = set<Edge>

  ghost predicate IsWalk(g: Graph, w: seq<nat>) {
    |w| > 0 && forall k :: 1 <= k < |w| ==> (w[k - 1], w[k]) in g
  }

  ghost predicate WalkBetween(g: Graph, a: nat, b: nat, w: seq<nat>) {
    IsWalk(g, w) && w[0] == a && w[|w| - 1] == b
  }

  ghost predicate Reach(g: Graph, a: nat, b: nat) {
    exists w :: WalkBetween(g, a, b, w)
  }

  ghost predicate Symmetric(g: Graph) {
    forall a, b :: (a, b) in g ==> (b, a) in g
  }

  ghost predicate Closed(g: Graph, x: set<nat>) {
    forall a, b :: (a, b) in g && a in x ==> b in x
  }

  /** g without the edges that enter a vertex of x. */
  ghost function Shut(g: Graph, x: set<nat>): Graph {
    set e | e in g && e.1 !in x
  }

  /** g without the edge between a and b, in either direction. */
  ghost function Cut(g: Graph, a: nat, b: nat): Graph {
    g - {(a, b), (b, a)}
  }

  /** Undirected, loop-free, and every edge is the only connection between its two ends: no cycles. */
  ghost predicate Forest(g: Graph) {
    && Symmetric(g)
    && (forall a :: (a, a) !in g)
    && (forall a, b :: (a, b) in g ==> !Reach(Cut(g, a, b), a, b))
  }

  // ---------------------------------------------------------------- walks

  lemma ReachSelf(g: Graph, a: nat)
    ensures Reach(g, a, a)
  {
    assert WalkBetween(g, a, a, [a]);
  }

  lemma ReachEdge(g: Graph, a: nat, b: nat)
    requires (a, b) in g
    ensures Reach(g, a, b)
  {
    assert WalkBetween(g, a, b, [a, b]);
  }

  lemma WalkConcat(g: Graph, a: nat, b: nat, c: nat, u: seq<nat>, v: seq<nat>)
    requires WalkBetween(g, a, b, u) && WalkBetween(g, b, c, v)
    ensures WalkBetween(g, a, c, u + v[1..])
  {
    var w := u + v[1..];
    forall k | 1 <= k < |w| ensures (w[k - 1], w[k]) in g {
      if k >= |u| {
        assert w[k] == v[k - |u| + 1] && w[k - 1] == v[k - |u|];
      }
    }
    assert |v| == 1 ==> w == u;
  }

  lemma ReachTrans(g: Graph, a: nat, b: nat, c: nat)
    requires Reach(g, a, b) && Reach(g, b, c)
    ensures Reach(g, a, c)
  {
    var u :| WalkBetween(g, a, b, u);
    var v :| WalkBetween(g, b, c, v);
    WalkConcat(g, a, b, c, u, v);
  }

  ghost function Reversed(w: seq<nat>): (r: seq<nat>)
    ensures |r| == |w|
    ensures forall k :: 0 <= k < |w| ==> r[k] == w[|w| - 1 - k]
  {
    seq(|w|, k requires 0 <= k < |w| => w[|w| - 1 - k])
  }

  lemma WalkReversed(g: Graph, a: nat, b: nat, w: seq<nat>)
    requires Symmetric(g) && WalkBetween(g, a, b, w)
    ensures WalkBetween(g, b, a, Reversed(w))
  {
    var r := Reversed(w);
    forall k | 1 <= k < |r| ensures (r[k - 1], r[k]) in g {
      assert (w[|w| - 1 - k], w[|w| - k]) in g;
    }
  }

  lemma ReachReversed(g: Graph, a: nat, b: nat)
    requires Symmetric(g) && Reach(g, a, b)
    ensures Reach(g, b, a)
  {
    var w :| WalkBetween(g, a, b, w);
    WalkReversed(g, a, b, w);
  }

  lemma ReachMonotone(g: Graph, h: Graph, a: nat, b: nat)
    requires g <= h && Reach(g, a, b)
    ensures Reach(h, a, b)
  {
    var w :| WalkBetween(g, a, b, w);
    assert WalkBetween(h, a, b, w);
  }

  /** A set no edge leaves keeps every walk that starts in it. */
  lemma {:induction false} ClosedKeepsWalk(g: Graph, x: set<nat>, w: seq<nat>, k: nat)
    requires Closed(g, x) && IsWalk(g, w) && w[0] in x && k < |w|
    ensures w[k] in x
  {
    if k > 0 {
      ClosedKeepsWalk(g, x, w, k - 1);
      assert (w[k - 1], w[k]) in g;
    }
  }

  lemma ClosedKeepsReach(g: Graph, x: set<nat>, a: nat, b: nat)
    requires Closed(g, x) && a in x && Reach(g, a, b)
    ensures b in x
  {
    var w :| WalkBetween(g, a, b, w);
    ClosedKeepsWalk(g, x, w, |w| - 1);
  }

  /** The last moment a walk that leaves x for good is still in x. */
  lemma {:induction false} LastVisit(w: seq<nat>, x: set<nat>) returns (i: nat)
    requires |w| > 0 && w[0] in x && w[|w| - 1] !in x
    ensures i + 1 < |w| && w[i] in x
    ensures forall k :: i < k < |w| ==> w[k] !in x
  {
    if w[|w| - 2] in x {
      i := |w| - 2;
    } else {
      var u := w[..|w| - 1];
      i := LastVisit(u, x);
      forall k | i < k < |w| ensures w[k] !in x {
        assert k < |u| ==> u[k] == w[k];
      }
    }
  }

  // ---------------------------------------------------------------- forests

  /** A walk of g that never enters x after its start is a walk of Shut(g, {x}), and conversely. */
  lemma ShutWalk(g: Graph, x: nat, w: seq<nat>)
    requires |w| > 0
    ensures IsWalk(Shut(g, {x}), w) <==> IsWalk(g, w) && forall k :: 1 <= k < |w| ==> w[k] != x
  {
    if IsWalk(Shut(g, {x}), w) {
      forall k | 1 <= k < |w| ensures (w[k - 1], w[k]) in g && w[k] != x {
        assert (w[k - 1], w[k]) in Shut(g, {x});
      }
    }
  }

  /** In a forest the branches hanging off a vertex x are disjoint: no vertex lies in two of them. */
  lemma BranchUnique(g: Graph, x: nat, y: nat, z: nat, d: nat)
    requires Forest(g) && (x, y) in g && (x, z) in g
    requires Reach(Shut(g, {x}), y, d) && Reach(Shut(g, {x}), z, d)
    ensures y == z
  {
    if y != z {
      var h := Cut(g, x, y);
      var u :| WalkBetween(Shut(g, {x}), z, d, u);
      var v :| WalkBetween(Shut(g, {x}), y, d, v);
      ShutWalk(g, x, u);
      ShutWalk(g, x, v);
      assert WalkBetween(h, x, z, [x, z]);
      assert WalkBetween(h, z, d, u);
      assert WalkBetween(h, y, d, v);
      assert Symmetric(h);
      ReachTrans(h, x, z, d);
      ReachReversed(h, y, d);
      ReachTrans(h, x, d, y);
    }
  }

  /** Leaving x for another reachable vertex starts along some edge, and never needs x again. */
  lemma BranchExists(g: Graph, x: nat, d: nat, w: seq<nat>) returns (i: nat)
    requires x != d && WalkBetween(g, x, d, w)
    ensures i + 1 < |w| && w[i] == x && (x, w[i + 1]) in g
    ensures WalkBetween(Shut(g, {x}), w[i + 1], d, w[i + 1..])
  {
    i := LastVisit(w, {x});
    var u := w[i + 1..];
    assert (w[i], w[i + 1]) in g;
    forall k | 1 <= k < |u| ensures (u[k - 1], u[k]) in g && u[k] != x {
      assert u[k] == w[i + 1 + k] && u[k - 1] == w[i + k];
    }
    ShutWalk(g, x, u);
  }

  // ---------------------------------------------------------------- distance

  ghost predicate HasWalk(g: Graph, a: nat, b: nat, hops: nat) {
    exists w :: WalkBetween(g, a, b, w) && |w| == hops + 1
  }

  lemma {:induction false} LeastWalk(g: Graph, a: nat, b: nat, hops: nat) returns (least: nat)
    requires HasWalk(g, a, b, hops)
    ensures HasWalk(g, a, b, least)
    ensures forall k: nat :: k < least ==> !HasWalk(g, a, b, k)
  {
    if k: nat :| k < hops && HasWalk(g, a, b, k) {
      least := LeastWalk(g, a, b, k);
    } else {
      least := hops;
    }
  }

  /** Number of edges of a shortest walk. In a forest this is the length of the one path. */
  ghost function Distance(g: Graph, a: nat, b: nat): (d: nat)
    requires Reach(g, a, b)
    ensures HasWalk(g, a, b, d)
    ensures forall w :: WalkBetween(g, a, b, w) ==> |w| > d
  {
    assert exists d: nat :: HasWalk(g, a, b, d) && forall k: nat :: k < d ==> !HasWalk(g, a, b, k) by {
      var w :| WalkBetween(g, a, b, w);
      assert HasWalk(g, a, b, |w| - 1);
      var d := LeastWalk(g, a, b, |w| - 1);
    }
    var d: nat :| HasWalk(g, a, b, d) && forall k: nat :: k < d ==> !HasWalk(g, a, b, k);
    assert forall w :: WalkBetween(g, a, b, w) ==> HasWalk(g, a, b, |w| - 1);
    d
  }

  /** Stepping into the branch that holds d brings a vertex of a forest exactly one hop closer to d. */
  lemma BranchIsCloser(g: Graph, x: nat, y: nat, d: nat)
    requires Forest(g) && x != d && (x, y) in g && Reach(Shut(g, {x}), y, d)
    ensures Reach(g, x, d) && Reach(g, y, d)
    ensures Distance(g, x, d) == Distance(g, y, d) + 1
  {
    ReachMonotone(Shut(g, {x}), g, y, d);
    ReachEdge(g, x, y);
    ReachTrans(g, x, y, d);
    var v :| WalkBetween(g, y, d, v) && |v| == Distance(g, y, d) + 1;
    assert WalkBetween(g, x, y, [x, y]);
    WalkConcat(g, x, y, d, [x, y], v);
    var w :| WalkBetween(g, x, d, w) && |w| == Distance(g, x, d) + 1;
    var i := BranchExists(g, x, d, w);
    BranchUnique(g, x, y, w[i + 1], d);
    ShutWalk(g, x, w[i + 1..]);
    assert WalkBetween(g, y, d, w[i + 1..]);
  }
}

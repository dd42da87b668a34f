/** What becomes of the routes when the sweep shortens the id list but leaves the tree table and the routing table
    alone. */
module RoutesAfterSweep {
  import opened Base
  import opened Graphs
  import opened Routing
  import opened Delivery
  import opened Topology

  /** fewer is what is left of ids when something is removed, position p being the first to go: before p nothing
      changes, from p on every position holds another id or none. */
  ghost predicate RemovedFrom(ids: seq<Id>, fewer: seq<Id>, p: nat) {
    && p < |ids| && p <= |fewer| <= |ids| && (forall q :: 0 <= q < p ==> fewer[q] == ids[q])
    && (forall q :: p <= q < |fewer| ==> fewer[q] != ids[q])
  }

  /** The edges the unchanged tree table lists for a list of n ids. */
  ghost function Listed(g: Graph, n: nat): Graph {
    set e | e in g && e.0 < n && e.1 < n
  }

  /** The table in use is the one a recompute would now produce, from the unchanged tree and the shorter list. */
  ghost predicate InStep(g: Graph, fewer: seq<Id>, my: Id, table: seq<Route>) {
    TableFor(Listed(g, |fewer|), fewer, IndexOf(fewer, my), table)
  }

  /** Such a table is what Recompute leaves, given the tree table as it was for n ids and the shorter list. */
  lemma InStepIsRecomputed(tree: array2<Byte>, n: nat, fewer: seq<Id>, my: Id, table: seq<Route>)
    requires |fewer| <= n <= tree.Length0 && n <= tree.Length1
    ensures TableFor(TableGraph(tree, |fewer|), fewer, IndexOf(fewer, my), table) <==>
              InStep(TableGraph(tree, n), fewer, my, table)
  {
    assert TableGraph(tree, |fewer|) == Listed(TableGraph(tree, n), |fewer|);
  }

  lemma RoutedWhenReached(g: Graph, ids: seq<Id>, me: nat, table: seq<Route>, q: nat)
    requires GraphOn(g, |ids|) && TableFor(g, ids, me, table) && q < |ids| && q != me
    ensures Reach(g, me, q) ==> table[q].valid && table[q].destination == ids[q]
    ensures !Reach(g, me, q) ==> table[q] == NO_ROUTE
  {
    assert RouteFor(g, ids, me, q, table[q]);
    ReachableIsBehind(g, |ids|, me, q);
  }

  /** A route at or after the first removed position fits no shorter list, whatever the tree. */
  lemma NoRouteFrom(h: Graph, ids: seq<Id>, fewer: seq<Id>, p: nat, my: int, table: seq<Route>, q: nat)
    requires RemovedFrom(ids, fewer, p) && p <= q < |ids| <= MAX_NODES && TableFor(h, fewer, my, table)
    ensures !(table[q].valid && table[q].destination == ids[q])
  {
    if q < |fewer| {
      assert RouteFor(h, fewer, my, q, table[q]);
    }
  }

  /** If everything I reach lies before p, the walks from me are the same on the shorter list. */
  lemma SameBehind(g: Graph, n: nat, p: nat, me: nat, i: nat, d: nat)
    requires p <= n && me < p && forall q: nat :: Reach(g, me, q) ==> q < p
    ensures Behind(g, me, i, d) <==> Behind(Listed(g, n), me, i, d)
  {
    var h := Listed(g, n);
    if Behind(g, me, i, d) {
      var w :| WalkBetween(Shut(g, {me}), i, d, w);
      ReachEdge(g, me, i);
      forall k | 0 <= k < |w| ensures Reach(g, me, w[k]) {
        assert WalkBetween(Shut(g, {me}), i, w[k], w[..k + 1]);
        ReachMonotone(Shut(g, {me}), g, i, w[k]);
        ReachTrans(g, me, i, w[k]);
      }
      assert WalkBetween(Shut(h, {me}), i, d, w);
    }
    if Behind(h, me, i, d) {
      ReachMonotone(Shut(h, {me}), Shut(g, {me}), i, d);
    }
  }

  lemma RouteCarriesOver(g: Graph, ids: seq<Id>, fewer: seq<Id>, p: nat, me: nat, d: nat, r: Route)
    requires GraphOn(g, |ids|) && RemovedFrom(ids, fewer, p) && me < p && d < |fewer|
    requires forall q: nat :: Reach(g, me, q) ==> q < p
    requires RouteFor(g, ids, me, d, r)
    ensures RouteFor(Listed(g, |fewer|), fewer, me, d, r)
  {
    var h := Listed(g, |fewer|);
    forall i: nat ensures Behind(g, me, i, d) <==> Behind(h, me, i, d) {
      SameBehind(g, |fewer|, p, me, i, d);
    }
    forall i: nat | Behind(g, me, i, d) ensures i < p && d < p {
      ReachEdge(g, me, i);
      ReachMonotone(Shut(g, {me}), g, i, d);
      ReachTrans(g, me, i, d);
    }
  }

  lemma StaysOn(g: Graph, n: nat, me: nat, q: nat)
    requires GraphOn(g, n) && me < n && Reach(g, me, q)
    ensures q < n
  {
    ClosedKeepsReach(g, Below(n), me, q);
  }

  /** In step, I reach nothing from the first removed position on, except myself. */
  lemma InStepReachesNothing(g: Graph, ids: seq<Id>, fewer: seq<Id>, p: nat, me: nat, table: seq<Route>)
    requires GraphOn(g, |ids|) && RemovedFrom(ids, fewer, p) && me < |ids| <= MAX_NODES
    requires TableFor(g, ids, me, table) && InStep(g, fewer, ids[me], table)
    ensures forall q: nat :: Reach(g, me, q) && q != me ==> q < p
  {
    forall q: nat | Reach(g, me, q) && q != me ensures q < p {
      StaysOn(g, |ids|, me, q);
      if p <= q {
        RoutedWhenReached(g, ids, me, table, q);
        NoRouteFrom(Listed(g, |fewer|), ids, fewer, p, IndexOf(fewer, ids[me]), table, q);
      }
    }
  }

  /** I come before the first removed position: the routes stay in step exactly when I reach nothing from there on. */
  lemma InStepBefore(g: Graph, ids: seq<Id>, fewer: seq<Id>, p: nat, me: nat, table: seq<Route>)
    requires GraphOn(g, |ids|) && RemovedFrom(ids, fewer, p) && me < p && |ids| <= MAX_NODES
    requires TableFor(g, ids, me, table) && IndexOf(fewer, ids[me]) == me
    ensures InStep(g, fewer, ids[me], table) <==> forall q: nat :: Reach(g, me, q) ==> q < p
  {
    if InStep(g, fewer, ids[me], table) {
      InStepReachesNothing(g, ids, fewer, p, me, table);
    }
    if forall q: nat :: Reach(g, me, q) ==> q < p {
      forall d: nat | d < |fewer| ensures RouteFor(Listed(g, |fewer|), fewer, me, d, table[d]) {
        assert RouteFor(g, ids, me, d, table[d]);
        RouteCarriesOver(g, ids, fewer, p, me, d, table[d]);
      }
      forall d | |fewer| <= d < MAX_NODES ensures table[d] == NO_ROUTE {
        if d < |ids| {
          RoutedWhenReached(g, ids, me, table, d);
        }
      }
    }
  }

  // ---------------------------------------------------------------- I come after it

  /** No edge at position x. */
  ghost predicate Alone(g: Graph, x: nat) {
    forall y :: (x, y) !in g
  }

  /** The table of a node without edges is empty, and no other table is. */
  lemma AloneIsEmpty(g: Graph, ids: seq<Id>, me: nat, table: seq<Route>)
    requires GraphOn(g, |ids|) && me < |ids| <= MAX_NODES && (me, me) !in g && |table| == MAX_NODES
    ensures Alone(g, me) && TableFor(g, ids, me, table) ==> forall d :: 0 <= d < MAX_NODES ==> table[d] == NO_ROUTE
    ensures TableFor(g, ids, me, table) && (forall d :: 0 <= d < MAX_NODES ==> table[d] == NO_ROUTE) ==> Alone(g, me)
  {
    if TableFor(g, ids, me, table) {
      if Alone(g, me) {
        forall d | 0 <= d < MAX_NODES ensures table[d] == NO_ROUTE {
          if d < |ids| {
            assert RouteFor(g, ids, me, d, table[d]);
          }
        }
      } else {
        var y :| (me, y) in g;
        ReachEdge(g, me, y);
        RoutedWhenReached(g, ids, me, table, y);
      }
    }
  }

  lemma AloneTable(g: Graph, ids: seq<Id>, me: nat, table: seq<Route>)
    requires Alone(g, me) && |ids| <= MAX_NODES == |table| && forall d :: 0 <= d < MAX_NODES ==> table[d] == NO_ROUTE
    ensures TableFor(g, ids, me, table)
  {
  }

  /** In step, no id before the first removed position has a route: its next hop would have to neighbour both my old
      and my new position. */
  lemma NoRouteBefore(g: Graph, ids: seq<Id>, fewer: seq<Id>, p: nat, me: nat, at: nat, d: nat, r: Route)
    requires Forest(g) && RemovedFrom(ids, fewer, p) && Distinct(fewer)
    requires p <= at < |fewer| && at < me < |ids| && d < p
    requires forall q: nat :: Reach(g, me, q) && q != me ==> q < p
    requires RouteFor(g, ids, me, d, r) && RouteFor(Listed(g, |fewer|), fewer, at, d, r)
    ensures r == NO_ROUTE
  {
    if r != NO_ROUTE {
      var i: nat :| i < |ids| && Behind(g, me, i, d) && r.nextHop == ids[i];
      var j: nat :| j < |fewer| && Behind(Listed(g, |fewer|), at, j, d) && r.nextHop == fewer[j];
      ReachEdge(g, me, i);
      assert i < p && fewer[i] == fewer[j];
      ReachEdge(g, i, at);
      ReachTrans(g, me, i, at);
      assert false;
    }
  }

  lemma InStepIsEmpty(g: Graph, ids: seq<Id>, fewer: seq<Id>, p: nat, me: nat, at: nat, table: seq<Route>)
    requires Forest(g) && GraphOn(g, |ids|) && RemovedFrom(ids, fewer, p) && Distinct(fewer)
    requires p <= at < |fewer| && at < me < |ids| <= MAX_NODES && at == IndexOf(fewer, ids[me])
    requires TableFor(g, ids, me, table) && InStep(g, fewer, ids[me], table)
    ensures forall d :: 0 <= d < MAX_NODES ==> table[d] == NO_ROUTE
  {
    InStepReachesNothing(g, ids, fewer, p, me, table);
    forall d: nat | d < MAX_NODES ensures table[d] == NO_ROUTE {
      if d < |ids| {
        assert RouteFor(g, ids, me, d, table[d]);
        if d < p {
          assert RouteFor(Listed(g, |fewer|), fewer, at, d, table[d]);
          NoRouteBefore(g, ids, fewer, p, me, at, d, table[d]);
        } else if d != me {
          RoutedWhenReached(g, ids, me, table, d);
        }
      }
    }
  }

  /** I come after the first removed position and move up: the routes stay in step exactly when I have no tree edge,
      neither where I was nor where I am now listed. */
  lemma InStepAfter(g: Graph, ids: seq<Id>, fewer: seq<Id>, p: nat, me: nat, at: nat, table: seq<Route>)
    requires Forest(g) && GraphOn(g, |ids|) && RemovedFrom(ids, fewer, p) && Distinct(fewer)
    requires p <= at < |fewer| && at < me < |ids| <= MAX_NODES && at == IndexOf(fewer, ids[me])
    requires TableFor(g, ids, me, table)
    ensures InStep(g, fewer, ids[me], table) <==> Alone(g, me) && Alone(Listed(g, |fewer|), at)
  {
    var h := Listed(g, |fewer|);
    if InStep(g, fewer, ids[me], table) {
      InStepIsEmpty(g, ids, fewer, p, me, at, table);
    }
    AloneIsEmpty(g, ids, me, table);
    AloneIsEmpty(h, fewer, at, table);
    if Alone(g, me) && Alone(h, at) {
      AloneTable(h, fewer, at, table);
    }
  }

  // ---------------------------------------------------------------- ids that go

  /** fewer is what is left of an increasing list, in the same order. */
  ghost predicate Shortened(ids: seq<Id>, fewer: seq<Id>) {
    Ascending(ids) && Ascending(fewer) && forall x :: x in fewer ==> x in ids
  }

  /** The first position whose id is gone. */
  ghost predicate FirstGone(ids: seq<Id>, fewer: seq<Id>, p: nat) {
    p < |ids| && ids[p] !in fewer && forall q :: 0 <= q < p ==> ids[q] in fewer
  }

  /** Up to the first gap every id keeps its place; from there on every place holds a later id. */
  lemma {:induction false} MovesUp(ids: seq<Id>, fewer: seq<Id>, p: nat, q: nat)
    requires Shortened(ids, fewer) && FirstGone(ids, fewer, p) && q < |fewer|
    ensures q < |ids| && if q < p then fewer[q] == ids[q] else fewer[q] > ids[q]
    decreases q
  {
    assert fewer[q] in ids;
    var i :| 0 <= i < |ids| && ids[i] == fewer[q];
    if q > 0 {
      MovesUp(ids, fewer, p, q - 1);
      assert fewer[q - 1] in ids;
      var j :| 0 <= j < |ids| && ids[j] == fewer[q - 1];
    }
    if q < p {
      var j :| 0 <= j < |fewer| && fewer[j] == ids[q];
      if j < q {
        MovesUp(ids, fewer, p, j);
      }
    }
  }

  lemma ShortenedRemovedFrom(ids: seq<Id>, fewer: seq<Id>, p: nat)
    requires Shortened(ids, fewer) && FirstGone(ids, fewer, p)
    ensures RemovedFrom(ids, fewer, p)
  {
    forall q | 0 <= q < |fewer| ensures q < |ids| && if q < p then fewer[q] == ids[q] else fewer[q] > ids[q] {
      MovesUp(ids, fewer, p, q);
    }
    if fewer != [] {
      MovesUp(ids, fewer, p, |fewer| - 1);
    }
    if |fewer| < p {
      assert ids[|fewer|] in fewer;
      var j :| 0 <= j < |fewer| && fewer[j] == ids[|fewer|];
      assert fewer[j] == ids[j];
    }
  }

  lemma SomeoneIsFirst(ids: seq<Id>, fewer: seq<Id>, x: Id) returns (p: nat)
    requires x in ids && x !in fewer
    ensures FirstGone(ids, fewer, p)
  {
    p := 0;
    while ids[p] in fewer
      invariant p < |ids| && forall q :: 0 <= q < p ==> ids[q] in fewer
      decreases |ids| - p
    {
      p := p + 1;
    }
  }

  lemma NobodyGone(ids: seq<Id>, fewer: seq<Id>)
    requires Shortened(ids, fewer) && forall x :: x in ids ==> x in fewer
    ensures fewer == ids
  {
    AscendingUnique(ids, fewer);
  }

  /** Where I am listed, before and after. */
  lemma MyPositions(ids: seq<Id>, fewer: seq<Id>, my: Id, p: nat)
    requires RemovedFrom(ids, fewer, p) && Shortened(ids, fewer) && ids[p] !in fewer && my in fewer
    ensures var me, at := IndexOf(ids, my), IndexOf(fewer, my);
            && 0 <= me < |ids| && 0 <= at < |fewer| && me != p && if me < p then at == me else p <= at < me
  {
    var me, at := IndexOf(ids, my), IndexOf(fewer, my);
    assert my in ids && fewer[at] == ids[me];
    if me < p {
      assert fewer[me] == ids[me];
    } else {
      MovesUp(ids, fewer, p, at) by {
        forall q | 0 <= q < p ensures ids[q] in fewer {
          assert fewer[q] == ids[q];
        }
      }
    }
  }

  /** After ids have gone, first of all the one at position p, the tree and the routes for the whole list still fit
      the shorter one: I am connected only to positions before p, or, if I move up myself, to nobody, neither at my
      old position nor at my new one. */
  ghost predicate Harmless(g: Graph, ids: seq<Id>, fewer: seq<Id>, my: Id, p: nat) {
    var me, at := IndexOf(ids, my), IndexOf(fewer, my);
    && me >= 0 && at >= 0
    && if me < p then forall q: nat :: Reach(g, me, q) ==> q < p else Alone(g, me) && Alone(Listed(g, |fewer|), at)
  }

  /** When the routes stay in step with a list that was shortened. */
  ghost predicate KeepsStep(g: Graph, ids: seq<Id>, fewer: seq<Id>, my: Id) {
    fewer == ids || exists p: nat :: FirstGone(ids, fewer, p) && Harmless(g, ids, fewer, my, p)
  }

  lemma InStepWhenSomebodyGoes(g: Graph, ids: seq<Id>, fewer: seq<Id>, my: Id, table: seq<Route>, p: nat)
    requires Forest(g) && GraphOn(g, |ids|) && |ids| <= MAX_NODES && TableFor(g, ids, IndexOf(ids, my), table)
    requires Shortened(ids, fewer) && my in fewer && FirstGone(ids, fewer, p)
    ensures InStep(g, fewer, my, table) <==> Harmless(g, ids, fewer, my, p)
  {
    ShortenedRemovedFrom(ids, fewer, p);
    MyPositions(ids, fewer, my, p);
    var me, at := IndexOf(ids, my), IndexOf(fewer, my);
    if me < p {
      InStepBefore(g, ids, fewer, p, me, table);
    } else {
      InStepAfter(g, ids, fewer, p, me, at, table);
    }
  }

  lemma FirstIsUnique(ids: seq<Id>, fewer: seq<Id>, p: nat, q: nat)
    requires FirstGone(ids, fewer, p) && FirstGone(ids, fewer, q)
    ensures p == q
  {
  }

  /** Exactly when the routes for a list and a tree are those that the shorter list and its part of the tree need. */
  lemma InStepIff(g: Graph, ids: seq<Id>, fewer: seq<Id>, my: Id, table: seq<Route>)
    requires Forest(g) && GraphOn(g, |ids|) && |ids| <= MAX_NODES && TableFor(g, ids, IndexOf(ids, my), table)
    requires Shortened(ids, fewer) && my in fewer
    ensures InStep(g, fewer, my, table) <==> KeepsStep(g, ids, fewer, my)
  {
    if x :| x in ids && x !in fewer {
      var p := SomeoneIsFirst(ids, fewer, x);
      InStepWhenSomebodyGoes(g, ids, fewer, my, table, p);
      forall q: nat | FirstGone(ids, fewer, q) ensures q == p {
        FirstIsUnique(ids, fewer, p, q);
      }
    } else {
      NobodyGone(ids, fewer);
      assert Listed(g, |ids|) == g;
    }
  }

  // ---------------------------------------------------------------- a sweep

  lemma SweepShortens(t: Topo, now: int)
    requires Valid(t)
    ensures Shortened(t.ids, Sweep(t, now).ids) && t.me in Sweep(t, now).ids && |t.ids| <= MAX_NODES
  {
    AliveIdsAscending(t, t.ids, now);
    MeshIdsFit(t.ids);
  }

  /** When the routes stay in step with the list: always after a sweep that removes nobody; after any other one
      exactly if the tree connects me only to positions before the first one removed, or, when I myself move up, to
      nobody, neither at my old position nor at my new one. */
  lemma InStepAfterSweep(t: Topo, now: int, g: Graph, table: seq<Route>)
    requires Valid(t) && Forest(g) && GraphOn(g, |t.ids|) && TableFor(g, t.ids, IndexOf(t.ids, t.me), table)
    ensures InStep(g, Sweep(t, now).ids, t.me, table) <==> KeepsStep(g, t.ids, Sweep(t, now).ids, t.me)
    ensures Sweep(t, now).ids == t.ids <==> forall x :: x in t.ids ==> Alive(t, x, now)
  {
    SweepShortens(t, now);
    InStepIff(g, t.ids, Sweep(t, now).ids, t.me, table);
    if forall x :: x in t.ids ==> Alive(t, x, now) {
      AliveIdsFixed(t, t.ids, now);
    }
  }

  /** A node whose tree reaches every listed id keeps step exactly when nobody has gone. */
  lemma ConnectedKeepsStep(g: Graph, ids: seq<Id>, fewer: seq<Id>, my: Id)
    requires my in ids && my in fewer && forall q: nat :: q < |ids| ==> Reach(g, IndexOf(ids, my), q)
    ensures KeepsStep(g, ids, fewer, my) <==> fewer == ids
  {
    if p: nat :| FirstGone(ids, fewer, p) && Harmless(g, ids, fewer, my, p) {
      NotHarmless(g, ids, fewer, my, p);
    }
  }

  /** After a sweep: exactly when no other entry has reached its age limit. */
  lemma ConnectedInStep(t: Topo, now: int, g: Graph, table: seq<Route>)
    requires Valid(t) && Forest(g) && GraphOn(g, |t.ids|) && TableFor(g, t.ids, IndexOf(t.ids, t.me), table)
    requires forall q: nat :: q < |t.ids| ==> Reach(g, IndexOf(t.ids, t.me), q)
    ensures InStep(g, Sweep(t, now).ids, t.me, table) <==>
              forall x :: x in t.ids && x != t.me ==> now - t.created[x] < MAX_AGE
  {
    InStepAfterSweep(t, now, g, table);
    SweepShortens(t, now);
    ConnectedKeepsStep(g, t.ids, Sweep(t, now).ids, t.me);
    AliveMeansYoung(t, now);
  }

  lemma AliveMeansYoung(t: Topo, now: int)
    requires Valid(t)
    ensures (forall x :: x in t.ids ==> Alive(t, x, now)) <==>
              forall x :: x in t.ids && x != t.me ==> now - t.created[x] < MAX_AGE
  {
  }

  lemma NotHarmless(g: Graph, ids: seq<Id>, fewer: seq<Id>, my: Id, p: nat)
    requires FirstGone(ids, fewer, p) && my in ids && my in fewer && Reach(g, IndexOf(ids, my), p)
    ensures !Harmless(g, ids, fewer, my, p)
  {
    HasEdge(g, IndexOf(ids, my), p);
  }

  lemma HasEdge(g: Graph, x: nat, q: nat)
    requires Reach(g, x, q) && q != x
    ensures !Alone(g, x)
  {
    var w :| WalkBetween(g, x, q, w);
    assert (w[0], w[1]) in g;
  }
}

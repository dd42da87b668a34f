/** What the routes are worth after any number of sweeps and of updates that raised no event, since they were
    computed. */
module RoutesSinceRecompute {
  import opened Base
  import opened Graphs
  import opened SpanningTrees
  import opened Prim
  import opened TreeChoice
  import opened Routing
  import opened Delivery
  import opened Topology
  import opened TopologyRuns
  import opened Readings
  import opened RoutesAfterSweep

  /** What a node keeps: its matrix, and the edges its tree table lists among the positions of its ids. */
  datatype Local = Local(topo: Topo, tree: Graph)

  /** The tree Prim builds. */
  ghost function TreeOf(net: Net): (g: Graph)
    requires net.Square()
  {
    assert exists run :: IsPrimRun(net, run) by {
      var run := RunExists(net);
    }
    var run: Run :| IsPrimRun(net, run);
    Both(RunEdges(run, |run.order|))
  }

  /** One event: only a beacon makes a new tree. */
  ghost function Next(l: Local, e: Event): Local
    requires Valid(l.topo) && EventOk(e)
  {
    var topo := Step(l.topo, e);
    Local(topo, if e.Beacon? then TreeOf(NetOfState(topo)) else Listed(l.tree, |topo.ids|))
  }

  /** Whether the update raises the event that makes the routes be computed anew. */
  ghost predicate Raises(l: Local, e: Event)
    requires Valid(l.topo) && EventOk(e)
  {
    var after := Next(l, e);
    && e.Beacon?
    && (|after.topo.ids| != |l.topo.ids| || (|l.topo.ids| >= 2 && after.tree != l.tree))
  }

  ghost predicate Sound(l: Local) {
    Valid(l.topo) && Forest(l.tree) && GraphOn(l.tree, |l.topo.ids|)
  }

  /** The table is the one a recompute would produce from the tree and the ids as they are. */
  ghost predicate Fits(l: Local, table: seq<Route>) {
    TableFor(l.tree, l.topo.ids, IndexOf(l.topo.ids, l.topo.me), table)
  }

  lemma TreeIsBuilt(net: Net) returns (run: Run)
    requires net.Square()
    ensures IsPrimRun(net, run) && TreeOf(net) == Both(RunEdges(run, |run.order|))
  {
    assert exists r :: IsPrimRun(net, r) && TreeOf(net) == Both(RunEdges(r, |r.order|)) by {
      var r := RunExists(net);
    }
    run :| IsPrimRun(net, run) && TreeOf(net) == Both(RunEdges(run, |run.order|));
  }

  lemma TreeIsForest(net: Net)
    requires net.Square()
    ensures Forest(TreeOf(net)) && GraphOn(TreeOf(net), |net.link|)
  {
    var run := TreeIsBuilt(net);
    PrimTreeSpans(net, run);
  }

  lemma ListedIsForest(g: Graph, n: nat)
    requires Forest(g)
    ensures Forest(Listed(g, n)) && GraphOn(Listed(g, n), n)
  {
    var h := Listed(g, n);
    forall a, b | (a, b) in h ensures !Reach(Cut(h, a, b), a, b) {
      if Reach(Cut(h, a, b), a, b) {
        ReachMonotone(Cut(h, a, b), Cut(g, a, b), a, b);
      }
    }
  }

  lemma NextIsSound(l: Local, e: Event)
    requires Sound(l) && EventOk(e)
    ensures Sound(Next(l, e)) && Next(l, e).topo.me == l.topo.me
  {
    StepKeepsValid(l.topo, e);
    if e.Beacon? {
      TreeIsForest(NetOfState(Step(l.topo, e)));
    } else {
      ListedIsForest(l.tree, |Step(l.topo, e).ids|);
    }
  }

  // ---------------------------------------------------------------- one event

  lemma StepIds(t: Topo, e: Event)
    requires Valid(t) && EventOk(e) && !e.Beacon?
    ensures Shortened(t.ids, Step(t, e).ids) && t.me in Step(t, e).ids
  {
    StepKeepsValid(t, e);
  }

  lemma NoEdges(g: Graph, n: nat)
    requires Forest(g) && GraphOn(g, n) && n < 2
    ensures g == {}
  {
    forall e | e in g ensures e.0 == e.1 {
      var (a, b) := e;
    }
  }

  lemma SameTree(before: Graph, after: Graph, n: nat)
    requires Forest(before) && GraphOn(before, n) && Forest(after) && GraphOn(after, n) && (n >= 2 ==> before == after)
    ensures before == after
  {
    if n < 2 {
      NoEdges(before, n);
      NoEdges(after, n);
    }
  }

  lemma SameIds(t: Topo, b: Topo, from: Id, now: int)
    requires Valid(t) && ValidBeacon(b) && |Merge(t, b, from, now).ids| == |t.ids|
    ensures Merge(t, b, from, now).ids == t.ids
  {
    SameCountSameIds(t.ids, b.ids);
  }

  lemma QuietBeacon(l: Local, e: Event)
    requires Sound(l) && EventOk(e) && e.Beacon? && !Raises(l, e)
    ensures Next(l, e).topo.ids == l.topo.ids && Next(l, e).topo.me == l.topo.me && Next(l, e).tree == l.tree
  {
    NextIsSound(l, e);
    SameIds(l.topo, e.b, e.from, e.now);
    SameTree(l.tree, Next(l, e).tree, |l.topo.ids|);
  }

  /** The event is raised exactly when a beacon changes the ids or the listed tree. */
  lemma RaisesIff(l: Local, e: Event)
    requires Sound(l) && EventOk(e)
    ensures Raises(l, e) <==> e.Beacon? && (Next(l, e).topo.ids != l.topo.ids || Next(l, e).tree != l.tree)
  {
    if e.Beacon? && !Raises(l, e) {
      QuietBeacon(l, e);
    }
  }

  /** An update that raises no event leaves the routes as right or as wrong as they were. */
  lemma QuietUpdateKeeps(l: Local, e: Event, table: seq<Route>)
    requires Sound(l) && EventOk(e) && e.Beacon? && !Raises(l, e)
    ensures Fits(Next(l, e), table) <==> Fits(l, table)
  {
    QuietBeacon(l, e);
  }

  lemma ListedAll(g: Graph, n: nat)
    requires GraphOn(g, n)
    ensures Listed(g, n) == g
  {
  }

  /** Without an event the ids only get fewer, and the tree is what was listed of it. */
  lemma QuietStep(l: Local, e: Event)
    requires Sound(l) && EventOk(e) && !Raises(l, e)
    ensures Shortened(l.topo.ids, Next(l, e).topo.ids)
    ensures Next(l, e).tree == Listed(l.tree, |Next(l, e).topo.ids|)
  {
    if e.Beacon? {
      QuietBeacon(l, e);
      ListedAll(l.tree, |l.topo.ids|);
    } else {
      StepIds(l.topo, e);
    }
  }

  // ---------------------------------------------------------------- since the last recompute

  ghost predicate EventsOk(events: seq<Event>) {
    forall i :: 0 <= i < |events| ==> EventOk(events[i])
  }

  ghost function Since(l: Local, events: seq<Event>): (r: Local)
    requires Sound(l) && EventsOk(events)
    ensures Sound(r) && r.topo.me == l.topo.me
  {
    if events == [] then l
    else
      NextIsSound(Since(l, events[..|events| - 1]), events[|events| - 1]);
      Next(Since(l, events[..|events| - 1]), events[|events| - 1])
  }

  /** None of the events raises the topology event. */
  ghost predicate Quiet(l: Local, events: seq<Event>)
    requires Sound(l) && EventsOk(events)
  {
    events != [] ==>
      var init := events[..|events| - 1];
      Quiet(l, init) && !Raises(Since(l, init), events[|events| - 1])
  }

  lemma OneEvent(l: Local, events: seq<Event>, e: Event)
    requires Sound(l) && EventOk(e) && events == [e]
    ensures Since(l, events) == Next(l, e) && (Quiet(l, events) <==> !Raises(l, e))
  {
    assert events[..0] == [];
  }

  lemma TwoEvents(l: Local, mid: Local, events: seq<Event>, e: Event, f: Event)
    requires Sound(l) && EventOk(e) && EventOk(f) && EventsOk(events) && events == [e, f]
    requires Sound(mid) && mid == Next(l, e)
    ensures Since(l, events) == Next(mid, f)
    ensures Quiet(l, events) <==> !Raises(l, e) && !Raises(mid, f)
  {
    var first := events[..1];
    OneEvent(l, first, e);
    assert events[..|events| - 1] == first && events[|events| - 1] == f;
    assert Since(l, events) == Next(Since(l, first), f);
  }

  lemma ListedTwice(g: Graph, n: nat, m: nat)
    requires m <= n
    ensures Listed(Listed(g, n), m) == Listed(g, m)
  {
  }

  lemma FewerIds(ids: seq<Id>, fewer: seq<Id>)
    requires Shortened(ids, fewer)
    ensures |fewer| <= |ids|
  {
    ElementsCount(ids);
    ElementsCount(fewer);
    SubsetCount(Elements(fewer), Elements(ids));
  }

  lemma {:induction false} QuietSince(l: Local, events: seq<Event>)
    requires Sound(l) && EventsOk(events) && Quiet(l, events)
    ensures Shortened(l.topo.ids, Since(l, events).topo.ids)
    ensures Since(l, events).tree == Listed(l.tree, |Since(l, events).topo.ids|)
  {
    if events == [] {
      ListedAll(l.tree, |l.topo.ids|);
    } else {
      var before, e := Since(l, events[..|events| - 1]), events[|events| - 1];
      QuietSince(l, events[..|events| - 1]);
      QuietStep(before, e);
      FewerIds(before.topo.ids, Next(before, e).topo.ids);
      ListedTwice(l.tree, |before.topo.ids|, |Next(before, e).topo.ids|);
    }
  }

  /** Over every run without a topology event, of beacons, sweeps, announcements and quality changes in any order, the
      routes computed at its start are those that a recompute would give at its end if and only if they keep step with
      the ids that have gone meanwhile. */
  lemma QuietRunKeepsStepIff(l: Local, events: seq<Event>, table: seq<Route>)
    requires Sound(l) && EventsOk(events) && Quiet(l, events) && Fits(l, table)
    ensures Fits(Since(l, events), table) <==> KeepsStep(l.tree, l.topo.ids, Since(l, events).topo.ids, l.topo.me)
  {
    QuietSince(l, events);
    MeshIdsFit(l.topo.ids);
    InStepIff(l.tree, l.topo.ids, Since(l, events).topo.ids, l.topo.me, table);
  }
}

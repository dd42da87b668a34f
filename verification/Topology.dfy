/** The topology matrix keyed by node id: what a sweep, a merge and a run of events do to it. */
module Topology {
  import opened Base

  /** A square table by pairs of ids. */
  type Table = map<(Id, Id), Byte>

  /** The state of tdma_matrix_t with positions replaced by ids: link[(a, b)] != 0 says that a hears b. */
  datatype Topo = Topo(
    me: Id,
    ids: seq<Id>,
    link: Table,
    quality: Table,
    created: map<Id, int>,
    age: map<Id, int>)

  ghost predicate Ascending(s: seq<Id>) {
    forall i, j :: 0 <= i < j < |s| ==> s[i] < s[j]
  }

  ghost predicate SquareOver(m: Table, ids: seq<Id>) {
    forall p {:trigger p in m} :: p in m <==> p.0 in ids && p.1 in ids
  }

  ghost function Pairs(ids: seq<Id>): (s: set<(Id, Id)>)
    ensures forall p {:trigger p in s} :: p in s <==> p.0 in ids && p.1 in ids
  {
    set x, y | x in ids && y in ids :: (x, y)
  }

  /** Tables cover exactly the listed ids, each listed once. */
  ghost predicate Tidy(t: Topo) {
    && Distinct(t.ids)
    && SquareOver(t.link, t.ids) && SquareOver(t.quality, t.ids)
    && (forall a :: a in t.created <==> a in t.ids)
    && (forall a :: a in t.age <==> a in t.ids)
  }

  /** Ids a mesh of at most MAX_NODES nodes uses. */
  ghost predicate MeshIds(ids: seq<Id>) {
    forall a :: a in ids ==> 1 <= a <= MAX_NODES
  }

  /** The invariant of a node's own matrix. */
  ghost predicate Valid(t: Topo) {
    Tidy(t) && Ascending(t.ids) && MeshIds(t.ids) && t.me in t.ids
  }

  /** A received matrix: every table square, ids distinct and in range, in any order. */
  ghost predicate ValidBeacon(b: Topo) {
    Tidy(b) && MeshIds(b.ids)
  }

  /** At most MAX_NODES distinct mesh ids exist. */
  lemma MeshIdsFit(ids: seq<Id>)
    requires Distinct(ids) && MeshIds(ids)
    ensures |ids| <= MAX_NODES
  {
    ElementsCount(ids);
    SubsetCount(Elements(ids), FirstIds(MAX_NODES));
  }

  ghost function FirstIds(n: nat): (s: set<Id>)
    requires n < 256
    ensures |s| == n && forall x :: x in s <==> 1 <= x <= n
  {
    if n == 0 then {} else FirstIds(n - 1) + {n}
  }

  // ---------------------------------------------------------------- ordered id lists

  lemma AscendingAppend(s: seq<Id>, x: Id)
    requires Ascending(s) && forall y :: y in s ==> y < x
    ensures Ascending(s + [x])
  {
    forall i | 0 <= i < |s| ensures s[i] < x {
      assert s[i] in s;
    }
  }

  /** The ids below k of a set, in increasing order. */
  ghost function Enumerate(s: set<Id>, k: nat): (r: seq<Id>)
    requires k <= 256
    ensures Ascending(r) && forall x :: x in r <==> x in s && x < k
  {
    if k == 0 then []
    else
      var low := Enumerate(s, k - 1);
      if k - 1 in s then
        AscendingAppend(low, k - 1);
        low + [k - 1]
      else low
  }

  lemma EmptyTogether(a: seq<Id>, b: seq<Id>)
    requires forall x :: x in a <==> x in b
    ensures a == [] <==> b == []
  {
    if a != [] { assert a[0] in b; }
    if b != [] { assert b[0] in a; }
  }

  /** An increasing list is determined by its elements. */
  lemma {:induction false} AscendingUnique(a: seq<Id>, b: seq<Id>)
    requires Ascending(a) && Ascending(b) && forall x :: x in a <==> x in b
    ensures a == b
  {
    EmptyTogether(a, b);
    if a != [] {
      var x, y := a[|a| - 1], b[|b| - 1];
      assert x in b && y in a;
      assert x == y;
      var c, d := a[..|a| - 1], b[..|b| - 1];
      forall z ensures z in c <==> z in d {
        assert z in a <==> z in b;
        assert z in a <==> z in c || z == x;
        assert z in b <==> z in d || z == x;
      }
      AscendingUnique(c, d);
      assert a == c + [x] && b == d + [x];
    }
  }

  ghost function UnionIds(a: seq<Id>, b: seq<Id>): (r: seq<Id>)
    ensures Ascending(r) && forall x :: x in r <==> x in a || x in b
  {
    Enumerate(Elements(a) + Elements(b), 256)
  }

  /** A union as long as its ascending first part adds nothing. */
  lemma SameCountSameIds(a: seq<Id>, b: seq<Id>)
    requires Ascending(a) && |UnionIds(a, b)| == |a|
    ensures UnionIds(a, b) == a
  {
    var u := UnionIds(a, b);
    ElementsCount(a);
    ElementsCount(u);
    if x :| x in u && x !in a {
      SubsetCount(Elements(a) + {x}, Elements(u));
    }
    AscendingUnique(u, a);
  }

  // ---------------------------------------------------------------- link quality

  /** Slow recovery on a packet, fast decay on a miss. */
  function AdjustQuality(q: Byte, timeout: bool): Byte {
    if timeout then (if q > 40 then q - 40 else 0)
    else if q < 97 then q + 3 else 100
  }

  ghost function WithQuality(t: Topo, id: Id, q: Byte): Topo
    requires Tidy(t)
  {
    if t.me in t.ids && id in t.ids then
      t.(quality := t.quality[(t.me, id) := q])
    else t
  }

  ghost function Adjusted(t: Topo, id: Id, timeout: bool): Topo
    requires Tidy(t)
  {
    if t.me in t.ids && id in t.ids
    then WithQuality(t, id, AdjustQuality(t.quality[(t.me, id)], timeout))
    else t
  }

  // ---------------------------------------------------------------- sweep

  ghost predicate Alive(t: Topo, id: Id, now: int) {
    id == t.me || (id in t.created && now - t.created[id] < MAX_AGE)
  }

  ghost function AliveIds(t: Topo, s: seq<Id>, now: int): (r: seq<Id>)
    ensures |r| <= |s|
    ensures forall x :: x in r <==> x in s && Alive(t, x, now)
  {
    if s == [] then []
    else
      var init, last := s[..|s| - 1], s[|s| - 1];
      assert s == init + [last];
      if Alive(t, last, now) then AliveIds(t, init, now) + [last] else AliveIds(t, init, now)
  }

  lemma {:induction false} AliveIdsAscending(t: Topo, s: seq<Id>, now: int)
    requires Ascending(s)
    ensures Ascending(AliveIds(t, s, now))
  {
    if s != [] {
      var init, last := s[..|s| - 1], s[|s| - 1];
      AliveIdsAscending(t, init, now);
      AscendingAppend(AliveIds(t, init, now), last);
    }
  }

  ghost function Narrow(m: Table, keep: seq<Id>): Table {
    map p | p in m && p.0 in keep && p.1 in keep :: m[p]
  }

  /** The part of the matrix about the ids in keep, every value as it was. */
  ghost function Restrict(t: Topo, keep: seq<Id>): Topo {
    Topo(t.me, keep, Narrow(t.link, keep), Narrow(t.quality, keep),
         map a | a in t.created && a in keep :: t.created[a],
         map a | a in t.age && a in keep :: t.age[a])
  }

  /** Removing dead links keeps me and everyone younger than MAX_AGE, in order, and changes nothing else. */
  ghost function Sweep(t: Topo, now: int): Topo {
    Restrict(t, AliveIds(t, t.ids, now))
  }

  /** Who stays: I, and everybody whose entry was created less than 2 s ago; of them all stays as it was. */
  lemma SweepExactly(t: Topo, now: int, x: Id, y: Id)
    requires Valid(t)
    ensures x in Sweep(t, now).ids <==> x in t.ids && (x == t.me || now - t.created[x] < 2_000_000)
    ensures x in Sweep(t, now).ids && y in Sweep(t, now).ids ==>
              var r := Sweep(t, now);
              && (x, y) in r.link && r.link[(x, y)] == t.link[(x, y)]
              && (x, y) in r.quality && r.quality[(x, y)] == t.quality[(x, y)]
              && x in r.created && r.created[x] == t.created[x]
  {
  }

  lemma RestrictTwice(t: Topo, big: seq<Id>, small: seq<Id>)
    requires forall x :: x in small ==> x in big
    ensures Restrict(Restrict(t, big), small) == Restrict(t, small)
  {
    var once, twice := Restrict(t, small), Restrict(Restrict(t, big), small);
    assert once.link == twice.link && once.quality == twice.quality;
  }

  lemma RestrictAll(t: Topo)
    requires Tidy(t)
    ensures Restrict(t, t.ids) == t
  {
    var r := Restrict(t, t.ids);
    assert r.link == t.link && r.quality == t.quality;
    assert r.created == t.created && r.age == t.age;
  }

  lemma SweepKeepsValid(t: Topo, now: int)
    requires Valid(t)
    ensures Valid(Sweep(t, now))
  {
    AliveIdsAscending(t, t.ids, now);
  }

  /** A filter changes nothing on a list that already passes it. */
  lemma {:induction false} AliveIdsFixed(t: Topo, s: seq<Id>, now: int)
    requires forall x :: x in s ==> Alive(t, x, now)
    ensures AliveIds(t, s, now) == s
  {
    if s != [] {
      AliveIdsFixed(t, s[..|s| - 1], now);
    }
  }

  /** Sweeping again at the same time does nothing. */
  lemma SweepIdempotent(t: Topo, now: int)
    requires Valid(t)
    ensures Sweep(Sweep(t, now), now) == Sweep(t, now)
  {
    var r := Sweep(t, now);
    SweepKeepsValid(t, now);
    AliveIdsFixed(r, r.ids, now);
    RestrictAll(r);
  }

  // ---------------------------------------------------------------- announcement

  /** My own entry is refreshed and every age recomputed. */
  ghost function Stamped(t: Topo, now: int): Topo
    requires Tidy(t)
  {
    var created := map a | a in t.ids :: if a == t.me then now else t.created[a];
    t.(created := created, age := map a | a in t.ids :: if a == t.me then 0 else now - created[a])
  }

  /** What serializeMatrix does to the matrix before packing it. */
  ghost function Announced(t: Topo, now: int): Topo
    requires Valid(t)
  {
    SweepKeepsValid(t, now);
    Stamped(Sweep(t, now), now)
  }

  lemma StampedKeepsValid(t: Topo, now: int)
    requires Valid(t)
    ensures Valid(Stamped(t, now))
  {
  }

  /** An announced matrix is a well-formed beacon that lists its sender at age 0 and no expired entry. */
  lemma AnnouncedIsBeacon(t: Topo, now: int)
    requires Valid(t)
    ensures var b := Announced(t, now);
            && Valid(b) && ValidBeacon(b) && b.me == t.me && b.age[t.me] == 0
            && forall x :: x in b.ids ==> x in t.ids && b.age[x] < MAX_AGE
  {
    var swept := Sweep(t, now);
    SweepKeepsValid(t, now);
    StampedKeepsValid(swept, now);
    forall x | x in swept.ids ensures x in t.ids && Stamped(swept, now).age[x] < MAX_AGE {
      assert Alive(t, x, now);
    }
  }

  /** What is announced: who stays in a sweep, with the age of each entry by the clock, mine being new; the links as
      they are. */
  lemma AnnouncedExactly(t: Topo, now: int, x: Id)
    requires Valid(t)
    ensures x in Announced(t, now).ids <==> x in t.ids && (x == t.me || now - t.created[x] < 2_000_000)
    ensures x in Announced(t, now).ids ==>
              var b := Announced(t, now);
              && x in b.created && b.created[x] == (if x == t.me then now else t.created[x])
              && x in b.age && b.age[x] == now - b.created[x]
              && forall y :: y in b.ids ==> (x, y) in b.link && b.link[(x, y)] == t.link[(x, y)]
  {
    SweepKeepsValid(t, now);
    if x in Announced(t, now).ids {
      forall y | y in Announced(t, now).ids
        ensures (x, y) in Announced(t, now).link && Announced(t, now).link[(x, y)] == t.link[(x, y)]
      {
        SweepExactly(t, now, x, y);
      }
    }
  }

  // ---------------------------------------------------------------- merge

  ghost predicate IsFresh(t: Topo, b: Topo, from: Id, now: int, a: Id)
    requires a in t.created && a in b.age
  {
    && (a == from || now - t.created[a] < MAX_AGE)
    && t.created[a] < now - b.age[a]
  }

  /** Whether the row of a is taken from the received matrix. */
  ghost predicate Takes(t: Topo, b: Topo, from: Id, now: int, a: Id) {
    && a in b.age && a != t.me && b.age[a] < MAX_AGE
    && (a in t.created ==> IsFresh(t, b, from, now, a))
  }

  function Cell(m: Table, a: Id, b: Id): Byte {
    if (a, b) in m then m[(a, b)] else 0
  }

  /** The rows after the received ones were taken. */
  ghost function TakenLink(t: Topo, b: Topo, from: Id, now: int, x: Id, y: Id): Byte {
    if Takes(t, b, from, now, x) then Cell(b.link, x, y) else Cell(t.link, x, y)
  }

  /** Creation times after the received rows were taken: only a direct or a first report sets a new one. */
  ghost function TakenCreated(t: Topo, b: Topo, from: Id, now: int, x: Id): int {
    if Takes(t, b, from, now, x) && (x == from || x !in t.created) then now - b.age[x]
    else if x in t.created then t.created[x]
    else 0
  }

  ghost function TakenAge(t: Topo, b: Topo, from: Id, now: int, x: Id): int {
    if Takes(t, b, from, now, x) then b.age[x]
    else if x in t.age then t.age[x]
    else 0
  }

  ghost function MergedLink(t: Topo, b: Topo, from: Id, now: int, x: Id, y: Id): Byte {
    if x == t.me && y == from then 1 else TakenLink(t, b, from, now, x, y)
  }

  ghost function MergedCreated(t: Topo, b: Topo, from: Id, now: int, x: Id): int {
    if x == t.me && (from in t.ids || from in b.ids) then now else TakenCreated(t, b, from, now, x)
  }

  /** The local measurement carried over by id, or the default for a heard but unmeasured link. */
  ghost function FilledQuality(t: Topo, b: Topo, from: Id, now: int, x: Id, y: Id): Byte
    requires Tidy(t)
  {
    var measured := Cell(Adjusted(t, from, false).quality, x, y);
    if x != y && MergedLink(t, b, from, now, x, y) == 1 && measured == 0 then INITIAL_LINK_QUALITY else measured
  }

  /** ... and the direct link to the sender is boosted. */
  ghost function MergedQuality(t: Topo, b: Topo, from: Id, now: int, x: Id, y: Id): Byte
    requires Tidy(t)
  {
    var filled := FilledQuality(t, b, from, now, x, y);
    if x == t.me && y == from && filled < BOOSTED_QUALITY then BOOSTED_QUALITY else filled
  }

  /** matrix_update: merge a matrix b received from a neighbour at time now. */
  ghost function Merge(t: Topo, b: Topo, from: Id, now: int): Topo
    requires Tidy(t)
  {
    var ids := UnionIds(t.ids, b.ids);
    Topo(t.me, ids,
         map p | p in Pairs(ids) :: MergedLink(t, b, from, now, p.0, p.1),
         map p | p in Pairs(ids) :: MergedQuality(t, b, from, now, p.0, p.1),
         map x | x in ids :: MergedCreated(t, b, from, now, x),
         map x | x in ids :: TakenAge(t, b, from, now, x))
  }

  /** The ids after a merge: the strictly sorted union, me among them, never more than the table holds. */
  lemma MergeKeepsValid(t: Topo, b: Topo, from: Id, now: int)
    requires Valid(t) && ValidBeacon(b)
    ensures Valid(Merge(t, b, from, now))
    ensures forall x :: x in Merge(t, b, from, now).ids <==> x in t.ids || x in b.ids
    ensures |Merge(t, b, from, now).ids| <= MAX_NODES
  {
    MeshIdsFit(Merge(t, b, from, now).ids);
  }

  /** The row x of r repeats the row x of m; columns m does not know are 0. */
  ghost predicate SameRow(r: Table, m: Table, x: Id) {
    forall y :: (x, y) in r ==> r[(x, y)] == Cell(m, x, y)
  }

  /** Nobody's row is ever a mixture: another node's row is wholly the received one, when that was unknown or
      strictly fresher and not expired, and wholly the local one otherwise; a node known only from an expired
      report starts with an empty row. My own row never depends on what was received: only the column of the
      sender is set. */
  lemma RowsAreWhole(t: Topo, b: Topo, from: Id, now: int, x: Id)
    requires Valid(t) && ValidBeacon(b)
    ensures x != t.me && Takes(t, b, from, now, x) ==> SameRow(Merge(t, b, from, now).link, b.link, x)
    ensures x != t.me && !Takes(t, b, from, now, x) ==> SameRow(Merge(t, b, from, now).link, t.link, x)
    ensures x in b.ids && x !in t.ids && b.age[x] >= MAX_AGE ==> SameRow(Merge(t, b, from, now).link, map[], x)
    ensures forall y :: (t.me, y) in Merge(t, b, from, now).link ==>
              Merge(t, b, from, now).link[(t.me, y)] == if y == from then 1 else Cell(t.link, t.me, y)
  {
  }

  /** Which row that is, by times alone. An entry that has run out here is renewed by nobody but the node itself;
      while it has not, the later of the two reports decides, unless the received one has run out; a node unknown so
      far comes with its row, or without one if the report has run out. */
  lemma RowsByTimes(t: Topo, b: Topo, from: Id, now: int, x: Id)
    requires Valid(t) && ValidBeacon(b) && x != t.me
    ensures x !in b.ids ==> SameRow(Merge(t, b, from, now).link, t.link, x)
    ensures x in b.ids && b.age[x] >= 2_000_000 ==> SameRow(Merge(t, b, from, now).link, t.link, x)
    ensures x in t.ids && x != from && now - t.created[x] >= 2_000_000 ==>
              SameRow(Merge(t, b, from, now).link, t.link, x)
    ensures x in t.ids && x in b.ids && b.age[x] < 2_000_000 && (x == from || now - t.created[x] < 2_000_000) ==>
              SameRow(Merge(t, b, from, now).link, if t.created[x] < now - b.age[x] then b.link else t.link, x)
    ensures x !in t.ids && x in b.ids && b.age[x] < 2_000_000 ==> SameRow(Merge(t, b, from, now).link, b.link, x)
  {
    RowsAreWhole(t, b, from, now, x);
    hide SameRow, Merge;
  }

  /** When each entry counts as created: mine now; that of the sender when it made the report, if that is later;
      that of any other known node as before; that of a new one when the report says, or never if it has run out. */
  lemma TimesOfMerge(t: Topo, b: Topo, from: Id, now: int, x: Id)
    requires Valid(t) && ValidBeacon(b) && (x in t.ids || x in b.ids) && (from in t.ids || from in b.ids)
    ensures var created := Merge(t, b, from, now).created;
            && x in created
            && (x == t.me ==> created[x] == now)
            && (x != t.me && x in t.ids && !(x == from && x in b.ids && b.age[x] < 2_000_000) ==>
                  created[x] == t.created[x])
            && (x != t.me && x in t.ids && x == from && x in b.ids && b.age[x] < 2_000_000 ==>
                  created[x] == if t.created[x] < now - b.age[x] then now - b.age[x] else t.created[x])
            && (x !in t.ids ==> created[x] == if b.age[x] < 2_000_000 then now - b.age[x] else 0)
  {
    assert x in UnionIds(t.ids, b.ids);
  }

  /** The age kept with a row is that of the report the row came with. */
  lemma AgeOfMerge(t: Topo, b: Topo, from: Id, now: int, x: Id)
    requires Valid(t) && ValidBeacon(b) && x != t.me && (x in t.ids || x in b.ids)
    ensures var age := Merge(t, b, from, now).age;
            && x in age
            && (x !in t.ids ==> age[x] == if b.age[x] < 2_000_000 then b.age[x] else 0)
            && (x !in b.ids ==> age[x] == t.age[x])
            && (x in t.ids && x in b.ids && b.age[x] < 2_000_000 && (x == from || now - t.created[x] < 2_000_000) ==>
                  age[x] == if t.created[x] < now - b.age[x] then b.age[x] else t.age[x])
  {
    assert x in UnionIds(t.ids, b.ids);
  }

  /** A matrix heard in the moment in which it is announced hands on what its sender knows of nodes new here: their
      rows, and their creation times, so that an entry is as old here as there. */
  lemma NewsIsHandedOn(s: Topo, t: Topo, now: int, x: Id)
    requires Valid(s) && Valid(t) && x in Announced(s, now).ids && x !in t.ids
    ensures var r := Merge(t, Announced(s, now), s.me, now);
            && x in r.created && r.created[x] == (if x == s.me then now else s.created[x])
            && forall y :: y in Announced(s, now).ids ==> (x, y) in r.link && r.link[(x, y)] == Cell(s.link, x, y)
  {
    NewsTime(s, t, now, x);
    NewsRow(s, t, now, x);
    hide *;
  }

  lemma BothAreTidy(s: Topo, t: Topo)
    requires Valid(s) && Valid(t)
    ensures Tidy(s) && Tidy(t)
  {
  }

  lemma NewsTime(s: Topo, t: Topo, now: int, x: Id)
    requires Valid(s) && Valid(t) && x in Announced(s, now).ids && x !in t.ids
    ensures var r := Merge(t, Announced(s, now), s.me, now);
            x in r.created && r.created[x] == if x == s.me then now else s.created[x]
  {
    hide Merge, Announced, Valid, Sweep;
    BothAreTidy(s, t);
    AnnouncedIsBeacon(s, now);
    AnnouncedExactly(s, now, x);
    TimesOfMerge(t, Announced(s, now), s.me, now, x);
  }

  lemma NewsRow(s: Topo, t: Topo, now: int, x: Id)
    requires Valid(s) && Valid(t) && x in Announced(s, now).ids && x !in t.ids
    ensures var r := Merge(t, Announced(s, now), s.me, now);
            forall y :: y in Announced(s, now).ids ==> (x, y) in r.link && r.link[(x, y)] == Cell(s.link, x, y)
  {
    AnnouncedIsBeacon(s, now);
    AnnouncedExactly(s, now, x);
    RowsByTimes(t, Announced(s, now), s.me, now, x);
    MergeListsPairs(t, Announced(s, now), s.me, now, x);
  }

  lemma MergeListsPairs(t: Topo, b: Topo, from: Id, now: int, x: Id)
    requires Tidy(t) && x in b.ids
    ensures forall y :: y in b.ids ==> (x, y) in Merge(t, b, from, now).link
  {
    forall y | y in b.ids ensures (x, y) in Merge(t, b, from, now).link {
      assert (x, y) in Pairs(UnionIds(t.ids, b.ids));
    }
  }

  /** Measurements move with their pair of ids: apart from the sender's column of my row, a known pair keeps
      its quality unless it was unmeasured and is now heard. */
  lemma QualityFollowsIds(t: Topo, b: Topo, from: Id, now: int, x: Id, y: Id)
    requires Valid(t) && ValidBeacon(b) && x in t.ids && y in t.ids && !(x == t.me && y == from)
    ensures t.quality[(x, y)] != 0 ==> Merge(t, b, from, now).quality[(x, y)] == t.quality[(x, y)]
    ensures t.quality[(x, y)] == 0 ==>
              Merge(t, b, from, now).quality[(x, y)] ==
                if x != y && Merge(t, b, from, now).link[(x, y)] == 1 then INITIAL_LINK_QUALITY else 0
  {
    assert Cell(Adjusted(t, from, false).quality, x, y) == t.quality[(x, y)];
    assert (x, y) in Pairs(UnionIds(t.ids, b.ids));
  }

  /** A pair new to the table is unmeasured, or of the default quality if the link is heard; apart from the sender's
      column of my row. */
  lemma NewPairs(t: Topo, b: Topo, from: Id, now: int, x: Id, y: Id)
    requires Valid(t) && ValidBeacon(b) && !(x in t.ids && y in t.ids) && !(x == t.me && y == from)
    requires (x in t.ids || x in b.ids) && (y in t.ids || y in b.ids)
    ensures (x, y) in Merge(t, b, from, now).quality && (x, y) in Merge(t, b, from, now).link
    ensures Merge(t, b, from, now).quality[(x, y)] ==
              if x != y && Merge(t, b, from, now).link[(x, y)] == 1 then 100 else 0
  {
    assert Cell(Adjusted(t, from, false).quality, x, y) == Cell(t.quality, x, y) == 0;
    assert (x, y) in Pairs(UnionIds(t.ids, b.ids));
  }

  /** After a beacon from a listed sender the direct link has exactly the boosted quality, more than any default. */
  lemma SenderIsBoosted(t: Topo, b: Topo, from: Id, now: int)
    requires Valid(t) && ValidBeacon(b) && (from in t.ids || from in b.ids)
    ensures Merge(t, b, from, now).link[(t.me, from)] == 1
    ensures Merge(t, b, from, now).quality[(t.me, from)] == BOOSTED_QUALITY
  {
    assert (t.me, from) in Pairs(UnionIds(t.ids, b.ids));
  }

  /** A report about a known node that comes from someone else never makes it look younger. */
  lemma IndirectNeverRefreshes(t: Topo, b: Topo, from: Id, now: int, x: Id)
    requires Valid(t) && ValidBeacon(b) && x in t.ids && x != t.me && x != from
    ensures Merge(t, b, from, now).created[x] == t.created[x]
  {
    assert x in UnionIds(t.ids, b.ids);
  }

  /** From one node to the next: a beacon that lists its sender at age 0, heard later than the last one from there,
      leaves the receiver with the sender's own row, whole, and with the sender marked as heard now. */
  lemma SenderRowArrives(t: Topo, b: Topo, from: Id, now: int)
    requires Valid(t) && ValidBeacon(b) && from in b.ids && b.age[from] == 0 && from != t.me
    requires from in t.ids ==> t.created[from] < now
    ensures Merge(t, b, from, now).created[from] == now
    ensures SameRow(Merge(t, b, from, now).link, b.link, from)
  {
    assert Takes(t, b, from, now, from);
    assert from in UnionIds(t.ids, b.ids);
  }
}

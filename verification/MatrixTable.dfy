/** tdma_matrix_t: the positional tables behind the topology matrix, and the operations that edit them in place. */
module MatrixTable {
  import opened Base
  import opened Topology

  // ---------------------------------------------------------------- positions and ids

  /** m says about the ids what cells says about their positions. */
  ghost predicate Agrees(m: Table, ids: seq<Id>, cells: seq<seq<Byte>>)
    requires |cells| == |ids| && forall i :: 0 <= i < |ids| ==> |cells[i]| == |ids|
  {
    && SquareOver(m, ids)
    && forall i, j {:trigger cells[i][j]} :: 0 <= i < |ids| && 0 <= j < |ids| ==> m[(ids[i], ids[j])] == cells[i][j]
  }

  ghost predicate AgreesBy(m: map<Id, int>, ids: seq<Id>, values: seq<int>)
    requires |values| == |ids|
  {
    && (forall a {:trigger a in m} :: a in m <==> a in ids)
    && forall i {:trigger values[i]} :: 0 <= i < |ids| ==> m[ids[i]] == values[i]
  }

  /** Old position of what stands at position i once position pos is gone. */
  function Skip(pos: nat, i: nat): nat {
    if i < pos then i else i + 1
  }

  ghost function Without(s: seq<Id>, pos: nat): seq<Id>
    requires pos < |s|
  {
    s[..pos] + s[pos + 1..]
  }

  lemma WithoutAt(s: seq<Id>, pos: nat)
    requires pos < |s| && Distinct(s)
    ensures |Without(s, pos)| == |s| - 1 && Distinct(Without(s, pos))
    ensures forall i: nat :: i < |s| - 1 ==> Without(s, pos)[i] == s[Skip(pos, i)]
    ensures forall x :: x in Without(s, pos) <==> x in s && x != s[pos]
  {
    var w := Without(s, pos);
    forall x | x in s && x != s[pos] ensures x in w {
      var i :| 0 <= i < |s| && s[i] == x;
      assert x == w[if i < pos then i else i - 1];
    }
  }

  /** Deleting a row and a column by position is forgetting one id. */
  lemma DropAgrees(m: Table, ids: seq<Id>, cells: seq<seq<Byte>>, pos: nat, fewer: seq<seq<Byte>>)
    requires Distinct(ids) && pos < |ids|
    requires |cells| == |ids| && forall i :: 0 <= i < |ids| ==> |cells[i]| == |ids|
    requires Agrees(m, ids, cells) && CellsDeleted(cells, |ids|, pos, fewer)
    ensures |Without(ids, pos)| == |fewer| && Agrees(Narrow(m, Without(ids, pos)), Without(ids, pos), fewer)
  {
    WithoutAt(ids, pos);
    var w := Without(ids, pos);
    forall i: nat, j: nat | i < |w| && j < |w| ensures Narrow(m, w)[(w[i], w[j])] == fewer[i][j] {
      assert w[i] in w && w[j] in w;
    }
  }

  ghost predicate SquareCells(cells: seq<seq<Byte>>, n: nat) {
    |cells| == n && forall i :: 0 <= i < n ==> |cells[i]| == n
  }

  /** Position tables by value. */
  datatype Snapshot = Snapshot(me: Id, ids: seq<Id>, link: seq<seq<Byte>>, quality: seq<seq<Byte>>,
                               created: seq<int>, age: seq<int>)
  {
    ghost predicate Square() {
      && SquareCells(link, |ids|) && SquareCells(quality, |ids|) && |created| == |ids| && |age| == |ids|
    }

    /** Every table holds, position by position, what t says about the ids. */
    ghost predicate Shows(t: Topo)
      requires Square()
    {
      && t.me == me && t.ids == ids
      && Agrees(t.link, ids, link) && Agrees(t.quality, ids, quality)
      && AgreesBy(t.created, ids, created) && AgreesBy(t.age, ids, age)
    }
  }

  /** fewer is cells with row and column pos deleted, whatever they held. */
  ghost predicate CellsDeleted(cells: seq<seq<Byte>>, n: nat, pos: nat, fewer: seq<seq<Byte>>) {
    && pos < n && SquareCells(cells, n) && SquareCells(fewer, n - 1)
    && forall i: nat, j: nat :: i < n - 1 && j < n - 1 ==> fewer[i][j] == cells[Skip(pos, i)][Skip(pos, j)]
  }

  ghost predicate ValuesDeleted(values: seq<int>, pos: nat, fewer: seq<int>) {
    && pos < |values| && |fewer| == |values| - 1
    && forall i: nat :: i < |fewer| ==> fewer[i] == values[Skip(pos, i)]
  }

  /** Two tables that differ at most in column pos lose the same when row and column pos go. */
  ghost predicate SameOffColumn(cells: seq<seq<Byte>>, other: seq<seq<Byte>>, n: nat, pos: nat) {
    && SquareCells(cells, n) && SquareCells(other, n)
    && forall i: nat, j: nat :: i < n && j < n && j != pos ==> cells[i][j] == other[i][j]
  }

  lemma DeletedOffColumn(cells: seq<seq<Byte>>, other: seq<seq<Byte>>, n: nat, pos: nat, fewer: seq<seq<Byte>>)
    requires SameOffColumn(cells, other, n, pos) && CellsDeleted(other, n, pos, fewer)
    ensures CellsDeleted(cells, n, pos, fewer)
  {
  }

  /** s is r with position pos deleted from every table. */
  ghost predicate Deleted(r: Snapshot, pos: nat, s: Snapshot) {
    && r.Square() && pos < |r.ids| && s.Square()
    && s.me == r.me && s.ids == Without(r.ids, pos)
    && CellsDeleted(r.link, |r.ids|, pos, s.link) && CellsDeleted(r.quality, |r.ids|, pos, s.quality)
    && ValuesDeleted(r.created, pos, s.created) && ValuesDeleted(r.age, pos, s.age)
  }

  lemma DeletedIsRestricted(t: Topo, r: Snapshot, pos: nat, s: Snapshot)
    requires Deleted(r, pos, s) && Distinct(r.ids) && r.Shows(t)
    ensures s.Shows(Restrict(t, s.ids)) && Distinct(s.ids)
  {
    WithoutAt(r.ids, pos);
    DropAgrees(t.link, r.ids, r.link, pos, s.link);
    DropAgrees(t.quality, r.ids, r.quality, pos, s.quality);
    DropAgreesBy(t.created, r.ids, r.created, pos, s.created);
    DropAgreesBy(t.age, r.ids, r.age, pos, s.age);
  }

  lemma DropAgreesBy(m: map<Id, int>, ids: seq<Id>, values: seq<int>, pos: nat, fewer: seq<int>)
    requires Distinct(ids) && pos < |ids| == |values| && AgreesBy(m, ids, values) && ValuesDeleted(values, pos, fewer)
    ensures |Without(ids, pos)| == |fewer|
    ensures AgreesBy(map a | a in m && a in Without(ids, pos) :: m[a], Without(ids, pos), fewer)
  {
    WithoutAt(ids, pos);
  }

  /** The id list of a sweep under way: the first done ids of t were judged, the i survivors come first, the
      rest is untouched. */
  ghost predicate Sweeping(t: Topo, names: seq<Id>, i: nat, done: nat, now: int) {
    && i <= |names| && done <= |t.ids|
    && names == AliveIds(t, t.ids[..done], now) + t.ids[done..]
    && |AliveIds(t, t.ids[..done], now)| == i
  }

  lemma SweepKeeps(t: Topo, names: seq<Id>, i: nat, done: nat, now: int)
    requires Sweeping(t, names, i, done, now) && i < |names| && Alive(t, names[i], now)
    ensures done < |t.ids| && Sweeping(t, names, i + 1, done + 1, now)
  {
    assert t.ids[..done + 1][..done] == t.ids[..done];
    assert t.ids[done] == names[i];
    assert AliveIds(t, t.ids[..done + 1], now) == AliveIds(t, t.ids[..done], now) + [names[i]];
    assert t.ids[done..] == [names[i]] + t.ids[done + 1..];
  }

  lemma SweepDrops(t: Topo, names: seq<Id>, i: nat, done: nat, now: int)
    requires Sweeping(t, names, i, done, now) && i < |names| && !Alive(t, names[i], now)
    ensures done < |t.ids| && Sweeping(t, Without(names, i), i, done + 1, now)
  {
    assert t.ids[..done + 1][..done] == t.ids[..done];
    assert t.ids[done] == names[i];
  }

  lemma SweepEnds(t: Topo, names: seq<Id>, done: nat, now: int)
    requires Sweeping(t, names, |names|, done, now)
    ensures names == AliveIds(t, t.ids, now)
  {
    assert t.ids[done..] == [] && t.ids[..done] == t.ids;
  }

  /** The whole state of a sweep under way: the listed part of t, untouched. */
  ghost predicate MidwayAt(t: Topo, s: Snapshot, i: nat, done: nat, now: int) {
    && s.Square() && Distinct(s.ids) && Sweeping(t, s.ids, i, done, now) && s.Shows(Restrict(t, s.ids))
  }

  ghost predicate Midway(t: Topo, s: Snapshot, i: nat, now: int) {
    exists done: nat :: MidwayAt(t, s, i, done, now)
  }

  lemma MidwayStarts(t: Topo, s: Snapshot, now: int)
    requires s.Square() && Distinct(s.ids) && s.Shows(t)
    ensures Midway(t, s, 0, now)
  {
    RestrictAll(t);
    assert MidwayAt(t, s, 0, 0, now);
  }

  /** Whether the node at position i is alive can be read off its own entry. */
  lemma MidwayJudges(t: Topo, s: Snapshot, i: nat, now: int)
    requires Midway(t, s, i, now) && i < |s.ids| == |s.created|
    ensures Alive(t, s.ids[i], now) <==> s.ids[i] == s.me || now - s.created[i] < MAX_AGE
  {
    assert s.ids[i] in Restrict(t, s.ids).created;
  }

  lemma MidwayKeeps(t: Topo, s: Snapshot, i: nat, now: int)
    requires Midway(t, s, i, now) && i < |s.ids| && Alive(t, s.ids[i], now)
    ensures Midway(t, s, i + 1, now)
  {
    var done: nat :| MidwayAt(t, s, i, done, now);
    SweepKeeps(t, s.ids, i, done, now);
    assert MidwayAt(t, s, i + 1, done + 1, now);
  }

  lemma MidwayDrops(t: Topo, r: Snapshot, s: Snapshot, i: nat, now: int)
    requires Midway(t, r, i, now) && i < |r.ids| && !Alive(t, r.ids[i], now) && Deleted(r, i, s)
    ensures Midway(t, s, i, now)
  {
    var done: nat :| MidwayAt(t, r, i, done, now);
    SweepDrops(t, r.ids, i, done, now);
    SweepRestricts(t, r, i, s);
    assert MidwayAt(t, s, i, done + 1, now);
  }

  lemma MidwayEnds(t: Topo, s: Snapshot, i: nat, now: int)
    requires Midway(t, s, i, now) && i >= |s.ids|
    ensures s.Square() && Distinct(s.ids) && s.Shows(Sweep(t, now))
  {
    var done: nat :| MidwayAt(t, s, i, done, now);
    SweepEnds(t, s.ids, done, now);
  }

  lemma SweepRestricts(t: Topo, r: Snapshot, pos: nat, s: Snapshot)
    requires Deleted(r, pos, s) && Distinct(r.ids) && r.Shows(Restrict(t, r.ids))
    ensures s.Shows(Restrict(t, s.ids)) && Distinct(s.ids)
  {
    DeletedIsRestricted(Restrict(t, r.ids), r, pos, s);
    WithoutAt(r.ids, pos);
    RestrictTwice(t, r.ids, s.ids);
  }

  lemma SameCells(a: seq<seq<Byte>>, b: seq<seq<Byte>>, n: nat)
    requires SquareCells(a, n) && SquareCells(b, n)
    requires forall i: nat, j: nat :: i < n && j < n ==> a[i][j] == b[i][j]
    ensures a == b
  {
    forall i: nat | i < n ensures a[i] == b[i] {}
  }

  /** Writing one quality cell by position is setting the quality of a pair of ids. */
  lemma QualityWritten(t: Topo, s: Snapshot, r: Snapshot, my: nat, node: nat, q: Byte)
    requires s.Square() && Distinct(s.ids) && s.Shows(t) && r.Square()
    requires my < |s.ids| && node < |s.ids| && s.ids[my] == s.me
    requires r == s.(quality := r.quality)
    requires forall i: nat, j: nat :: i < |s.ids| && j < |s.ids| ==>
               r.quality[i][j] == if i == my && j == node then q else s.quality[i][j]
    ensures r.Shows(WithQuality(t, s.ids[node], q))
  {
    CellWritten(t.quality, s.ids, s.quality, r.quality, my, node, q);
  }

  lemma CellWritten(m: Table, ids: seq<Id>, cells: seq<seq<Byte>>, after: seq<seq<Byte>>, my: nat, node: nat, q: Byte)
    requires SquareCells(cells, |ids|) && SquareCells(after, |ids|) && Distinct(ids) && my < |ids| && node < |ids|
    requires Agrees(m, ids, cells)
    requires forall i: nat, j: nat {:trigger after[i][j]} :: i < |ids| && j < |ids| ==>
               after[i][j] == if i == my && j == node then q else cells[i][j]
    ensures Agrees(m[(ids[my], ids[node]) := q], ids, after)
  {
    var m' := m[(ids[my], ids[node]) := q];
    forall i: nat, j: nat | i < |ids| && j < |ids| ensures m'[(ids[i], ids[j])] == after[i][j] {
      assert m[(ids[i], ids[j])] == cells[i][j];
    }
  }

  /** Refreshing by position is refreshing by id. */
  lemma ShowsStamped(t: Topo, s: Snapshot, r: Snapshot, now: int)
    requires Tidy(t) && s.Square() && s.Shows(t) && r.Square() && r == s.(created := r.created, age := r.age)
    requires forall k :: 0 <= k < |s.ids| ==> r.created[k] == if s.ids[k] == s.me then now else s.created[k]
    requires forall k :: 0 <= k < |s.ids| ==> r.age[k] == if s.ids[k] == s.me then 0 else now - r.created[k]
    ensures r.Shows(Stamped(t, now))
  {
  }

  /** Old position of what stands at position k of a whole table of which the first n positions were live. */
  function Came(pos: nat, n: nat, k: nat): nat
    requires n > 0
  {
    if k < n - 1 then Skip(pos, k) else k
  }

  /** The whole table once row and column pos of the live corner are gone: below the corner nothing changes, the
      vacated last column is zeroed down to the old last row, and that row is left behind, a column shorter. */
  ghost predicate TableDeleted(was: seq<seq<Byte>>, n: nat, pos: nat, now: seq<seq<Byte>>) {
    && pos < n <= MAX_NODES && SquareCells(was, MAX_NODES) && SquareCells(now, MAX_NODES)
    && forall r: nat, c: nat :: r < MAX_NODES && c < MAX_NODES ==>
         now[r][c] == if r >= n then was[r][c] else if c == n - 1 then 0 else was[Came(pos, n, r)][Came(pos, n, c)]
  }

  /** In particular the live corner loses exactly that row and column. */
  lemma TableDeletedInside(was: seq<seq<Byte>>, n: nat, pos: nat, now: seq<seq<Byte>>,
                           cells: seq<seq<Byte>>, fewer: seq<seq<Byte>>)
    requires TableDeleted(was, n, pos, now) && SquareCells(cells, n) && SquareCells(fewer, n - 1)
    requires forall i: nat, j: nat :: i < n && j < n ==> cells[i][j] == was[i][j]
    requires forall i: nat, j: nat :: i < n - 1 && j < n - 1 ==> fewer[i][j] == now[i][j]
    ensures CellsDeleted(cells, n, pos, fewer)
  {
    forall i: nat, j: nat | i < n - 1 && j < n - 1 ensures fewer[i][j] == cells[Skip(pos, i)][Skip(pos, j)] {
      assert now[i][j] == was[Came(pos, n, i)][Came(pos, n, j)];
    }
  }

  /** Deletes row and column pos of the live n-by-n corner: rows move up, then every row closes the gap. */
  method DropRowAndColumn(a: array2<Byte>, n: nat, pos: nat)
    requires pos < n <= MAX_NODES == a.Length0 == a.Length1
    modifies a
    ensures TableDeleted(old(Corner(a, MAX_NODES)), n, pos, Corner(a, MAX_NODES))
  {
    forall r, c | pos <= r < n - 1 && 0 <= c < MAX_NODES { a[r, c] := a[r + 1, c]; }
    label Moved:
    for i := 0 to n
      invariant forall r, c :: 0 <= r < i && 0 <= c < MAX_NODES ==>
        a[r, c] == if c == n - 1 then 0 else old@Moved(a[r, Came(pos, n, c)])
      invariant forall r, c :: i <= r < MAX_NODES && 0 <= c < MAX_NODES ==> a[r, c] == old@Moved(a[r, c])
    {
      CloseGap(a, n, pos, i);
    }
  }

  /** Closes the gap in one row. */
  method CloseGap(a: array2<Byte>, n: nat, pos: nat, i: nat)
    requires pos < n <= MAX_NODES == a.Length0 == a.Length1 && i < n
    modifies a
    ensures forall c :: 0 <= c < MAX_NODES ==> a[i, c] == if c == n - 1 then 0 else old(a[i, Came(pos, n, c)])
    ensures forall r, c :: 0 <= r < MAX_NODES && r != i && 0 <= c < MAX_NODES ==> a[r, c] == old(a[r, c])
  {
    for j := pos to n - 1
      invariant forall r, c :: 0 <= r < MAX_NODES && r != i && 0 <= c < MAX_NODES ==> a[r, c] == old(a[r, c])
      invariant forall c :: 0 <= c < j ==> a[i, c] == old(a[i, Skip(pos, c)])
      invariant forall c :: j <= c < MAX_NODES ==> a[i, c] == old(a[i, c])
    {
      a[i, j] := a[i, j + 1];
    }
    a[i, n - 1] := 0;
  }

  // ---------------------------------------------------------------- the table

  class TdmaMatrix {
    ghost var view: Topo  // the state by id
    var myId: Id
    var count: nat
    const ids: array<Id>
    const link: array2<Byte>
    const quality: array2<Byte>
    const created: array<int>
    const age: array<int>

    ghost predicate Shape()
      reads this
    {
      && count <= MAX_NODES
      && ids.Length == created.Length == age.Length == MAX_NODES && created != age
      && link.Length0 == link.Length1 == quality.Length0 == quality.Length1 == MAX_NODES && link != quality
    }

    ghost function Now(): (s: Snapshot)
      requires Shape()
      reads this, ids, link, quality, created, age
      ensures s.Square() && |s.ids| == count
    {
      Snapshot(myId, ids[..count], Corner(link, count), Corner(quality, count), created[..count], age[..count])
    }

    /** The tables are well formed and hold what view says. */
    ghost predicate Valid()
      reads this, ids, link, quality, created, age
    {
      Shape() && Distinct(ids[..count]) && Now().Shows(view)
    }

    /** An all-zero table, as memset leaves it. */
    constructor ()
      ensures Shape() && count == 0
      ensures fresh(ids) && fresh(link) && fresh(quality) && fresh(created) && fresh(age)
      ensures forall i, j :: 0 <= i < MAX_NODES && 0 <= j < MAX_NODES ==> link[i, j] == 0 && quality[i, j] == 0
      ensures forall i :: 0 <= i < MAX_NODES ==> created[i] == 0 && age[i] == 0
    {
      myId, count := 0, 0;
      ids := new Id[MAX_NODES](_ => 0);
      link := new Byte[MAX_NODES, MAX_NODES]((_, _) => 0);
      quality := new Byte[MAX_NODES, MAX_NODES]((_, _) => 0);
      created := new int[MAX_NODES](_ => 0);
      age := new int[MAX_NODES](_ => 0);
    }

    method SearchId(id: Id) returns (i: int)
      requires Shape()
      ensures i == IndexOf(ids[..count], id)
    {
      for k := 0 to count
        invariant id !in ids[..k]
      {
        if ids[k] == id {
          assert ids[..count][k] == id && forall x :: 0 <= x < k ==> ids[..count][x] == ids[..k][x];
          return k;
        }
      }
      return -1;
    }

    method RemoveIdMatrix(pos: nat)
      requires Shape() && pos < count
      modifies link, quality
      ensures TableDeleted(old(Corner(link, MAX_NODES)), count, pos, Corner(link, MAX_NODES))
      ensures TableDeleted(old(Corner(quality, MAX_NODES)), count, pos, Corner(quality, MAX_NODES))
      ensures CellsDeleted(old(Corner(link, count)), count, pos, Corner(link, count - 1))
      ensures CellsDeleted(old(Corner(quality, count)), count, pos, Corner(quality, count - 1))
    {
      ghost var links, wholeLinks := Corner(link, count), Corner(link, MAX_NODES);
      ghost var qualities, wholeQualities := Corner(quality, count), Corner(quality, MAX_NODES);
      DropRowAndColumn(link, count, pos);
      DropRowAndColumn(quality, count, pos);
      TableDeletedInside(wholeLinks, count, pos, Corner(link, MAX_NODES), links, Corner(link, count - 1));
      TableDeletedInside(wholeQualities, count, pos, Corner(quality, MAX_NODES), qualities,
                         Corner(quality, count - 1));
    }

    method RemoveIdList(pos: nat)
      requires Shape() && pos < count
      modifies `count, ids, created, age
      ensures Shape() && count == old(count) - 1
      ensures ids[..count] == Without(old(ids[..count]), pos)
      ensures ValuesDeleted(old(created[..count]), pos, created[..count])
      ensures ValuesDeleted(old(age[..count]), pos, age[..count])
    {
      forall i | pos <= i < count - 1 { ids[i] := ids[i + 1]; }
      forall i | pos <= i < count - 1 { age[i] := age[i + 1]; }
      forall i | pos <= i < count - 1 { created[i] := created[i + 1]; }
      count := count - 1;
    }

    /** The penalty of 20 and the cleared direct link of a node about to be removed. */
    method Penalise(pos: nat)
      requires Shape() && pos < count
      modifies link, quality
      ensures SameOffColumn(old(Corner(link, count)), Corner(link, count), count, pos)
      ensures SameOffColumn(old(Corner(quality, count)), Corner(quality, count), count, pos)
    {
      var my := SearchId(myId);
      if my != -1 {
        if quality[my, pos] > 20 { quality[my, pos] := quality[my, pos] - 20; } else { quality[my, pos] := 0; }
        link[my, pos] := 0;
      }
    }

    /** The removal of the node at position pos as the sweep does it: penalise and clear the direct link, then
        delete the row, the column and the list entry. Nothing about the other nodes changes. */
    method Drop(pos: nat)
      requires Shape() && pos < count
      modifies `count, ids, link, quality, created, age
      ensures Shape() && Deleted(old(Now()), pos, Now())
    {
      ghost var links, qualities := Corner(link, count), Corner(quality, count);
      Penalise(pos);
      ghost var links', qualities' := Corner(link, count), Corner(quality, count);
      RemoveIdMatrix(pos);
      DeletedOffColumn(links, links', count, pos, Corner(link, count - 1));
      DeletedOffColumn(qualities, qualities', count, pos, Corner(quality, count - 1));
      RemoveIdList(pos);
    }

    /** One turn of the sweep: the entry at position i stays, or goes and the next one moves into its place. */
    method SweepAt(i: nat, now: int, ghost t: Topo) returns (next: nat)
      requires Shape() && i < count && Midway(t, Now(), i, now)
      modifies `count, ids, link, quality, created, age
      ensures Shape() && Midway(t, Now(), next, now)
      ensures next - i + old(count) - count == 1 && count <= old(count) && i <= next
    {
      ghost var s := Now();
      if Expired(i, now) {
        MidwayJudges(t, s, i, now);
        Drop(i);
        MidwayDrops(t, s, Now(), i, now);
        next := i;
      } else {
        MidwayJudges(t, s, i, now);
        MidwayKeeps(t, s, i, now);
        next := i + 1;
      }
    }

    /** Another node, not heard for MAX_AGE. */
    predicate Expired(i: nat, now: int)
      requires Shape() && i < count
      reads this, ids, created
    {
      ids[i] != myId && now - created[i] >= MAX_AGE
    }

    /** The pass of removeDeadLinks: it deletes while it walks. */
    method Walk(now: int, ghost t: Topo)
      requires Shape() && Distinct(ids[..count]) && Now().Shows(t)
      modifies `count, ids, link, quality, created, age
      ensures Shape() && Distinct(ids[..count]) && Now().Shows(Sweep(t, now))
    {
      MidwayStarts(t, Now(), now);
      var i: nat := 0;
      while i < count
        invariant Shape() && Midway(t, Now(), i, now)
        decreases count - i
      {
        i := SweepAt(i, now, t);
      }
      MidwayEnds(t, Now(), i, now);
    }

    /** Records what the tables now say. */
    ghost method Settle(t: Topo)
      requires Shape() && Distinct(ids[..count]) && Now().Shows(t)
      modifies `view
      ensures Valid() && view == t
    {
      ghost var s := Now();
      view := t;
      assert Now() == s;
    }

    /** removeDeadLinks: drops every other node not heard for MAX_AGE. */
    method RemoveDeadLinks(now: int)
      requires Valid()
      modifies `view, `count, ids, link, quality, created, age
      ensures Valid() && view == Sweep(old(view), now)
    {
      Walk(now, view);
      Settle(Sweep(view, now));
    }

    method RefreshMine(now: int)
      requires Shape() && Distinct(ids[..count])
      modifies created
      ensures forall k :: 0 <= k < count ==> created[k] == if ids[k] == myId then now else old(created[k])
    {
      var my := SearchId(myId);
      if my >= 0 {
        assert forall k :: 0 <= k < count && k != my ==> ids[..count][k] != ids[..count][my];
        created[my] := now;
      }
    }

    method RecomputeAges(now: int)
      requires Shape()
      modifies age
      ensures forall k :: 0 <= k < count ==> age[k] == if ids[k] == myId then 0 else now - created[k]
    {
      for x := 0 to count
        invariant forall k :: 0 <= k < x ==> age[k] == if ids[k] == myId then 0 else now - created[k]
      {
        age[x] := if ids[x] == myId then 0 else now - created[x];
      }
    }

    /** Refreshes my own entry and recomputes every age. */
    method Stamp(now: int)
      requires Valid() && myId in view.ids
      modifies `view, created, age
      ensures Valid() && view == Stamped(old(view), now)
    {
      ghost var t, s := view, Now();
      RefreshMine(now);
      RecomputeAges(now);
      ShowsStamped(t, s, Now(), now);
      Settle(Stamped(t, now));
    }

    /** The sweep and the stamping with which serializeMatrix prepares the matrix it packs. */
    method Announce(now: int)
      requires Valid() && Topology.Valid(view)
      modifies `view, `count, ids, link, quality, created, age
      ensures Valid() && view == Announced(old(view), now)
    {
      SweepKeepsValid(view, now);
      RemoveDeadLinks(now);
      Stamp(now);
    }

    /** The whole state as a value. */
    method Read() returns (s: Snapshot)
      requires Shape()
      ensures s == Now()
    {
      var l := seq(count, i requires 0 <= i < count && Shape() reads this, link =>
        seq(count, j requires 0 <= j < count && Shape() reads this, link => link[i, j]));
      var q := seq(count, i requires 0 <= i < count && Shape() reads this, quality =>
        seq(count, j requires 0 <= j < count && Shape() reads this, quality => quality[i, j]));
      s := Snapshot(myId, ids[..count], l, q, created[..count], age[..count]);
      SameCells(l, Corner(link, count), count);
      SameCells(q, Corner(quality, count), count);
    }

    /** memcpy of a whole result table over this one. */
    method WriteTables(s: Snapshot)
      requires Shape() && s.Square() && |s.ids| <= MAX_NODES
      modifies `myId, `count, ids, link, quality, created, age
      ensures Shape() && Now() == s
    {
      myId, count := s.me, |s.ids|;
      forall i | 0 <= i < count { ids[i] := s.ids[i]; }
      forall i, j | 0 <= i < count && 0 <= j < count { link[i, j] := s.link[i][j]; }
      forall i, j | 0 <= i < count && 0 <= j < count { quality[i, j] := s.quality[i][j]; }
      forall i | 0 <= i < count { created[i] := s.created[i]; }
      forall i | 0 <= i < count { age[i] := s.age[i]; }
      assert ids[..count] == s.ids && created[..count] == s.created && age[..count] == s.age;
      SameCells(Corner(link, count), s.link, count);
      SameCells(Corner(quality, count), s.quality, count);
    }

    /** ... of which t is the state by id. */
    method Write(s: Snapshot, ghost t: Topo)
      requires Shape() && s.Square() && |s.ids| <= MAX_NODES && Distinct(s.ids) && s.Shows(t)
      modifies this, ids, link, quality, created, age
      ensures Valid() && view == t && Now() == s
    {
      view := t;
      WriteTables(s);
    }

    /** MATRIX_setLinkQuality: an outside measurement of the link to id. */
    method SetLinkQuality(id: Id, q: Byte)
      requires Valid()
      modifies `view, quality
      ensures Valid() && view == WithQuality(old(view), id, q)
    {
      ghost var t, s := view, Now();
      var myIdx := SearchId(myId);
      var nodeIdx := SearchId(id);
      if myIdx != -1 && nodeIdx != -1 {
        quality[myIdx, nodeIdx] := q;
        QualityWritten(t, s, Now(), myIdx, nodeIdx, q);
        Settle(WithQuality(t, id, q));
      }
    }

    /** MATRIX_updateLinkQuality: recovery on a packet, decay on a miss. */
    method UpdateLinkQuality(id: Id, timeout: bool)
      requires Valid()
      modifies `view, quality
      ensures Valid() && view == Adjusted(old(view), id, timeout)
    {
      var myIdx := SearchId(myId);
      var nodeIdx := SearchId(id);
      if myIdx == -1 || nodeIdx == -1 {
        return;
      }
      assert Now().quality[myIdx][nodeIdx] == quality[myIdx, nodeIdx];
      var q := quality[myIdx, nodeIdx];
      if timeout {
        if q > 40 { q := q - 40; } else { q := 0; }
      } else {
        if q < 97 { q := q + 3; } else { q := 100; }
      }
      SetLinkQuality(id, q);
    }
  }
}

/** matrix_update: how a received matrix is merged into the local one. The result table is a private buffer that
    nothing else points to, so it is built here as local values; the two tables it reads are not changed. */
module MatrixMerge {
  import opened Base
  import opened Topology
  import opened MatrixTable

  /** Ascending list of distinct ids, as qsort leaves it. */
  function InsertId(s: seq<Id>, x: Id): (r: seq<Id>)
    requires Ascending(s) && x !in s
    ensures Ascending(r) && |r| == |s| + 1 && forall y :: y in r <==> y in s || y == x
  {
    if s == [] then [x]
    else
      var init, last := s[..|s| - 1], s[|s| - 1];
      assert s == init + [last];
      if last < x then AscendingAppend(s, x); s + [x]
      else
        var r := InsertId(init, x);
        AscendingAppend(r, last);
        r + [last]
  }

  function SortIds(s: seq<Id>): (r: seq<Id>)
    requires Distinct(s)
    ensures Ascending(r) && |r| == |s| && forall y :: y in r <==> y in s
  {
    if s == [] then []
    else
      var init, last := s[..|s| - 1], s[|s| - 1];
      assert s == init + [last];
      InsertId(SortIds(init), last)
  }

  /** A row filled by matching ids, and 0 elsewhere, is the row of m seen from the id list ids. */
  lemma RowIsCells(m: Table, names: seq<Id>, cells: seq<seq<Byte>>, i: nat, ids: seq<Id>, row: seq<Byte>)
    requires SquareCells(cells, |names|) && Agrees(m, names, cells) && i < |names| && |row| == |ids|
    requires forall q: nat, x: nat :: q < |ids| && x < |names| && ids[q] == names[x] ==> row[q] == cells[i][x]
    requires forall q: nat :: q < |ids| && ids[q] !in names ==> row[q] == 0
    ensures forall q: nat :: q < |ids| ==> row[q] == Cell(m, names[i], ids[q])
  {
    forall q: nat | q < |ids| ensures row[q] == Cell(m, names[i], ids[q]) {
      if ids[q] in names {
        var x: nat :| x < |names| && names[x] == ids[q];
        assert m[(names[i], names[x])] == cells[i][x];
      }
    }
  }

  /** Row x of m, column by column for the ids in ids. */
  ghost function RowView(m: Table, x: Id, ids: seq<Id>): (r: seq<Byte>)
    ensures |r| == |ids|
    ensures forall q: nat {:trigger r[q]} :: q < |ids| ==> r[q] == Cell(m, x, ids[q])
  {
    seq(|ids|, q requires 0 <= q < |ids| => Cell(m, x, ids[q]))
  }

  /** The first i ids of a list. */
  ghost function FirstOf(ids: seq<Id>, i: nat): set<Id>
    requires i <= |ids|
  {
    if i == 0 then {} else FirstOf(ids, i - 1) + {ids[i - 1]}
  }

  lemma {:induction false} FirstOfHas(ids: seq<Id>, i: nat)
    requires i <= |ids|
    ensures forall x :: x in FirstOf(ids, i) <==> exists k :: 0 <= k < i && ids[k] == x
  {
    if i > 0 {
      FirstOfHas(ids, i - 1);
    }
  }

  /** What one position of a table says about its node. */
  datatype Entry = Entry(row: seq<Byte>, time: int, age: int)

  ghost function LocalEntry(t: Topo, ids: seq<Id>, x: Id): Entry {
    Entry(RowView(t.link, x, ids), if x in t.created then t.created[x] else 0, if x in t.age then t.age[x] else 0)
  }

  ghost function TakenEntry(t: Topo, b: Topo, from: Id, now: int, ids: seq<Id>, x: Id): Entry {
    if Takes(t, b, from, now, x)
    then Entry(RowView(b.link, x, ids), TakenCreated(t, b, from, now, x), b.age[x])
    else LocalEntry(t, ids, x)
  }

  ghost function EmptyEntry(n: nat): Entry {
    Entry(seq(n, _ => 0), 0, 0)
  }

  /** A result table under construction: the local entries of the ids in seen are in place. */
  ghost predicate LocalSoFar(t: Topo, seen: set<Id>, ids: seq<Id>, entries: seq<Entry>) {
    && |entries| == |ids|
    && forall p: nat {:trigger entries[p]} :: p < |ids| ==>
         entries[p] == if ids[p] in seen then LocalEntry(t, ids, ids[p]) else EmptyEntry(|ids|)
  }

  /** Later: the received entries of the ids in seen were considered. */
  ghost predicate TakenSoFar(t: Topo, b: Topo, from: Id, now: int, seen: set<Id>, ids: seq<Id>, entries: seq<Entry>) {
    && |entries| == |ids|
    && forall p: nat {:trigger entries[p]} :: p < |ids| ==>
         entries[p] == if ids[p] in seen then TakenEntry(t, b, from, now, ids, ids[p]) else LocalEntry(t, ids, ids[p])
  }

  /** s shows t, and the ids listed in names include those of s. */
  ghost predicate Fits(s: Snapshot, names: seq<Id>, t: Topo) {
    && s.Square() && Distinct(s.ids) && Distinct(names) && (forall x :: x in s.ids ==> x in names) && s.Shows(t)
  }

  lemma LocalStep(t: Topo, seen: set<Id>, ids: seq<Id>, entries: seq<Entry>, pos: nat)
    requires Distinct(ids) && pos < |ids| && LocalSoFar(t, seen, ids, entries)
    ensures LocalSoFar(t, seen + {ids[pos]}, ids, entries[pos := LocalEntry(t, ids, ids[pos])])
  {
  }

  /** Once every local id was seen, the rest is empty in t as well. */
  lemma LocalDone(t: Topo, b: Topo, from: Id, now: int, seen: set<Id>, ids: seq<Id>, entries: seq<Entry>)
    requires LocalSoFar(t, seen, ids, entries) && Tidy(t) && seen == FirstOf(t.ids, |t.ids|)
    ensures TakenSoFar(t, b, from, now, {}, ids, entries)
  {
    FirstOfHas(t.ids, |t.ids|);
    forall p: nat | p < |ids| && ids[p] !in seen ensures LocalEntry(t, ids, ids[p]) == EmptyEntry(|ids|) {
      assert RowView(t.link, ids[p], ids) == EmptyEntry(|ids|).row;
    }
  }

  lemma FirstOfFresh(ids: seq<Id>, i: nat)
    requires Distinct(ids) && i < |ids|
    ensures ids[i] !in FirstOf(ids, i) && FirstOf(ids, i + 1) == FirstOf(ids, i) + {ids[i]}
  {
    FirstOfHas(ids, i);
  }

  lemma TakeStep(t: Topo, b: Topo, from: Id, now: int, seen: set<Id>, ids: seq<Id>, entries: seq<Entry>, pos: nat)
    requires Distinct(ids) && pos < |ids| && TakenSoFar(t, b, from, now, seen, ids, entries)
    ensures TakenSoFar(t, b, from, now, seen + {ids[pos]}, ids,
                       entries[pos := TakenEntry(t, b, from, now, ids, ids[pos])])
    ensures ids[pos] !in seen && !Takes(t, b, from, now, ids[pos]) ==>
              TakenSoFar(t, b, from, now, seen + {ids[pos]}, ids, entries)
  {
  }

  // ---------------------------------------------------------------- the algorithm

  method SearchId(ids: seq<Id>, id: Id) returns (i: int)
    ensures i == IndexOf(ids, id)
  {
    for k := 0 to |ids|
      invariant id !in ids[..k]
    {
      if ids[k] == id {
        assert forall x :: 0 <= x < k ==> ids[x] == ids[..k][x];
        return k;
      }
    }
    return -1;
  }

  /** discoverIds: the ids of both tables, each once, sorted. */
  method DiscoverIds(a: seq<Id>, b: seq<Id>) returns (ids: seq<Id>)
    requires Distinct(a) && MeshIds(a) && MeshIds(b)
    ensures ids == UnionIds(a, b) && |ids| <= MAX_NODES
  {
    ids := a;
    for i := 0 to |b|
      invariant Distinct(ids) && MeshIds(ids)
      invariant forall x :: x in ids <==> x in a || x in b[..i]
    {
      assert b[..i + 1] == b[..i] + [b[i]] && b[i] in b;
      var alreadyExists := false;
      for x := 0 to |ids|
        invariant alreadyExists <==> b[i] in ids[..x]
      {
        if b[i] == ids[x] { alreadyExists := true; break; }
      }
      if !alreadyExists { ids := ids + [b[i]]; }
    }
    ids := SortIds(ids);
    AscendingUnique(ids, UnionIds(a, b));
    MeshIdsFit(ids);
  }

  /** copyLine: each value of the source row goes to the column of its id. */
  method CopyLine(ids: seq<Id>, row: seq<Byte>, srcIds: seq<Id>, srcRow: seq<Byte>) returns (r: seq<Byte>)
    requires |row| == |ids| && |srcRow| == |srcIds| && Distinct(ids) && Distinct(srcIds)
    requires forall x :: x in srcIds ==> x in ids
    ensures |r| == |ids|
    ensures forall q: nat, x: nat :: q < |ids| && x < |srcIds| && ids[q] == srcIds[x] ==> r[q] == srcRow[x]
    ensures forall q: nat :: q < |ids| && ids[q] !in srcIds ==> r[q] == row[q]
  {
    r := row;
    for x := 0 to |srcIds|
      invariant |r| == |ids|
      invariant forall q: nat, y: nat :: q < |ids| && y < x && ids[q] == srcIds[y] ==> r[q] == srcRow[y]
      invariant forall q: nat :: q < |ids| && ids[q] !in srcIds[..x] ==> r[q] == row[q]
    {
      var rowPos := SearchId(ids, srcIds[x]);
      if rowPos == -1 { break; }
      r := r[rowPos := srcRow[x]];
      assert srcIds[..x + 1] == srcIds[..x] + [srcIds[x]];
    }
  }

  /** copyLine into an empty row. */
  method FreshLine(ids: seq<Id>, srcIds: seq<Id>, cells: seq<seq<Byte>>, i: nat, ghost m: Table) returns (r: seq<Byte>)
    requires SquareCells(cells, |srcIds|) && i < |srcIds| && Distinct(ids) && Distinct(srcIds)
    requires forall x :: x in srcIds ==> x in ids
    requires Agrees(m, srcIds, cells)
    ensures r == RowView(m, srcIds[i], ids)
  {
    r := CopyLine(ids, seq(|ids|, _ => 0), srcIds, cells[i]);
    RowIsCells(m, srcIds, cells, i, ids, r);
  }

  /** Every local row goes to the position its id now has. */
  method CopyLocalRows(my: Snapshot, ids: seq<Id>, ghost t: Topo) returns (entries: seq<Entry>)
    requires Fits(my, ids, t)
    ensures LocalSoFar(t, FirstOf(my.ids, |my.ids|), ids, entries)
  {
    entries := seq(|ids|, _ => Entry(seq(|ids|, _ => 0), 0, 0));
    for i := 0 to |my.ids|
      invariant LocalSoFar(t, FirstOf(my.ids, i), ids, entries)
    {
      var linePos := SearchId(ids, my.ids[i]);
      var line := FreshLine(ids, my.ids, my.link, i, t.link);
      LocalStep(t, FirstOf(my.ids, i), ids, entries, linePos);
      assert LocalEntry(t, ids, my.ids[i]) == Entry(line, my.created[i], my.age[i]);
      entries := entries[linePos := Entry(line, my.created[i], my.age[i])];
    }
  }

  /** Whether the row of position i of the received table replaces the local one, and the local position of
      its node. */
  method Decide(my: Snapshot, rx: Snapshot, i: nat, from: Id, now: int, ghost t: Topo, ghost b: Topo)
    returns (take: bool, myPos: int)
    requires my.Square() && my.Shows(t) && rx.Square() && rx.Shows(b) && i < |rx.ids|
    ensures take == Takes(t, b, from, now, rx.ids[i])
    ensures myPos == IndexOf(my.ids, rx.ids[i])
  {
    var id := rx.ids[i];
    assert rx.age[i] == b.age[id];
    myPos := SearchId(my.ids, id);
    assert myPos >= 0 ==> my.created[myPos] == t.created[id];
    if id == my.me || rx.age[i] >= MAX_AGE {
      return false, myPos;
    }
    var isDirect := id == from;
    if !isDirect && myPos != -1 {
      var ageLocal := now - my.created[myPos];
      if ageLocal >= MAX_AGE {
        return false, myPos;
      }
    }
    var newCreationTime := now - rx.age[i];
    var myCreationTime := if myPos != -1 then my.created[myPos] else 0;
    take := myPos == -1 || myCreationTime < newCreationTime;
  }

  /** The merge loop: every received row is considered once. */
  method TakeRows(my: Snapshot, rx: Snapshot, ids: seq<Id>, local: seq<Entry>, from: Id, now: int,
                  ghost t: Topo, ghost b: Topo)
    returns (entries: seq<Entry>)
    requires Fits(my, ids, t) && Fits(rx, ids, b) && TakenSoFar(t, b, from, now, {}, ids, local)
    ensures TakenSoFar(t, b, from, now, FirstOf(rx.ids, |rx.ids|), ids, entries)
  {
    entries := local;
    for i := 0 to |rx.ids|
      invariant TakenSoFar(t, b, from, now, FirstOf(rx.ids, i), ids, entries)
    {
      var id := rx.ids[i];
      var take, myPos := Decide(my, rx, i, from, now, t, b);
      var finalPos := SearchId(ids, id);
      FirstOfFresh(rx.ids, i);
      TakeStep(t, b, from, now, FirstOf(rx.ids, i), ids, entries, finalPos);
      if take {
        var line := FreshLine(ids, rx.ids, rx.link, i, b.link);
        var newCreationTime := now - rx.age[i];
        var time := if id == from || myPos == -1 then newCreationTime else my.created[myPos];
        assert rx.age[i] == b.age[id] && (myPos >= 0 ==> my.created[myPos] == t.created[id]);
        entries := entries[finalPos := Entry(line, time, rx.age[i])];
      }
    }
  }

  /** Rows of a quality table under construction. */
  ghost predicate RowsSoFar(m: Table, seen: set<Id>, ids: seq<Id>, rows: seq<seq<Byte>>) {
    && |rows| == |ids|
    && forall p: nat {:trigger rows[p]} :: p < |ids| ==>
         rows[p] == if ids[p] in seen then RowView(m, ids[p], ids) else seq(|ids|, _ => 0)
  }

  /** Measurements move to the positions of their ids. */
  method CopyQuality(my: Snapshot, ids: seq<Id>, ghost t: Topo) returns (quality: seq<seq<Byte>>)
    requires Fits(my, ids, t)
    ensures SquareCells(quality, |ids|)
    ensures forall p: nat, q: nat :: p < |ids| && q < |ids| ==> quality[p][q] == Cell(t.quality, ids[p], ids[q])
  {
    quality := seq(|ids|, _ => seq(|ids|, _ => 0));
    for i := 0 to |my.ids|
      invariant RowsSoFar(t.quality, FirstOf(my.ids, i), ids, quality)
    {
      var finalPos := SearchId(ids, my.ids[i]);
      if finalPos >= 0 {
        var line := FreshLine(ids, my.ids, my.quality, i, t.quality);
        quality := quality[finalPos := line];
      }
    }
    FirstOfHas(my.ids, |my.ids|);
  }

  /** A heard link without a measurement gets the default. */
  method FillUnmeasured(links: seq<seq<Byte>>, quality: seq<seq<Byte>>, n: nat) returns (r: seq<seq<Byte>>)
    requires SquareCells(links, n) && SquareCells(quality, n)
    ensures SquareCells(r, n)
    ensures forall p: nat, q: nat :: p < n && q < n ==>
              r[p][q] == if p != q && links[p][q] == 1 && quality[p][q] == 0
                         then INITIAL_LINK_QUALITY else quality[p][q]
  {
    r := quality;
    for i := 0 to n
      invariant SquareCells(r, n)
      invariant forall p: nat, q: nat :: p < n && q < n ==>
        r[p][q] == if p < i && p != q && links[p][q] == 1 && quality[p][q] == 0 then INITIAL_LINK_QUALITY
                   else quality[p][q]
    {
      var row := r[i];
      for j := 0 to n
        invariant |row| == n
        invariant forall q: nat :: q < n ==>
          row[q] == if q < j && i != q && links[i][q] == 1 && quality[i][q] == 0 then INITIAL_LINK_QUALITY
                    else quality[i][q]
      {
        if i != j && links[i][j] == 1 && row[j] == 0 { row := row[j := INITIAL_LINK_QUALITY]; }
      }
      r := r[i := row];
    }
  }

  /** Changing the own quality table does not change whose row is taken. */
  lemma AdjustedTakes(t: Topo, b: Topo, from: Id, now: int, x: Id, y: Id)
    requires Tidy(t)
    ensures TakenLink(Adjusted(t, from, false), b, from, now, x, y) == TakenLink(t, b, from, now, x, y)
    ensures TakenCreated(Adjusted(t, from, false), b, from, now, x) == TakenCreated(t, b, from, now, x)
    ensures TakenAge(Adjusted(t, from, false), b, from, now, x) == TakenAge(t, b, from, now, x)
  {
  }

  ghost predicate LinksTaken(t: Topo, b: Topo, from: Id, now: int, ids: seq<Id>, links: seq<seq<Byte>>) {
    && SquareCells(links, |ids|)
    && forall p: nat, q: nat {:trigger links[p][q]} :: p < |ids| && q < |ids| ==>
         links[p][q] == TakenLink(t, b, from, now, ids[p], ids[q])
  }

  ghost predicate LinksMerged(t: Topo, b: Topo, from: Id, now: int, ids: seq<Id>, links: seq<seq<Byte>>) {
    && SquareCells(links, |ids|)
    && forall p: nat, q: nat {:trigger links[p][q]} :: p < |ids| && q < |ids| ==>
         links[p][q] == MergedLink(t, b, from, now, ids[p], ids[q])
  }

  ghost predicate CreatedTaken(t: Topo, b: Topo, from: Id, now: int, ids: seq<Id>, created: seq<int>) {
    && |created| == |ids|
    && forall p: nat {:trigger created[p]} :: p < |ids| ==> created[p] == TakenCreated(t, b, from, now, ids[p])
  }

  ghost predicate CreatedMerged(t: Topo, b: Topo, from: Id, now: int, ids: seq<Id>, created: seq<int>) {
    && |created| == |ids|
    && forall p: nat {:trigger created[p]} :: p < |ids| ==> created[p] == MergedCreated(t, b, from, now, ids[p])
  }

  ghost predicate AgeTaken(t: Topo, b: Topo, from: Id, now: int, ids: seq<Id>, age: seq<int>) {
    && |age| == |ids|
    && forall p: nat {:trigger age[p]} :: p < |ids| ==> age[p] == TakenAge(t, b, from, now, ids[p])
  }

  /** After the merge loop every position holds what the merged rows say about its id. */
  lemma TakenShows(t: Topo, b: Topo, from: Id, now: int, ids: seq<Id>, entries: seq<Entry>,
                   links: seq<seq<Byte>>, created: seq<int>, age: seq<int>)
    requires Tidy(t) && Tidy(b)
    requires TakenSoFar(Adjusted(t, from, false), b, from, now, FirstOf(b.ids, |b.ids|), ids, entries)
    requires |links| == |created| == |age| == |ids|
    requires forall p: nat :: p < |ids| ==> links[p] == entries[p].row
    requires forall p: nat :: p < |ids| ==> created[p] == entries[p].time && age[p] == entries[p].age
    ensures LinksTaken(t, b, from, now, ids, links)
    ensures CreatedTaken(t, b, from, now, ids, created) && AgeTaken(t, b, from, now, ids, age)
  {
    FirstOfHas(b.ids, |b.ids|);
    forall p: nat | p < |ids|
      ensures |links[p]| == |ids|
      ensures forall q: nat :: q < |ids| ==> links[p][q] == TakenLink(t, b, from, now, ids[p], ids[q])
      ensures created[p] == TakenCreated(t, b, from, now, ids[p])
      ensures age[p] == TakenAge(t, b, from, now, ids[p])
    {
      var x := ids[p];
      AdjustedTakes(t, b, from, now, x, x);
      assert entries[p] == if x in b.ids then TakenEntry(Adjusted(t, from, false), b, from, now, ids, x)
                           else LocalEntry(Adjusted(t, from, false), ids, x);
    }
  }

  /** The local rows, then the received ones that are fresher. */
  method CollectRows(my: Snapshot, rx: Snapshot, ids: seq<Id>, from: Id, now: int, ghost t: Topo, ghost b: Topo)
    returns (links: seq<seq<Byte>>, created: seq<int>, age: seq<int>)
    requires Tidy(t) && Tidy(b) && Fits(my, ids, Adjusted(t, from, false)) && Fits(rx, ids, b)
    ensures LinksTaken(t, b, from, now, ids, links)
    ensures CreatedTaken(t, b, from, now, ids, created) && AgeTaken(t, b, from, now, ids, age)
  {
    ghost var t' := Adjusted(t, from, false);
    var local := CopyLocalRows(my, ids, t');
    LocalDone(t', b, from, now, FirstOf(my.ids, |my.ids|), ids, local);
    var entries := TakeRows(my, rx, ids, local, from, now, t', b);
    links := seq(|ids|, p requires 0 <= p < |entries| => entries[p].row);
    created := seq(|ids|, p requires 0 <= p < |entries| => entries[p].time);
    age := seq(|ids|, p requires 0 <= p < |entries| => entries[p].age);
    TakenShows(t, b, from, now, ids, entries, links, created, age);
  }

  /** A packet from a listed sender proves the direct link and that I am alive. */
  method MarkDirect(links: seq<seq<Byte>>, created: seq<int>, ids: seq<Id>, me: Id, from: Id, now: int,
                    ghost t: Topo, ghost b: Topo)
    returns (links': seq<seq<Byte>>, created': seq<int>)
    requires Distinct(ids) && me == t.me && (from in ids <==> from in t.ids || from in b.ids) && me in ids
    requires LinksTaken(t, b, from, now, ids, links) && CreatedTaken(t, b, from, now, ids, created)
    ensures LinksMerged(t, b, from, now, ids, links') && CreatedMerged(t, b, from, now, ids, created')
  {
    links', created' := links, created;
    var myIpPos := SearchId(ids, me);
    var otherIpPos := SearchId(ids, from);
    if myIpPos >= 0 && otherIpPos >= 0 {
      var row: seq<Byte> := links[myIpPos][otherIpPos := 1];
      links' := links[myIpPos := row];
      created' := created[myIpPos := now];
    }
  }

  ghost predicate QualityFilled(t: Topo, b: Topo, from: Id, now: int, ids: seq<Id>, quality: seq<seq<Byte>>) {
    && Tidy(t) && SquareCells(quality, |ids|)
    && forall p: nat, q: nat {:trigger quality[p][q]} :: p < |ids| && q < |ids| ==>
         quality[p][q] == FilledQuality(t, b, from, now, ids[p], ids[q])
  }

  ghost predicate QualityMerged(t: Topo, b: Topo, from: Id, now: int, ids: seq<Id>, quality: seq<seq<Byte>>) {
    && Tidy(t) && SquareCells(quality, |ids|)
    && forall p: nat, q: nat {:trigger quality[p][q]} :: p < |ids| && q < |ids| ==>
         quality[p][q] == MergedQuality(t, b, from, now, ids[p], ids[q])
  }

  method CollectQuality(my: Snapshot, ids: seq<Id>, links: seq<seq<Byte>>, from: Id, ghost now: int,
                        ghost t: Topo, ghost b: Topo)
    returns (quality: seq<seq<Byte>>)
    requires Tidy(t) && Fits(my, ids, Adjusted(t, from, false)) && LinksMerged(t, b, from, now, ids, links)
    ensures QualityFilled(t, b, from, now, ids, quality)
  {
    quality := CopyQuality(my, ids, Adjusted(t, from, false));
    quality := FillUnmeasured(links, quality, |ids|);
  }

  /** The direct link to the sender gets at least the boosted quality. */
  method Boost(quality: seq<seq<Byte>>, ids: seq<Id>, me: Id, from: Id, ghost now: int, ghost t: Topo, ghost b: Topo)
    returns (r: seq<seq<Byte>>)
    requires Distinct(ids) && me == t.me && QualityFilled(t, b, from, now, ids, quality)
    ensures QualityMerged(t, b, from, now, ids, r)
  {
    r := quality;
    var myIpPos := SearchId(ids, me);
    var otherIpPos := SearchId(ids, from);
    if myIpPos >= 0 && otherIpPos >= 0 {
      if quality[myIpPos][otherIpPos] < BOOSTED_QUALITY {
        var row: seq<Byte> := quality[myIpPos][otherIpPos := BOOSTED_QUALITY];
        r := quality[myIpPos := row];
      }
    }
  }

  /** The whole merge, up to the copy back. The link quality of the sender was already adjusted in my. */
  method MergeTables(my: Snapshot, rx: Snapshot, from: Id, now: int, ghost t: Topo, ghost b: Topo)
    returns (final: Snapshot)
    requires Valid(t) && my.Square() && my.Shows(Adjusted(t, from, false))
    requires rx.Square() && rx.Shows(b) && ValidBeacon(b)
    ensures final.Square() && |final.ids| <= MAX_NODES && final.Shows(Merge(t, b, from, now))
  {
    var ids := DiscoverIds(my.ids, rx.ids);
    var links, created, age := CollectRows(my, rx, ids, from, now, t, b);
    links, created := MarkDirect(links, created, ids, my.me, from, now, t, b);
    var quality := CollectQuality(my, ids, links, from, now, t, b);
    quality := Boost(quality, ids, my.me, from, now, t, b);
    final := Snapshot(my.me, ids, links, quality, created, age);
    LinksAgree(t, b, from, now, links);
    QualityAgrees(t, b, from, now, quality);
    TimesAgree(t, b, from, now, created, age);
  }

  /** The finished tables are the id-keyed merge. */
  lemma LinksAgree(t: Topo, b: Topo, from: Id, now: int, links: seq<seq<Byte>>)
    requires Tidy(t) && LinksMerged(t, b, from, now, UnionIds(t.ids, b.ids), links)
    ensures Agrees(Merge(t, b, from, now).link, UnionIds(t.ids, b.ids), links)
  {
    var ids, m := UnionIds(t.ids, b.ids), Merge(t, b, from, now).link;
    forall i: nat, j: nat | i < |ids| && j < |ids| ensures m[(ids[i], ids[j])] == links[i][j] {
      assert (ids[i], ids[j]) in Pairs(ids);
    }
  }

  lemma QualityAgrees(t: Topo, b: Topo, from: Id, now: int, quality: seq<seq<Byte>>)
    requires QualityMerged(t, b, from, now, UnionIds(t.ids, b.ids), quality)
    ensures Agrees(Merge(t, b, from, now).quality, UnionIds(t.ids, b.ids), quality)
  {
    var ids, m := UnionIds(t.ids, b.ids), Merge(t, b, from, now).quality;
    forall i: nat, j: nat | i < |ids| && j < |ids| ensures m[(ids[i], ids[j])] == quality[i][j] {
      assert (ids[i], ids[j]) in Pairs(ids);
    }
  }

  lemma TimesAgree(t: Topo, b: Topo, from: Id, now: int, created: seq<int>, age: seq<int>)
    requires Tidy(t) && CreatedMerged(t, b, from, now, UnionIds(t.ids, b.ids), created)
    requires AgeTaken(t, b, from, now, UnionIds(t.ids, b.ids), age)
    ensures AgreesBy(Merge(t, b, from, now).created, UnionIds(t.ids, b.ids), created)
    ensures AgreesBy(Merge(t, b, from, now).age, UnionIds(t.ids, b.ids), age)
  {
  }
}

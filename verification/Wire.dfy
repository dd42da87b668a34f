/** The byte layout in which a node announces its connectivity matrix. */
module Wire {
  import opened Base

  const AGE_BYTES: nat := 8

  /** A matrix on its way: n nodes, their ids, n rows of links, and n + 1 ages, each in the 8 bytes of a double. */
  datatype Message = Message(ids: seq<Byte>, links: seq<seq<Byte>>, ages: seq<seq<Byte>>)
  {
    ghost predicate Valid() {
      && |ids| < 256 && Uniform(links, |ids|) && |links| == |ids|
      && Uniform(ages, AGE_BYTES) && |ages| == |ids| + 1
    }
  }

  ghost predicate Uniform(rows: seq<seq<Byte>>, width: nat) {
    forall x :: 0 <= x < |rows| ==> |rows[x]| == width
  }

  // ---------------------------------------------------------------- parameterPos and parameterSize

  const IDS_START: nat := 1

  function MatrixStart(n: nat): nat {
    (n + 2) % 256
  }

  /** Kept in one byte. */
  function AgeStart(n: nat): nat {
    (n * n + n + 3) % 256
  }

  function AgeSize(n: nat): nat {
    AGE_BYTES * (n + 1)
  }

  function PayloadLen(n: nat): nat {
    AgeStart(n) + AgeSize(n)
  }

  /** The two stretches of bytes have none in common. */
  predicate Apart(a: nat, aLen: nat, b: nat, bLen: nat) {
    a + aLen <= b || b + bLen <= a || aLen == 0 || bLen == 0
  }

  /** Count, ids, links and ages lie apart from each other and inside the payload. */
  predicate LayoutFits(n: nat) {
    && IDS_START + n <= PayloadLen(n) && MatrixStart(n) + n * n <= PayloadLen(n)
    && Apart(IDS_START, n, MatrixStart(n), n * n)
    && Apart(IDS_START, n, AgeStart(n), AgeSize(n))
    && Apart(MatrixStart(n), n * n, AgeStart(n), AgeSize(n))
    && MatrixStart(n) > 0 && AgeStart(n) > 0
  }

  /** The age offset fits its byte, and with it the whole layout, exactly up to 15 nodes. */
  lemma LayoutFitsUpTo15(n: nat)
    requires n <= MAX_NODES
    ensures LayoutFits(n) <==> n <= 15
    ensures AgeStart(n) == n * n + n + 3 <==> n <= 15
  {
    if n <= 15 {
      assert n * n <= 15 * n;
    } else {
      assert 16 * n <= n * n <= 20 * n;
      assert AgeStart(n) == n * n + n + 3 - 256;
      assert MatrixStart(n) <= AgeStart(n) < MatrixStart(n) + n * n;
    }
  }

  /** The copies of serializeMatrix stay inside the buffer it allocates. */
  predicate CopiesFit(n: nat) {
    && IDS_START + n <= PayloadLen(n) && MatrixStart(n) + n * n <= PayloadLen(n)
    && AgeStart(n) + AgeSize(n) <= PayloadLen(n)
  }

  /** They do exactly up to 15 nodes; with 16 to 20 the rows of the matrix leave it. */
  lemma CopiesFitUpTo15(n: nat)
    requires n <= MAX_NODES
    ensures CopiesFit(n) <==> n <= 15
    ensures n > 15 ==> MatrixStart(n) + n * n > PayloadLen(n)
  {
    LayoutFitsUpTo15(n);
    if n > 15 {
      assert 16 * n <= n * n <= 20 * n;
      assert AgeStart(n) == n * n + n + 3 - 256;
    }
  }

  /** What deserializeMatrix reads of a packet that announces n nodes. */
  function Extent(n: nat): nat {
    var matrix, ages := MatrixStart(n) + n * n, AgeStart(n) + AgeSize(n);
    if matrix >= ages then matrix else ages
  }

  /** From 16 nodes on the ages are read from among the links. */
  lemma AgesAmongLinks(n: nat)
    requires n < MAX_NODES
    ensures n <= 15 ==> Extent(n) == PayloadLen(n)
    ensures n > 15 ==> MatrixStart(n) <= AgeStart(n) && AgeStart(n) + AgeSize(n) <= MatrixStart(n) + n * n == Extent(n)
    ensures IDS_START + n <= Extent(n)
  {
    if n <= 15 {
      LayoutFitsUpTo15(n);
    } else {
      assert n in {16, 17, 18, 19};
    }
  }

  // ---------------------------------------------------------------- the payload as a string of fields

  function Flat(rows: seq<seq<Byte>>): seq<Byte> {
    if rows == [] then [] else Flat(rows[..|rows| - 1]) + rows[|rows| - 1]
  }

  lemma {:induction false} FlatLength(rows: seq<seq<Byte>>, width: nat)
    requires Uniform(rows, width)
    ensures |Flat(rows)| == width * |rows|
  {
    if rows != [] {
      FlatLength(rows[..|rows| - 1], width);
      var k := |rows| - 1;
      assert width * (k + 1) == width * k + width;
    }
  }

  /** Row x begins x widths into the string. */
  lemma {:induction false} RowInFlat(rows: seq<seq<Byte>>, width: nat, x: nat)
    requires Uniform(rows, width) && x < |rows|
    ensures 0 <= width * x && width * x + width <= |Flat(rows)|
    ensures Flat(rows)[width * x..width * x + width] == rows[x]
  {
    var init := rows[..|rows| - 1];
    FlatLength(init, width);
    if x == |rows| - 1 {
      assert |Flat(init)| == width * x;
    } else {
      RowInFlat(init, width, x);
      assert Flat(rows)[width * x..width * x + width] == Flat(init)[width * x..width * x + width];
    }
  }

  /** Count, ids, one byte unused, the rows of the matrix, one byte unused, the ages. */
  function Encode(m: Message): seq<Byte>
    requires |m.ids| < 256
  {
    [|m.ids|] + m.ids + [0] + Flat(m.links) + [0] + Flat(m.ages)
  }

  function RowsAt(bytes: seq<Byte>, start: nat, width: nat, count: nat): (rows: seq<seq<Byte>>)
    requires start + width * count <= |bytes|
    ensures |rows| == count
  {
    if count == 0 then []
    else
      assert width * (count - 1) + width == width * count;
      RowsAt(bytes, start, width, count - 1) +
        [bytes[start + width * (count - 1)..start + width * (count - 1) + width]]
  }

  lemma {:induction false} RowsAtIs(bytes: seq<Byte>, start: nat, width: nat, count: nat, x: nat)
    requires start + width * count <= |bytes| && x < count
    ensures 0 <= width * x && width * x + width <= width * count
    ensures RowsAt(bytes, start, width, count)[x] == bytes[start + width * x..start + width * x + width]
  {
    assert width * (count - 1) + width == width * count;
    if x < count - 1 {
      RowsAtIs(bytes, start, width, count - 1, x);
    }
  }

  /** A packet the receiver can read: it is as long as what it announces, and the tables hold one age more than it
      announces nodes. */
  predicate Readable(bytes: seq<Byte>) {
    bytes != [] && bytes[0] < MAX_NODES && |bytes| >= Extent(bytes[0])
  }

  /** Reading the fields back from their places. */
  function Decode(bytes: seq<Byte>): Message
    requires Readable(bytes)
  {
    var n: nat := bytes[0];
    AgesAmongLinks(n);
    Message(bytes[IDS_START..IDS_START + n], RowsAt(bytes, MatrixStart(n), n, n),
            RowsAt(bytes, AgeStart(n), AGE_BYTES, n + 1))
  }

  /** Where the fields of an encoded message begin. */
  lemma FieldsOf(m: Message)
    requires m.Valid() && |m.ids| <= 15
    ensures var n, bytes := |m.ids|, Encode(m);
            && |bytes| == PayloadLen(n) && bytes[0] == n && bytes[1..1 + n] == m.ids
            && MatrixStart(n) + n * n < AgeStart(n)
            && bytes[MatrixStart(n)..MatrixStart(n) + n * n] == Flat(m.links)
            && bytes[AgeStart(n)..] == Flat(m.ages)
  {
    var n := |m.ids|;
    LayoutFitsUpTo15(n);
    FlatLength(m.links, n);
    FlatLength(m.ages, AGE_BYTES);
    var head := [n] + m.ids + [0];
    assert Encode(m) == head + Flat(m.links) + [0] + Flat(m.ages);
    Fields(head, Flat(m.links), Flat(m.ages));
    assert head[1..1 + n] == m.ids;
    hide *;
    assert Encode(m)[1..1 + n] == Encode(m)[..|head|][1..1 + n];
  }

  lemma Fields(head: seq<Byte>, links: seq<Byte>, ages: seq<Byte>)
    ensures var all := head + links + [0] + ages;
            && |all| == |head| + |links| + 1 + |ages| && all[..|head|] == head
            && all[|head|..|head| + |links|] == links && all[|head| + |links| + 1..] == ages
  {
  }

  /** What is on the air, byte by byte, up to 15 nodes: the count at 0, id i at 1 + i, the link from i to j at
      n + 2 + i n + j, byte c of age k at n n + n + 3 + 8 k + c; the two bytes in between are 0. */
  lemma OnTheAir(m: Message, i: nat, j: nat, k: nat, c: nat)
    requires m.Valid() && i < |m.ids| <= 15 && j < |m.ids| && k <= |m.ids| && c < 8
    ensures var n, bytes := |m.ids|, Encode(m);
            && |bytes| == n * n + n + 3 + 8 * (n + 1) && bytes[0] == n && bytes[1 + i] == m.ids[i]
            && bytes[n + 1] == 0 && n * n + n + 2 < |bytes| && bytes[n * n + n + 2] == 0
            && 0 <= n + 2 + n * i + j < |bytes| && bytes[n + 2 + n * i + j] == m.links[i][j]
            && 0 <= n * n + n + 3 + 8 * k + c < |bytes| && bytes[n * n + n + 3 + 8 * k + c] == m.ages[k][c]
  {
    var n, bytes := |m.ids|, Encode(m);
    FlatLength(m.links, n);
    FlatLength(m.ages, AGE_BYTES);
    RowInFlat(m.links, n, i);
    RowInFlat(m.ages, AGE_BYTES, k);
    var head := [n] + m.ids + [0];
    assert bytes == head + Flat(m.links) + [0] + Flat(m.ages);
    InRow(Flat(m.links), n * i, n, j, m.links[i]);
    InRow(Flat(m.ages), AGE_BYTES * k, AGE_BYTES, c, m.ages[k]);
    Pieces(head, Flat(m.links), Flat(m.ages), n * i + j, AGE_BYTES * k + c);
  }

  lemma InRow(flat: seq<Byte>, start: nat, width: nat, c: nat, row: seq<Byte>)
    requires start + width <= |flat| && c < width && flat[start..start + width] == row
    ensures flat[start + c] == row[c]
  {
  }

  lemma Pieces(head: seq<Byte>, links: seq<Byte>, ages: seq<Byte>, x: nat, y: nat)
    requires x < |links| && y < |ages|
    ensures var all := head + links + [0] + ages;
            && all[..|head|] == head && all[|head| + x] == links[x] && all[|head| + |links|] == 0
            && all[|head| + |links| + 1 + y] == ages[y]
  {
  }

  lemma SliceOfSlice(bytes: seq<Byte>, start: nat, len: nat, from: nat, to: nat)
    requires from <= to <= len && start + len <= |bytes|
    ensures bytes[start + from..start + to] == bytes[start..start + len][from..to]
  {
    var whole, part := bytes[start..start + len][from..to], bytes[start + from..start + to];
    forall i | 0 <= i < to - from ensures whole[i] == part[i] {
    }
  }

  lemma RowsOfFlat(bytes: seq<Byte>, start: nat, width: nat, rows: seq<seq<Byte>>)
    requires Uniform(rows, width) && start + width * |rows| <= |bytes|
    requires bytes[start..start + width * |rows|] == Flat(rows)
    ensures RowsAt(bytes, start, width, |rows|) == rows
  {
    forall x | 0 <= x < |rows| ensures RowsAt(bytes, start, width, |rows|)[x] == rows[x] {
      RowsAtIs(bytes, start, width, |rows|, x);
      RowInFlat(rows, width, x);
      SliceOfSlice(bytes, start, width * |rows|, width * x, width * x + width);
    }
  }

  lemma {:induction false} RowsAtSame(a: seq<Byte>, b: seq<Byte>, start: nat, width: nat, count: nat)
    requires start + width * count <= |a| && start + width * count <= |b|
    requires a[start..start + width * count] == b[start..start + width * count]
    ensures RowsAt(a, start, width, count) == RowsAt(b, start, width, count)
  {
    forall x | 0 <= x < count ensures RowsAt(a, start, width, count)[x] == RowsAt(b, start, width, count)[x] {
      RowsAtIs(a, start, width, count, x);
      RowsAtIs(b, start, width, count, x);
      SliceOfSlice(a, start, width * count, width * x, width * x + width);
      SliceOfSlice(b, start, width * count, width * x, width * x + width);
    }
  }

  /** From 16 nodes on, packets that agree on ids and links are read as the same message, whatever ages they carry. */
  lemma AgesAreLost(a: seq<Byte>, b: seq<Byte>)
    requires Readable(a) && Readable(b) && a[0] == b[0] > 15
    requires a[..Extent(a[0])] == b[..Extent(b[0])]
    ensures Decode(a) == Decode(b)
  {
    var n: nat := a[0];
    AgesAmongLinks(n);
    SamePart(a, b, Extent(n), IDS_START, IDS_START + n);
    SamePart(a, b, Extent(n), MatrixStart(n), MatrixStart(n) + n * n);
    SamePart(a, b, Extent(n), AgeStart(n), AgeStart(n) + AgeSize(n));
    RowsAtSame(a, b, MatrixStart(n), n, n);
    RowsAtSame(a, b, AgeStart(n), AGE_BYTES, n + 1);
  }

  lemma SamePart(a: seq<Byte>, b: seq<Byte>, k: nat, from: nat, to: nat)
    requires k <= |a| && k <= |b| && a[..k] == b[..k] && from <= to <= k
    ensures a[from..to] == b[from..to]
  {
    assert a[from..to] == a[..k][from..to] && b[from..to] == b[..k][from..to];
  }

  /** Deserialising a serialised matrix restores it. */
  lemma RoundTrip(m: Message)
    requires m.Valid() && |m.ids| <= 15
    ensures |Encode(m)| == PayloadLen(|m.ids|) && Readable(Encode(m)) && Decode(Encode(m)) == m
  {
    var n, bytes := |m.ids|, Encode(m);
    AgesAmongLinks(n);
    FieldsOf(m);
    RowsOfFlat(bytes, MatrixStart(n), n, m.links);
    assert bytes[AgeStart(n)..AgeStart(n) + AGE_BYTES * |m.ages|] == bytes[AgeStart(n)..];
    RowsOfFlat(bytes, AgeStart(n), AGE_BYTES, m.ages);
  }

  // ---------------------------------------------------------------- memcpy by offsets

  method CopyIn(buffer: array<Byte>, at: nat, bytes: seq<Byte>)
    requires at + |bytes| <= buffer.Length
    modifies buffer
    ensures buffer[..] == old(buffer[..at]) + bytes + old(buffer[at + |bytes|..])
  {
    for i := 0 to |bytes|
      invariant forall k :: 0 <= k < i ==> buffer[at + k] == bytes[k]
      invariant forall k :: 0 <= k < at || at + i <= k < buffer.Length ==> buffer[k] == old(buffer[k])
    {
      buffer[at + i] := bytes[i];
    }
  }

  lemma NextRow(width: nat, x: nat, count: nat)
    requires x < count
    ensures width * (x + 1) == width * x + width <= width * count
  {
    var rest := count - (x + 1);
    assert width * (x + 1 + rest) == width * (x + 1) + width * rest;
    assert width * rest >= 0;
  }

  /** Copies rows one after the other. */
  method CopyRows(buffer: array<Byte>, start: nat, width: nat, rows: seq<seq<Byte>>)
    requires Uniform(rows, width) && start + width * |rows| <= buffer.Length
    modifies buffer
    ensures buffer[..] == old(buffer[..start]) + Flat(rows) + old(buffer[start + width * |rows|..])
  {
    ghost var before := buffer[..];
    var at := start;
    for x := 0 to |rows|
      invariant at == start + width * x == start + |Flat(rows[..x])| <= buffer.Length
      invariant buffer[..] == before[..start] + Flat(rows[..x]) + before[at..]
    {
      NextRow(width, x, |rows|);
      assert rows[..x + 1][..x] == rows[..x];
      CopyIn(buffer, at, rows[x]);
      at := at + width;
    }
    assert rows[..|rows|] == rows;
  }

  /** What copying the fields to their offsets leaves in a zeroed buffer. */
  lemma FieldsInPlace(n: Byte, ids: seq<Byte>, links: seq<Byte>, ages: seq<Byte>,
                      head: seq<Byte>, matrix: seq<Byte>, all: seq<Byte>)
    requires |ids| == n && |head| == |matrix| == n + 3 + |links| + |ages|
    requires head[..n + 1] == [n] + ids && forall i :: n + 1 <= i < |head| ==> head[i] == 0
    requires matrix == head[..n + 2] + links + head[n + 2 + |links|..]
    requires all == matrix[..n + 3 + |links|] + ages + matrix[n + 3 + |links| + |ages|..]
    ensures all == [n] + ids + [0] + links + [0] + ages
  {
    assert head[..n + 2] == [n] + ids + [0];
  }

  /** The packing half of serializeMatrix: a zeroed buffer of the computed length, each field copied to its offset. */
  method Serialize(m: Message) returns (payload: array<Byte>)
    requires m.Valid() && |m.ids| <= MAX_NODES && CopiesFit(|m.ids|)
    ensures fresh(payload) && payload[..] == Encode(m)
  {
    var n := |m.ids|;
    CopiesFitUpTo15(n);
    var matrixStart, ageStart := MatrixStart(n), AgeStart(n);
    ghost var links, ages := Flat(m.links), Flat(m.ages);
    assert |links| == n * n && |ages| == AgeSize(n) by {
      FlatLength(m.links, n);
      FlatLength(m.ages, AGE_BYTES);
    }
    assert matrixStart == n + 2 && ageStart == n + 3 + |links| by { LayoutFitsUpTo15(n); }
    payload := new Byte[PayloadLen(n)](_ => 0);
    WriteHead(payload, n, m.ids);
    ghost var head := payload[..];
    CopyRows(payload, matrixStart, n, m.links);
    ghost var matrix := payload[..];
    CopyRows(payload, ageStart, AGE_BYTES, m.ages);
    FieldsInPlace(n, m.ids, links, ages, head, matrix, payload[..]);
  }

  /** The count and the ids. */
  method WriteHead(payload: array<Byte>, n: Byte, ids: seq<Byte>)
    requires |ids| == n && payload.Length > n && forall i :: 0 <= i < payload.Length ==> payload[i] == 0
    modifies payload
    ensures payload[..n + 1] == [n] + ids && forall i :: n + 1 <= i < payload.Length ==> payload[..][i] == 0
  {
    payload[0] := n;
    CopyIn(payload, IDS_START, ids);
  }

  /** Reads rows one after the other. */
  method ReadRows(payload: array<Byte>, start: nat, width: nat, count: nat) returns (rows: seq<seq<Byte>>)
    requires start + width * count <= payload.Length
    ensures rows == RowsAt(payload[..], start, width, count)
  {
    rows := [];
    for x := 0 to count
      invariant start + width * x <= payload.Length && rows == RowsAt(payload[..], start, width, x)
    {
      NextRow(width, x, count);
      var at := start + width * x;
      rows := rows + [payload[..][at..at + width]];
    }
  }

  /** deserializeMatrix. */
  method Deserialize(payload: array<Byte>) returns (m: Message)
    requires Readable(payload[..])
    ensures m == Decode(payload[..])
  {
    var n := payload[0];
    AgesAmongLinks(n);
    var ids := payload[..][IDS_START..IDS_START + n];
    var links := ReadRows(payload, MatrixStart(n), n, n);
    var ages := ReadRows(payload, AgeStart(n), AGE_BYTES, n + 1);
    m := Message(ids, links, ages);
  }
}

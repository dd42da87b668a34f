/** Vocabulary shared by every part of the node: machine bytes, node ids, limits and square tables. */
module Base {

  /** `uint8_t`. */
  type Byte = x: int | 0 <= x < 256

  /** A node id as it travels on the air. Id 0 never names a node: it stands for "no next hop". */
  type Id = Byte

  /** Capacity of every per-node table. */
  const MAX_NODES: nat := 20

  /** Age, in microseconds, at which a node that was not heard is dropped. */
  const MAX_AGE: int := 2_000_000

  /** Quality given to a link that has no measurement yet (the default build mode). */
  const INITIAL_LINK_QUALITY: Byte := 100

  /** Least quality of a direct link whose beacon was just heard. */
  const BOOSTED_QUALITY: Byte := INITIAL_LINK_QUALITY + 10

  predicate Distinct<T(==)>(s: seq<T>) {
    forall i, j :: 0 <= i < j < |s| ==> s[i] != s[j]
  }

  /** First position of an id from position k on, or -1. */
  function IndexFrom(ids: seq<Id>, id: Id, k: nat): (i: int)
    requires k <= |ids|
    ensures i == -1 || k <= i < |ids|
    ensures i >= 0 ==> ids[i] == id
    ensures forall x :: k <= x < (if i == -1 then |ids| else i) ==> ids[x] != id
    decreases |ids| - k
  {
    if k == |ids| then -1 else if ids[k] == id then k else IndexFrom(ids, id, k + 1)
  }

  /** First position of an id, or -1. */
  function IndexOf(ids: seq<Id>, id: Id): (i: int)
    ensures -1 <= i < |ids|
    ensures i >= 0 ==> ids[i] == id
    ensures i == -1 <==> id !in ids
    ensures forall x :: 0 <= x < i ==> ids[x] != id
  {
    IndexFrom(ids, id, 0)
  }

  lemma IndexOfDistinct(ids: seq<Id>, k: nat)
    requires Distinct(ids) && k < |ids|
    ensures IndexOf(ids, ids[k]) == k
  {
  }

  // ---------------------------------------------------------------- counting

  /** The first n positions. */
  ghost function Below(n: nat): (s: set<nat>)
    ensures |s| == n && forall v: nat :: v in s <==> v < n
  {
    if n == 0 then {} else Below(n - 1) + {n - 1}
  }

  ghost function Elements<T(!new)>(s: seq<T>): (e: set<T>)
    ensures forall x :: x in e <==> x in s
  {
    set x | x in s
  }

  lemma {:induction false} ElementsCount<T(!new)>(s: seq<T>)
    requires Distinct(s)
    ensures |Elements(s)| == |s|
  {
    if s == [] {
      assert Elements(s) == {};
    } else {
      var t := s[..|s| - 1];
      ElementsCount(t);
      assert s == t + [s[|s| - 1]];
      assert Elements(s) == Elements(t) + {s[|s| - 1]};
    }
  }

  lemma SubsetCount<T>(x: set<T>, y: set<T>)
    requires x <= y
    ensures |x| <= |y|
  {
    assert y == x + (y - x);
  }

  /** n distinct positions below n leave none out. */
  lemma DistinctFills(s: seq<nat>, n: nat)
    requires |s| == n && Distinct(s) && forall v :: v in s ==> v < n
    ensures forall v: nat :: v < n ==> v in s
  {
    ElementsCount(s);
    forall v: nat | v < n ensures v in s {
      if v !in s {
        SubsetCount(Elements(s), Below(n) - {v});
      }
    }
  }

  /** The live n-by-n corner of a fixed-size table. */
  ghost function Corner(a: array2<Byte>, n: nat): (rows: seq<seq<Byte>>)
    requires n <= a.Length0 && n <= a.Length1
    reads a
    ensures |rows| == n
    ensures forall i :: 0 <= i < n ==> |rows[i]| == n
    ensures forall i, j :: 0 <= i < n && 0 <= j < n ==> rows[i][j] == a[i, j]
  {
    seq(n, i requires 0 <= i < n reads a => seq(n, j requires 0 <= j < n reads a => a[i, j]))
  }
}

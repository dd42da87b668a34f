/** A network by its links: who hears whom, and what a node has measured once it has heard everybody it hears. */
module Networks {
  import opened Base

  /** Nodes 1..n, and who hears whom. */
  datatype Network = Network(n: Byte, hears: set<(nat, nat)>)
  {
    ghost predicate Small() {
      n <= MAX_NODES
    }

    predicate Has(x: nat) {
      1 <= x <= n
    }

    function Link(x: nat, y: nat): Byte {
      if x != y && (x, y) in hears then 1 else 0
    }

    /** What node me has measured once it has heard everybody it hears. */
    function Quality(me: nat, x: nat, y: nat): Byte {
      if Link(x, y) == 0 then 0 else if x == me then BOOSTED_QUALITY else INITIAL_LINK_QUALITY
    }

    /** What node me reads after measuring its links as row says and hearing one more beacon, from node z. */
    function Measured(me: nat, row: seq<Byte>, z: nat, x: nat, y: nat): Byte {
      if Link(x, y) == 0 then 0
      else if x != me then INITIAL_LINK_QUALITY
      else if y == z then BOOSTED_QUALITY
      else if 1 <= y <= |row| then row[y - 1]
      else 0
    }

    function Ids(): (ids: seq<Id>)
      ensures |ids| == n
    {
      seq(n, i requires 0 <= i < n => i + 1)
    }
  }

  ghost predicate TwoWay(w: Network) {
    forall x: nat, y: nat :: w.Link(x, y) == w.Link(y, x)
  }

  lemma HasId(w: Network, x: Id)
    ensures x in w.Ids() <==> w.Has(x)
    ensures w.Has(x) ==> w.Ids()[x - 1] == x
  {
    if w.Has(x) {
      assert w.Ids()[x - 1] == x;
    }
  }
}

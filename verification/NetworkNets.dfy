/** The tables Prim reads at a node that knows its whole network. */
module NetworkNets {
  import opened Base
  import opened Networks
  import opened Prim

  ghost function LinkRow(w: Network, i: nat): (r: seq<Byte>)
    requires i < w.n
    ensures |r| == w.n
  {
    seq<Byte>(w.n, j requires 0 <= j < w.n => w.Link(i + 1, j + 1))
  }

  /** The links all nodes agree on. */
  ghost function LinksOf(w: Network): (link: seq<seq<Byte>>)
    ensures |link| == w.n && forall i :: 0 <= i < w.n ==> |link[i]| == w.n
    ensures forall i: nat, j: nat :: i < w.n && j < w.n ==> link[i][j] == w.Link(i + 1, j + 1)
  {
    seq<seq<Byte>>(w.n, i requires 0 <= i < w.n => LinkRow(w, i))
  }

  ghost function QualityRow(w: Network, me: Id, i: nat): (r: seq<Byte>)
    requires i < w.n
    ensures |r| == w.n
  {
    seq<Byte>(w.n, j requires 0 <= j < w.n => w.Quality(me, i + 1, j + 1))
  }

  /** Once the network has settled, with nothing measured but the boosts of direct beacons. */
  ghost function SettledNet(w: Network, me: Id): (net: Net)
    ensures net.Square() && |net.link| == w.n && net.link == LinksOf(w)
  {
    Net(LinksOf(w), seq<seq<Byte>>(w.n, i requires 0 <= i < w.n => QualityRow(w, me, i)))
  }

  ghost function MeasuredRow(w: Network, me: Id, row: seq<Byte>, z: Id, i: nat): (r: seq<Byte>)
    requires i < w.n
    ensures |r| == w.n
  {
    seq<Byte>(w.n, j requires 0 <= j < w.n => w.Measured(me, row, z, i + 1, j + 1))
  }

  /** After measuring my own links as row says, and one more beacon, from node z. */
  ghost function MeasuredNet(w: Network, me: Id, row: seq<Byte>, z: Id): (net: Net)
    ensures net.Square() && |net.link| == w.n && net.link == LinksOf(w)
  {
    Net(LinksOf(w), seq<seq<Byte>>(w.n, i requires 0 <= i < w.n => MeasuredRow(w, me, row, z, i)))
  }

  lemma MeasuredCell(w: Network, me: Id, row: seq<Byte>, z: Id, i: nat, j: nat)
    requires i < w.n && j < w.n
    ensures MeasuredNet(w, me, row, z).quality[i][j] == w.Measured(me, row, z, i + 1, j + 1)
    ensures MeasuredNet(w, me, row, z).link[i][j] == w.Link(i + 1, j + 1)
  {
  }

  lemma SameNet(a: Net, b: Net)
    requires a.Square() && b.Square() && |a.link| == |b.link|
    requires forall i: nat, j: nat :: i < |a.link| && j < |a.link| ==>
               a.link[i][j] == b.link[i][j] && a.quality[i][j] == b.quality[i][j]
    ensures a == b
  {
    forall i | 0 <= i < |a.link| ensures a.link[i] == b.link[i] && a.quality[i] == b.quality[i] {
    }
  }

  /** The settled tables are those of a node that has measured every link as boosted. */
  lemma SettledIsMeasured(w: Network, me: Id, row: seq<Byte>, z: Id)
    requires |row| == w.n && forall y :: 0 <= y < w.n ==> row[y] == BOOSTED_QUALITY
    ensures SettledNet(w, me) == MeasuredNet(w, me, row, z)
  {
    var a, b := SettledNet(w, me), MeasuredNet(w, me, row, z);
    forall i: nat, j: nat | i < w.n && j < w.n
      ensures a.link[i][j] == b.link[i][j] && a.quality[i][j] == b.quality[i][j]
    {
      MeasuredCell(w, me, row, z, i, j);
      assert a.quality[i][j] == w.Quality(me, i + 1, j + 1);
    }
    SameNet(a, b);
  }
}

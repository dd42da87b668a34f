/** Tables that all nodes of a mesh hold at the same time. */
module ReachedMeshes {
  import opened Base
  import opened Networks
  import opened NetworkNets
  import opened SettledTrees
  import opened Readings
  import opened MeasuredRows
  import opened MeshRuns
  import opened MeshSettles

  /** Every node holds the tree Prim builds from its settled tables. */
  ghost predicate AllRead(w: Network, m: Mesh) {
    |m| == w.n && forall v: nat, me: Id :: v < w.n && me == v + 1 ==> NetOfState(m[v].read) == SettledNet(w, me)
  }

  /** In a network of at most two hops some run of the mesh leads all nodes to their settled tables. */
  lemma SettledMesh(w: Network) returns (m: Mesh)
    requires w.Small() && TwoHops(w) && w.n > 0
    ensures MeshReached(w, m) && AllRead(w, m)
  {
    m := AllSettle(w);
    forall v: nat, me: Id | v < w.n && me == v + 1 ensures NetOfState(m[v].read) == SettledNet(w, me) {
      assert SettledPeer(w, m[v], me);
      SettledReadings(w, me, m[v].read);
    }
  }

  /** The triangle settles in one run of the mesh. */
  lemma TriangleMesh() returns (m: Mesh)
    ensures MeshReached(TRIANGLE, m) && AllRead(TRIANGLE, m)
  {
    TriangleLinks();
    m := SettledMesh(TRIANGLE);
  }

  lemma FiveHops()
    ensures TwoHops(FIVE)
  {
    FiveLinks();
    forall x: Id, y: Id | FIVE.Has(x) && FIVE.Has(y) && x != y ensures FIVE.Link(x, y) == 1 || Between(FIVE, x, y) {
      if FIVE.Link(x, y) != 1 {
        FiveBetween(x, y);
      }
    }
  }

  lemma FiveBetween(x: Id, y: Id)
    requires FIVE.Has(x) && FIVE.Has(y) && x != y && !AddUp(x, y)
    ensures Between(FIVE, x, y)
  {
    FiveLinks();
    var z: Id := if x + y == 3 then 5 else if x + y == 9 then 2 else if x == 1 || y == 1 then 3 else 4;
    assert FIVE.Link(x, z) == 1 && FIVE.Link(z, y) == 1;
  }

  /** So do the five nodes: the measurements for which a packet between them never arrives belong to one mesh, at one
      time. */
  lemma FiveMesh() returns (m: Mesh)
    ensures MeshReached(FIVE, m) && AllRead(FIVE, m)
  {
    FiveHops();
    FiveLinks();
    m := SettledMesh(FIVE);
  }
}

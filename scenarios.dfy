/** Worked events: a plane filled hit by hit and clustered once, and the
    outcome of the clustering pass on small hand-made hit sets. */
module Scenarios {
  import opened Hits
  import opened Clusters
  import opened Clustering
  import Planes

  /** One event on one plane: the hits are added in order, then the plane is
      clustered once. The outcome depends only on the hit list, so clearing
      the plane and re-adding the same hits gives the same clusters. */
  method ClusterEvent(hs: seq<Hit>) returns (p: Planes.Plane)
    ensures fresh(p) && p.Valid()
    ensures p.hits == hs && p.clusters == ClusterPass(hs, |hs|)
    ensures |p.clusters| == |LocalMaxima(hs, |hs|)|
    ensures hs != [] ==> p.Channel() == hs[|hs| - 1].channel && p.ROC() == hs[|hs| - 1].roc
  {
    p := new Planes.Plane();
    for i := 0 to |hs|
      invariant p.Valid() && p.hits == hs[..i] && p.clusters == []
    {
      p.AddHit(hs[i]);
      assert hs[..i + 1] == hs[..i] + [hs[i]];
    }
    assert hs[..|hs|] == hs;
    p.Clusterize();
    ClusterCountIsLocalMaxima(hs);
  }

  /** A single hit on an otherwise empty plane gives one one-member cluster
      carrying that hit's charge. */
  lemma SingleHit()
    ensures var hits := [Hit(20, 25, 1000, 5, 1)];
            && ClusterPass(hits, 1) == [Cluster([0])]
            && Cluster([0]).Charge(hits) == 1000
  {
    var hits := [Hit(20, 25, 1000, 5, 1)];
    assert IsLocalMax(hits, hits[0]);
    assert DiagonalIndices(hits, hits[0], 1) == [];
    assert SeedCluster(hits, 0) == Cluster([0]);
    assert ClusterPass(hits, 1) == ClusterPass(hits, 0) + [SeedCluster(hits, 0)];
  }

  /** Two hits out of each other's window give two one-member clusters. */
  lemma TwoIsolatedHits()
    ensures var hits := [Hit(20, 25, 300, 5, 1), Hit(30, 10, 700, 5, 1)];
            ClusterPass(hits, 2) == [Cluster([0]), Cluster([1])]
  {
    var hits := [Hit(20, 25, 300, 5, 1), Hit(30, 10, 700, 5, 1)];
    assert IsLocalMax(hits, hits[0]) && IsLocalMax(hits, hits[1]);
    assert DiagonalIndices(hits, hits[0], 2) == [];
    assert DiagonalIndices(hits, hits[1], 2) == [];
    assert SeedCluster(hits, 0) == Cluster([0]);
    assert SeedCluster(hits, 1) == Cluster([1]);
    assert ClusterPass(hits, 1) == [SeedCluster(hits, 0)];
    assert ClusterPass(hits, 2) == ClusterPass(hits, 1) + [SeedCluster(hits, 1)];
  }

  /** Two charge-10 hits with a charge-1 hit diagonally between them. */
  function Chain(): seq<Hit>
  {
    [Hit(0, 0, 10, 5, 1), Hit(1, 1, 1, 5, 1), Hit(2, 2, 10, 5, 1)]
  }

  /** The outer hits are seeds; the middle one loses to both. */
  lemma ChainSeeds()
    ensures IsLocalMax(Chain(), Chain()[0]) && IsLocalMax(Chain(), Chain()[2])
    ensures !IsLocalMax(Chain(), Chain()[1])
  {
    var hits := Chain();
    assert Outranks(hits[0], hits[1]);
  }

  /** Two seeds sharing a diagonal neighbour both take it: the hit at index 1
      belongs to both clusters, and it is no seed itself. */
  lemma SharedNeighbour()
    ensures ClusterPass(Chain(), 3) == [Cluster([0, 1]), Cluster([2, 1])]
  {
    var hits := Chain();
    ChainSeeds();
    assert DiagonalIndices(hits, hits[0], 3) == [1];
    assert DiagonalIndices(hits, hits[2], 3) == [1];
    assert SeedCluster(hits, 0) == Cluster([0, 1]);
    assert SeedCluster(hits, 2) == Cluster([2, 1]);
    assert ClusterPass(hits, 1) == [SeedCluster(hits, 0)];
    assert ClusterPass(hits, 2) == ClusterPass(hits, 1);
    assert ClusterPass(hits, 3) == ClusterPass(hits, 2) + [SeedCluster(hits, 2)];
  }

  /** Growth takes every hit on a diagonal cell, not one per cell: two hits
      stacked on the same corner both join the seed's cluster. */
  lemma StackedDiagonalHits()
    ensures var hits := [Hit(0, 0, 10, 1, 0), Hit(1, 1, 5, 1, 0), Hit(1, 1, 5, 1, 0)];
            SeedCluster(hits, 0) == Cluster([0, 1, 2])
  {
    var hits := [Hit(0, 0, 10, 1, 0), Hit(1, 1, 5, 1, 0), Hit(1, 1, 5, 1, 0)];
    assert DiagonalIndices(hits, hits[0], 1) == [];
    assert DiagonalIndices(hits, hits[0], 2) == [1];
    assert DiagonalIndices(hits, hits[0], 3) == [1, 2];
  }

  /** An orthogonal neighbour of a seed is not grown into its cluster, even
      though it keeps the neighbour from being a seed. */
  lemma OrthogonalNeighbourLeftOut()
    ensures var hits := [Hit(20, 25, 500, 5, 1), Hit(20, 26, 100, 5, 1)];
            ClusterPass(hits, 2) == [Cluster([0])]
  {
    var hits := [Hit(20, 25, 500, 5, 1), Hit(20, 26, 100, 5, 1)];
    assert IsLocalMax(hits, hits[0]);
    assert Outranks(hits[0], hits[1]);
    assert !IsLocalMax(hits, hits[1]);
    assert DiagonalIndices(hits, hits[0], 2) == [];
    assert SeedCluster(hits, 0) == Cluster([0]);
    assert ClusterPass(hits, 1) == [SeedCluster(hits, 0)];
    assert ClusterPass(hits, 2) == ClusterPass(hits, 1);
  }

  /** Equal neighbours do not disqualify each other: both are seeds. */
  lemma TiedNeighboursBothSeed()
    ensures var hits := [Hit(20, 25, 100, 5, 1), Hit(21, 26, 100, 5, 1)];
            ClusterPass(hits, 2) == [Cluster([0, 1]), Cluster([1, 0])]
  {
    var hits := [Hit(20, 25, 100, 5, 1), Hit(21, 26, 100, 5, 1)];
    assert IsLocalMax(hits, hits[0]) && IsLocalMax(hits, hits[1]);
    assert DiagonalIndices(hits, hits[0], 2) == [1];
    assert DiagonalIndices(hits, hits[1], 2) == [0];
    assert SeedCluster(hits, 0) == Cluster([0, 1]);
    assert SeedCluster(hits, 1) == Cluster([1, 0]);
    assert ClusterPass(hits, 1) == [SeedCluster(hits, 0)];
    assert ClusterPass(hits, 2) == ClusterPass(hits, 1) + [SeedCluster(hits, 1)];
  }

  /** A 3x3 block, centre 500 and 100 elsewhere, listed row by row. */
  function Block(): seq<Hit>
  {
    [ Hit(19, 24, 100, 5, 1), Hit(19, 25, 100, 5, 1), Hit(19, 26, 100, 5, 1),
      Hit(20, 24, 100, 5, 1), Hit(20, 25, 500, 5, 1), Hit(20, 26, 100, 5, 1),
      Hit(21, 24, 100, 5, 1), Hit(21, 25, 100, 5, 1), Hit(21, 26, 100, 5, 1) ]
  }

  /** Every other cell of the block is in the centre's window with less
      charge, so the centre is the only seed. */
  lemma {:induction false} BlockSeeds()
    ensures forall j :: 0 <= j < 9 ==> (IsLocalMax(Block(), Block()[j]) <==> j == 4)
  {
    var hits := Block();
    forall j | 0 <= j < 9 && j != 4
      ensures !IsLocalMax(hits, hits[j])
    {
      assert Outranks(hits[4], hits[j]);
    }
    MaxChargeIsLocalMax(hits, hits[4]);
  }

  /** The centre's cluster is the centre and the four corners, 900 in all. */
  lemma BlockCluster()
    ensures SeedCluster(Block(), 4) == Cluster([4, 0, 2, 6, 8])
    ensures Cluster([4, 0, 2, 6, 8]).Charge(Block()) == 900
  {
    var hits := Block();
    assert DiagonalIndices(hits, hits[4], 9) == [0, 2, 6, 8];
    var c := Cluster([4, 0, 2, 6, 8]);
    var m := c.MemberHits(hits);
    assert m == [hits[4], hits[0], hits[2], hits[6], hits[8]];
    var m1, m2, m3, m4 := m[..1], m[..2], m[..3], m[..4];
    assert m1[..0] == [] && m2[..1] == m1 && m3[..2] == m2 && m4[..3] == m3 && m[..4] == m4;
    assert SumCharges(m1) == 500;
    assert SumCharges(m2) == 600;
    assert SumCharges(m3) == 700;
    assert SumCharges(m4) == 800;
  }

  /** The whole block gives exactly one cluster. */
  lemma CentredBlock()
    ensures ClusterPass(Block(), 9) == [Cluster([4, 0, 2, 6, 8])]
  {
    var hits := Block();
    BlockSeeds();
    BlockCluster();
    var c := [SeedCluster(hits, 4)];
    assert !IsLocalMax(hits, hits[0]) && ClusterPass(hits, 1) == [];
    assert !IsLocalMax(hits, hits[1]) && ClusterPass(hits, 2) == [];
    assert !IsLocalMax(hits, hits[2]) && ClusterPass(hits, 3) == [];
    assert !IsLocalMax(hits, hits[3]) && ClusterPass(hits, 4) == [];
    assert IsLocalMax(hits, hits[4]) && ClusterPass(hits, 5) == c;
    assert !IsLocalMax(hits, hits[5]) && ClusterPass(hits, 6) == c;
    assert !IsLocalMax(hits, hits[6]) && ClusterPass(hits, 7) == c;
    assert !IsLocalMax(hits, hits[7]) && ClusterPass(hits, 8) == c;
    assert !IsLocalMax(hits, hits[8]) && ClusterPass(hits, 9) == c;
  }
}

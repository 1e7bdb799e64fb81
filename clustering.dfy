/** The reference definitions of the per-plane clustering: the two adjacency
    rules, the local-maximum seed test, cluster growth from a seed and the one
    pass that seeds a cluster at every local maximum, with their properties. */
module Clustering {
  import opened Hits
  import opened Clusters

  function Abs(x: int): nat
  {
    if x < 0 then -x else x
  }

  /** Seed-selection adjacency (the 3x3 window): the hit `a` lies one row away
      and at most one column away from `h`, or one column away and at most one
      row away. Written as the two clauses of the source. */
  predicate InSeedWindow(a: Hit, h: Hit)
  {
    (Abs(a.row - h.row) == 1 && Abs(a.column - h.column) <= 1) ||
    (Abs(a.column - h.column) == 1 && Abs(a.row - h.row) <= 1)
  }

  /** Cluster-growth adjacency: one of the four diagonal neighbours only. */
  predicate IsDiagonal(a: Hit, h: Hit)
  {
    Abs(a.row - h.row) == 1 && Abs(a.column - h.column) == 1
  }

  /** Chessboard distance between two grid positions, the independent
      description of the 3x3 window. */
  function Chebyshev(a: Hit, h: Hit): nat
  {
    var dr, dc := Abs(a.row - h.row), Abs(a.column - h.column);
    if dr < dc then dc else dr
  }

  /** The window is exactly the 8 cells at chessboard distance 1; a hit at the
      same row and column (the seed itself, or a duplicate) is never in it. */
  lemma InSeedWindowIsDistanceOne(a: Hit, h: Hit)
    ensures InSeedWindow(a, h) <==> Chebyshev(a, h) == 1
    ensures a.row == h.row && a.column == h.column ==> !InSeedWindow(a, h)
  {
  }

  /** The growth rule is a strict part of the window: it admits no orthogonal
      neighbour. */
  lemma DiagonalInSeedWindow(a: Hit, h: Hit)
    ensures IsDiagonal(a, h) ==> InSeedWindow(a, h)
    ensures IsDiagonal(a, h) ==> a.row != h.row && a.column != h.column
    ensures InSeedWindow(a, h) && (a.row == h.row || a.column == h.column) ==> !IsDiagonal(a, h)
  {
  }

  /** `a` disqualifies `h` as a seed: it is in `h`'s window with strictly more charge. */
  predicate Outranks(a: Hit, h: Hit)
  {
    InSeedWindow(a, h) && a.charge > h.charge
  }

  /** No hit of the plane disqualifies `h`; ties do not disqualify. */
  predicate IsLocalMax(hits: seq<Hit>, h: Hit)
  {
    forall j {:trigger Outranks(hits[j], h)} :: 0 <= j < |hits| ==> !Outranks(hits[j], h)
  }

  /** The local-maximum test, stated with the chessboard distance. */
  lemma IsLocalMaxByDistance(hits: seq<Hit>, h: Hit)
    ensures IsLocalMax(hits, h) <==>
              forall j :: 0 <= j < |hits| && Chebyshev(hits[j], h) == 1 ==> hits[j].charge <= h.charge
  {
    forall j | 0 <= j < |hits|
      ensures Outranks(hits[j], h) <==> Chebyshev(hits[j], h) == 1 && hits[j].charge > h.charge
    {
      InSeedWindowIsDistanceOne(hits[j], h);
    }
  }

  /** A hit at the seed's own row and column never changes the outcome of the
      test, whatever its charge. */
  lemma SamePositionNeverCompared(hits: seq<Hit>, h: Hit, a: Hit)
    requires a.row == h.row && a.column == h.column
    ensures IsLocalMax(hits + [a], h) == IsLocalMax(hits, h)
  {
    InSeedWindowIsDistanceOne(a, h);
    assert forall j :: 0 <= j < |hits| ==> (hits + [a])[j] == hits[j];
    assert (hits + [a])[|hits|] == a;
  }

  /** A hit of maximal charge on the plane is a local maximum. */
  lemma MaxChargeIsLocalMax(hits: seq<Hit>, h: Hit)
    requires forall j :: 0 <= j < |hits| ==> hits[j].charge <= h.charge
    ensures IsLocalMax(hits, h)
  {
  }

  predicate Ascending(s: seq<nat>)
  {
    forall a, b :: 0 <= a < b < |s| ==> s[a] < s[b]
  }

  /** Indices, below `n` and ascending, of the hits diagonal to `seed`. */
  function DiagonalIndices(hits: seq<Hit>, seed: Hit, n: nat): (r: seq<nat>)
    requires n <= |hits|
    ensures forall k :: 0 <= k < |r| ==> r[k] < n
  {
    if n == 0 then []
    else DiagonalIndices(hits, seed, n - 1) + (if IsDiagonal(hits[n - 1], seed) then [n - 1] else [])
  }

  /** Exactly the diagonal neighbours are collected, each once, in hit-list order. */
  lemma {:induction false} DiagonalIndicesSpec(hits: seq<Hit>, seed: Hit, n: nat)
    requires n <= |hits|
    ensures forall j :: j in DiagonalIndices(hits, seed, n) <==> 0 <= j < n && IsDiagonal(hits[j], seed)
    ensures Ascending(DiagonalIndices(hits, seed, n))
  {
    if n > 0 {
      DiagonalIndicesSpec(hits, seed, n - 1);
    }
  }

  /** The cluster grown from the hit at index `s`: the seed, then its diagonal
      neighbours in hit-list order. */
  function SeedCluster(hits: seq<Hit>, s: nat): (c: Cluster)
    requires s < |hits|
    ensures c.NHits() >= 1 && c.RefersInto(hits)
  {
    Cluster([s] + DiagonalIndices(hits, hits[s], |hits|))
  }

  /** What a grown cluster holds: the seed first, then every diagonal neighbour
      of the seed and nothing else, ascending; no orthogonal neighbour. */
  lemma SeedClusterMembers(hits: seq<Hit>, s: nat)
    requires s < |hits|
    ensures SeedCluster(hits, s).members[0] == s
    ensures forall j :: j in SeedCluster(hits, s).members[1..] <==> 0 <= j < |hits| && IsDiagonal(hits[j], hits[s])
    ensures Ascending(SeedCluster(hits, s).members[1..])
    ensures forall k :: 1 <= k < SeedCluster(hits, s).NHits() ==>
              var m := hits[SeedCluster(hits, s).members[k]];
              m.row != hits[s].row && m.column != hits[s].column
  {
    var c := SeedCluster(hits, s);
    DiagonalIndicesSpec(hits, hits[s], |hits|);
    assert c.members[1..] == DiagonalIndices(hits, hits[s], |hits|);
    forall k | 1 <= k < c.NHits()
      ensures hits[c.members[k]].row != hits[s].row && hits[c.members[k]].column != hits[s].column
    {
      assert c.members[k] in c.members[1..];
      DiagonalInSeedWindow(hits[c.members[k]], hits[s]);
    }
  }

  /** Indices, below `n` and ascending, of the local maxima: the seeds. */
  function Seeds(hits: seq<Hit>, n: nat): (r: seq<nat>)
    requires n <= |hits|
    ensures forall k :: 0 <= k < |r| ==> r[k] < n
  {
    if n == 0 then []
    else Seeds(hits, n - 1) + (if IsLocalMax(hits, hits[n - 1]) then [n - 1] else [])
  }

  /** The clusters that one pass over the first `n` hits appends, in order. */
  function ClusterPass(hits: seq<Hit>, n: nat): seq<Cluster>
    requires n <= |hits|
  {
    if n == 0 then []
    else ClusterPass(hits, n - 1) + (if IsLocalMax(hits, hits[n - 1]) then [SeedCluster(hits, n - 1)] else [])
  }

  /** The seeds are exactly the local maxima, ascending. */
  lemma {:induction false} SeedsSpec(hits: seq<Hit>, n: nat)
    requires n <= |hits|
    ensures forall i :: i in Seeds(hits, n) <==> 0 <= i < n && IsLocalMax(hits, hits[i])
    ensures Ascending(Seeds(hits, n))
  {
    if n > 0 {
      SeedsSpec(hits, n - 1);
      var prev := Seeds(hits, n - 1);
      var last := if IsLocalMax(hits, hits[n - 1]) then [n - 1] else [];
      assert Seeds(hits, n) == prev + last;
      forall i
        ensures i in prev + last <==> 0 <= i < n && IsLocalMax(hits, hits[i])
      {
        assert i in prev + last <==> i in prev || i in last;
      }
      AscendingAppend(prev, last, n - 1);
    }
  }

  /** Appending indices no smaller than a bound to an ascending list below
      that bound keeps it ascending. */
  lemma AscendingAppend(prev: seq<nat>, last: seq<nat>, bound: nat)
    requires Ascending(prev) && Ascending(last)
    requires forall k :: 0 <= k < |prev| ==> prev[k] < bound
    requires forall k :: 0 <= k < |last| ==> bound <= last[k]
    ensures Ascending(prev + last)
  {
  }

  /** The local maxima among the first `n` hits. */
  function LocalMaxima(hits: seq<Hit>, n: nat): set<nat>
    requires n <= |hits|
  {
    set i: nat | i < n && IsLocalMax(hits, hits[i])
  }

  /** There are as many seeds as local maxima. */
  lemma {:induction false} SeedsCount(hits: seq<Hit>, n: nat)
    requires n <= |hits|
    ensures |Seeds(hits, n)| == |LocalMaxima(hits, n)|
  {
    if n == 0 {
      assert LocalMaxima(hits, n) == {};
    } else {
      SeedsCount(hits, n - 1);
      var before, now := LocalMaxima(hits, n - 1), LocalMaxima(hits, n);
      if IsLocalMax(hits, hits[n - 1]) {
        assert now == before + {n - 1};
      } else {
        assert now == before;
      }
    }
  }

  /** The pass appends one cluster per seed, the k-th grown from the k-th seed. */
  lemma {:induction false} ClusterPassSpec(hits: seq<Hit>, n: nat)
    requires n <= |hits|
    ensures |ClusterPass(hits, n)| == |Seeds(hits, n)|
    ensures forall k :: 0 <= k < |ClusterPass(hits, n)| ==>
              ClusterPass(hits, n)[k] == SeedCluster(hits, Seeds(hits, n)[k])
  {
    if n > 0 {
      ClusterPassSpec(hits, n - 1);
    }
  }

  /** The number of clusters a full pass produces is the number of local maxima. */
  lemma ClusterCountIsLocalMaxima(hits: seq<Hit>)
    ensures |ClusterPass(hits, |hits|)| == |LocalMaxima(hits, |hits|)|
  {
    ClusterPassSpec(hits, |hits|);
    SeedsCount(hits, |hits|);
  }

  /** Index of a hit of maximal charge among the first `n`. */
  function ArgMaxCharge(hits: seq<Hit>, n: nat): (i: nat)
    requires 0 < n <= |hits|
    ensures i < n && forall j :: 0 <= j < n ==> hits[j].charge <= hits[i].charge
  {
    if n == 1 then 0
    else
      var i := ArgMaxCharge(hits, n - 1);
      if hits[n - 1].charge > hits[i].charge then n - 1 else i
  }

  /** A pass over a plane with at least one hit produces at least one cluster. */
  lemma NonEmptyPlaneHasCluster(hits: seq<Hit>)
    requires |hits| > 0
    ensures |ClusterPass(hits, |hits|)| >= 1
  {
    var m := ArgMaxCharge(hits, |hits|);
    MaxChargeIsLocalMax(hits, hits[m]);
    SeedsSpec(hits, |hits|);
    ClusterPassSpec(hits, |hits|);
    assert m in Seeds(hits, |hits|);
  }

  /** Membership is not exclusive: a hit diagonal to two seeds is a member of
      both of their clusters. */
  lemma SharedMember(hits: seq<Hit>, s1: nat, s2: nat, j: nat)
    requires s1 < |hits| && s2 < |hits| && j < |hits|
    requires IsDiagonal(hits[j], hits[s1]) && IsDiagonal(hits[j], hits[s2])
    ensures j in SeedCluster(hits, s1).members && j in SeedCluster(hits, s2).members
  {
    SeedClusterMembers(hits, s1);
    SeedClusterMembers(hits, s2);
    assert j in SeedCluster(hits, s1).members[1..];
    assert j in SeedCluster(hits, s2).members[1..];
  }

  /** A hit with no other hit in its window is a seed and its cluster has it
      as the only member. */
  lemma IsolatedHitIsSingleton(hits: seq<Hit>, i: nat)
    requires i < |hits|
    requires forall j :: 0 <= j < |hits| ==> !InSeedWindow(hits[j], hits[i])
    ensures IsLocalMax(hits, hits[i])
    ensures SeedCluster(hits, i).members == [i]
  {
    DiagonalIndicesSpec(hits, hits[i], |hits|);
    var d := DiagonalIndices(hits, hits[i], |hits|);
    if d != [] {
      assert d[0] in d;
      DiagonalInSeedWindow(hits[d[0]], hits[i]);
      assert false;
    }
  }
}

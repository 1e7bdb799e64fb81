/** The clustering engine of one sensor plane in one event (PLTPlane). */
module Planes {
  import Hits
  import Clusters
  import opened Clustering

  class Plane {
    /** The hits added so far, in the order they were added. */
    var hits: seq<Hits.Hit>
    /** The clusters built so far, each a list of indices into `hits`. */
    var clusters: seq<Clusters.Cluster>
    /** Readout identity, overwritten by every added hit. */
    var channel: int
    var roc: int

    /** Once a hit has been added, the identity is that of the last hit; every
        cluster has a seed and refers only to hits of this plane. */
    ghost predicate Valid()
      reads this
    {
      && (hits != [] ==> channel == hits[|hits| - 1].channel && roc == hits[|hits| - 1].roc)
      && forall c :: c in clusters ==> c.NHits() >= 1 && c.RefersInto(hits)
    }

    /** A new plane has no hits and no clusters; its channel and ROC are left
        unset and may hold any value. */
    constructor ()
      ensures Valid() && hits == [] && clusters == []
    {
      hits := [];
      clusters := [];
    }

    /** Appends a hit and takes over its channel and ROC. */
    method AddHit(h: Hits.Hit)
      requires Valid()
      modifies this`hits, this`channel, this`roc
      ensures Valid()
      ensures hits == old(hits) + [h]
      ensures channel == h.channel && roc == h.roc
    {
      hits := hits + [h];
      channel := h.channel;
      roc := h.roc;
      forall c | c in clusters
        ensures c.RefersInto(hits)
      {
        assert old(c.RefersInto(hits));
      }
    }

    /** Total charge of every hit on the plane, clustered or not. */
    method Charge() returns (sum: int)
      ensures sum == Hits.SumCharges(hits)
    {
      sum := 0;
      for i := 0 to |hits|
        invariant sum == Hits.SumCharges(hits[..i])
      {
        assert hits[..i + 1][..i] == hits[..i];
        sum := sum + hits[i].charge;
      }
      assert hits[..|hits|] == hits;
    }

    /** Channel of the last added hit. */
    function Channel(): (c: int)
      reads this
      requires Valid()
      ensures hits != [] ==> c == hits[|hits| - 1].channel
    {
      channel
    }

    /** ROC of the last added hit. */
    function ROC(): (r: int)
      reads this
      requires Valid()
      ensures hits != [] ==> r == hits[|hits| - 1].roc
    {
      roc
    }

    /** Builds one cluster from the hit at index `seed`: the seed, then every
        diagonal neighbour in hit-list order. Always succeeds. */
    method AddClusterFromSeed(seed: nat) returns (ok: bool)
      requires Valid() && seed < |hits|
      modifies this`clusters
      ensures Valid()
      ensures ok
      ensures clusters == old(clusters) + [SeedCluster(hits, seed)]
    {
      var s := hits[seed];
      var c := Clusters.Cluster([]).AddHit(seed);
      for i := 0 to |hits|
        invariant c == Clusters.Cluster([seed] + DiagonalIndices(hits, s, i))
      {
        if Abs(hits[i].row - s.row) == 1 && Abs(hits[i].column - s.column) == 1 {
          c := c.AddHit(i);
        }
      }
      clusters := clusters + [c];
      ok := true;
    }

    /** The seed test: no hit in the 3x3 window around `h` has strictly more charge. */
    method IsBiggestHitIn3x3(h: Hits.Hit) returns (biggest: bool)
      ensures biggest == IsLocalMax(hits, h)
    {
      for i := 0 to |hits|
        invariant forall j :: 0 <= j < i ==> !Outranks(hits[j], h)
      {
        var a := hits[i];
        if Abs(a.row - h.row) == 1 && Abs(a.column - h.column) <= 1 && a.charge > h.charge {
          assert Outranks(hits[i], h);
          return false;
        }
        if Abs(a.column - h.column) == 1 && Abs(a.row - h.row) <= 1 && a.charge > h.charge {
          assert Outranks(hits[i], h);
          return false;
        }
      }
      return true;
    }

    /** One pass over the hits, appending a cluster for every local maximum;
        clusters built earlier are kept. */
    method Clusterize()
      requires Valid()
      modifies this`clusters
      ensures Valid()
      ensures clusters == old(clusters) + ClusterPass(hits, |hits|)
    {
      for i := 0 to |hits|
        invariant Valid()
        invariant clusters == old(clusters) + ClusterPass(hits, i)
      {
        var biggest := IsBiggestHitIn3x3(hits[i]);
        if biggest {
          var added := AddClusterFromSeed(i);
        }
      }
    }

    /** Number of hits added. */
    function NHits(): (n: nat)
      reads this
      ensures n == |hits|
    {
      |hits|
    }

    /** The `i`-th added hit; the source does not check the index. */
    function Hit(i: nat): (h: Hits.Hit)
      reads this
      requires i < |hits|
      ensures h == hits[i]
    {
      hits[i]
    }

    /** Number of clusters built. */
    function NClusters(): (n: nat)
      reads this
      ensures n == |clusters|
    {
      |clusters|
    }

    /** The `i`-th built cluster: it has a seed and refers to hits of this plane. */
    function Cluster(i: nat): (c: Clusters.Cluster)
      reads this
      requires Valid() && i < |clusters|
      ensures c == clusters[i]
      ensures c.NHits() >= 1 && c.RefersInto(hits)
    {
      clusters[i]
    }
  }
}

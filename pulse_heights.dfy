/** The per-plane part of the pulse-height analysis: which planes are kept,
    the three-digit plane id and its decoding, and the filling of the four
    pulse-height histograms of an id from the plane's clusters. */
module PulseHeights {
  import Hits
  import Clusters
  import Planes

  /** A plane is kept unless its ROC exceeds 2 or its channel exceeds 99. */
  predicate Accepted(channel: int, roc: int): (ok: bool)
    ensures ok <==> roc <= 2 && channel <= 99
  {
    !(roc > 2) && !(channel > 99)
  }

  /** The id of a plane: channel in the tens and above, ROC in the units.
      For a kept plane with non-negative numbers it is a number of at most
      three digits. */
  function PlaneId(channel: int, roc: int): (id: int)
    ensures Accepted(channel, roc) && 0 <= channel && 0 <= roc ==> 0 <= id < 1000
  {
    10 * channel + roc
  }

  /** C++ integer division by a positive divisor: truncates toward zero. */
  function TruncDiv(a: int, b: int): (q: int)
    requires b > 0
    ensures 0 <= a ==> q * b <= a < q * b + b
    ensures a < 0 ==> q * b - b < a <= q * b
  {
    if a >= 0 then a / b else -((-a) / b)
  }

  /** C++ remainder by a positive divisor: takes the sign of the dividend. */
  function TruncMod(a: int, b: int): (r: int)
    requires b > 0
    ensures a == TruncDiv(a, b) * b + r
    ensures 0 <= a ==> 0 <= r < b
    ensures a < 0 ==> -b < r <= 0
  {
    a - TruncDiv(a, b) * b
  }

  /** Splits an id back into channel and ROC, as the drawing loop does.
      Every id is the encoding of its decoded parts, and the decoded ROC is a
      single signed digit. */
  function DecodeId(id: int): (r: (int, int))
    ensures PlaneId(r.0, r.1) == id
    ensures -10 < r.1 < 10
  {
    (TruncDiv(id, 10), TruncMod(id, 10))
  }

  /** For a plane the filter keeps and whose numbers are not negative,
      decoding its id gives back its channel and ROC. */
  lemma DecodeEncode(channel: int, roc: int)
    requires Accepted(channel, roc) && 0 <= channel && 0 <= roc
    ensures DecodeId(PlaneId(channel, roc)) == (channel, roc)
  {
    assert PlaneId(channel, roc) / 10 == channel;
  }

  /** The filter does not reject negative numbers, and with them the id is
      not always a round trip: channel 1, ROC -1 decodes as channel 0, ROC 9. */
  lemma NegativeRocDoesNotRoundTrip()
    ensures Accepted(1, -1)
    ensures DecodeId(PlaneId(1, -1)) == (0, 9)
  {
  }

  /** The drawing pad of a decoded id, ROC + 1, is one of the canvas's 3 pads. */
  lemma PadIndexInRange(channel: int, roc: int)
    requires Accepted(channel, roc) && 0 <= channel && 0 <= roc
    ensures 1 <= DecodeId(PlaneId(channel, roc)).1 + 1 <= 3
  {
    DecodeEncode(channel, roc);
  }

  /** The four histograms of one id, each given by the charges filled into it:
      0 takes every cluster, 1 to 3 the clusters with that many hits. */
  type Buckets = seq<seq<int>>

  function EmptyBuckets(): (b: Buckets)
    ensures |b| == 4 && forall k :: 0 <= k < 4 ==> b[k] == []
  {
    [[], [], [], []]
  }

  /** Fills one cluster's charge into bucket 0 and into the bucket of its hit count. */
  function FillCluster(b: Buckets, nHits: nat, charge: int): (r: Buckets)
    requires |b| == 4
    ensures |r| == 4
    ensures r[0] == b[0] + [charge]
    ensures forall k :: 1 <= k <= 3 ==> r[k] == if nHits == k then b[k] + [charge] else b[k]
  {
    var r := b[0 := b[0] + [charge]];
    if nHits == 1 then r[1 := r[1] + [charge]]
    else if nHits == 2 then r[2 := r[2] + [charge]]
    else if nHits == 3 then r[3 := r[3] + [charge]]
    else r
  }

  /** Fills the first `n` clusters in order. */
  function FillClusters(b: Buckets, cs: seq<Clusters.Cluster>, hits: seq<Hits.Hit>, n: nat): (r: Buckets)
    requires |b| == 4 && n <= |cs|
    requires forall c :: c in cs ==> c.RefersInto(hits)
    ensures |r| == 4
    ensures |r[0]| == |b[0]| + n
    ensures |b[1]| + |b[2]| + |b[3]| <= |b[0]| ==> |r[1]| + |r[2]| + |r[3]| <= |r[0]|
  {
    if n == 0 then b
    else FillCluster(FillClusters(b, cs, hits, n - 1), cs[n - 1].NHits(), cs[n - 1].Charge(hits))
  }

  /** Number of clusters among the first `n` that have exactly `size` hits. */
  function CountWithSize(cs: seq<Clusters.Cluster>, size: nat, n: nat): (count: nat)
    requires n <= |cs|
    ensures count <= n
  {
    if n == 0 then 0
    else CountWithSize(cs, size, n - 1) + (if cs[n - 1].NHits() == size then 1 else 0)
  }

  /** The charges of the first `n` clusters, in order. */
  function Charges(cs: seq<Clusters.Cluster>, hits: seq<Hits.Hit>, n: nat): (r: seq<int>)
    requires n <= |cs|
    requires forall c :: c in cs ==> c.RefersInto(hits)
    ensures |r| == n
  {
    if n == 0 then [] else Charges(cs, hits, n - 1) + [cs[n - 1].Charge(hits)]
  }

  /** Filling appends every cluster's charge to bucket 0 and, for k in 1..3,
      one entry per cluster of exactly k hits to bucket k. */
  lemma {:induction false} FillClustersSpec(b: Buckets, cs: seq<Clusters.Cluster>, hits: seq<Hits.Hit>, n: nat)
    requires |b| == 4 && n <= |cs|
    requires forall c :: c in cs ==> c.RefersInto(hits)
    ensures FillClusters(b, cs, hits, n)[0] == b[0] + Charges(cs, hits, n)
    ensures forall k :: 1 <= k <= 3 ==>
              |FillClusters(b, cs, hits, n)[k]| == |b[k]| + CountWithSize(cs, k, n)
  {
    if n > 0 {
      FillClustersSpec(b, cs, hits, n - 1);
    }
  }

  /** A cluster is counted in at most one of the buckets 1 to 3. */
  lemma {:induction false} SizeBucketsBounded(cs: seq<Clusters.Cluster>, n: nat)
    requires n <= |cs|
    ensures CountWithSize(cs, 1, n) + CountWithSize(cs, 2, n) + CountWithSize(cs, 3, n) <= n
  {
    if n > 0 {
      SizeBucketsBounded(cs, n - 1);
    }
  }

  ghost predicate BucketsValid(b: Buckets, seen: nat)
  {
    |b| == 4 && |b[0]| == seen && |b[1]| + |b[2]| + |b[3]| <= |b[0]|
  }

  /** Replacing the buckets of one id by valid ones keeps every id valid. */
  lemma FilledBucketsValid(m: map<int, Buckets>, seen: map<int, nat>, m0: map<int, Buckets>, seen0: map<int, nat>, id: int)
    requires m0.Keys == seen0.Keys
    requires forall i :: i in m0 ==> BucketsValid(m0[i], seen0[i])
    requires id in m && id in seen && BucketsValid(m[id], seen[id])
    requires m == m0[id := m[id]] && seen == seen0[id := seen[id]]
    ensures m.Keys == seen.Keys && forall i :: i in m ==> BucketsValid(m[i], seen[i])
  {
  }

  /** The histograms of every plane id seen so far. */
  class PulseHeightMap {
    var hMap: map<int, Buckets>
    /** Number of clusters filled for each id. */
    ghost var clustersSeen: map<int, nat>

    /** Every id has its four buckets; bucket 0 holds one entry per cluster
        seen for that id, and buckets 1 to 3 together hold no more. */
    ghost predicate Valid()
      reads this
    {
      && hMap.Keys == clustersSeen.Keys
      && forall id :: id in hMap ==> BucketsValid(hMap[id], clustersSeen[id])
    }

    constructor ()
      ensures Valid() && hMap == map[]
    {
      hMap := map[];
      clustersSeen := map[];
    }

    /** Fills the clusters of one plane into the buckets of its id, creating
        the buckets the first time the id is seen; a rejected plane changes
        nothing. */
    method AddPlane(p: Planes.Plane) returns (accepted: bool)
      requires Valid() && p.Valid()
      modifies this
      ensures Valid()
      ensures accepted == Accepted(p.Channel(), p.ROC())
      ensures !accepted ==> hMap == old(hMap) && clustersSeen == old(clustersSeen)
      ensures accepted ==>
                var id := PlaneId(p.Channel(), p.ROC());
                var start := if id in old(hMap) then old(hMap)[id] else EmptyBuckets();
                var seen := if id in old(hMap) then old(clustersSeen)[id] else 0;
                && hMap == old(hMap)[id := FillClusters(start, p.clusters, p.hits, |p.clusters|)]
                && clustersSeen == old(clustersSeen)[id := seen + |p.clusters|]
    {
      if p.ROC() > 2 {
        return false;
      }
      if p.Channel() > 99 {
        return false;
      }
      var id := PlaneId(p.Channel(), p.ROC());
      // The four buckets are created only the first time the id is seen.
      var buckets := EmptyBuckets();
      ghost var seen := 0;
      if id in hMap {
        buckets := hMap[id];
        seen := clustersSeen[id];
      }
      ghost var start := buckets;
      for i := 0 to p.NClusters()
        invariant buckets == FillClusters(start, p.clusters, p.hits, i)
      {
        var cluster := p.Cluster(i);
        buckets := FillCluster(buckets, cluster.NHits(), cluster.Charge(p.hits));
      }
      hMap := hMap[id := buckets];
      clustersSeen := clustersSeen[id := seen + |p.clusters|];
      FilledBucketsValid(hMap, clustersSeen, old(hMap), old(clustersSeen), id);
      accepted := true;
    }
  }
}

/** A cluster: an ordered, non-owning list of references into a plane's hit list. */
module Clusters {
  import opened Hits

  /** Members are indices into the hit list of the plane that built the
      cluster, in the order they were added; the same index may occur in
      several clusters. */
  datatype Cluster = Cluster(members: seq<nat>)
  {
    /** Appends one more member; nothing is checked or deduplicated. */
    function AddHit(i: nat): (c: Cluster)
      ensures c.NHits() == NHits() + 1
      ensures c.members[..NHits()] == members && c.members[NHits()] == i
    {
      Cluster(members + [i])
    }

    /** Number of members, one per call of AddHit. */
    function NHits(): (n: nat)
      ensures n == |members|
    {
      |members|
    }

    /** Every member refers to a hit of `hits`. */
    predicate RefersInto(hits: seq<Hit>)
    {
      forall k :: 0 <= k < |members| ==> members[k] < |hits|
    }

    /** The member hits themselves, in member order. */
    function MemberHits(hits: seq<Hit>): (r: seq<Hit>)
      requires RefersInto(hits)
      ensures |r| == |members|
      ensures forall k :: 0 <= k < |members| ==> r[k] == hits[members[k]]
    {
      seq(|members|, k requires 0 <= k < |members| => hits[members[k]])
    }

    /** Sum of the member charges: nothing for no member, the hit's own
        charge for a single member (see ChargeAddHit for each further one). */
    function Charge(hits: seq<Hit>): (r: int)
      requires RefersInto(hits)
      ensures members == [] ==> r == 0
      ensures |members| == 1 ==> r == hits[members[0]].charge
    {
      var m := MemberHits(hits);
      assert |m| == 1 ==> SumCharges(m) == m[0].charge by {
        if |m| == 1 {
          assert m[..0] == [];
        }
      }
      SumCharges(m)
    }
  }

  /** Adding a member adds its charge to the cluster's charge. */
  lemma ChargeAddHit(c: Cluster, hits: seq<Hit>, i: nat)
    requires c.RefersInto(hits) && i < |hits|
    ensures c.AddHit(i).RefersInto(hits)
    ensures c.AddHit(i).Charge(hits) == c.Charge(hits) + hits[i].charge
  {
    var d := c.AddHit(i);
    assert d.MemberHits(hits) == c.MemberHits(hits) + [hits[i]];
    SumChargesAppend(c.MemberHits(hits), [hits[i]]);
    assert [hits[i]][..0] == [];
  }
}

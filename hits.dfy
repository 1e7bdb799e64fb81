/** A decoded pixel hit and the charge sum over a list of hits. */
module Hits {

  /** One pixel firing in one event: grid position, calibrated charge and the
      readout identity (channel and read-out chip) it came from. Charges are
      integers here; the source keeps them as floating point. */
  datatype Hit = Hit(row: int, column: int, charge: int, channel: int, roc: int)

  /** Total charge of a list of hits, accumulated front to back. */
  function SumCharges(hs: seq<Hit>): int
  {
    if hs == [] then 0 else SumCharges(hs[..|hs| - 1]) + hs[|hs| - 1].charge
  }

  /** The total of a concatenation is the sum of the totals. */
  lemma {:induction false} SumChargesAppend(a: seq<Hit>, b: seq<Hit>)
    ensures SumCharges(a + b) == SumCharges(a) + SumCharges(b)
    decreases |b|
  {
    if b == [] {
      assert a + b == a;
    } else {
      assert (a + b)[..|a + b| - 1] == a + b[..|b| - 1];
      SumChargesAppend(a, b[..|b| - 1]);
    }
  }

  /** Taking one hit out of a list takes its charge off the total. */
  lemma SumChargesRemove(b: seq<Hit>, k: nat)
    requires k < |b|
    ensures SumCharges(b) == SumCharges(b[..k] + b[k + 1..]) + b[k].charge
  {
    var pre, x, post := b[..k], b[k], b[k + 1..];
    assert b == pre + [x] + post;
    SumChargesAppend(pre + [x], post);
    SumChargesAppend(pre, [x]);
    SumChargesAppend(pre, post);
    assert [x][..0] == [];
  }

  /** The total does not depend on the order in which the hits were added. */
  lemma {:induction false} SumChargesPermutation(a: seq<Hit>, b: seq<Hit>)
    requires multiset(a) == multiset(b)
    ensures SumCharges(a) == SumCharges(b)
    decreases |a|
  {
    if a == [] {
      assert |multiset(b)| == 0;
      assert b == [];
    } else {
      var front, x := a[..|a| - 1], a[|a| - 1];
      assert a == front + [x];
      assert x in multiset(b);
      var k :| 0 <= k < |b| && b[k] == x;
      var rest := b[..k] + b[k + 1..];
      assert b == b[..k] + [x] + b[k + 1..];
      assert multiset(front) == multiset(rest) by {
        calc {
          multiset(front) + multiset{x};
          multiset(a);
          multiset(b);
          multiset(b[..k]) + multiset{x} + multiset(b[k + 1..]);
          multiset(rest) + multiset{x};
        }
        assert multiset(front) == multiset(front) + multiset{x} - multiset{x};
      }
      SumChargesPermutation(front, rest);
      SumChargesRemove(b, k);
    }
  }
}

/**
  The wallet column under a sequence of debits: GREATEST(balance - cost, 0), stored as
  NUMERIC(14, 6) (api/internal/db/migrations/001_initial.up.sql).
 */
module Wallet {
  import opened Metering
  import opened Sums
  import opened Seqs

  function Amount(cost: real): real {
    cost
  }

  function Total(costs: seq<real>): real {
    Sum(Amount, costs)
  }

  ghost predicate NonNegativeCosts(costs: seq<real>) {
    forall i :: 0 <= i < |costs| ==> costs[i] >= 0.0
  }

  /** The balance after the debits of `costs`, one after the other. */
  function DebitAll(balance: real, costs: seq<real>): real {
    if costs == [] then balance
    else Larger(DebitAll(balance, costs[..|costs| - 1]) - costs[|costs| - 1], 0.0)
  }

  /**
    Clamping debit by debit is clamping once at the end - except for a wallet that is opened
    below zero, which no debit has yet lifted to zero.
   */
  lemma {:induction false} ClampedOnce(opening: real, costs: seq<real>)
    requires NonNegativeCosts(costs)
    ensures DebitAll(opening, costs) == Larger(opening - Total(costs), 0.0) <==> opening >= 0.0 || costs != []
    ensures Total(costs) >= 0.0
  {
    if costs != [] {
      ClampedOnce(opening, costs[..|costs| - 1]);
    }
  }

  /** Reordering debits, or a different assignment of the same costs, leaves the same balance. */
  lemma OrderDoesNotMatter(opening: real, a: seq<real>, b: seq<real>)
    requires NonNegativeCosts(a) && multiset(a) == multiset(b)
    ensures DebitAll(opening, a) == DebitAll(opening, b)
  {
    assert |a| == |multiset(a)| == |multiset(b)| == |b|;
    forall i | 0 <= i < |b|
      ensures b[i] >= 0.0
    {
      assert b[i] in multiset(a);
    }
    ClampedOnce(opening, a);
    ClampedOnce(opening, b);
    SumOfPermutation(Amount, a, b);
  }

  /** One debit per batch, as the consumer issues them: an empty or free batch issues none. */
  function Totals(batches: seq<seq<real>>): seq<real> {
    if batches == [] then []
    else
      var n := |batches| - 1;
      Totals(batches[..n]) + if Total(batches[n]) <= 0.0 then [] else [Total(batches[n])]
  }

  lemma {:induction false} TotalOfTotals(batches: seq<seq<real>>)
    requires forall i :: 0 <= i < |batches| ==> NonNegativeCosts(batches[i])
    ensures NonNegativeCosts(Totals(batches)) && NonNegativeCosts(Concat(batches))
    ensures Total(Totals(batches)) == Total(Concat(batches))
  {
    if batches != [] {
      var n := |batches| - 1;
      var before, batch := batches[..n], batches[n];
      TotalOfTotals(before);
      ClampedOnce(0.0, batch);
      SumConcat(Amount, Concat(before), batch);
      if Total(batch) > 0.0 {
        SumAppend(Amount, Totals(before), Total(batch));
      } else {
        assert Totals(batches) == Totals(before);
      }
    }
  }

  /** However costs are grouped into batches, a wallet that holds money ends at the same balance. */
  lemma BatchingDoesNotMatter(opening: real, batches: seq<seq<real>>)
    requires opening >= 0.0
    requires forall i :: 0 <= i < |batches| ==> NonNegativeCosts(batches[i])
    ensures NonNegativeCosts(Concat(batches))
    ensures DebitAll(opening, Totals(batches)) == DebitAll(opening, Concat(batches))
  {
    TotalOfTotals(batches);
    ClampedOnce(opening, Totals(batches));
    ClampedOnce(opening, Concat(batches));
  }

  // ---------------------------------------------------------------- six decimals

  const HALF_MICRO := 0.0000005

  /** Rounding to six decimals, ties away from zero, for the nonnegative values a wallet stores. */
  function Round6(x: real): real
    requires x >= 0.0
  {
    (x * 1000000.0 + 0.5).Floor as real / 1000000.0
  }

  lemma Round6IsClose(x: real)
    requires x >= 0.0
    ensures -HALF_MICRO <= Round6(x) - x <= HALF_MICRO && Round6(x) >= 0.0
  {
    var n := (x * 1000000.0 + 0.5).Floor as real;
    assert n <= x * 1000000.0 + 0.5 < n + 1.0;
    assert Round6(x) == n / 1000000.0;
  }

  function StoredAll(balance: real, costs: seq<real>): real {
    if costs == [] then balance
    else Round6(Larger(StoredAll(balance, costs[..|costs| - 1]) - costs[|costs| - 1], 0.0))
  }

  /** After m debits the stored balance is within m half-micros of the exact one. */
  lemma {:induction false} RoundingDrift(opening: real, costs: seq<real>)
    ensures var drift := StoredAll(opening, costs) - DebitAll(opening, costs);
            -(|costs| as real * HALF_MICRO) <= drift <= |costs| as real * HALF_MICRO
  {
    if costs != [] {
      var n := |costs| - 1;
      RoundingDrift(opening, costs[..n]);
      Round6IsClose(Larger(StoredAll(opening, costs[..n]) - costs[n], 0.0));
      assert |costs| as real * HALF_MICRO == n as real * HALF_MICRO + HALF_MICRO;
    }
  }
}

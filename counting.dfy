/** Counting how often each value occurs in a sequence, and the normalised
    counts (frequencies) a histogram reports. */
module Counting {
  import opened Sums

  /** How many elements of s equal v, counting from the left. */
  function Count(s: seq<int>, v: int): (c: nat)
    ensures c <= |s|
  {
    if |s| == 0 then 0 else Count(s[..|s| - 1], v) + (if s[|s| - 1] == v then 1 else 0)
  }

  /** Count(s, 0) + ... + Count(s, k - 1): how many elements fall into the first k bins. */
  function SumCounts(s: seq<int>, k: nat): nat {
    if k == 0 then 0 else SumCounts(s, k - 1) + Count(s, k - 1)
  }

  /** c out of n, as a real: c / n. */
  function Share(c: nat, n: nat): real
    requires 0 < n
  {
    c as real / n as real
  }

  /** The histogram of s over `bins` bins, each count divided by |s|. */
  function Frequencies(s: seq<int>, bins: nat): (f: seq<real>)
    requires 0 < |s|
    ensures |f| == bins
  {
    seq(bins, v => Share(Count(s, v), |s|))
  }

  /** Every element lies in 0..k-1. */
  predicate InBins(s: seq<int>, k: nat) {
    forall i :: 0 <= i < |s| ==> 0 <= s[i] < k
  }

  lemma CountSnoc(s: seq<int>, x: int, v: int)
    ensures Count(s + [x], v) == Count(s, v) + (if x == v then 1 else 0)
  {
    assert (s + [x])[..|s|] == s;
  }

  lemma {:induction false} SumCountsSnoc(s: seq<int>, x: int, k: nat)
    ensures SumCounts(s + [x], k) == SumCounts(s, k) + (if 0 <= x < k then 1 else 0)
  {
    if k > 0 {
      SumCountsSnoc(s, x, k - 1);
      CountSnoc(s, x, k - 1);
    }
  }

  /** When every element lies in one of the first k bins, the bin counts add
      up to the length of the sequence. */
  lemma {:induction false} CountsPartition(s: seq<int>, k: nat)
    requires InBins(s, k)
    ensures SumCounts(s, k) == |s|
  {
    if |s| == 0 {
      if k > 0 {
        SumCountsOfEmpty(k);
      }
    } else {
      var init := s[..|s| - 1];
      assert InBins(init, k);
      CountsPartition(init, k);
      SumCountsSnoc(init, s[|s| - 1], k);
      assert init + [s[|s| - 1]] == s;
    }
  }

  lemma {:induction false} SumCountsOfEmpty(k: nat)
    ensures SumCounts([], k) == 0
  {
    if k > 0 {
      SumCountsOfEmpty(k - 1);
    }
  }

  /** Summing the first k frequencies gives the first k counts over |s|. */
  lemma {:induction false} FrequenciesPrefixSum(s: seq<int>, bins: nat, k: nat)
    requires 0 < |s| && k <= bins
    ensures Sum(Frequencies(s, bins), k) == Share(SumCounts(s, k), |s|)
  {
    if k > 0 {
      var f := Frequencies(s, bins);
      assert f[k - 1] == Share(Count(s, k - 1), |s|);
      FrequenciesPrefixSum(s, bins, k - 1);
      AddShares(SumCounts(s, k - 1), Count(s, k - 1), |s|);
    }
  }

  lemma AddShares(a: nat, b: nat, n: nat)
    requires 0 < n
    ensures Share(a, n) + Share(b, n) == Share(a + b, n)
  {
  }

  /** n out of n is 1; 0 out of n is 0. */
  lemma WholeShare(n: nat)
    requires 0 < n
    ensures Share(n, n) == 1.0 && Share(0, n) == 0.0
  {
  }

  /** The frequencies of a non-empty sequence whose elements all fall into
      the bins add up to 1. */
  lemma FrequenciesSumToOne(s: seq<int>, bins: nat)
    requires 0 < |s| && InBins(s, bins)
    ensures Sum(Frequencies(s, bins), bins) == 1.0
  {
    FrequenciesPrefixSum(s, bins, bins);
    CountsPartition(s, bins);
    WholeShare(|s|);
  }

  /** Each frequency lies in [0, 1]. */
  lemma FrequencyInUnitInterval(s: seq<int>, bins: nat, v: nat)
    requires 0 < |s| && v < bins
    ensures 0.0 <= Frequencies(s, bins)[v] <= 1.0
  {
    ShareInUnitInterval(Count(s, v), |s|);
  }

  lemma ShareInUnitInterval(c: nat, n: nat)
    requires c <= n && 0 < n
    ensures 0.0 <= Share(c, n) <= 1.0
  {
    assert c as real / n as real <= n as real / n as real;
  }

  /** In a sequence whose elements all equal v, v occurs |s| times and every
      other value never. */
  lemma {:induction false} CountConstant(s: seq<int>, v: int, w: int)
    requires forall i :: 0 <= i < |s| ==> s[i] == v
    ensures Count(s, w) == if w == v then |s| else 0
  {
    if |s| > 0 {
      CountConstant(s[..|s| - 1], v, w);
    }
  }
}

/** The distance of src/metrics/phash.ts: the Hamming distance of two hash
    strings, where every character one string has beyond the other's length
    counts as one more difference, and the record pHashDistance returns. */
module PHash {
  import opened Types
  import opened JsMath

  /** How many of the positions i < n hold different characters in a and b. */
  function Mismatches(a: string, b: string, n: nat): (d: nat)
    requires n <= |a| && n <= |b|
    ensures d <= n
  {
    if n == 0 then 0 else Mismatches(a, b, n - 1) + (if a[n - 1] != b[n - 1] then 1 else 0)
  }

  /** The length both strings have. */
  function CommonLength(a: string, b: string): (n: nat)
    ensures n <= |a| && n <= |b|
    ensures n == |a| || n == |b|
  {
    Min(|a|, |b|)
  }

  /** What hamming returns: the mismatches over the common length plus the
      difference of the lengths. */
  function Distance(a: string, b: string): nat {
    Mismatches(a, b, CommonLength(a, b)) + Abs(|a| - |b|)
  }

  /** hamming: count the differing positions below the shorter length in a
      mutable counter, then add the length difference. */
  method Hamming(a: string, b: string) returns (d: nat)
    ensures d == Distance(a, b)
  {
    var n := Min(|a|, |b|);
    d := 0;
    for i := 0 to n
      invariant d == Mismatches(a, b, i)
    {
      if a[i] != b[i] {
        d := d + 1;
      }
    }
    d := d + Abs(|a| - |b|);
  }

  /** The positions below n where a and b differ. */
  ghost function MismatchSet(a: string, b: string, n: nat): set<nat>
    requires n <= |a| && n <= |b|
  {
    set i: nat | i < n && a[i] != b[i]
  }

  /** Mismatches counts exactly the differing positions. */
  lemma {:induction false} MismatchesCountSet(a: string, b: string, n: nat)
    requires n <= |a| && n <= |b|
    ensures Mismatches(a, b, n) == |MismatchSet(a, b, n)|
  {
    if n > 0 {
      MismatchesCountSet(a, b, n - 1);
      MismatchSetStep(a, b, n);
    }
  }

  /** Raising the bound by one adds position n - 1 exactly when it differs. */
  lemma MismatchSetStep(a: string, b: string, n: nat)
    requires 0 < n <= |a| && n <= |b|
    ensures n - 1 !in MismatchSet(a, b, n - 1)
    ensures MismatchSet(a, b, n) ==
              if a[n - 1] != b[n - 1] then MismatchSet(a, b, n - 1) + {n - 1} else MismatchSet(a, b, n - 1)
  {
  }

  /** For two strings of the same length the distance is the number of
      positions where their characters differ. */
  lemma EqualLengthDistance(a: string, b: string)
    requires |a| == |b|
    ensures Distance(a, b) == |MismatchSet(a, b, |a|)|
  {
    MismatchesCountSet(a, b, |a|);
  }

  lemma {:induction false} MismatchesZeroIff(a: string, b: string, n: nat)
    requires n <= |a| && n <= |b|
    ensures Mismatches(a, b, n) == 0 <==> forall i :: 0 <= i < n ==> a[i] == b[i]
  {
    if n > 0 {
      MismatchesZeroIff(a, b, n - 1);
    }
  }

  lemma {:induction false} MismatchesSymmetric(a: string, b: string, n: nat)
    requires n <= |a| && n <= |b|
    ensures Mismatches(a, b, n) == Mismatches(b, a, n)
  {
    if n > 0 {
      MismatchesSymmetric(a, b, n - 1);
    }
  }

  /** The distance is 0 exactly when the strings are equal; in particular a
      string is at distance 0 from itself. */
  lemma DistanceZeroIff(a: string, b: string)
    ensures Distance(a, b) == 0 <==> a == b
  {
    MismatchesZeroIff(a, b, CommonLength(a, b));
    if Distance(a, b) == 0 {
      assert |a| == |b|;
      assert forall i :: 0 <= i < |a| ==> a[i] == b[i];
    }
  }

  lemma DistanceSymmetric(a: string, b: string)
    ensures Distance(a, b) == Distance(b, a)
  {
    MismatchesSymmetric(a, b, CommonLength(a, b));
  }

  /** The distance is at least the length difference and at most the longer length. */
  lemma DistanceBounds(a: string, b: string)
    ensures Abs(|a| - |b|) <= Distance(a, b) <= Max(|a|, |b|)
  {
  }

  /** pHashDistance, given the two hashes imghash computed: the label, the
      distance as the value, and both hash strings as details. */
  function PHashRecord(ha: string, hb: string): (r: ComparisonResult)
    ensures r.metric == "pHashHamming"
    ensures r.details == Some(map["ha" := ha, "hb" := hb])
    ensures r.value == 0.0 <==> ha == hb
    ensures 0.0 <= r.value <= Max(|ha|, |hb|) as real
  {
    DistanceZeroIff(ha, hb);
    ComparisonResult("pHashHamming", Distance(ha, hb) as real, Some(map["ha" := ha, "hb" := hb]))
  }

  /** The record does not depend on the order of the hashes, apart from which
      detail holds which hash. */
  lemma PHashRecordSymmetric(ha: string, hb: string)
    ensures PHashRecord(ha, hb).value == PHashRecord(hb, ha).value
  {
    DistanceSymmetric(ha, hb);
  }
}

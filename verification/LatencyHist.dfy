/**
 The latency histogram of internal/dnsserver/handler.go against exact order statistics.
 Latencies are whole milliseconds; bucket i > 0 holds those of i binary digits.
 */
module LatencyHist {

  const BUCKETS: nat := 12

  function Pow2(n: nat): (p: nat)
    ensures p > 0
  {
    if n == 0 then 1 else 2 * Pow2(n - 1)
  }

  /** bits.Len64. */
  function BitLen(x: nat): nat {
    if x == 0 then 0 else 1 + BitLen(x / 2)
  }

  lemma {:induction false} BitLenIff(x: nat, n: nat)
    ensures BitLen(x) <= n <==> x < Pow2(n)
  {
    if x > 0 && n > 0 {
      BitLenIff(x / 2, n - 1);
    }
  }

  function Index(ms: nat): (i: nat)
    ensures i < BUCKETS
  {
    if BitLen(ms) >= BUCKETS then BUCKETS - 1 else BitLen(ms)
  }

  lemma IndexMonotone(x: nat, y: nat)
    requires x <= y
    ensures Index(x) <= Index(y)
  {
    BitLenIff(x, BitLen(y));
    BitLenIff(y, BitLen(y));
  }

  /** The value reported for a bucket. */
  function Upper(i: nat): nat {
    if i == BUCKETS - 1 then Pow2(i + 1) else Pow2(i)
  }

  // ----- counting ------------------------------------------------------------------------------

  function Bit(b: bool): nat {
    if b then 1 else 0
  }

  /** How many samples fall below bucket `b`. */
  function Below(s: seq<nat>, b: nat): (n: nat)
    ensures n <= |s|
  {
    if s == [] then 0 else Below(s[..|s| - 1], b) + Bit(Index(s[|s| - 1]) < b)
  }

  function InBucket(s: seq<nat>, b: nat): nat {
    if s == [] then 0 else InBucket(s[..|s| - 1], b) + Bit(Index(s[|s| - 1]) == b)
  }

  lemma {:induction false} BelowNext(s: seq<nat>, b: nat)
    ensures Below(s, b + 1) == Below(s, b) + InBucket(s, b)
  {
    if s != [] {
      BelowNext(s[..|s| - 1], b);
    }
  }

  lemma {:induction false} BelowEnds(s: seq<nat>)
    ensures Below(s, 0) == 0 && Below(s, BUCKETS) == |s|
  {
    if s != [] {
      BelowEnds(s[..|s| - 1]);
    }
  }

  lemma {:induction false} BelowSplit(s: seq<nat>, t: seq<nat>, b: nat)
    ensures Below(s + t, b) == Below(s, b) + Below(t, b)
  {
    if t == [] {
      assert s + t == s;
    } else {
      BelowSplit(s, t[..|t| - 1], b);
      assert (s + t)[..|s + t| - 1] == s + t[..|t| - 1];
    }
  }

  lemma BelowWithout(t: seq<nat>, j: nat, b: nat)
    requires j < |t|
    ensures Below(t, b) == Below(t[..j] + t[j + 1..], b) + Bit(Index(t[j]) < b)
  {
    assert t == t[..j + 1] + t[j + 1..] && t[..j + 1][..j] == t[..j];
    BelowSplit(t[..j + 1], t[j + 1..], b);
    BelowSplit(t[..j], t[j + 1..], b);
  }

  lemma MultisetWithout(t: seq<nat>, j: nat)
    requires j < |t|
    ensures multiset(t[..j] + t[j + 1..]) == multiset(t) - multiset{t[j]}
  {
    assert t == t[..j] + [t[j]] + t[j + 1..];
  }

  /** The count does not depend on the order of the samples. */
  lemma {:induction false} BelowReordered(s: seq<nat>, t: seq<nat>, b: nat)
    requires multiset(s) == multiset(t)
    ensures Below(s, b) == Below(t, b)
  {
    assert |s| == |multiset(s)| == |multiset(t)| == |t|;
    if s != [] {
      var n := |s| - 1;
      assert s[n] in multiset(s);
      var j :| 0 <= j < |t| && t[j] == s[n];
      MultisetWithout(t, j);
      assert s == s[..n] + [s[n]];
      BelowReordered(s[..n], t[..j] + t[j + 1..], b);
      BelowWithout(t, j, b);
    }
  }

  predicate Sorted(s: seq<nat>) {
    forall i, j :: 0 <= i <= j < |s| ==> s[i] <= s[j]
  }

  /** In sorted samples, those below a bucket come first. */
  lemma {:induction false} BelowIsPrefix(s: seq<nat>, b: nat, r: nat)
    requires Sorted(s) && r < |s|
    ensures Index(s[r]) < b <==> r < Below(s, b)
  {
    var n := |s| - 1;
    if r < n {
      BelowIsPrefix(s[..n], b, r);
      IndexMonotone(s[r], s[n]);
      if Index(s[n]) < b {
        AllBelow(s[..n], b, s[n]);
      }
    } else {
      if Index(s[n]) < b {
        AllBelow(s[..n], b, s[n]);
      }
    }
  }

  lemma {:induction false} AllBelow(s: seq<nat>, b: nat, top: nat)
    requires Index(top) < b && forall i :: 0 <= i < |s| ==> s[i] <= top
    ensures Below(s, b) == |s|
  {
    if s != [] {
      AllBelow(s[..|s| - 1], b, top);
      IndexMonotone(s[|s| - 1], top);
    }
  }

  // ----- estimates -------------------------------------------------------------------------------

  /** The rank that percentile `p` asks for among `n` samples; the last when p = 100. */
  function Rank(n: nat, p: real): (r: int)
    requires n > 0 && p >= 0.0
  {
    var target := Target(n, p);
    if target < n then target else n - 1
  }

  function Target(n: nat, p: real): int {
    (n as real * p / 100.0).Floor
  }

  lemma RankInRange(n: nat, p: real)
    requires n > 0 && p >= 0.0
    ensures 0 <= Rank(n, p) < n
    ensures p < 100.0 ==> Rank(n, p) == Target(n, p)
    ensures p >= 100.0 ==> Rank(n, p) == n - 1
  {
    var x := n as real * p;
    assert x >= 0.0;
    if p < 100.0 {
      Product(n as real, p, 100.0);
      assert x / 100.0 < n as real;
    } else {
      Product(n as real, 100.0, p);
      assert x / 100.0 >= n as real;
    }
  }

  /** The rank asked for is the whole part of that share of the samples, kept below their number. */
  lemma RankExact(n: nat, p: real, r: nat)
    requires n > 0 && p >= 0.0
    ensures Rank(n, p) == r <==> r < n && r as real * 100.0 <= n as real * p && (r + 1 < n ==> n as real * p < (r + 1) as real * 100.0)
  {
    RankInRange(n, p);
    var x := n as real * p;
    var t := Target(n, p);
    Hundredth(x, t);
    if r < t {
      assert (r + 1) as real <= t as real;
    } else if r > t {
      assert r as real >= (t + 1) as real;
    }
  }

  lemma Hundredth(x: real, t: int)
    requires t == (x / 100.0).Floor
    ensures t as real * 100.0 <= x < (t + 1) as real * 100.0
  {
  }

  lemma Product(n: real, p: real, q: real)
    requires n > 0.0 && p <= q
    ensures n * p <= n * q && (p < q ==> n * p < n * q)
  {
  }

  /** `v` stands for the bucket that holds rank `r`. */
  predicate Estimates(s: seq<nat>, r: int, v: nat) {
    exists b: nat :: b < BUCKETS && Holds(s, b, r) && v == Upper(b)
  }

  predicate Holds(s: seq<nat>, b: nat, r: int) {
    Below(s, b) <= r < Below(s, b + 1)
  }

  /** An estimate is the upper bound of the bucket of the exact order statistic, in whatever way
      the samples are sorted. */
  lemma EstimateOfExact(samples: seq<nat>, sorted: seq<nat>, r: nat, v: nat)
    requires multiset(sorted) == multiset(samples) && Sorted(sorted) && r < |sorted| && Estimates(samples, r, v)
    ensures v == Upper(Index(sorted[r]))
  {
    var b: nat :| b < BUCKETS && Holds(samples, b, r) && v == Upper(b);
    BelowReordered(sorted, samples, b);
    BelowReordered(sorted, samples, b + 1);
    BelowIsPrefix(sorted, b, r);
    BelowIsPrefix(sorted, b + 1, r);
  }

  lemma BucketBounds(x: nat)
    ensures Upper(Index(x)) == 1 <==> x == 0
    ensures 0 < x < 1024 ==> x < Upper(Index(x)) <= 2 * x
    ensures x >= 1024 <==> Upper(Index(x)) == 4096
  {
    var n := Index(x);
    BitLenIff(x, 10);
    PowersTo12();
    if 0 < n < BUCKETS - 1 {
      BitLenIff(x, n);
      BitLenIff(x, n - 1);
      PowerSmall(n);
    }
  }

  lemma PowersTo12()
    ensures Pow2(10) == 1024 && Pow2(12) == 4096
  {
    assert Pow2(5) == 32;
    assert Pow2(10) == 1024;
  }

  lemma PowerSmall(n: nat)
    requires 0 < n <= 10
    ensures 2 <= Pow2(n) <= 1024
  {
    PowersTo12();
    PowerMonotone(1, n);
    PowerMonotone(n, 10);
    assert Pow2(1) == 2;
  }

  lemma {:induction false} PowerMonotone(m: nat, n: nat)
    requires m <= n
    ensures Pow2(m) <= Pow2(n)
  {
    if m < n {
      PowerMonotone(m, n - 1);
    }
  }

  /** `v` is 1 exactly for less than a millisecond, the overflow value exactly from 1024 ms on,
      and otherwise more than `x` by at most a factor of two. */
  predicate Brackets(v: nat, x: nat) {
    && (v == 1 <==> x == 0)
    && (0 < x < 1024 ==> x < v <= 2 * x)
    && (v == 4096 <==> x >= 1024)
  }

  lemma EstimateBrackets(samples: seq<nat>, sorted: seq<nat>, p: real, v: nat)
    requires samples != [] && multiset(sorted) == multiset(samples) && Sorted(sorted) && p >= 0.0
    ensures |sorted| == |samples| && 0 <= Rank(|samples|, p) < |sorted|
    ensures Estimates(samples, Rank(|samples|, p), v) ==> Brackets(v, sorted[Rank(|samples|, p)])
  {
    assert |sorted| == |multiset(sorted)| == |multiset(samples)| == |samples|;
    var r := Rank(|samples|, p);
    RankInRange(|samples|, p);
    if Estimates(samples, r, v) {
      EstimateOfExact(samples, sorted, r, v);
      BucketBounds(sorted[r]);
    }
  }

  class Histogram {
    const buckets: array<nat>
    var total: nat
    ghost var samples: seq<nat>

    ghost predicate Valid()
      reads this, buckets
    {
      && buckets.Length == BUCKETS && total == |samples|
      && forall b: nat :: b < BUCKETS ==> buckets[b] == InBucket(samples, b)
    }

    constructor ()
      ensures Valid() && samples == [] && fresh(buckets)
    {
      buckets := new nat[BUCKETS](_ => 0);
      total := 0;
      samples := [];
    }

    method Record(ms: nat)
      requires Valid()
      modifies this, buckets
      ensures Valid() && samples == old(samples) + [ms]
    {
      var i := Index(ms);
      buckets[i] := buckets[i] + 1;
      total := total + 1;
      samples := samples + [ms];
      assert samples[..|samples| - 1] == old(samples);
    }

    /** pct, for a percentile from 0 up. */
    method Pct(p: real) returns (v: nat)
      requires Valid() && p >= 0.0
      ensures samples == [] ==> v == 0
      ensures samples != [] ==> Estimates(samples, Rank(|samples|, p), v)
    {
      if total == 0 {
        return 0;
      }
      var target := Target(total, p);
      RankInRange(total, p);
      BelowEnds(samples);
      var seen, last := 0, -1;
      for i := 0 to BUCKETS
        invariant seen == Below(samples, i) && (i > 0 ==> seen <= target)
        invariant -1 <= last < i
        invariant last == -1 ==> seen == 0
        invariant last >= 0 ==> Holds(samples, last, seen - 1)
      {
        BelowNext(samples, i);
        var n := buckets[i];
        seen := seen + n;
        if n > 0 {
          last := i;
        }
        if seen > target {
          assert Holds(samples, i, target);
          return Upper(i);
        }
      }
      return Upper(last);
    }
  }
}

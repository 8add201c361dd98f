/** Nearest-rank percentiles over a sample list (`_percentile`, `Stats.from_samples`). */
module Percentile {

  predicate Ordered(s: seq<real>) {
    forall i, j :: 0 <= i < j < |s| ==> s[i] <= s[j]
  }

  function Insert(x: real, s: seq<real>): seq<real> {
    if s == [] || x <= s[0] then [x] + s else [s[0]] + Insert(x, s[1..])
  }

  /** `sorted(s)` */
  function Sorted(s: seq<real>): seq<real> {
    if s == [] then [] else Insert(s[0], Sorted(s[1..]))
  }

  /** How many samples are at or below `v`. */
  function AtMost(s: seq<real>, v: real): nat {
    if s == [] then 0 else (if s[0] <= v then 1 else 0) + AtMost(s[1..], v)
  }

  /** `ceil(total / 100) - 1` clamped to the positions of a list of length `n`. */
  function RankOf(n: nat, total: nat): (r: nat)
    requires n > 0
    ensures r < n
  {
    var k := (total + 99) / 100 - 1;
    var clamped := if k > n - 1 then n - 1 else k;
    if clamped < 0 then 0 else clamped
  }

  /** The rank that the source computes: the ceiling of `pct / 100 * n`, counted from 0. */
  function Rank(n: nat, pct: nat): (r: nat)
    requires n > 0
    ensures r < n
  {
    RankOf(n, pct * n)
  }

  function Percentile(ordered: seq<real>, pct: nat): real {
    if ordered == [] then 0.0 else ordered[Rank(|ordered|, pct)]
  }

  lemma {:induction false} InsertKeeps(x: real, s: seq<real>, v: real)
    ensures multiset(Insert(x, s)) == multiset(s) + multiset{x}
    ensures AtMost(Insert(x, s), v) == AtMost(s, v) + if x <= v then 1 else 0
  {
    if s == [] || x <= s[0] {
      assert ([x] + s)[1..] == s;
    } else {
      InsertKeeps(x, s[1..], v);
      assert s == [s[0]] + s[1..];
      assert Insert(x, s)[1..] == Insert(x, s[1..]);
    }
  }

  lemma {:induction false} InsertOrdered(x: real, s: seq<real>)
    requires Ordered(s)
    ensures Ordered(Insert(x, s)) && |Insert(x, s)| == |s| + 1
    ensures Insert(x, s)[0] == if s == [] || x <= s[0] then x else s[0]
  {
    if s != [] && x > s[0] {
      InsertOrdered(x, s[1..]);
    }
  }

  /** Sorting orders the samples and keeps them all. */
  lemma {:induction false} SortedIsOrdered(s: seq<real>, v: real)
    ensures Ordered(Sorted(s)) && multiset(Sorted(s)) == multiset(s)
    ensures AtMost(Sorted(s), v) == AtMost(s, v)
  {
    if s == [] {
    } else {
      SortedIsOrdered(s[1..], v);
      InsertOrdered(s[0], Sorted(s[1..]));
      InsertKeeps(s[0], Sorted(s[1..]), v);
      FirstAndRest(s);
    }
  }

  lemma FirstAndRest(s: seq<real>)
    requires s != []
    ensures multiset(s) == multiset(s[1..]) + multiset{s[0]}
  {
    assert s == [s[0]] + s[1..];
  }

  lemma {:induction false} AtMostBounds(s: seq<real>, v: real, k: nat)
    requires Ordered(s) && k <= |s|
    ensures (forall i :: 0 <= i < k ==> s[i] <= v) ==> AtMost(s, v) >= k
    ensures (forall i :: k <= i < |s| ==> s[i] > v) ==> AtMost(s, v) <= k
  {
    if s == [] {
    } else {
      AtMostBounds(s[1..], v, if k > 0 then k - 1 else 0);
      assert forall i :: 0 <= i < |s| - 1 ==> s[1..][i] == s[i + 1];
    }
  }

  /** `v` is the least sample with at least `pct` percent of the samples at or below it. */
  ghost predicate NearestRank(samples: seq<real>, pct: nat, v: real) {
    && v in samples
    && 100 * AtMost(samples, v) >= pct * |samples|
    && forall w :: w < v ==> 100 * AtMost(samples, w) < pct * |samples|
  }

  /** In an ordered list, `r + 1` samples or more are at or below the one at `r`, and at most `r` below it. */
  lemma OrderedRank(s: seq<real>, r: nat)
    requires Ordered(s) && r < |s|
    ensures AtMost(s, s[r]) >= r + 1
    ensures forall w :: w < s[r] ==> AtMost(s, w) <= r
  {
    AtMostBounds(s, s[r], r + 1);
    forall w | w < s[r] ensures AtMost(s, w) <= r {
      AtMostBounds(s, w, r);
    }
  }

  lemma SameCounts(samples: seq<real>)
    ensures |Sorted(samples)| == |samples| && forall v :: AtMost(Sorted(samples), v) == AtMost(samples, v)
    ensures Ordered(Sorted(samples)) && forall v :: v in Sorted(samples) ==> v in samples
  {
    forall v ensures AtMost(Sorted(samples), v) == AtMost(samples, v) {
      SortedIsOrdered(samples, v);
    }
    SortedIsOrdered(samples, 0.0);
    assert |multiset(Sorted(samples))| == |Sorted(samples)|;
    forall v | v in Sorted(samples) ensures v in samples {
      assert v in multiset(Sorted(samples));
    }
  }

  lemma PercentileIsNearestRank(samples: seq<real>, pct: nat)
    requires samples != [] && 1 <= pct <= 100
    ensures NearestRank(samples, pct, Percentile(Sorted(samples), pct))
  {
    var s := Sorted(samples);
    SameCounts(samples);
    var r := Rank(|s|, pct);
    RankBounds(|s|, pct);
    OrderedRank(s, r);
    assert s[r] in s;
  }

  lemma MulMono(a: nat, b: nat, n: nat)
    requires a <= b
    ensures a * n <= b * n
  {
    assert b * n == a * n + (b - a) * n;
  }

  lemma RankOfBounds(n: nat, total: nat)
    requires n > 0 && 1 <= total <= 100 * n
    ensures 100 * RankOf(n, total) < total <= 100 * (RankOf(n, total) + 1)
  {
  }

  lemma RankBounds(n: nat, pct: nat)
    requires n > 0 && 1 <= pct <= 100
    ensures 100 * Rank(n, pct) < pct * n <= 100 * (Rank(n, pct) + 1)
  {
    MulMono(1, pct, n);
    MulMono(pct, 100, n);
    RankOfBounds(n, pct * n);
  }

  lemma RankRises(n: nat, p: nat, q: nat)
    requires n > 0 && p <= q
    ensures Rank(n, p) <= Rank(n, q)
  {
    MulMono(p, q, n);
    RankOfRises(n, p * n, q * n);
  }

  lemma RankOfRises(n: nat, a: nat, b: nat)
    requires n > 0 && a <= b
    ensures RankOf(n, a) <= RankOf(n, b)
  {
  }

  /** Percentiles rise with the percentage and stay within the samples. */
  lemma PercentilesRise(samples: seq<real>, p: nat, q: nat)
    requires samples != [] && p <= q
    ensures var s := Sorted(samples);
            |s| == |samples| && s[0] <= Percentile(s, p) <= Percentile(s, q) <= s[|s| - 1]
  {
    var s := Sorted(samples);
    SameCounts(samples);
    RankRises(|s|, p, q);
  }

  lemma RankEnds(n: nat, pct: nat)
    requires n > 0
    ensures pct == 0 ==> Rank(n, pct) == 0
    ensures pct >= 100 ==> Rank(n, pct) == n - 1
  {
    if pct >= 100 {
      MulMono(100, pct, n);
    }
  }

  lemma FirstAndLast(samples: seq<real>)
    requires samples != []
    ensures var s := Sorted(samples);
            s != [] && s[0] in samples && s[|s| - 1] in samples
            && forall v :: v in samples ==> s[0] <= v <= s[|s| - 1]
  {
    var s := Sorted(samples);
    SameCounts(samples);
    SortedIsOrdered(samples, 0.0);
    forall v | v in samples ensures s[0] <= v <= s[|s| - 1] {
      assert v in multiset(samples);
      assert v in multiset(s);
      var i :| 0 <= i < |s| && s[i] == v;
    }
    assert s[0] in s && s[|s| - 1] in s;
  }

  /** Outside 1 to 99 the percentile is the minimum or the maximum; of nothing it is 0. */
  lemma PercentileEnds(samples: seq<real>, pct: nat)
    ensures samples == [] ==> Percentile(Sorted(samples), pct) == 0.0
    ensures samples != [] && pct == 0 ==>
              Percentile(Sorted(samples), pct) in samples
              && forall v :: v in samples ==> Percentile(Sorted(samples), pct) <= v
    ensures samples != [] && pct >= 100 ==>
              Percentile(Sorted(samples), pct) in samples
              && forall v :: v in samples ==> v <= Percentile(Sorted(samples), pct)
  {
    if samples != [] {
      FirstAndLast(samples);
      RankEnds(|Sorted(samples)|, pct);
    }
  }
}

/**
  Evenly spaced version sampling (`select_versions`), with the positions as exact rationals and
  rounding half to even. Versions are numbers; two spellings of one version are one number.
 */
module Versions {

  /** `round(num / den)` */
  function RoundHalfEven(num: nat, den: nat): nat
    requires den > 0
  {
    var q, r := num / den, num % den;
    if 2 * r < den || (2 * r == den && q % 2 == 0) then q else q + 1
  }

  /** The rounded value is within a half of the exact one. */
  lemma RoundBounds(num: nat, den: nat)
    requires den > 0
    ensures 2 * (den * RoundHalfEven(num, den)) <= 2 * num + den
    ensures 2 * num <= 2 * (den * RoundHalfEven(num, den)) + den
  {
    var q, r := num / den, num % den;
    assert num == den * q + r;
    assert den * (q + 1) == den * q + den;
  }

  /** How far `k` is from `num / den`, in units of `1 / den`. */
  function Distance(num: nat, den: nat, k: nat): nat {
    if num <= den * k then den * k - num else num - den * k
  }

  /** No whole number is nearer, and the even one of two equally near ones is taken. */
  lemma NearestEven(num: nat, den: nat, k: nat)
    requires den > 0
    ensures var r := RoundHalfEven(num, den);
            && Distance(num, den, r) <= Distance(num, den, k)
            && (k != r && Distance(num, den, k) == Distance(num, den, r) ==> r % 2 == 0)
  {
    var q := num / den;
    MultipleBounds(den, q, k);
    MultipleBounds(den, q, q + 1);
    Quotient(num, den);
  }

  /** The multiple of `den` by `k`, seen from the one by `q`. */
  lemma MultipleBounds(den: nat, q: nat, k: nat)
    ensures k < q ==> den * k <= den * q - den
    ensures k == q + 1 ==> den * k == den * q + den
    ensures k > q + 1 ==> den * k >= den * q + 2 * den
  {
    if k < q {
      MulMono(k + 1, q, den);
      MulNext(k, 1, den);
    } else if k > q {
      MulNext(q, k - q, den);
      if k > q + 1 {
        MulMono(2, k - q, den);
      }
    }
  }

  lemma MulMono(a: nat, b: nat, den: nat)
    requires a <= b
    ensures den * a <= den * b
  {
    assert den * b == den * a + den * (b - a);
  }

  lemma MulLess(a: nat, b: nat, den: nat)
    requires den * a < den * b
    ensures a < b
  {
    if b <= a {
      MulMono(b, a, den);
    }
  }

  lemma MulNext(a: nat, k: nat, den: nat)
    ensures den * (a + k) == den * a + den * k
  {
  }

  /** A step of more than one moves the rounded value up. */
  lemma RoundUp(num: nat, num': nat, den: nat)
    requires den > 0 && num' > num + den
    ensures RoundHalfEven(num, den) < RoundHalfEven(num', den)
  {
    RoundBounds(num, den);
    RoundBounds(num', den);
    MulLess(RoundHalfEven(num, den), RoundHalfEven(num', den), den);
  }

  /** A step of less than one moves it by at most one, and never down. */
  lemma RoundNear(num: nat, num': nat, den: nat)
    requires den > 0 && num <= num' < num + den
    ensures RoundHalfEven(num, den) <= RoundHalfEven(num', den) <= RoundHalfEven(num, den) + 1
  {
    var a, b := RoundHalfEven(num, den), RoundHalfEven(num', den);
    RoundBounds(num, den);
    RoundBounds(num', den);
    MulNext(a, 2, den);
    MulLess(b, a + 2, den);
    Monotone(num, num', den);
  }

  lemma Quotient(num: nat, den: nat)
    requires den > 0
    ensures den * (num / den) <= num < den * (num / den) + den
    ensures num == den * (num / den) + num % den
  {
  }

  lemma QuotientMonotone(num: nat, num': nat, den: nat, q: nat, q': nat)
    requires num <= num' && den * q <= num && num' < den * q' + den
    ensures q <= q'
  {
    MulNext(q', 1, den);
    MulLess(q, q' + 1, den);
  }

  lemma Monotone(num: nat, num': nat, den: nat)
    requires den > 0 && num <= num'
    ensures RoundHalfEven(num, den) <= RoundHalfEven(num', den)
  {
    Quotient(num, den);
    Quotient(num', den);
    QuotientMonotone(num, num', den, num / den, num' / den);
  }

  lemma DivExact(k: nat, den: nat)
    requires den > 0
    ensures (den * k) / den == k && (den * k) % den == 0
  {
    var q := (den * k) / den;
    Quotient(den * k, den);
    MulNext(q, 1, den);
    MulNext(k, 1, den);
    MulLess(q, k + 1, den);
    MulLess(k, q + 1, den);
  }

  lemma RoundExact(k: nat, den: nat)
    requires den > 0
    ensures RoundHalfEven(k * den, den) == k
  {
    DivExact(k, den);
    assert k * den == den * k;
  }

  /** The index of pick `i` among `n` versions when `limit` are wanted. */
  function Index(i: nat, n: nat, limit: nat): nat
    requires limit > 2 && n > 2
  {
    RoundHalfEven(i * (n - 1), limit - 1)
  }

  lemma EndIndexes(n: nat, limit: nat)
    requires limit > 2 && n > 2
    ensures Index(0, n, limit) == 0 && Index(limit - 1, n, limit) == n - 1
  {
    RoundExact(0, limit - 1);
    RoundExact(n - 1, limit - 1);
    assert (limit - 1) * (n - 1) == (n - 1) * (limit - 1);
    assert 0 * (limit - 1) == 0 && 0 * (n - 1) == 0;
  }

  lemma IndexStep(i: nat, n: nat, limit: nat)
    requires limit > 2 && n > 2
    ensures limit <= n ==> Index(i, n, limit) < Index(i + 1, n, limit)
    ensures limit > n ==> Index(i, n, limit) <= Index(i + 1, n, limit) <= Index(i, n, limit) + 1
  {
    assert (i + 1) * (n - 1) == i * (n - 1) + (n - 1);
    if limit < n {
      RoundUp(i * (n - 1), (i + 1) * (n - 1), limit - 1);
    } else if limit == n {
      RoundExact(i, limit - 1);
      RoundExact(i + 1, limit - 1);
    } else {
      RoundNear(i * (n - 1), (i + 1) * (n - 1), limit - 1);
    }
  }

  lemma {:induction false} IndexesRise(i: nat, j: nat, n: nat, limit: nat)
    requires limit > 2 && n > 2 && i < j
    ensures Index(i, n, limit) <= Index(j, n, limit)
    ensures limit <= n ==> Index(i, n, limit) < Index(j, n, limit)
    decreases j
  {
    IndexStep(j - 1, n, limit);
    if i < j - 1 {
      IndexesRise(i, j - 1, n, limit);
    }
  }

  lemma IndexInRange(i: nat, n: nat, limit: nat)
    requires limit > 2 && n > 2 && i < limit
    ensures Index(i, n, limit) < n
  {
    EndIndexes(n, limit);
    if i < limit - 1 {
      IndexesRise(i, limit - 1, n, limit);
    }
  }

  /** With more picks than versions every version is picked. */
  lemma {:induction false} EveryIndexHit(k: nat, j: nat, n: nat, limit: nat) returns (i: nat)
    requires limit > n > 2 && j < limit && k <= Index(j, n, limit)
    ensures i <= j && Index(i, n, limit) == k
    decreases j
  {
    EndIndexes(n, limit);
    if Index(j, n, limit) == k {
      i := j;
    } else {
      IndexStep(j - 1, n, limit);
      i := EveryIndexHit(k, j - 1, n, limit);
    }
  }

  // ---- the picks ----

  predicate Increasing(available: seq<int>) {
    forall i, j :: 0 <= i < j < |available| ==> available[i] < available[j]
  }

  function Picked(available: seq<int>, limit: nat, count: nat): set<int>
    requires limit > 2 && |available| > 2 && count <= limit
  {
    set i | 0 <= i < count && Index(i, |available|, limit) < |available| :: available[Index(i, |available|, limit)]
  }

  lemma PickIsNew(available: seq<int>, limit: nat, i: nat)
    requires Increasing(available) && |available| >= limit > 2 && i < limit
    ensures Index(i, |available|, limit) < |available|
    ensures available[Index(i, |available|, limit)] !in Picked(available, limit, i)
    ensures Picked(available, limit, i + 1) == Picked(available, limit, i) + {available[Index(i, |available|, limit)]}
  {
    var n := |available|;
    IndexInRange(i, n, limit);
    forall k | 0 <= k < i ensures Index(k, n, limit) < Index(i, n, limit) {
      IndexesRise(k, i, n, limit);
    }
  }

  lemma {:induction false} SmallPicks(available: seq<int>, limit: nat, count: nat)
    requires Increasing(available) && |available| >= limit > 2 && count <= limit
    ensures |Picked(available, limit, count)| == count
  {
    if count == 0 {
    } else {
      SmallPicks(available, limit, count - 1);
      PickIsNew(available, limit, count - 1);
    }
  }

  function Elements(s: seq<int>): set<int> {
    set i | 0 <= i < |s| :: s[i]
  }

  lemma {:induction false} ElementsCount(s: seq<int>)
    requires Increasing(s)
    ensures |Elements(s)| == |s|
  {
    if s == [] {
    } else {
      var n := |s| - 1;
      ElementsCount(s[..n]);
      assert Elements(s) == Elements(s[..n]) + {s[n]};
    }
  }

  lemma AllPicked(available: seq<int>, limit: nat)
    requires limit > |available| > 2
    ensures Picked(available, limit, limit) == Elements(available)
  {
    var n := |available|;
    EndIndexes(n, limit);
    forall k | 0 <= k < n ensures available[k] in Picked(available, limit, limit) {
      var i := EveryIndexHit(k, limit - 1, n, limit);
    }
  }

  lemma PickedCount(available: seq<int>, limit: nat)
    requires limit > 2 && |available| > 2
    ensures Increasing(available) ==>
              |Picked(available, limit, limit)| == if limit < |available| then limit else |available|
  {
    if Increasing(available) {
      if limit <= |available| {
        SmallPicks(available, limit, limit);
      } else {
        AllPicked(available, limit);
        ElementsCount(available);
      }
    }
  }

  /** The positions picked, the first and the last always; how many versions that is when none is listed twice. */
  method SampleVersions(available: seq<int>, limit: int) returns (picks: set<int>)
    ensures available == [] ==> picks == {}
    ensures available != [] && (limit <= 2 || |available| <= 2) ==> picks == {available[0], available[|available| - 1]}
    ensures limit > 2 && |available| > 2 ==> picks == Picked(available, limit, limit)
    ensures available != [] ==> available[0] in picks && available[|available| - 1] in picks
    ensures picks <= Elements(available) && (limit > |available| ==> picks == Elements(available))
    ensures limit > 2 && |available| > 2 && Increasing(available) ==>
              |picks| == if limit < |available| then limit else |available|
  {
    var n := |available|;
    if n == 0 {
      return {};
    }
    picks := {available[0], available[n - 1]};
    if limit > 2 && n > 2 {
      for i := 0 to limit
        invariant picks == Picked(available, limit, i) + {available[0], available[n - 1]}
      {
        IndexInRange(i, n, limit);
        picks := picks + {available[Index(i, n, limit)]};
      }
      EndIndexes(n, limit);
      assert available[Index(0, n, limit)] in Picked(available, limit, limit);
      assert available[Index(limit - 1, n, limit)] in Picked(available, limit, limit);
      assert picks == Picked(available, limit, limit);
      if limit > n {
        AllPicked(available, limit);
      }
      PickedCount(available, limit);
    }
  }
}

/** Means, medians and interpolated percentiles of exact real samples, and their indifference to order. */
module Statistics {
  import opened Wrappers
  import opened Orders

  predicate RealLeq(a: real, b: real) {
    a <= b
  }

  function Sorted(xs: seq<real>): (r: seq<real>)
    ensures |r| == |xs|
  {
    Sort(RealLeq, xs)
  }

  function Sum(xs: seq<real>): real {
    if xs == [] then 0.0 else xs[0] + Sum(xs[1..])
  }

  function Mean(xs: seq<real>): Option<real> {
    if xs == [] then None else Some(Sum(xs) / |xs| as real)
  }

  function Median(xs: seq<real>): Option<real> {
    var s, n := Sorted(xs), |xs|;
    if n == 0 then None
    else if n % 2 == 1 then Some(s[n / 2])
    else Some((s[n / 2 - 1] + s[n / 2]) / 2.0)
  }

  function Ceiling(r: real): int {
    -((-r).Floor)
  }

  function Lerp(a: real, b: real, w: real): real {
    a + (b - a) * w
  }

  lemma ScaleLeq(a: real, b: real, w: real)
    requires a <= b && w >= 0.0
    ensures a * w <= b * w
  {
    assert (b - a) * w >= 0.0;
  }

  lemma LerpWeight(a: real, b: real, v: real, w: real)
    requires a <= b && v <= w
    ensures Lerp(a, b, v) <= Lerp(a, b, w)
  {
    ScaleLeq(v, w, b - a);
  }

  lemma LerpEnds(a: real, b: real, c: real, d: real, w: real)
    requires a <= c && b <= d && 0.0 <= w <= 1.0
    ensures Lerp(a, b, w) <= Lerp(c, d, w)
  {
    assert Lerp(c, d, w) - Lerp(a, b, w) == (c - a) * (1.0 - w) + (d - b) * w;
    assert (c - a) * (1.0 - w) >= 0.0 && (d - b) * w >= 0.0;
  }

  /** The value at a fractional rank of a sorted sample. */
  function AtRank(s: seq<real>, rank: real): real
    requires 0.0 <= rank <= (|s| - 1) as real
  {
    var lo, hi := rank.Floor, Ceiling(rank);
    if lo == hi then s[lo] else Lerp(s[lo], s[hi], rank - lo as real)
  }

  function Rank(pct: real, n: nat): real {
    (pct / 100.0) * (n - 1) as real
  }

  lemma RankInRange(pct: real, n: nat)
    requires 0.0 <= pct <= 100.0 && n > 0
    ensures 0.0 <= Rank(pct, n) <= (n - 1) as real
  {
    var f, m := pct / 100.0, (n - 1) as real;
    assert 0.0 <= f <= 1.0 && m >= 0.0;
    assert f * m <= 1.0 * m;
  }

  function Percentile(values: seq<real>, pct: real): Option<real>
    requires 0.0 <= pct <= 100.0
  {
    if values == [] then None
    else
      var ordered := Sorted(values);
      if |ordered| == 1 then Some(ordered[0])
      else
        RankInRange(pct, |ordered|);
        Some(AtRank(ordered, Rank(pct, |ordered|)))
  }

  lemma SortedIsSorted(xs: seq<real>)
    ensures SortedBy(RealLeq, Sorted(xs)) && multiset(Sorted(xs)) == multiset(xs)
  {
    SortSorts(RealLeq, xs);
    SortPermutes(RealLeq, xs);
  }

  lemma AtRankBetween(s: seq<real>, rank: real)
    requires SortedBy(RealLeq, s) && 0.0 <= rank <= (|s| - 1) as real
    ensures 0 <= rank.Floor <= Ceiling(rank) < |s| && Ceiling(rank) <= rank.Floor + 1
    ensures s[rank.Floor] <= AtRank(s, rank) <= s[Ceiling(rank)]
  {
    var lo, hi := rank.Floor, Ceiling(rank);
    if lo != hi {
      assert RealLeq(s[lo], s[hi]);
      LerpWeight(s[lo], s[hi], 0.0, rank - lo as real);
      LerpWeight(s[lo], s[hi], rank - lo as real, 1.0);
    }
  }

  /** Interpolation never decreases with the rank, within a cell or across cells. */
  lemma AtRankMonotone(s: seq<real>, r: real, q: real)
    requires SortedBy(RealLeq, s) && 0.0 <= r <= q <= (|s| - 1) as real
    ensures AtRank(s, r) <= AtRank(s, q)
  {
    AtRankBetween(s, r);
    AtRankBetween(s, q);
    if r.Floor == q.Floor {
      var lo := r.Floor;
      if lo != Ceiling(r) {
        assert RealLeq(s[lo], s[lo + 1]);
        assert Ceiling(r) == lo + 1 == Ceiling(q);
        LerpWeight(s[lo], s[lo + 1], r - lo as real, q - lo as real);
      }
    } else {
      assert Ceiling(r) <= q.Floor;
      assert Ceiling(r) < q.Floor ==> RealLeq(s[Ceiling(r)], s[q.Floor]);
    }
  }

  /** No value of `s` is above its counterpart in `t`. */
  ghost predicate Pointwise(s: seq<real>, t: seq<real>) {
    |s| == |t| && forall i :: 0 <= i < |s| ==> s[i] <= t[i]
  }

  lemma AtRankPointwise(s: seq<real>, t: seq<real>, rank: real)
    requires Pointwise(s, t) && 0.0 <= rank <= (|s| - 1) as real
    ensures AtRank(s, rank) <= AtRank(t, rank)
  {
    var lo, hi := rank.Floor, Ceiling(rank);
    if lo != hi {
      LerpEnds(s[lo], s[hi], t[lo], t[hi], rank - lo as real);
    }
  }

  /** A percentile lies between the least and the greatest value. */
  lemma PercentileBetween(values: seq<real>, pct: real, low: real, high: real)
    requires 0.0 <= pct <= 100.0 && values != []
    requires forall x :: x in values ==> low <= x <= high
    ensures low <= Percentile(values, pct).value <= high
  {
    var s := Sorted(values);
    SortedIsSorted(values);
    SameElements(s, values);
    assert forall i :: 0 <= i < |s| ==> s[i] in s;
    if |s| > 1 {
      RankInRange(pct, |s|);
      AtRankBetween(s, Rank(pct, |s|));
    }
  }

  lemma SortedPermutation(xs: seq<real>, ys: seq<real>)
    requires multiset(xs) == multiset(ys)
    ensures Sorted(xs) == Sorted(ys) && |xs| == |ys|
  {
    SortedIsSorted(xs);
    SortedIsSorted(ys);
    SortedUnique(RealLeq, Sorted(xs), Sorted(ys));
  }

  lemma PercentilePermutation(xs: seq<real>, ys: seq<real>, pct: real)
    requires 0.0 <= pct <= 100.0 && multiset(xs) == multiset(ys)
    ensures Percentile(xs, pct) == Percentile(ys, pct)
  {
    SortedPermutation(xs, ys);
  }

  lemma PercentileMonotone(values: seq<real>, p: real, q: real)
    requires 0.0 <= p <= q <= 100.0 && values != []
    ensures Percentile(values, p).value <= Percentile(values, q).value
  {
    var s := Sorted(values);
    if |s| > 1 {
      SortedIsSorted(values);
      RankInRange(p, |s|);
      RankInRange(q, |s|);
      ScaleLeq(p / 100.0, q / 100.0, (|s| - 1) as real);
      AtRankMonotone(s, Rank(p, |s|), Rank(q, |s|));
    }
  }

  lemma ConsPointwise(x: real, s: seq<real>, y: real, t: seq<real>)
    requires x <= y && Pointwise(s, t)
    ensures Pointwise([x] + s, [y] + t)
  {
  }

  lemma TailPointwise(s: seq<real>, t: seq<real>)
    requires s != [] && Pointwise(s, t)
    ensures s[0] <= t[0] && Pointwise(s[1..], t[1..])
  {
  }

  lemma InsertStep(x: real, s: seq<real>)
    ensures Insert(RealLeq, x, s)
         == if s == [] || x <= s[0] then [x] + s else [s[0]] + Insert(RealLeq, x, s[1..])
  {
  }

  lemma InsertLeast(s: seq<real>)
    requires SortedBy(RealLeq, s) && s != []
    ensures Insert(RealLeq, s[0], s[1..]) == s && SortedBy(RealLeq, s[1..])
  {
    assert |s| > 1 ==> RealLeq(s[0], s[1]);
    InsertStep(s[0], s[1..]);
  }

  lemma {:induction false} InsertPointwise(x: real, s: seq<real>, y: real, t: seq<real>)
    requires SortedBy(RealLeq, s) && SortedBy(RealLeq, t)
    requires x <= y && Pointwise(s, t)
    ensures Pointwise(Insert(RealLeq, x, s), Insert(RealLeq, y, t))
    decreases |s|
  {
    InsertStep(x, s);
    InsertStep(y, t);
    if s == [] || (x <= s[0] && y <= t[0]) {
      ConsPointwise(x, s, y, t);
    } else {
      InsertLeast(s);
      InsertLeast(t);
      TailPointwise(s, t);
      hide *;
      var low, high := if x <= s[0] then s[0] else x, if y <= t[0] then t[0] else y;
      InsertPointwise(low, s[1..], high, t[1..]);
      ConsPointwise(if x <= s[0] then x else s[0], Insert(RealLeq, low, s[1..]),
                    if y <= t[0] then y else t[0], Insert(RealLeq, high, t[1..]));
    }
  }

  /** Raising values raises every order statistic. */
  lemma {:induction false} SortedPointwise(xs: seq<real>, ys: seq<real>)
    requires Pointwise(xs, ys)
    ensures Pointwise(Sorted(xs), Sorted(ys))
  {
    if xs != [] {
      hide Pointwise;
      TailPointwise(xs, ys);
      SortedPointwise(xs[1..], ys[1..]);
      SortedIsSorted(xs[1..]);
      SortedIsSorted(ys[1..]);
      InsertPointwise(xs[0], Sorted(xs[1..]), ys[0], Sorted(ys[1..]));
    }
  }

  lemma PercentilePointwise(xs: seq<real>, ys: seq<real>, pct: real)
    requires 0.0 <= pct <= 100.0 && xs != []
    requires Pointwise(xs, ys)
    ensures Percentile(xs, pct).value <= Percentile(ys, pct).value
  {
    SortedPointwise(xs, ys);
    if |xs| > 1 {
      RankInRange(pct, |xs|);
      AtRankPointwise(Sorted(xs), Sorted(ys), Rank(pct, |xs|));
    }
  }

  lemma PercentileFiftyIsMedian(values: seq<real>)
    ensures Percentile(values, 50.0) == Median(values)
  {
    var n := |values|;
    if n > 1 {
      var rank := Rank(50.0, n);
      assert rank == (n - 1) as real / 2.0;
      if n % 2 == 1 {
        assert n - 1 == 2 * (n / 2);
        assert rank == (n / 2) as real;
      } else {
        assert n == 2 * (n / 2);
        assert rank == (n / 2) as real - 0.5;
        assert rank.Floor == n / 2 - 1 && Ceiling(rank) == n / 2;
        var s := Sorted(values);
        var lo, hi := s[n / 2 - 1], s[n / 2];
        assert AtRank(s, rank) == Lerp(lo, hi, 0.5);
      }
    }
  }

  lemma PercentInRange(pct: real, m: real, r: real)
    requires m > 0.0 && 0.0 <= r <= m && pct * m == 100.0 * r
    ensures 0.0 <= pct <= 100.0
  {
    assert pct > 100.0 ==> pct * m > 100.0 * m;
    assert pct < 0.0 ==> pct * m < 0.0;
  }

  lemma RankAt(k: nat, w: real, n: nat)
    requires n > 1 && 0.0 <= w <= 1.0 && k < n - 1
    ensures var pct := 100.0 * (k as real + w) / (n - 1) as real;
            0.0 <= pct <= 100.0 && Rank(pct, n) == k as real + w
  {
    var m, r := (n - 1) as real, k as real + w;
    var pct := 100.0 * r / m;
    assert m > 0.0 && 0.0 <= r <= m;
    assert pct * m == 100.0 * r;
    PercentInRange(pct, m, r);
    assert (pct / 100.0) * m == r;
  }

  lemma AtRankExactly(s: seq<real>, k: nat, w: real)
    requires k < |s| - 1 && 0.0 <= w < 1.0
    ensures AtRank(s, k as real + w) == (1.0 - w) * s[k] + w * s[k + 1]
  {
    var rank := k as real + w;
    assert rank.Floor == k;
    if w > 0.0 {
      assert Ceiling(rank) == k + 1;
    } else {
      assert Ceiling(rank) == k;
    }
    assert s[k] + (s[k + 1] - s[k]) * w == (1.0 - w) * s[k] + w * s[k + 1];
  }

  /**
   Between two neighbours of the sorted sample a percentile moves linearly: at the share of `k + w` in the
   steps between the values it lies at weight `w` between the values at `k` and `k + 1`.
   */
  lemma PercentileExactly(values: seq<real>, sorted: seq<real>, k: nat, w: real)
    requires SortedBy(RealLeq, sorted) && multiset(sorted) == multiset(values)
    requires k < |sorted| - 1 && 0.0 <= w < 1.0
    ensures var pct := 100.0 * (k as real + w) / (|sorted| - 1) as real;
            && 0.0 <= pct <= 100.0
            && Percentile(values, pct) == Some((1.0 - w) * sorted[k] + w * sorted[k + 1])
  {
    var pct := 100.0 * (k as real + w) / (|sorted| - 1) as real;
    RankAt(k, w, |sorted|);
    SortedIsSorted(values);
    SortedUnique(RealLeq, Sorted(values), sorted);
    hide Rank, Sorted;
    AtRankExactly(sorted, k, w);
  }

  /** At 100 it is the greatest value. */
  lemma PercentileHundred(values: seq<real>, sorted: seq<real>)
    requires SortedBy(RealLeq, sorted) && multiset(sorted) == multiset(values) && sorted != []
    ensures Percentile(values, 100.0) == Some(sorted[|sorted| - 1])
  {
    SortedIsSorted(values);
    SortedUnique(RealLeq, Sorted(values), sorted);
  }

  lemma {:induction false} SumConcat(s: seq<real>, t: seq<real>)
    ensures Sum(s + t) == Sum(s) + Sum(t)
  {
    if s == [] {
      assert s + t == t;
    } else {
      assert (s + t)[1..] == s[1..] + t;
      SumConcat(s[1..], t);
    }
  }

  lemma MeanTimes(sum: real, n: real)
    requires n > 0.0
    ensures sum / n * n == sum
  {
  }

  /** A mean times the number of values is their sum, which adds up over concatenation from the single values. */
  lemma MeanExactly(xs: seq<real>, ys: seq<real>, x: real)
    ensures Mean(xs).None? <==> xs == []
    ensures Mean(xs).Some? ==> Mean(xs).value * |xs| as real == Sum(xs)
    ensures Sum(xs + ys) == Sum(xs) + Sum(ys) && Sum([x]) == x
  {
    SumConcat(xs, ys);
    assert [x][1..] == [];
    hide Sum;
    if xs != [] {
      MeanTimes(Sum(xs), |xs| as real);
    }
  }

  // ----- Gathering in any order -----

  /** Equal multisets stay equal when a sequence's head is taken out of both. */
  lemma RemoveHead<T>(s: seq<T>, t: seq<T>) returns (i: nat)
    requires s != [] && multiset(s) == multiset(t)
    ensures i < |t| && t[i] == s[0]
    ensures t == t[..i] + [s[0]] + t[i + 1..] && multiset(s[1..]) == multiset(t[..i] + t[i + 1..])
  {
    SameElements(s, t);
    assert s[0] in t;
    i :| 0 <= i < |t| && t[i] == s[0];
    assert s == [s[0]] + s[1..];
    assert t == t[..i] + [s[0]] + t[i + 1..];
    assert multiset(t) == multiset(t[..i]) + multiset{s[0]} + multiset(t[i + 1..]);
    assert multiset(s) == multiset{s[0]} + multiset(s[1..]);
    assert multiset(s[1..]) == multiset(s) - multiset{s[0]};
  }

  /** The values that `f` finds, in order: a comprehension with a filter. */
  function Collect<A, B>(f: A -> Option<B>, s: seq<A>): seq<B> {
    if s == [] then []
    else (if f(s[0]).Some? then [f(s[0]).value] else []) + Collect(f, s[1..])
  }

  lemma {:induction false} CollectConcat<A, B>(f: A -> Option<B>, s: seq<A>, t: seq<A>)
    ensures Collect(f, s + t) == Collect(f, s) + Collect(f, t)
  {
    if s == [] {
      assert s + t == t;
    } else {
      assert (s + t)[1..] == s[1..] + t && (s + t)[0] == s[0];
      CollectConcat(f, s[1..], t);
      Associative(if f(s[0]).Some? then [f(s[0]).value] else [], Collect(f, s[1..]), Collect(f, t));
    }
  }

  /** Reordering the input reorders what is collected. */
  lemma {:induction false} CollectPermutes<A, B>(f: A -> Option<B>, s: seq<A>, t: seq<A>)
    requires multiset(s) == multiset(t)
    ensures multiset(Collect(f, s)) == multiset(Collect(f, t))
  {
    SameElements(s, t);
    if s != [] {
      var x := s[0];
      var i := RemoveHead(s, t);
      var rest := t[..i] + t[i + 1..];
      CollectPermutes(f, s[1..], rest);
      CollectConcat(f, t[..i], t[i + 1..]);
      CollectConcat(f, t[..i] + [x], t[i + 1..]);
      CollectConcat(f, t[..i], [x]);
      assert Collect(f, [x]) == (if f(x).Some? then [f(x).value] else []);
      assert multiset(Collect(f, t)) == multiset(Collect(f, rest)) + multiset(Collect(f, [x]));
    }
  }

  lemma {:induction false} SumPermutation(s: seq<real>, t: seq<real>)
    requires multiset(s) == multiset(t)
    ensures Sum(s) == Sum(t)
  {
    SameElements(s, t);
    if s != [] {
      var i := RemoveHead(s, t);
      var rest := t[..i] + t[i + 1..];
      assert t == t[..i] + ([s[0]] + t[i + 1..]);
      SumPermutation(s[1..], rest);
      SumConcat(t[..i], t[i + 1..]);
      SumConcat(t[..i], [s[0]] + t[i + 1..]);
      assert ([s[0]] + t[i + 1..])[1..] == t[i + 1..];
    }
  }
}

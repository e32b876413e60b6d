/** The search for the largest number of records whose prompt fits the token budget. */
module PromptSearch {
  import opened Arithmetic

  /** The largest `m` with `2^m <= n`. */
  function Log2(n: nat): nat
    requires n > 0
  {
    if n == 1 then 0 else 1 + Log2(n / 2)
  }

  lemma {:induction false} Log2Power(n: nat, m: nat)
    requires n >= Power2(m)
    ensures Log2(n) >= m
  {
    if m > 0 {
      assert n / 2 >= Power2(m - 1);
      Log2Power(n / 2, m - 1);
    }
  }

  /** Halving an interval of width at most `2^k` takes at most `k` probes. */
  method Bisect(tokens: nat -> nat, target: int, low: nat, high: nat, ghost k: nat)
      returns (lo: nat, ghost calls: nat)
    requires low < high <= low + Power2(k)
    requires tokens(high) > target
    ensures low <= lo < high && tokens(lo + 1) > target
    ensures lo > low ==> tokens(lo) <= target
    ensures calls <= k
  {
    var hi := high;
    lo, calls := low, 0;
    ghost var left := k;
    while lo + 1 < hi
      invariant low <= lo < hi <= high && hi <= lo + Power2(left)
      invariant tokens(hi) > target && (lo > low ==> tokens(lo) <= target)
      invariant calls + left == k
      decreases hi - lo
    {
      var middle := (lo + hi) / 2;
      calls := calls + 1;
      left := left - 1;
      if tokens(middle) <= target {
        lo := middle;
      } else {
        hi := middle;
      }
    }
  }

  lemma DoubledSize(j: nat)
    ensures 256 * Power2(j) == Power2(8 + j)
  {
    if j > 0 {
      DoubledSize(j - 1);
    } else {
      assert Power2(8) == 256;
    }
  }

  /** The doubling loop, which ends at the first doubled size that is rejected. */
  method Gallop(tokens: nat -> nat, target: int, ghost j: nat)
      returns (lo: nat, hi: nat, ghost m: nat, ghost calls: nat)
    requires tokens(256 * Power2(j)) > target
    ensures m >= 7 && hi == Power2(m + 1) && tokens(hi) > target && calls == m - 6
    ensures if m == 7 then lo == 10 else lo == Power2(m) && tokens(lo) <= target
  {
    lo, hi, m, calls := 10, 256, 7, 1;
    DoubledSize(0);
    DoubledSize(j);
    assert Power2(0) == 1;
    hide Power2;
    while tokens(hi) <= target
      invariant 7 <= m <= 7 + j && hi == Power2(m + 1) && calls == m - 6
      invariant if m == 7 then lo == 10 else lo == Power2(m) && tokens(lo) <= target
      decreases 7 + j - m
    {
      Power2Step(m + 1);
      m := m + 1;
      lo, hi := hi, hi * 2;
      calls := calls + 1;
    }
  }

  /**
   The whole search, if some doubled size is rejected. The size found is followed by one that does not
   fit, and fits itself unless it is the ten records the search starts from; the number of tokenizer calls
   is logarithmic in it.
   */
  method LargestPrompt(tokens: nat -> nat, target: int, ghost j: nat)
      returns (records: nat, promptTokens: nat, ghost calls: nat)
    requires tokens(256 * Power2(j)) > target
    ensures records >= 10 && promptTokens == tokens(records)
    ensures tokens(records + 1) > target
    ensures (tokens(10) <= target || records > 10) ==> tokens(records) <= target
    ensures calls <= 10 || calls <= 2 * Log2(records) - 5
  {
    assert Power2(8) == 256;
    hide Power2, Log2;
    var lo, hi: nat;
    ghost var m: nat, probes: nat;
    lo, hi, m, calls := Gallop(tokens, target, j);
    Power2Step(m);
    records, probes := Bisect(tokens, target, lo, hi, if m == 7 then 8 else m);
    calls := calls + probes + 1;
    promptTokens := tokens(records);
    if m >= 8 {
      Log2Power(records, m);
    }
  }

  ghost predicate Monotone(tokens: nat -> nat) {
    forall a: nat, b: nat :: a <= b ==> tokens(a) <= tokens(b)
  }

  /** When more records never take fewer tokens, a size that fits and whose successor does not is the largest. */
  lemma FittingBoundaryIsLargest(tokens: nat -> nat, target: int, records: nat)
    requires Monotone(tokens)
    ensures tokens(records) <= target < tokens(records + 1) <==>
            forall n: nat :: tokens(n) <= target <==> n <= records
  {
    if tokens(records) <= target < tokens(records + 1) {
      forall n: nat
        ensures tokens(n) <= target <==> n <= records
      {
        if n > records {
          assert tokens(records + 1) <= tokens(n);
        }
      }
    }
  }
}

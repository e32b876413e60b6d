/** The alternating row and column normalisation of the residual-mixing reference, over exact reals. */
module MatrixBalance {
  import opened Arithmetic
  import opened Statistics

  ghost predicate PositiveVector(v: Vector) {
    |v| > 0 && forall i :: 0 <= i < |v| ==> v[i] > 0.0
  }

  ghost predicate Positive(m: Matrix) {
    && |m| > 0
    && (forall i :: 0 <= i < |m| ==> PositiveVector(m[i]))
    && forall i :: 0 <= i < |m| ==> |m[i]| == |m[0]|
  }

  lemma {:induction false} SumPositive(v: Vector)
    requires PositiveVector(v)
    ensures Sum(v) > 0.0
  {
    if |v| > 1 {
      SumPositive(v[1..]);
    } else {
      assert v[1..] == [];
    }
  }

  function Divided(v: Vector, d: real): (r: Vector)
    requires d != 0.0
    ensures |r| == |v|
  {
    seq(|v|, i requires 0 <= i < |v| => v[i] / d)
  }

  function ColumnSum(m: Matrix, j: nat): (s: real)
    requires Positive(m) && j < |m[0]|
    ensures s > 0.0
  {
    SumPositive(Column(m, j));
    Sum(Column(m, j))
  }

  function RowSum(m: Matrix, i: nat): (s: real)
    requires Positive(m) && i < |m|
    ensures s > 0.0
  {
    SumPositive(m[i]);
    Sum(m[i])
  }

  function ColumnSums(m: Matrix): (s: Vector)
    requires Positive(m)
    ensures |s| == |m[0]| && forall j :: 0 <= j < |s| ==> s[j] == ColumnSum(m, j)
  {
    seq(|m[0]|, j requires 0 <= j < |m[0]| => ColumnSum(m, j))
  }

  function RowSums(m: Matrix): (s: Vector)
    requires Positive(m)
    ensures |s| == |m| && forall i :: 0 <= i < |s| ==> s[i] == RowSum(m, i)
  {
    seq(|m|, i requires 0 <= i < |m| => RowSum(m, i))
  }

  function RowStep(m: Matrix, eps: real): (r: Matrix)
    requires Positive(m) && eps >= 0.0
    ensures Positive(r) && |r| == |m| && |r[0]| == |m[0]|
    ensures forall i, j :: 0 <= i < |m| && 0 <= j < |m[i]| ==> r[i][j] == m[i][j] / (RowSums(m)[i] + eps)
  {
    var s := RowSums(m);
    seq(|m|, i requires 0 <= i < |m| => seq(|m[i]|, j requires 0 <= j < |m[i]| => m[i][j] / (s[i] + eps)))
  }

  function ColumnStep(m: Matrix, eps: real): (r: Matrix)
    requires Positive(m) && eps >= 0.0
    ensures Positive(r) && |r| == |m| && |r[0]| == |m[0]|
    ensures forall i, j :: 0 <= i < |m| && 0 <= j < |m[i]| ==> r[i][j] == m[i][j] / (ColumnSums(m)[j] + eps)
  {
    var s := ColumnSums(m);
    seq(|m|, i requires 0 <= i < |m| => seq(|m[i]|, j requires 0 <= j < |m[i]| => m[i][j] / (s[j] + eps)))
  }

  function Share(x: real, total: real, eps: real): (r: real)
    requires x > 0.0 && total > 0.0 && eps >= 0.0
    ensures r > 0.0
  {
    x / total + eps
  }

  /** The softmax of every row, given the positive exponentials, with the epsilon added to every entry. */
  function Softmax(exponentials: Matrix, eps: real): (r: Matrix)
    requires Positive(exponentials) && eps >= 0.0
    ensures Positive(r) && |r| == |exponentials| && |r[0]| == |exponentials[0]|
  {
    seq(|exponentials|, i requires 0 <= i < |exponentials| =>
      seq(|exponentials[i]|, j requires 0 <= j < |exponentials[i]| =>
        Share(exponentials[i][j], RowSum(exponentials, i), eps)))
  }

  /** The matrix after `t` passes of the loop; the first pass has no row step. */
  function Passes(start: Matrix, eps: real, t: nat): (r: Matrix)
    requires Positive(start) && eps >= 0.0
    ensures Positive(r) && |r| == |start| && |r[0]| == |start[0]|
  {
    if t == 0 then start
    else
      var m := Passes(start, eps, t - 1);
      ColumnStep(if t == 1 then m else RowStep(m, eps), eps)
  }

  /** The mixing matrix of `reference`; the loop counts 20 passes there. */
  method Reference(exponentials: Matrix, eps: real, passes: nat) returns (matrix: Matrix)
    requires Positive(exponentials) && eps >= 0.0
    ensures matrix == Passes(Softmax(exponentials, eps), eps, passes)
  {
    matrix := Softmax(exponentials, eps);
    for iteration := 0 to passes
      invariant matrix == Passes(Softmax(exponentials, eps), eps, iteration)
    {
      if iteration != 0 {
        matrix := RowStep(matrix, eps);
      }
      matrix := ColumnStep(matrix, eps);
    }
  }

  // ----- Scaling -----

  function Rescaled(r: real, x: real, c: real): real {
    r * x * c
  }

  /** `m` is `s` with row `i` multiplied by `r[i]` and column `j` by `c[j]`. */
  ghost predicate ScaledBy(m: Matrix, s: Matrix, r: Vector, c: Vector) {
    && Positive(m) && Positive(s) && PositiveVector(r) && PositiveVector(c)
    && |m| == |s| == |r| && |m[0]| == |s[0]| == |c|
    && forall i, j :: 0 <= i < |m| && 0 <= j < |c| ==> m[i][j] == Rescaled(r[i], s[i][j], c[j])
  }

  lemma DivideIsScale(x: real, r: real, s: real, c: real, d: real)
    requires d > 0.0 && x == Rescaled(r, s, c)
    ensures x / d == Rescaled(r / d, s, c) && x / d == Rescaled(r, s, c / d)
  {
    var e := 1.0 / d;
    assert x / d == x * e && r / d == r * e && c / d == c * e;
    assert (r * s * c) * e == (r * e) * s * c == r * s * (c * e);
  }

  function DividedBy(v: Vector, sums: Vector, eps: real): (q: Vector)
    requires PositiveVector(v) && PositiveVector(sums) && |v| == |sums| && eps >= 0.0
    ensures PositiveVector(q) && |q| == |v| && forall i :: 0 <= i < |v| ==> q[i] == v[i] / (sums[i] + eps)
  {
    seq(|v|, i requires 0 <= i < |v| => v[i] / (sums[i] + eps))
  }

  lemma RowStepScales(m: Matrix, s: Matrix, r: Vector, c: Vector, eps: real) returns (q: Vector)
    requires ScaledBy(m, s, r, c) && eps >= 0.0
    ensures ScaledBy(RowStep(m, eps), s, q, c)
  {
    hide RowSum, RowStep, Rescaled;
    var sums := RowSums(m);
    q := DividedBy(r, sums, eps);
    hide RowSums, DividedBy;
    forall i, j | 0 <= i < |m| && 0 <= j < |c|
      ensures RowStep(m, eps)[i][j] == Rescaled(q[i], s[i][j], c[j])
    {
      DivideIsScale(m[i][j], r[i], s[i][j], c[j], sums[i] + eps);
    }
  }

  lemma ColumnStepScales(m: Matrix, s: Matrix, r: Vector, c: Vector, eps: real) returns (q: Vector)
    requires ScaledBy(m, s, r, c) && eps >= 0.0
    ensures ScaledBy(ColumnStep(m, eps), s, r, q)
  {
    hide ColumnSum, ColumnStep, Rescaled;
    var sums := ColumnSums(m);
    q := DividedBy(c, sums, eps);
    hide ColumnSums, DividedBy;
    forall i, j | 0 <= i < |m| && 0 <= j < |c|
      ensures ColumnStep(m, eps)[i][j] == Rescaled(r[i], s[i][j], q[j])
    {
      DivideIsScale(m[i][j], r[i], s[i][j], c[j], sums[j] + eps);
    }
  }

  /** After any number of passes the matrix is the start scaled by positive row and column factors. */
  lemma {:induction false} PassesScale(start: Matrix, eps: real, t: nat) returns (r: Vector, c: Vector)
    requires Positive(start) && eps >= 0.0
    ensures ScaledBy(Passes(start, eps, t), start, r, c)
  {
    if t == 0 {
      r, c := seq(|start|, _ => 1.0), seq(|start[0]|, _ => 1.0);
    } else {
      r, c := PassesScale(start, eps, t - 1);
      var m := Passes(start, eps, t - 1);
      if t > 1 {
        r := RowStepScales(m, start, r, c, eps);
        m := RowStep(m, eps);
      }
      c := ColumnStepScales(m, start, r, c, eps);
    }
  }

  lemma CrossProducts(ri: real, rk: real, cj: real, cl: real, sij: real, skl: real, sil: real, skj: real)
    ensures Rescaled(ri, sij, cj) * Rescaled(rk, skl, cl) * (sil * skj)
         == Rescaled(ri, sil, cl) * Rescaled(rk, skj, cj) * (sij * skl)
  {
    var f := ri * rk * cj * cl;
    assert (ri * sij * cj) * (rk * skl * cl) == f * (sij * skl);
    assert (ri * sil * cl) * (rk * skj * cj) == f * (sil * skj);
  }

  /** All cross ratios of two rows and two columns are conserved. */
  lemma {:induction false} CrossRatiosConserved(start: Matrix, eps: real, t: nat, i: nat, k: nat, j: nat, l: nat)
    requires Positive(start) && eps >= 0.0
    requires i < |start| && k < |start| && j < |start[0]| && l < |start[0]|
    ensures var m := Passes(start, eps, t);
            (m[i][j] * m[k][l]) * (start[i][l] * start[k][j]) == (m[i][l] * m[k][j]) * (start[i][j] * start[k][l])
  {
    hide Passes, Rescaled;
    var r, c := PassesScale(start, eps, t);
    CrossProducts(r[i], r[k], c[j], c[l], start[i][j], start[k][l], start[i][l], start[k][j]);
  }

  // ----- Column sums -----

  lemma DivideSum(a: real, b: real, d: real)
    requires d != 0.0
    ensures a / d + b / d == (a + b) / d
  {
  }

  lemma {:induction false} SumDivided(v: Vector, d: real)
    requires d != 0.0
    ensures Sum(Divided(v, d)) == Sum(v) / d
  {
    if v != [] {
      SumDivided(v[1..], d);
      assert Divided(v, d)[1..] == Divided(v[1..], d);
      DivideSum(v[0], Sum(v[1..]), d);
    }
  }

  /** A column step brings a column sum `s` to `s / (s + eps)`. */
  lemma ColumnSumsAfter(m: Matrix, eps: real, j: nat)
    requires Positive(m) && eps >= 0.0 && j < |m[0]|
    ensures ColumnSum(ColumnStep(m, eps), j) == ColumnSum(m, j) / (ColumnSum(m, j) + eps)
  {
    var d := ColumnSum(m, j) + eps;
    assert Column(ColumnStep(m, eps), j) == Divided(Column(m, j), d);
    SumDivided(Column(m, j), d);
  }

  lemma RowSumsAfter(m: Matrix, eps: real, i: nat)
    requires Positive(m) && eps >= 0.0 && i < |m|
    ensures RowSum(RowStep(m, eps), i) == RowSum(m, i) / (RowSum(m, i) + eps)
  {
    var d := RowSum(m, i) + eps;
    assert RowStep(m, eps)[i] == Divided(m[i], d);
    SumDivided(m[i], d);
  }

  lemma FractionBelowOne(s: real, eps: real)
    requires s > 0.0 && eps >= 0.0
    ensures eps > 0.0 ==> 0.0 < s / (s + eps) < 1.0
    ensures eps == 0.0 ==> s / (s + eps) == 1.0
  {
    if eps > 0.0 {
      assert s / (s + eps) * (s + eps) == s;
    }
  }

  lemma ColumnStepBounded(m: Matrix, eps: real, j: nat)
    requires Positive(m) && eps >= 0.0 && j < |m[0]|
    ensures eps > 0.0 ==> 0.0 < ColumnSum(ColumnStep(m, eps), j) < 1.0
    ensures eps == 0.0 ==> ColumnSum(ColumnStep(m, eps), j) == 1.0
  {
    hide ColumnSum, ColumnStep;
    ColumnSumsAfter(m, eps, j);
    FractionBelowOne(ColumnSum(m, j), eps);
  }

  /** Column sums after each pass lie strictly between 0 and 1; without the epsilon they are 1. */
  lemma {:induction false} ColumnSumsBounded(start: Matrix, eps: real, t: nat, j: nat)
    requires Positive(start) && eps >= 0.0 && t > 0 && j < |start[0]|
    ensures eps > 0.0 ==> 0.0 < ColumnSum(Passes(start, eps, t), j) < 1.0
    ensures eps == 0.0 ==> ColumnSum(Passes(start, eps, t), j) == 1.0
  {
    var before := Passes(start, eps, t - 1);
    var m := if t == 1 then before else RowStep(before, eps);
    hide ColumnSum, ColumnStep, RowStep;
    ColumnStepBounded(m, eps, j);
  }

  // ----- What a pass is -----

  ghost predicate IsQuotient(y: real, x: real, d: real) {
    d > 0.0 && y * d == x
  }

  /** Every row of `m` divided by its sum plus `eps`. */
  ghost predicate RowsNormalised(m: Matrix, n: Matrix, eps: real) {
    && |n| == |m|
    && forall i :: 0 <= i < |m| ==>
         |n[i]| == |m[i]| && forall j :: 0 <= j < |m[i]| ==> IsQuotient(n[i][j], m[i][j], Sum(m[i]) + eps)
  }

  /** Every column of `m` divided by its sum plus `eps`. */
  ghost predicate ColumnsNormalised(m: Matrix, n: Matrix, eps: real)
    requires Positive(m)
  {
    && |n| == |m|
    && forall i :: 0 <= i < |m| ==>
         |n[i]| == |m[i]| && forall j :: 0 <= j < |m[i]| ==> IsQuotient(n[i][j], m[i][j], Sum(Column(m, j)) + eps)
  }

  lemma QuotientTimes(x: real, y: real, d: real)
    requires d > 0.0 && y == x / d
    ensures IsQuotient(y, x, d)
  {
  }

  lemma SumsAre(m: Matrix)
    requires Positive(m)
    ensures forall i :: 0 <= i < |m| ==> RowSums(m)[i] == Sum(m[i]) > 0.0
    ensures forall j :: 0 <= j < |m[0]| ==> ColumnSums(m)[j] == Sum(Column(m, j)) > 0.0
  {
    hide Sum, Column;
    assert forall i :: 0 <= i < |m| ==> RowSum(m, i) == Sum(m[i]);
    assert forall j :: 0 <= j < |m[0]| ==> ColumnSum(m, j) == Sum(Column(m, j));
  }

  lemma RowStepNormalises(m: Matrix, eps: real)
    requires Positive(m) && eps >= 0.0
    ensures RowsNormalised(m, RowStep(m, eps), eps)
  {
    hide RowStep, RowSum, RowSums, ColumnSums, Sum, IsQuotient, PositiveVector;
    var n := RowStep(m, eps);
    SumsAre(m);
    forall i, j | 0 <= i < |m| && 0 <= j < |m[i]|
      ensures |n[i]| == |m[i]| && IsQuotient(n[i][j], m[i][j], Sum(m[i]) + eps)
    {
      QuotientTimes(m[i][j], n[i][j], Sum(m[i]) + eps);
    }
  }

  lemma ColumnStepNormalises(m: Matrix, eps: real)
    requires Positive(m) && eps >= 0.0
    ensures ColumnsNormalised(m, ColumnStep(m, eps), eps)
  {
    hide ColumnStep, ColumnSum, RowSums, ColumnSums, Sum, Column, IsQuotient, PositiveVector;
    var n := ColumnStep(m, eps);
    SumsAre(m);
    forall i, j | 0 <= i < |m| && 0 <= j < |m[i]|
      ensures |n[i]| == |m[i]| && IsQuotient(n[i][j], m[i][j], Sum(Column(m, j)) + eps)
    {
      QuotientTimes(m[i][j], n[i][j], Sum(Column(m, j)) + eps);
    }
  }

  /** The first pass normalises the columns of the start and leaves its rows alone. */
  lemma FirstPass(start: Matrix, eps: real)
    requires Positive(start) && eps >= 0.0
    ensures ColumnsNormalised(start, Passes(start, eps, 1), eps)
  {
    hide ColumnStep, ColumnsNormalised;
    assert Passes(start, eps, 0) == start;
    ColumnStepNormalises(start, eps);
  }

  /** Every later pass normalises the rows and then the columns; in between, row sums `s` become `s / (s + eps)`. */
  lemma LaterPass(start: Matrix, eps: real, t: nat) returns (middle: Matrix)
    requires Positive(start) && eps >= 0.0 && t > 1
    ensures Positive(middle)
    ensures RowsNormalised(Passes(start, eps, t - 1), middle, eps)
    ensures ColumnsNormalised(middle, Passes(start, eps, t), eps)
    ensures var before := Passes(start, eps, t - 1);
            |middle| == |before| && forall i :: 0 <= i < |before| ==>
              Sum(before[i]) > 0.0 && Sum(middle[i]) == Sum(before[i]) / (Sum(before[i]) + eps)
  {
    hide ColumnStep, ColumnsNormalised, RowsNormalised, RowStep;
    var before := Passes(start, eps, t - 1);
    middle := RowStep(before, eps);
    RowStepNormalises(before, eps);
    ColumnStepNormalises(middle, eps);
    forall i | 0 <= i < |before|
      ensures Sum(before[i]) > 0.0 && Sum(middle[i]) == Sum(before[i]) / (Sum(before[i]) + eps)
    {
      RowSumsAfter(before, eps, i);
      assert RowSum(before, i) == Sum(before[i]) && RowSum(middle, i) == Sum(middle[i]);
    }
  }

  function Minus(v: Vector, x: real): (r: Vector)
    ensures |r| == |v| && forall j :: 0 <= j < |v| ==> r[j] == v[j] - x
  {
    seq(|v|, j requires 0 <= j < |v| => v[j] - x)
  }

  lemma SharesAre(exponentials: Matrix, eps: real, i: nat)
    requires Positive(exponentials) && eps >= 0.0 && i < |exponentials|
    ensures var e, m := exponentials[i], Softmax(exponentials, eps)[i];
            |m| == |e| && Minus(m, eps) == Divided(e, RowSum(exponentials, i))
  {
    hide RowSum;
    var e, m := exponentials[i], Softmax(exponentials, eps)[i];
    forall j | 0 <= j < |e|
      ensures m[j] - eps == e[j] / RowSum(exponentials, i)
    {
      assert m[j] == Share(e[j], RowSum(exponentials, i), eps);
    }
  }

  /** The entries of `x` stand in the ratios of those of `e`. */
  ghost predicate InProportion(x: Vector, e: Vector) {
    |x| == |e| && forall j, l :: 0 <= j < |e| && 0 <= l < |e| ==> x[j] * e[l] == x[l] * e[j]
  }

  lemma RatiosKept(a: real, b: real, x: real, y: real, d: real)
    requires d > 0.0 && x == a / d && y == b / d
    ensures x * b == y * a
  {
    assert x * d == a && y * d == b;
    assert x * (y * d) == y * (x * d);
  }

  lemma DividedInProportion(e: Vector, d: real)
    requires d > 0.0
    ensures InProportion(Divided(e, d), e)
  {
    var x := Divided(e, d);
    forall j, l | 0 <= j < |e| && 0 <= l < |e|
      ensures x[j] * e[l] == x[l] * e[j]
    {
      RatiosKept(e[j], e[l], x[j], x[l], d);
    }
  }

  lemma SelfQuotient(x: real)
    requires x > 0.0
    ensures x / x == 1.0
  {
  }

  lemma WholeRow(m: Matrix, i: nat)
    requires Positive(m) && i < |m|
    ensures Sum(Divided(m[i], RowSum(m, i))) == 1.0
  {
    hide Divided, Sum;
    SumDivided(m[i], RowSum(m, i));
    assert RowSum(m, i) == Sum(m[i]);
    SelfQuotient(RowSum(m, i));
  }

  /** Without the epsilon a row of the softmax adds up to 1, and its entries stand in the ratios of the exponentials. */
  lemma SoftmaxExactly(exponentials: Matrix, eps: real, i: nat)
    requires Positive(exponentials) && eps >= 0.0 && i < |exponentials|
    ensures var shares := Minus(Softmax(exponentials, eps)[i], eps);
            Sum(shares) == 1.0 && InProportion(shares, exponentials[i])
  {
    hide Softmax, RowSum, Divided, Minus, Sum, InProportion;
    SharesAre(exponentials, eps, i);
    WholeRow(exponentials, i);
    DividedInProportion(exponentials[i], RowSum(exponentials, i));
  }

  // ----- Row sums without the epsilon -----

  ghost predicate Between(v: Vector, low: real, high: real) {
    forall i :: 0 <= i < |v| ==> low <= v[i] <= high
  }

  lemma Weighted(w: real, f: real, low: real, high: real)
    requires w > 0.0 && low <= f <= high
    ensures w * low <= w * f <= w * high
  {
    assert w * (f - low) >= 0.0 && w * (high - f) >= 0.0;
  }

  /** `sum`, of weights adding up to `total`, keeps to the bounds. */
  ghost predicate WithinBounds(total: real, sum: real, low: real, high: real) {
    total * low <= sum <= total * high
  }

  lemma WeightedStep(w: real, f: real, rest: real, sum: real, total: real, dot: real, low: real, high: real)
    requires w > 0.0 && low <= f <= high && WithinBounds(rest, sum, low, high)
    requires total == w + rest && dot == w * f + sum
    ensures WithinBounds(total, dot, low, high)
  {
    Weighted(w, f, low, high);
    assert (w + rest) * low == w * low + rest * low;
    assert (w + rest) * high == w * high + rest * high;
  }

  lemma SumCons(w: Vector)
    requires w != []
    ensures Sum(w) == w[0] + Sum(w[1..])
  {
  }

  lemma WeightedCons(w: Vector, f: Vector, low: real, high: real)
    requires |w| == |f| > 0 && w[0] > 0.0 && low <= f[0] <= high
    requires WithinBounds(Sum(w[1..]), Dot(w[1..], f[1..]), low, high)
    ensures WithinBounds(Sum(w), Dot(w, f), low, high)
  {
    hide *;
    SumCons(w);
    DotCons(w, f);
    WeightedStep(w[0], f[0], Sum(w[1..]), Dot(w[1..], f[1..]), Sum(w), Dot(w, f), low, high);
  }

  lemma NothingWeighted(w: Vector, f: Vector, low: real, high: real)
    requires w == f == []
    ensures WithinBounds(Sum(w), Dot(w, f), low, high)
  {
    assert Sum(w) == 0.0 && Dot(w, f) == 0.0;
  }

  lemma {:induction false} WeightedSum(w: Vector, f: Vector, low: real, high: real)
    requires |w| == |f| && forall i :: 0 <= i < |w| ==> w[i] > 0.0
    requires Between(f, low, high)
    ensures WithinBounds(Sum(w), Dot(w, f), low, high)
    decreases |w|
  {
    if w != [] {
      hide Dot, Sum, WithinBounds;
      WeightedSum(w[1..], f[1..], low, high);
      WeightedCons(w, f, low, high);
    } else {
      NothingWeighted(w, f, low, high);
    }
  }

  /** An average with positive weights adding up to 1 lies where the averaged values do. */
  lemma Average(w: Vector, f: Vector, low: real, high: real)
    requires |w| == |f| && PositiveVector(w) && Sum(w) == 1.0
    requires Between(f, low, high)
    ensures low <= Dot(w, f) <= high
  {
    hide Dot, Sum;
    WeightedSum(w, f, low, high);
  }

  function Inverses(v: Vector): (r: Vector)
    requires PositiveVector(v)
    ensures |r| == |v| && PositiveVector(r)
  {
    seq(|v|, i requires 0 <= i < |v| => 1.0 / v[i])
  }

  lemma InverseOrder(x: real, y: real)
    requires 0.0 < x <= y
    ensures 1.0 / y <= 1.0 / x
  {
    var a, b := 1.0 / x, 1.0 / y;
    assert a * x == 1.0 && b * y == 1.0;
    assert a > 0.0 && b > 0.0 && a * b > 0.0;
    assert a - b == (a * b) * (y - x) by {
      assert (a * b) * y == a * (b * y) && (a * b) * x == b * (a * x);
    }
  }

  lemma InverseBounds(x: real, low: real, high: real)
    requires 0.0 < low <= x <= high
    ensures 1.0 / high <= 1.0 / x <= 1.0 / low
  {
    InverseOrder(low, x);
    InverseOrder(x, high);
  }

  lemma {:induction false} InversesBetween(v: Vector, low: real, high: real)
    requires PositiveVector(v) && 0.0 < low <= high && Between(v, low, high)
    ensures 0.0 < 1.0 / high && Between(Inverses(v), 1.0 / high, 1.0 / low)
  {
    forall i | 0 <= i < |v|
      ensures 1.0 / high <= Inverses(v)[i] <= 1.0 / low
    {
      InverseBounds(v[i], low, high);
    }
  }

  lemma {:induction false} SumOfProducts(v: Vector, a: Vector, b: Vector)
    requires |v| == |a| == |b| && forall i :: 0 <= i < |v| ==> v[i] == a[i] * b[i]
    ensures Sum(v) == Dot(a, b)
  {
    if v != [] {
      SumOfProducts(v[1..], a[1..], b[1..]);
    }
  }

  lemma DivideIsTimes(a: real, d: real)
    requires d > 0.0
    ensures a / (d + 0.0) == a * (1.0 / d)
  {
  }

  lemma RowStepColumn(m: Matrix, j: nat)
    requires Positive(m) && j < |m[0]|
    ensures ColumnSum(RowStep(m, 0.0), j) == Dot(Column(m, j), Inverses(RowSums(m)))
  {
    var inverses, n := Inverses(RowSums(m)), RowStep(m, 0.0);
    forall i | 0 <= i < |m|
      ensures Column(n, j)[i] == Column(m, j)[i] * inverses[i]
    {
      DivideIsTimes(m[i][j], RowSums(m)[i]);
    }
    SumOfProducts(Column(n, j), Column(m, j), inverses);
  }

  lemma ColumnStepRow(m: Matrix, i: nat)
    requires Positive(m) && i < |m|
    ensures RowSum(ColumnStep(m, 0.0), i) == Dot(m[i], Inverses(ColumnSums(m)))
  {
    var inverses, n := Inverses(ColumnSums(m)), ColumnStep(m, 0.0);
    forall j | 0 <= j < |m[0]|
      ensures n[i][j] == m[i][j] * inverses[j]
    {
      DivideIsTimes(m[i][j], ColumnSums(m)[j]);
    }
    SumOfProducts(n[i], m[i], inverses);
  }

  /** From unit column sums, a row step keeps the column sums between the inverse row sums. */
  lemma ColumnsAfterRowStep(m: Matrix, low: real, high: real)
    requires Positive(m) && 0.0 < low <= high && Between(RowSums(m), low, high)
    requires forall j :: 0 <= j < |m[0]| ==> ColumnSum(m, j) == 1.0
    ensures 0.0 < 1.0 / high && Between(ColumnSums(RowStep(m, 0.0)), 1.0 / high, 1.0 / low)
  {
    hide Dot;
    InversesBetween(RowSums(m), low, high);
    forall j | 0 <= j < |m[0]|
      ensures 1.0 / high <= ColumnSum(RowStep(m, 0.0), j) <= 1.0 / low
    {
      assert ColumnSum(m, j) == 1.0;
      RowStepColumn(m, j);
      Average(Column(m, j), Inverses(RowSums(m)), 1.0 / high, 1.0 / low);
    }
  }

  /** From unit row sums, a column step keeps the row sums between the inverse column sums. */
  lemma RowsAfterColumnStep(m: Matrix, low: real, high: real)
    requires Positive(m) && 0.0 < low <= high && Between(ColumnSums(m), low, high)
    requires forall i :: 0 <= i < |m| ==> RowSum(m, i) == 1.0
    ensures 0.0 < 1.0 / high && Between(RowSums(ColumnStep(m, 0.0)), 1.0 / high, 1.0 / low)
  {
    hide Dot;
    InversesBetween(ColumnSums(m), low, high);
    forall i | 0 <= i < |m|
      ensures 1.0 / high <= RowSum(ColumnStep(m, 0.0), i) <= 1.0 / low
    {
      assert RowSum(m, i) == 1.0;
      ColumnStepRow(m, i);
      Average(m[i], Inverses(ColumnSums(m)), 1.0 / high, 1.0 / low);
    }
  }

  lemma InverseTwice(x: real)
    requires x > 0.0
    ensures 1.0 / x > 0.0 && 1.0 / (1.0 / x) == x
  {
    assert (1.0 / x) * x == 1.0;
  }

  lemma OnePassKeepsRange(m: Matrix, low: real, high: real)
    requires Positive(m) && 0.0 < low <= high && Between(RowSums(m), low, high)
    requires forall j :: 0 <= j < |m[0]| ==> ColumnSum(m, j) == 1.0
    ensures Between(RowSums(ColumnStep(RowStep(m, 0.0), 0.0)), low, high)
  {
    hide Sum;
    var n := RowStep(m, 0.0);
    ColumnsAfterRowStep(m, low, high);
    forall i | 0 <= i < |n|
      ensures RowSum(n, i) == 1.0
    {
      RowSumsAfter(m, 0.0, i);
      FractionBelowOne(RowSum(m, i), 0.0);
    }
    InverseTwice(low);
    InverseTwice(high);
    InverseOrder(low, high);
    RowsAfterColumnStep(n, 1.0 / high, 1.0 / low);
  }

  lemma {:induction false} PassKeepsRange(start: Matrix, t: nat, low: real, high: real)
    requires Positive(start) && 1 <= t
    requires 0.0 < low && Between(RowSums(Passes(start, 0.0, t)), low, high)
    ensures Between(RowSums(Passes(start, 0.0, t + 1)), low, high)
  {
    hide RowSum, ColumnSum;
    var m := Passes(start, 0.0, t);
    assert low <= RowSums(m)[0] <= high;
    forall j | 0 <= j < |m[0]|
      ensures ColumnSum(m, j) == 1.0
    {
      ColumnSumsBounded(start, 0.0, t, j);
    }
    OnePassKeepsRange(m, low, high);
  }

  /** Without the epsilon, from one pass on, the row sums never leave the range they once had. */
  lemma {:induction false} RowSumsStayInRange(start: Matrix, t: nat, u: nat, low: real, high: real)
    requires Positive(start) && 1 <= t <= u
    requires 0.0 < low && Between(RowSums(Passes(start, 0.0, t)), low, high)
    ensures Between(RowSums(Passes(start, 0.0, u)), low, high)
    decreases u
  {
    hide *;
    if t < u {
      RowSumsStayInRange(start, t, u - 1, low, high);
      PassKeepsRange(start, u - 1, low, high);
    }
  }
}

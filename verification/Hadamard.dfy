/** The Sylvester-Hadamard matrix built by doubling, and the rotation by it, over exact reals. */
module Hadamard {
  import opened Arithmetic

  function Negated(a: Vector): (r: Vector)
    ensures |r| == |a|
  {
    seq(|a|, i requires 0 <= i < |a| => -a[i])
  }

  function Plus(a: Vector, b: Vector): (r: Vector)
    requires |a| == |b|
    ensures |r| == |a|
  {
    seq(|a|, i requires 0 <= i < |a| => a[i] + b[i])
  }

  function Minus(a: Vector, b: Vector): (r: Vector)
    requires |a| == |b|
    ensures |r| == |a|
  {
    seq(|a|, i requires 0 <= i < |a| => a[i] - b[i])
  }

  function Scaled(c: real, a: Vector): (r: Vector)
    ensures |r| == |a|
  {
    seq(|a|, i requires 0 <= i < |a| => c * a[i])
  }

  ghost predicate Square(h: Matrix) {
    forall i :: 0 <= i < |h| ==> |h[i]| == |h|
  }

  /** `cat((cat((h, h), 1), cat((h, -h), 1)), 0)`. */
  function Doubled(h: Matrix): Matrix {
    seq(|h|, i requires 0 <= i < |h| => h[i] + h[i]) + seq(|h|, i requires 0 <= i < |h| => h[i] + Negated(h[i]))
  }

  function Sylvester(k: nat): (h: Matrix)
    ensures |h| == Power2(k) && Square(h)
  {
    if k == 0 then [[1.0]] else Doubled(Sylvester(k - 1))
  }

  // ----- The matrix -----

  ghost predicate SignsOnly(h: Matrix) {
    forall i, j :: 0 <= i < |h| && 0 <= j < |h[i]| ==> h[i][j] == 1.0 || h[i][j] == -1.0
  }

  ghost predicate Symmetric(h: Matrix)
    requires Square(h)
  {
    forall i, j :: 0 <= i < |h| && 0 <= j < |h| ==> h[i][j] == h[j][i]
  }

  /** `H * H == n * I`, entry by entry. */
  ghost predicate SquaresToScaledIdentity(h: Matrix)
    requires Square(h)
  {
    forall i, j :: 0 <= i < |h| && 0 <= j < |h| ==> Dot(h[i], Column(h, j)) == if i == j then |h| as real else 0.0
  }

  lemma {:induction false} DotConcat(a: Vector, b: Vector, c: Vector, d: Vector)
    requires |a| == |c| && |b| == |d|
    ensures Dot(a + b, c + d) == Dot(a, c) + Dot(b, d)
  {
    if a == [] {
      assert a + b == b && c + d == d;
    } else {
      assert (a + b)[1..] == a[1..] + b && (c + d)[1..] == c[1..] + d;
      DotConcat(a[1..], b, c[1..], d);
    }
  }

  lemma {:induction false} DotNegated(a: Vector, b: Vector)
    requires |a| == |b|
    ensures Dot(Negated(a), b) == -Dot(a, b) && Dot(a, Negated(b)) == -Dot(a, b)
  {
    if a != [] {
      assert Negated(a)[1..] == Negated(a[1..]) && Negated(b)[1..] == Negated(b[1..]);
      DotNegated(a[1..], b[1..]);
    }
  }

  lemma {:induction false} DotHalves(a: Vector, b: Vector)
    requires |a| == |b|
    ensures Dot(a + a, b + b) == 2.0 * Dot(a, b)
    ensures Dot(a + a, b + Negated(b)) == 0.0
    ensures Dot(a + Negated(a), b + b) == 0.0
    ensures Dot(a + Negated(a), b + Negated(b)) == 2.0 * Dot(a, b)
  {
    DotConcat(a, a, b, b);
    DotConcat(a, a, b, Negated(b));
    DotConcat(a, Negated(a), b, b);
    DotConcat(a, Negated(a), b, Negated(b));
    DotNegated(a, b);
    DotNegated(Negated(a), b);
  }

  /** Rows of one half have twice the product of the rows they double; rows of different halves are orthogonal. */
  lemma DoubledRows(h: Matrix, i: nat, j: nat)
    requires Square(h) && i < 2 * |h| && j < 2 * |h|
    ensures var n := |h|;
            var p, q := if i < n then i else i - n, if j < n then j else j - n;
            Dot(Doubled(h)[i], Doubled(h)[j]) == if (i < n) == (j < n) then 2.0 * Dot(h[p], h[q]) else 0.0
  {
    hide Dot;
    var n := |h|;
    DotHalves(h[if i < n then i else i - n], h[if j < n then j else j - n]);
  }

  ghost predicate Orthogonal(h: Matrix, n: nat)
    requires Square(h)
  {
    forall i, j :: 0 <= i < |h| && 0 <= j < |h| ==> Dot(h[i], h[j]) == if i == j then n as real else 0.0
  }

  lemma DoubledSquare(h: Matrix)
    requires Square(h)
    ensures |Doubled(h)| == 2 * |h| && Square(Doubled(h))
  {
  }

  lemma DoubledOrthogonal(h: Matrix, n: nat)
    requires Square(h) && Orthogonal(h, n)
    ensures Square(Doubled(h)) && Orthogonal(Doubled(h), 2 * n)
  {
    DoubledSquare(h);
    hide Dot, Doubled;
    forall i, j | 0 <= i < 2 * |h| && 0 <= j < 2 * |h|
      ensures Dot(Doubled(h)[i], Doubled(h)[j]) == if i == j then (2 * n) as real else 0.0
    {
      DoubledRows(h, i, j);
    }
  }

  lemma DoubledEntry(h: Matrix, i: nat, j: nat)
    requires Square(h) && i < 2 * |h| && j < 2 * |h|
    ensures var n := |h|;
            var p, q := if i < n then i else i - n, if j < n then j else j - n;
            && |Doubled(h)[i]| == 2 * n
            && Doubled(h)[i][j] == if i >= n && j >= n then -h[p][q] else h[p][q]
  {
  }

  lemma DoubledKeepsEntries(h: Matrix)
    requires Square(h) && SignsOnly(h) && Symmetric(h)
    ensures Square(Doubled(h)) && SignsOnly(Doubled(h)) && Symmetric(Doubled(h))
  {
    var d := Doubled(h);
    DoubledSquare(h);
    forall i, j | 0 <= i < |d| && 0 <= j < |d|
      ensures d[i][j] == d[j][i] && (d[i][j] == 1.0 || d[i][j] == -1.0)
    {
      hide Doubled;
      DoubledEntry(h, i, j);
      DoubledEntry(h, j, i);
    }
  }

  lemma {:induction false} SylvesterEntries(k: nat)
    ensures SignsOnly(Sylvester(k)) && Symmetric(Sylvester(k))
  {
    if k > 0 {
      SylvesterEntries(k - 1);
      DoubledKeepsEntries(Sylvester(k - 1));
    }
  }

  lemma SylvesterStep(k: nat)
    requires k > 0
    ensures Sylvester(k) == Doubled(Sylvester(k - 1)) && Power2(k) == 2 * Power2(k - 1)
  {
    hide Doubled;
  }

  lemma SylvesterZero()
    ensures Sylvester(0) == [[1.0]] && Orthogonal([[1.0]], 1)
  {
    assert Dot([1.0][1..], [1.0][1..]) == 0.0;
  }

  lemma {:induction false} SylvesterRows(k: nat)
    ensures Orthogonal(Sylvester(k), Power2(k))
  {
    hide Orthogonal, Doubled;
    if k > 0 {
      SylvesterRows(k - 1);
      DoubledOrthogonal(Sylvester(k - 1), Power2(k - 1));
    } else {
      SylvesterZero();
    }
  }

  /** At every step the matrix is symmetric with entries 1 and -1, and its square is n times the identity. */
  lemma {:induction false} SylvesterIsHadamard(k: nat)
    ensures var h := Sylvester(k);
            SignsOnly(h) && Symmetric(h) && SquaresToScaledIdentity(h)
  {
    var h := Sylvester(k);
    SylvesterEntries(k);
    SylvesterRows(k);
    hide Dot, Sylvester;
    forall i, j | 0 <= i < |h| && 0 <= j < |h|
      ensures Dot(h[i], Column(h, j)) == if i == j then |h| as real else 0.0
    {
      assert Column(h, j) == h[j];
    }
  }

  /** In how many binary places both numbers have a one. */
  function CommonOnes(i: nat, j: nat): nat {
    if i == 0 || j == 0 then 0 else (if i % 2 == 1 && j % 2 == 1 then 1 else 0) + CommonOnes(i / 2, j / 2)
  }

  lemma HalfOfSum(i: nat, n: nat)
    ensures (i + 2 * n) % 2 == i % 2 && (i + 2 * n) / 2 == i / 2 + n
  {
  }

  lemma CommonStep(i: nat, j: nat)
    ensures CommonOnes(i, j) == (if i % 2 == 1 && j % 2 == 1 then 1 else 0) + CommonOnes(i / 2, j / 2)
  {
  }

  lemma NothingInCommon()
    ensures CommonOnes(0, 0) == 0
  {
  }

  /** A one in a new highest place counts only where both have it. */
  lemma {:induction false} HighestPlace(k: nat, i: nat, j: nat)
    requires i < Power2(k) && j < Power2(k)
    ensures CommonOnes(i + Power2(k), j) == CommonOnes(i, j) == CommonOnes(i, j + Power2(k))
    ensures CommonOnes(i + Power2(k), j + Power2(k)) == CommonOnes(i, j) + 1
  {
    hide CommonOnes;
    var n := Power2(k);
    CommonStep(i, j);
    CommonStep(i + n, j);
    CommonStep(i, j + n);
    CommonStep(i + n, j + n);
    if k > 0 {
      HalfOfSum(i, Power2(k - 1));
      HalfOfSum(j, Power2(k - 1));
      HighestPlace(k - 1, i / 2, j / 2);
    } else {
      NothingInCommon();
    }
  }

  function Sign(n: nat): real {
    if n % 2 == 0 then 1.0 else -1.0
  }

  lemma SignFlips(n: nat)
    ensures Sign(n + 1) == -Sign(n)
  {
  }

  /** Entry `(i, j)` is that at `(p, q)` of the smaller matrix, negated where both are in the second half. */
  lemma SylvesterEntryStep(k: nat, i: nat, j: nat, p: nat, q: nat)
    requires k > 0 && p < Power2(k - 1) && q < Power2(k - 1)
    requires (i == p || i == p + Power2(k - 1)) && (j == q || j == q + Power2(k - 1))
    requires Sylvester(k - 1)[p][q] == Sign(CommonOnes(p, q))
    ensures i < Power2(k) && j < Power2(k) && Sylvester(k)[i][j] == Sign(CommonOnes(i, j))
  {
    hide Doubled, CommonOnes, Sylvester, Power2, Sign;
    SylvesterStep(k);
    DoubledEntry(Sylvester(k - 1), i, j);
    HighestPlace(k - 1, p, q);
    SignFlips(CommonOnes(p, q));
  }

  /** The entries in closed form: the sign says whether row and column have an even number of ones in common. */
  lemma {:induction false} SylvesterEntry(k: nat, i: nat, j: nat)
    requires i < Power2(k) && j < Power2(k)
    ensures Sylvester(k)[i][j] == Sign(CommonOnes(i, j))
  {
    if k > 0 {
      SylvesterStep(k);
      hide *;
      var n := Power2(k - 1);
      var p, q := if i < n then i else i - n, if j < n then j else j - n;
      SylvesterEntry(k - 1, p, q);
      SylvesterEntryStep(k, i, j, p, q);
    } else {
      NothingInCommon();
    }
  }

  /** The doubling loop stops at the smallest power of two that reaches the threshold, with a Hadamard matrix. */
  method BuildHadamard(threshold: nat) returns (h: Matrix, ghost k: nat)
    ensures h == Sylvester(k) && |h| == Power2(k) >= threshold
    ensures k > 0 ==> Power2(k - 1) < threshold
    ensures Square(h) && SignsOnly(h) && Symmetric(h) && SquaresToScaledIdentity(h)
  {
    h, k := [[1.0]], 0;
    while |h| < threshold
      invariant h == Sylvester(k)
      invariant k > 0 ==> Power2(k - 1) < threshold
      decreases threshold - |h|
    {
      h, k := Doubled(h), k + 1;
    }
    SylvesterIsHadamard(k);
  }

  // ----- The rotation -----

  /** The row vector `x @ h`. */
  function Times(x: Vector, h: Matrix): (y: Vector)
    requires Square(h) && |x| == |h|
    ensures |y| == |x|
  {
    seq(|h|, j requires 0 <= j < |h| => Dot(x, Column(h, j)))
  }

  lemma PlusTail(a: Vector, b: Vector)
    requires |a| == |b| > 0
    ensures Plus(a, b)[0] == a[0] + b[0] && Plus(a, b)[1..] == Plus(a[1..], b[1..])
    ensures Minus(a, b)[0] == a[0] - b[0] && Minus(a, b)[1..] == Minus(a[1..], b[1..])
  {
  }

  lemma {:induction false} DotPlus(a: Vector, b: Vector, c: Vector)
    requires |a| == |b| == |c|
    ensures Dot(Plus(a, b), c) == Dot(a, c) + Dot(b, c)
    ensures Dot(Minus(a, b), c) == Dot(a, c) - Dot(b, c)
  {
    if a != [] {
      hide Dot, Plus, Minus;
      DotCons(a, c);
      DotCons(b, c);
      DotCons(Plus(a, b), c);
      DotCons(Minus(a, b), c);
      PlusTail(a, b);
      DotPlus(a[1..], b[1..], c[1..]);
    }
  }

  ghost predicate IsMultiple(c: real, x: real, y: real) {
    y == c * x
  }

  lemma ScaledTail(c: real, a: Vector)
    requires a != []
    ensures Scaled(c, a)[1..] == Scaled(c, a[1..]) && IsMultiple(c, a[0], Scaled(c, a)[0])
  {
    forall i | 0 <= i < |a| - 1
      ensures Scaled(c, a)[1..][i] == Scaled(c, a[1..])[i]
    {
      assert a[1..][i] == a[i + 1];
    }
  }

  lemma {:induction false} DotSymmetric(a: Vector, b: Vector)
    requires |a| == |b|
    ensures Dot(a, b) == Dot(b, a)
  {
    if a != [] {
      hide Dot;
      DotCons(a, b);
      DotCons(b, a);
      DotSymmetric(a[1..], b[1..]);
    }
  }

  /** The sum that gains a term; kept apart so that products do not meet each other in the proof below. */
  ghost predicate Gains(p: real, q: real, rest: real, sum: real) {
    sum == p * q + rest
  }

  lemma DotGains(a: Vector, b: Vector)
    requires |a| == |b| > 0
    ensures Gains(a[0], b[0], Dot(a[1..], b[1..]), Dot(a, b))
  {
  }

  lemma MultipleTerm(c: real, p: real, cp: real, q: real, r: real, cr: real, dot: real, scaled: real)
    requires IsMultiple(c, p, cp) && IsMultiple(c, r, cr) && Gains(p, q, r, dot) && Gains(cp, q, cr, scaled)
    ensures IsMultiple(c, dot, scaled)
  {
  }

  lemma ScaledCons(c: real, a: Vector, b: Vector)
    requires |a| == |b| > 0
    requires IsMultiple(c, Dot(a[1..], b[1..]), Dot(Scaled(c, a[1..]), b[1..]))
    ensures IsMultiple(c, Dot(a, b), Dot(Scaled(c, a), b))
  {
    hide *;
    DotGains(a, b);
    DotGains(Scaled(c, a), b);
    ScaledTail(c, a);
    MultipleTerm(c, a[0], Scaled(c, a)[0], b[0], Dot(a[1..], b[1..]), Dot(Scaled(c, a)[1..], b[1..]),
                 Dot(a, b), Dot(Scaled(c, a), b));
  }

  lemma {:induction false} DotMultiple(c: real, a: Vector, b: Vector)
    requires |a| == |b|
    ensures IsMultiple(c, Dot(a, b), Dot(Scaled(c, a), b))
  {
    if a != [] {
      hide *;
      DotMultiple(c, a[1..], b[1..]);
      ScaledCons(c, a, b);
    }
  }

  lemma DotScaled(c: real, a: Vector, b: Vector)
    requires |a| == |b|
    ensures Dot(Scaled(c, a), b) == c * Dot(a, b)
  {
    hide Dot, Scaled;
    DotMultiple(c, a, b);
  }

  lemma DotScaledRight(c: real, a: Vector, b: Vector)
    requires |a| == |b|
    ensures Dot(a, Scaled(c, b)) == c * Dot(a, b)
  {
    hide *;
    DotSymmetric(a, Scaled(c, b));
    DotScaled(c, b, a);
    DotSymmetric(a, b);
  }

  lemma TimesLinear(a: Vector, b: Vector, h: Matrix)
    requires Square(h) && |a| == |b| == |h|
    ensures Times(Plus(a, b), h) == Plus(Times(a, h), Times(b, h))
    ensures Times(Minus(a, b), h) == Minus(Times(a, h), Times(b, h))
  {
    hide Dot, Column;
    forall j | 0 <= j < |h|
      ensures Times(Plus(a, b), h)[j] == Plus(Times(a, h), Times(b, h))[j]
      ensures Times(Minus(a, b), h)[j] == Minus(Times(a, h), Times(b, h))[j]
    {
      DotPlus(a, b, Column(h, j));
    }
  }

  lemma TimesScaled(c: real, a: Vector, h: Matrix)
    requires Square(h) && |a| == |h|
    ensures Times(Scaled(c, a), h) == Scaled(c, Times(a, h))
  {
    hide Dot, Column;
    forall j | 0 <= j < |h|
      ensures Times(Scaled(c, a), h)[j] == Scaled(c, Times(a, h))[j]
    {
      DotScaled(c, a, Column(h, j));
    }
  }

  lemma DoubledColumn(h: Matrix, j: nat)
    requires Square(h) && Square(Doubled(h)) && j < 2 * |h|
    ensures var c := Column(h, if j < |h| then j else j - |h|);
            Column(Doubled(h), j) == if j < |h| then c + c else c + Negated(c)
  {
  }

  lemma ButterflyAt(a: Vector, b: Vector, h: Matrix, j: nat)
    requires Square(h) && Square(Doubled(h)) && |a| == |b| == |h| && j < 2 * |h|
    ensures Dot(a + b, Column(Doubled(h), j))
         == if j < |h| then Dot(Plus(a, b), Column(h, j)) else Dot(Minus(a, b), Column(h, j - |h|))
  {
    hide Dot, Doubled, Column, Plus, Minus, Negated;
    var c := Column(h, if j < |h| then j else j - |h|);
    DoubledColumn(h, j);
    DotPlus(a, b, c);
    if j < |h| {
      DotConcat(a, b, c, c);
    } else {
      DotConcat(a, b, c, Negated(c));
      DotNegated(b, c);
    }
  }

  /** The butterfly: rotating by the doubled matrix rotates the sum and the difference of the halves. */
  lemma Butterfly(a: Vector, b: Vector, h: Matrix)
    requires Square(h) && |a| == |b| == |h|
    ensures Square(Doubled(h))
    ensures Times(a + b, Doubled(h)) == Times(Plus(a, b), h) + Times(Minus(a, b), h)
  {
    DoubledSquare(h);
    hide Dot, Doubled, Column, Plus, Minus;
    forall j | 0 <= j < 2 * |h|
      ensures Times(a + b, Doubled(h))[j] == (Times(Plus(a, b), h) + Times(Minus(a, b), h))[j]
    {
      ButterflyAt(a, b, h, j);
    }
  }

  lemma Halves(x: Vector, n: nat) returns (a: Vector, b: Vector)
    requires |x| == 2 * n
    ensures |a| == |b| == n && x == a + b
  {
    a, b := x[..n], x[n..];
  }

  lemma {:induction false} DotPolar(a: Vector, b: Vector, c: Vector, d: Vector)
    requires |a| == |b| == |c| == |d|
    ensures Dot(Plus(a, b), Plus(c, d)) + Dot(Minus(a, b), Minus(c, d)) == 2.0 * (Dot(a, c) + Dot(b, d))
  {
    DotPlus(a, b, Plus(c, d));
    DotPlus(a, b, Minus(c, d));
    DotSymmetric(a, Plus(c, d));
    DotSymmetric(b, Plus(c, d));
    DotSymmetric(a, Minus(c, d));
    DotSymmetric(b, Minus(c, d));
    DotPlus(c, d, a);
    DotPlus(c, d, b);
    DotSymmetric(a, c);
    DotSymmetric(b, d);
  }

  /** `r` doubled `k` times. */
  function DoubledTimes(k: nat, r: real): real {
    if k == 0 then r else 2.0 * DoubledTimes(k - 1, r)
  }

  lemma {:induction false} DoubledTimesIsProduct(k: nat, r: real)
    ensures DoubledTimes(k, r) == Power2(k) as real * r
  {
    if k > 0 {
      DoubledTimesIsProduct(k - 1, r);
      assert 2.0 * (Power2(k - 1) as real * r) == (2.0 * Power2(k - 1) as real) * r;
    }
  }

  lemma {:induction false} DoubledTimesSum(k: nat, p: real, q: real, r: real)
    requires p + q == 2.0 * r
    ensures DoubledTimes(k, p) + DoubledTimes(k, q) == DoubledTimes(k + 1, r)
  {
    if k > 0 {
      DoubledTimesSum(k - 1, p, q, r);
    }
  }

  lemma ButterflyDot(h: Matrix, a: Vector, b: Vector, c: Vector, d: Vector)
    requires Square(h) && Square(Doubled(h)) && |a| == |b| == |c| == |d| == |h|
    ensures Dot(Times(a + b, Doubled(h)), Times(c + d, Doubled(h)))
         == Dot(Times(Plus(a, b), h), Times(Plus(c, d), h)) + Dot(Times(Minus(a, b), h), Times(Minus(c, d), h))
  {
    hide Dot, Times;
    Butterfly(a, b, h);
    Butterfly(c, d, h);
    DotConcat(Times(Plus(a, b), h), Times(Minus(a, b), h), Times(Plus(c, d), h), Times(Minus(c, d), h));
  }

  lemma {:induction false} PolarConcat(a: Vector, b: Vector, c: Vector, d: Vector)
    requires |a| == |b| == |c| == |d|
    ensures Dot(Plus(a, b), Plus(c, d)) + Dot(Minus(a, b), Minus(c, d)) == 2.0 * Dot(a + b, c + d)
  {
    hide Dot;
    DotPolar(a, b, c, d);
    DotConcat(a, b, c, d);
  }

  lemma TimesOne(x: Vector)
    requires |x| == 1
    ensures Times(x, Sylvester(0)) == x
  {
    assert Column([[1.0]], 0) == [1.0];
    assert Dot(x, [1.0]) == x[0];
  }

  lemma {:induction false} InnerProductsDoubled(k: nat, x: Vector, y: Vector)
    requires |x| == |y| == Power2(k)
    ensures Dot(Times(x, Sylvester(k)), Times(y, Sylvester(k))) == DoubledTimes(k, Dot(x, y))
  {
    hide Dot, Times;
    if k == 0 {
      TimesOne(x);
      TimesOne(y);
    } else {
      var h := Sylvester(k - 1);
      var a, b := Halves(x, |h|);
      var c, d := Halves(y, |h|);
      InnerProductsDoubled(k - 1, Plus(a, b), Plus(c, d));
      InnerProductsDoubled(k - 1, Minus(a, b), Minus(c, d));
      ButterflyDot(h, a, b, c, d);
      PolarConcat(a, b, c, d);
      DoubledTimesSum(k - 1, Dot(Plus(a, b), Plus(c, d)), Dot(Minus(a, b), Minus(c, d)), Dot(x, y));
    }
  }

  /** The rotation keeps inner products up to the factor n. */
  lemma {:induction false} InnerProductsKept(k: nat, x: Vector, y: Vector, inner: real)
    requires |x| == |y| == Power2(k)
    requires inner == Dot(x, y)
    ensures Dot(Times(x, Sylvester(k)), Times(y, Sylvester(k))) == Power2(k) as real * inner
  {
    hide Dot, Times;
    InnerProductsDoubled(k, x, y);
    DoubledTimesIsProduct(k, inner);
  }

  lemma SumAndDifference(n: real, a: Vector, b: Vector)
    requires |a| == |b|
    ensures var s, t := Scaled(n, Plus(a, b)), Scaled(n, Minus(a, b));
            Plus(s, t) + Minus(s, t) == Scaled(2.0 * n, a + b)
  {
    var s, t, r := Scaled(n, Plus(a, b)), Scaled(n, Minus(a, b)), Scaled(2.0 * n, a + b);
    forall i | 0 <= i < |a|
      ensures Plus(s, t)[i] == r[i] && Minus(s, t)[i] == r[|a| + i]
    {
      assert n * (a[i] + b[i]) + n * (a[i] - b[i]) == 2.0 * n * a[i];
      assert n * (a[i] + b[i]) - n * (a[i] - b[i]) == 2.0 * n * b[i];
    }
  }

  lemma RotatedTwiceStep(h: Matrix, n: real, a: Vector, b: Vector)
    requires Square(h) && Square(Doubled(h)) && |a| == |b| == |h| && |Doubled(h)| == 2 * |h|
    requires Times(Times(Plus(a, b), h), h) == Scaled(n, Plus(a, b))
    requires Times(Times(Minus(a, b), h), h) == Scaled(n, Minus(a, b))
    ensures Times(Times(a + b, Doubled(h)), Doubled(h)) == Scaled(2.0 * n, a + b)
  {
    hide Times, Doubled, Plus, Minus, Scaled;
    var u, v := Times(Plus(a, b), h), Times(Minus(a, b), h);
    Butterfly(a, b, h);
    Butterfly(u, v, h);
    TimesLinear(u, v, h);
    SumAndDifference(n, a, b);
  }

  lemma ScaledByOne(x: Vector)
    ensures Scaled(1.0, x) == x
  {
  }

  /** Rotating twice multiplies by n. */
  lemma {:induction false} RotatedTwice(k: nat, x: Vector)
    requires |x| == Power2(k)
    ensures Times(Times(x, Sylvester(k)), Sylvester(k)) == Scaled(Power2(k) as real, x)
  {
    hide Times, Doubled, Scaled, Sylvester;
    if k == 0 {
      TimesOne(x);
      ScaledByOne(x);
    } else {
      SylvesterStep(k);
      var h := Sylvester(k - 1);
      var a, b := Halves(x, |h|);
      RotatedTwice(k - 1, Plus(a, b));
      RotatedTwice(k - 1, Minus(a, b));
      RotatedTwiceStep(h, Power2(k - 1) as real, a, b);
    }
  }

  /** The activation rotation: the product with the matrix divided by the root of its size. */
  function Rotate(x: Vector, h: Matrix, root: real): Vector
    requires Square(h) && |x| == |h| && root != 0.0
  {
    Scaled(1.0 / root, Times(x, h))
  }

  lemma InverseRoot(root: real, n: real)
    requires root > 0.0 && root * root == n
    ensures (1.0 / root) * (1.0 / root) * n == 1.0
  {
    var c := 1.0 / root;
    assert c * root == 1.0;
    assert c * c * (root * root) == (c * root) * (c * root);
  }

  lemma Undo(c: real, n: real, r: real)
    requires c * c * n == 1.0
    ensures c * (c * (n * r)) == r
  {
    assert c * (c * (n * r)) == (c * c * n) * r;
  }

  lemma CancelScale(c: real, n: real, p: real, q: real, r: real, d: real)
    requires c * c * n == 1.0 && p == c * q && q == c * r && r == n * d
    ensures p == d
  {
    Undo(c, n, d);
  }

  lemma {:induction false} ScaledDot(c: real, n: real, u: Vector, v: Vector, d: real)
    requires |u| == |v| && c * c * n == 1.0 && Dot(u, v) == n * d
    ensures Dot(Scaled(c, u), Scaled(c, v)) == d
  {
    hide Dot;
    DotScaled(c, u, Scaled(c, v));
    DotScaledRight(c, u, v);
    CancelScale(c, n, Dot(Scaled(c, u), Scaled(c, v)), Dot(u, Scaled(c, v)), Dot(u, v), d);
  }

  lemma {:induction false} RotateDot(h: Matrix, root: real, c: real, n: real, x: Vector, y: Vector)
    requires Square(h) && |x| == |y| == |h| && root != 0.0
    requires c == 1.0 / root && c * c * n == 1.0
    requires Dot(Times(x, h), Times(y, h)) == n * Dot(x, y)
    ensures Dot(Rotate(x, h, root), Rotate(y, h, root)) == Dot(x, y)
  {
    hide Dot, Times;
    ScaledDot(c, n, Times(x, h), Times(y, h), Dot(x, y));
  }

  lemma UndoAll(c: real, n: real, x: Vector)
    requires c * c * n == 1.0
    ensures Scaled(c, Scaled(c, Scaled(n, x))) == x
  {
    forall i | 0 <= i < |x|
      ensures Scaled(c, Scaled(c, Scaled(n, x)))[i] == x[i]
    {
      Undo(c, n, x[i]);
    }
  }

  lemma RotateTwice(h: Matrix, root: real, c: real, n: real, x: Vector)
    requires Square(h) && |x| == |h| && root != 0.0
    requires c == 1.0 / root && c * c * n == 1.0
    requires Times(Times(x, h), h) == Scaled(n, x)
    ensures Rotate(Rotate(x, h, root), h, root) == x
  {
    TimesScaled(c, Times(x, h), h);
    UndoAll(c, n, x);
  }

  /** With the exact root the rotation keeps inner products and undoes itself. */
  lemma {:induction false} RotationIsInvolution(k: nat, root: real, x: Vector, y: Vector)
    requires root > 0.0 && root * root == Power2(k) as real
    requires |x| == |y| == Power2(k)
    ensures Dot(Rotate(x, Sylvester(k), root), Rotate(y, Sylvester(k), root)) == Dot(x, y)
    ensures Rotate(Rotate(x, Sylvester(k), root), Sylvester(k), root) == x
  {
    hide *;
    InverseRoot(root, Power2(k) as real);
    InnerProductsKept(k, x, y, Dot(x, y));
    RotatedTwice(k, x);
    RotateDot(Sylvester(k), root, 1.0 / root, Power2(k) as real, x, y);
    RotateTwice(Sylvester(k), root, 1.0 / root, Power2(k) as real, x);
  }

  function Signs(n: nat, j: nat): (r: Vector)
    ensures |r| == n && forall i :: 0 <= i < n ==> r[i] == Sign(CommonOnes(i, j))
  {
    seq(n, i requires 0 <= i < n => Sign(CommonOnes(i, j)))
  }

  lemma SylvesterColumn(k: nat, j: nat)
    requires j < Power2(k)
    ensures Column(Sylvester(k), j) == Signs(Power2(k), j)
  {
    hide Sylvester, CommonOnes, Sign, Signs;
    forall i | 0 <= i < Power2(k)
      ensures Column(Sylvester(k), j)[i] == Signs(Power2(k), j)[i]
    {
      SylvesterEntry(k, i, j);
    }
  }

  lemma ScaledBack(root: real, y: real, z: real)
    requires root != 0.0 && z == 1.0 / root * y
    ensures root * z == y
  {
    assert root * (1.0 / root) == 1.0;
  }

  lemma RotateAt(x: Vector, h: Matrix, root: real, j: nat)
    requires Square(h) && |x| == |h| && root != 0.0 && j < |x|
    ensures |Rotate(x, h, root)| == |x| && root * Rotate(x, h, root)[j] == Dot(x, Column(h, j))
  {
    hide Dot, Column;
    var y, z := Times(x, h)[j], Rotate(x, h, root)[j];
    assert z == 1.0 / root * y && y == Dot(x, Column(h, j));
    hide *;
    ScaledBack(root, y, z);
  }

  /** An entry of the rotated vector, times the root, adds up the entries of the vector with the signs of its column. */
  lemma RotateExactly(k: nat, root: real, x: Vector, j: nat)
    requires root != 0.0 && |x| == Power2(k) && j < Power2(k)
    ensures |Rotate(x, Sylvester(k), root)| == |x|
    ensures root * Rotate(x, Sylvester(k), root)[j] == Dot(x, Signs(|x|, j))
  {
    hide *;
    SylvesterColumn(k, j);
    RotateAt(x, Sylvester(k), root, j);
  }
}

/** Powers of two, and the dot product of real vectors. */
module Arithmetic {

  type Vector = seq<real>

  /** A matrix as its rows. */
  type Matrix = seq<Vector>

  function Column(m: Matrix, j: nat): (v: Vector)
    requires forall i :: 0 <= i < |m| ==> j < |m[i]|
    ensures |v| == |m|
  {
    seq(|m|, i requires 0 <= i < |m| => m[i][j])
  }

  function Power2(k: nat): (n: nat)
    ensures n >= 1
  {
    if k == 0 then 1 else 2 * Power2(k - 1)
  }

  lemma Power2Step(k: nat)
    ensures Power2(k + 1) == 2 * Power2(k)
  {
  }

  function Dot(a: Vector, b: Vector): real
    requires |a| == |b|
  {
    if a == [] then 0.0 else a[0] * b[0] + Dot(a[1..], b[1..])
  }

  lemma DotCons(a: Vector, b: Vector)
    requires |a| == |b| > 0
    ensures Dot(a, b) == a[0] * b[0] + Dot(a[1..], b[1..])
  {
  }
}

/** Symmetric blocks, as coordinates give them: when the two half-sized systems have unique solutions. */
module SymmetricBlocks {
  import opened Linear
  import opened BlockSolver
  import opened Reals

  lemma {:induction false} DotOfItself(v: Vector)
    ensures Dot(v, v) >= 0.0
    ensures Dot(v, v) == 0.0 ==> v == Zeros(|v|)
  {
    if |v| > 0 {
      assert Dot(v, v) == Square(v[0]) + Dot(v[1..], v[1..]);
      DotOfItself(v[1..]);
      assert Zeros(|v|)[1..] == Zeros(|v| - 1);
      assert v == [v[0]] + v[1..] && Zeros(|v|) == [0.0] + Zeros(|v| - 1);
    }
  }

  lemma {:induction false} SquareSumForm(m1: Matrix, m2: Matrix, d: nat, v: Vector)
    requires Pair(m1, m2, d) && Symmetric(m1, d) && Symmetric(m2, d) && |v| == d
    ensures Dot(v, Apply(SquareSum(m1, m2, d), v)) == Dot(Apply(m1, v), Apply(m1, v)) + Dot(Apply(m2, v), Apply(m2, v))
  {
    ApplySquareSum(m1, m2, d, v);
    DotPlus(v, Apply(m1, Apply(m1, v)), Apply(m2, Apply(m2, v)));
    SelfAdjoint(m1, d, v, Apply(m1, v));
    SelfAdjoint(m2, d, v, Apply(m2, v));
  }

  /** The square sum sends a vector to zero only if both matrices do. */
  lemma {:induction false} SquareSumKernel(m1: Matrix, m2: Matrix, d: nat, v: Vector)
    requires Pair(m1, m2, d) && Symmetric(m1, d) && Symmetric(m2, d) && |v| == d
    ensures Apply(SquareSum(m1, m2, d), v) == Zeros(d) <==> Apply(m1, v) == Zeros(d) && Apply(m2, v) == Zeros(d)
  {
    if Apply(SquareSum(m1, m2, d), v) == Zeros(d) {
      SquareSumForm(m1, m2, d, v);
      DotCommutes(v, Zeros(d));
      DotZeros(v);
      DotOfItself(Apply(m1, v));
      DotOfItself(Apply(m2, v));
    }
    if Apply(m1, v) == Zeros(d) && Apply(m2, v) == Zeros(d) {
      ApplySquareSum(m1, m2, d, v);
      ApplyZeros(m1, d);
      ApplyZeros(m2, d);
      PlusKeepsIffZero(Zeros(d), Zeros(d));
    }
  }

  /** No two states have the same image under the full system. */
  ghost predicate UniqueSolutions(m1: Matrix, m2: Matrix, d: nat)
    requires Pair(m1, m2, d)
  {
    forall x: Complex | x.Has(d) && Times(m1, m2, d, x) == Complex(Zeros(d), Zeros(d)) ::
      x == Complex(Zeros(d), Zeros(d))
  }

  /** Where the full system has unique solutions, so have the two half-sized ones. */
  lemma {:induction false} SquareSumSeparates(m1: Matrix, m2: Matrix, d: nat, u: Vector, v: Vector)
    requires Pair(m1, m2, d) && Symmetric(m1, d) && Symmetric(m2, d) && UniqueSolutions(m1, m2, d)
    ensures Separates(SquareSum(m1, m2, d), d, u, v)
  {
    var s := SquareSum(m1, m2, d);
    if |u| == |v| == d && Apply(s, u) == Apply(s, v) {
      var w, zero := Minus(u, v), Zeros(d);
      ApplyMinus(s, u, v);
      assert Apply(s, w) == zero;
      SquareSumKernel(m1, m2, d, w);
      ApplyZeros(m1, d);
      ApplyZeros(m2, d);
      assert Minus(zero, zero) == zero && Plus(zero, zero) == zero;
      assert Times(m1, m2, d, Complex(w, zero)) == Complex(zero, zero);
      assert w == zero;
      assert forall i | 0 <= i < d :: w[i] == u[i] - v[i];
    }
  }
}

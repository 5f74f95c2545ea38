/** When the shortcut is exact for one right part, such as the one an object holds. */
module OneRightPart {
  import opened Linear
  import opened BlockSolver

  /** A solution on whose halves the order of M1 and M2 does not matter. */
  ghost predicate CommutingSolution(m1: Matrix, m2: Matrix, d: nat, f: Complex, x: Complex)
    requires Pair(m1, m2, d)
  {
    x.Has(d) && Times(m1, m2, d, x) == f && CommuteOn(m1, m2, d, x.re) && CommuteOn(m1, m2, d, x.im)
  }

  /** Such a solution is what the halves find. */
  lemma CommutingSolutionFound(m1: Matrix, m2: Matrix, d: nat, lu: Solver, f: Complex, x: Complex)
    requires Pair(m1, m2, d) && f.Has(d) && Invertible(SquareSum(m1, m2, d), d, lu)
    requires CommutingSolution(m1, m2, d, f, x)
    ensures SolveHalves(m1, m2, d, f, lu) == x
  {
    var s := SquareSum(m1, m2, d);
    ConjugateOfTimes(m1, m2, d, x);
    CommutatorVanishes(m1, m2, d, x.im, Apply(s, x.re));
    CommutatorVanishes(m1, m2, d, x.re, Apply(s, x.im));
    HalvesAnswer(m1, m2, d, f, lu);
    SeparatesComplex(s, d, lu, SolveHalves(m1, m2, d, f, lu), x);
  }

  /** And what the halves find, if it is a solution, is one of them. */
  lemma ExactAnswerCommutes(m1: Matrix, m2: Matrix, d: nat, lu: Solver, f: Complex)
    requires Pair(m1, m2, d) && f.Has(d) && Invertible(SquareSum(m1, m2, d), d, lu) && ExactFor(m1, m2, d, lu, f)
    ensures CommutingSolution(m1, m2, d, f, SolveHalves(m1, m2, d, f, lu))
  {
    var s, x := SquareSum(m1, m2, d), SolveHalves(m1, m2, d, f, lu);
    HalvesAnswer(m1, m2, d, f, lu);
    ConjugateOfTimes(m1, m2, d, x);
    SumIsFirst(Apply(s, x.re), Apply(m2, Apply(m1, x.im)), Apply(m1, Apply(m2, x.im)));
    SumIsFirst(Apply(s, x.im), Apply(m1, Apply(m2, x.re)), Apply(m2, Apply(m1, x.re)));
  }

  /** For one right part the shortcut is exact if and only if it has a commuting solution. */
  lemma ExactIffCommutingSolution(m1: Matrix, m2: Matrix, d: nat, lu: Solver, f: Complex)
    requires Pair(m1, m2, d) && f.Has(d) && Invertible(SquareSum(m1, m2, d), d, lu)
    ensures ExactFor(m1, m2, d, lu, f) <==> exists x: Complex :: CommutingSolution(m1, m2, d, f, x)
  {
    if ExactFor(m1, m2, d, lu, f) {
      ExactAnswerCommutes(m1, m2, d, lu, f);
    }
    if exists x: Complex :: CommutingSolution(m1, m2, d, f, x) {
      var x: Complex :| CommutingSolution(m1, m2, d, f, x);
      CommutingSolutionFound(m1, m2, d, lu, f, x);
    }
  }
}

/**
 The solver's shortcut. The system [[M1, -M2], [M2, M1]] is multiplication by the complex matrix
 M1 + i M2; multiplying by the conjugate turns it into two half-sized systems with the one matrix
 M1*M1 + M2*M2. The lemmas say exactly when that is the same as solving the full system.
 */
module BlockSolver {
  import opened Linear

  /** What the factorisation offers: a vector for each right part. */
  type Solver = (Matrix, Vector) -> Vector

  /** A complex vector, as the two halves of a full-sized one. */
  datatype Complex = Complex(re: Vector, im: Vector)
  {
    ghost predicate Has(d: nat) {
      |re| == |im| == d
    }
  }

  predicate Pair(m1: Matrix, m2: Matrix, d: nat) {
    IsMatrix(m1, d, d) && IsMatrix(m2, d, d)
  }

  /** Multiplication by M1 + i M2: the full system applied to x. */
  function Times(m1: Matrix, m2: Matrix, d: nat, x: Complex): (y: Complex)
    requires Pair(m1, m2, d) && x.Has(d)
    ensures y.Has(d)
  {
    Complex(Minus(Apply(m1, x.re), Apply(m2, x.im)), Plus(Apply(m2, x.re), Apply(m1, x.im)))
  }

  /** Multiplication by M1 - i M2: the right parts of the two half-sized systems. */
  function TimesConjugate(m1: Matrix, m2: Matrix, d: nat, f: Complex): (y: Complex)
    requires Pair(m1, m2, d) && f.Has(d)
    ensures y.Has(d)
  {
    Complex(Plus(Apply(m1, f.re), Apply(m2, f.im)), Minus(Apply(m1, f.im), Apply(m2, f.re)))
  }

  function SquareSum(m1: Matrix, m2: Matrix, d: nat): (s: Matrix)
    requires Pair(m1, m2, d)
    ensures IsMatrix(s, d, d)
  {
    Sum(Product(m1, m1, d, d), Product(m2, m2, d, d), d, d)
  }

  /** The two half-sized solves. */
  function SolveHalves(m1: Matrix, m2: Matrix, d: nat, f: Complex, lu: Solver): Complex
    requires Pair(m1, m2, d) && f.Has(d)
  {
    var s, g := SquareSum(m1, m2, d), TimesConjugate(m1, m2, d, f);
    Complex(lu(s, g.re), lu(s, g.im))
  }

  ghost predicate Answers(s: Matrix, d: nat, lu: Solver, b: Vector)
    requires IsMatrix(s, d, d)
  {
    |b| == d ==> |lu(s, b)| == d && Apply(s, lu(s, b)) == b
  }

  ghost predicate Separates(s: Matrix, d: nat, u: Vector, v: Vector)
    requires IsMatrix(s, d, d)
  {
    |u| == |v| == d && Apply(s, u) == Apply(s, v) ==> u == v
  }

  /** The factorisation answers every right part, and the matrix has one answer for each. */
  ghost predicate Invertible(s: Matrix, d: nat, lu: Solver)
    requires IsMatrix(s, d, d)
  {
    && (forall b: Vector :: Answers(s, d, lu, b))
    && (forall u: Vector, v: Vector :: Separates(s, d, u, v))
  }

  ghost predicate Commute(m1: Matrix, m2: Matrix, d: nat)
    requires Pair(m1, m2, d)
  {
    Product(m1, m2, d, d) == Product(m2, m1, d, d)
  }

  ghost predicate CommuteOn(m1: Matrix, m2: Matrix, d: nat, v: Vector)
    requires Pair(m1, m2, d)
  {
    |v| == d ==> Apply(m1, Apply(m2, v)) == Apply(m2, Apply(m1, v))
  }

  /** Commuting on every vector, which is how the proofs use it. */
  ghost predicate ActionsCommute(m1: Matrix, m2: Matrix, d: nat)
    requires Pair(m1, m2, d)
  {
    forall v: Vector :: CommuteOn(m1, m2, d, v)
  }

  lemma CommuteOnProducts(m1: Matrix, m2: Matrix, d: nat, v: Vector)
    requires Pair(m1, m2, d) && |v| == d
    ensures CommuteOn(m1, m2, d, v) <==> Apply(Product(m1, m2, d, d), v) == Apply(Product(m2, m1, d, d), v)
  {
    ApplyProduct(m1, m2, v);
    ApplyProduct(m2, m1, v);
  }

  lemma CommuteIffActions(m1: Matrix, m2: Matrix, d: nat)
    requires Pair(m1, m2, d)
    ensures Commute(m1, m2, d) <==> ActionsCommute(m1, m2, d)
  {
    var p, q := Product(m1, m2, d, d), Product(m2, m1, d, d);
    if p == q {
      forall v: Vector
        ensures CommuteOn(m1, m2, d, v)
      {
        if |v| == d {
          CommuteOnProducts(m1, m2, d, v);
        }
      }
    }
    if ActionsCommute(m1, m2, d) {
      forall v: Vector | |v| == d
        ensures Apply(p, v) == Apply(q, v)
      {
        assert CommuteOn(m1, m2, d, v);
        CommuteOnProducts(m1, m2, d, v);
      }
      SameAction(p, q, d, d);
    }
  }

  lemma ApplySquareSum(m1: Matrix, m2: Matrix, d: nat, v: Vector)
    requires Pair(m1, m2, d) && |v| == d
    ensures Apply(SquareSum(m1, m2, d), v) == Plus(Apply(m1, Apply(m1, v)), Apply(m2, Apply(m2, v)))
  {
    ApplySum(Product(m1, m1, d, d), Product(m2, m2, d, d), v);
    ApplyProduct(m1, m1, v);
    ApplyProduct(m2, m2, v);
  }

  /** Conjugate after the system, written out: the square sum and a commutator term. */
  lemma ConjugateOfTimes(m1: Matrix, m2: Matrix, d: nat, x: Complex)
    requires Pair(m1, m2, d) && x.Has(d)
    ensures var s := SquareSum(m1, m2, d);
            var y := TimesConjugate(m1, m2, d, Times(m1, m2, d, x));
            && y.re == Plus(Apply(s, x.re), Minus(Apply(m2, Apply(m1, x.im)), Apply(m1, Apply(m2, x.im))))
            && y.im == Plus(Apply(s, x.im), Minus(Apply(m1, Apply(m2, x.re)), Apply(m2, Apply(m1, x.re))))
  {
    ApplyMinus(m1, Apply(m1, x.re), Apply(m2, x.im));
    ApplyPlus(m2, Apply(m2, x.re), Apply(m1, x.im));
    ApplyPlus(m1, Apply(m2, x.re), Apply(m1, x.im));
    ApplyMinus(m2, Apply(m1, x.re), Apply(m2, x.im));
    ApplySquareSum(m1, m2, d, x.re);
    ApplySquareSum(m1, m2, d, x.im);
  }

  /** And the system after the conjugate. */
  lemma TimesOfConjugate(m1: Matrix, m2: Matrix, d: nat, f: Complex)
    requires Pair(m1, m2, d) && f.Has(d)
    ensures var s := SquareSum(m1, m2, d);
            var y := Times(m1, m2, d, TimesConjugate(m1, m2, d, f));
            && y.re == Plus(Apply(s, f.re), Minus(Apply(m1, Apply(m2, f.im)), Apply(m2, Apply(m1, f.im))))
            && y.im == Plus(Apply(s, f.im), Minus(Apply(m2, Apply(m1, f.re)), Apply(m1, Apply(m2, f.re))))
  {
    ApplyPlus(m1, Apply(m1, f.re), Apply(m2, f.im));
    ApplyMinus(m2, Apply(m1, f.im), Apply(m2, f.re));
    ApplyPlus(m2, Apply(m1, f.re), Apply(m2, f.im));
    ApplyMinus(m1, Apply(m1, f.im), Apply(m2, f.re));
    ApplySquareSum(m1, m2, d, f.re);
    ApplySquareSum(m1, m2, d, f.im);
  }

  lemma SquareSumCommutes(m1: Matrix, m2: Matrix, d: nat, v: Vector)
    requires Pair(m1, m2, d) && ActionsCommute(m1, m2, d) && |v| == d
    ensures var s := SquareSum(m1, m2, d);
            && Apply(s, Apply(m1, v)) == Apply(m1, Apply(s, v))
            && Apply(s, Apply(m2, v)) == Apply(m2, Apply(s, v))
  {
    var a, b := Apply(m1, v), Apply(m2, v);
    ApplySquareSum(m1, m2, d, v);
    ApplySquareSum(m1, m2, d, a);
    ApplySquareSum(m1, m2, d, b);
    ApplyPlus(m1, Apply(m1, a), Apply(m2, b));
    ApplyPlus(m2, Apply(m1, a), Apply(m2, b));
    assert CommuteOn(m1, m2, d, v) && CommuteOn(m1, m2, d, a) && CommuteOn(m1, m2, d, b);
  }

  lemma SquareSumOfTimes(m1: Matrix, m2: Matrix, d: nat, x: Complex)
    requires Pair(m1, m2, d) && ActionsCommute(m1, m2, d) && x.Has(d)
    ensures var s := SquareSum(m1, m2, d);
            var y := Times(m1, m2, d, x);
            Complex(Apply(s, y.re), Apply(s, y.im)) == Times(m1, m2, d, Complex(Apply(s, x.re), Apply(s, x.im)))
  {
    var s := SquareSum(m1, m2, d);
    SquareSumCommutes(m1, m2, d, x.re);
    SquareSumCommutes(m1, m2, d, x.im);
    ApplyMinus(s, Apply(m1, x.re), Apply(m2, x.im));
    ApplyPlus(s, Apply(m2, x.re), Apply(m1, x.im));
  }

  lemma CommutatorVanishes(m1: Matrix, m2: Matrix, d: nat, v: Vector, w: Vector)
    requires Pair(m1, m2, d) && |v| == |w| == d
    requires CommuteOn(m1, m2, d, v)
    ensures Plus(w, Minus(Apply(m1, Apply(m2, v)), Apply(m2, Apply(m1, v)))) == w
    ensures Plus(w, Minus(Apply(m2, Apply(m1, v)), Apply(m1, Apply(m2, v)))) == w
  {
  }

  /** Where the actions commute, both orders of system and conjugate are the square sum. */
  lemma CommutingProducts(m1: Matrix, m2: Matrix, d: nat, x: Complex)
    requires Pair(m1, m2, d) && ActionsCommute(m1, m2, d) && x.Has(d)
    ensures var s := SquareSum(m1, m2, d);
            && Times(m1, m2, d, TimesConjugate(m1, m2, d, x)) == Complex(Apply(s, x.re), Apply(s, x.im))
            && TimesConjugate(m1, m2, d, Times(m1, m2, d, x)) == Complex(Apply(s, x.re), Apply(s, x.im))
  {
    var s := SquareSum(m1, m2, d);
    TimesOfConjugate(m1, m2, d, x);
    ConjugateOfTimes(m1, m2, d, x);
    assert CommuteOn(m1, m2, d, x.re) && CommuteOn(m1, m2, d, x.im);
    CommutatorVanishes(m1, m2, d, x.re, Apply(s, x.im));
    CommutatorVanishes(m1, m2, d, x.im, Apply(s, x.re));
  }

  /** The square sum applied to the halves gives back the conjugated right part. */
  lemma HalvesAnswer(m1: Matrix, m2: Matrix, d: nat, f: Complex, lu: Solver)
    requires Pair(m1, m2, d) && f.Has(d) && Invertible(SquareSum(m1, m2, d), d, lu)
    ensures var x := SolveHalves(m1, m2, d, f, lu);
            var s := SquareSum(m1, m2, d);
            x.Has(d) && Complex(Apply(s, x.re), Apply(s, x.im)) == TimesConjugate(m1, m2, d, f)
  {
    var g := TimesConjugate(m1, m2, d, f);
    assert Answers(SquareSum(m1, m2, d), d, lu, g.re) && Answers(SquareSum(m1, m2, d), d, lu, g.im);
  }

  lemma SeparatesComplex(s: Matrix, d: nat, lu: Solver, x: Complex, y: Complex)
    requires IsMatrix(s, d, d) && Invertible(s, d, lu) && x.Has(d) && y.Has(d)
    requires Complex(Apply(s, x.re), Apply(s, x.im)) == Complex(Apply(s, y.re), Apply(s, y.im))
    ensures x == y
  {
    assert Separates(s, d, x.re, y.re) && Separates(s, d, x.im, y.im);
  }

  // ----- main results

  /** The halves solve the full system for the right part f. */
  ghost predicate ExactFor(m1: Matrix, m2: Matrix, d: nat, lu: Solver, f: Complex)
    requires Pair(m1, m2, d)
  {
    f.Has(d) ==>
      && SolveHalves(m1, m2, d, f, lu).Has(d)
      && Times(m1, m2, d, SolveHalves(m1, m2, d, f, lu)) == f
  }

  /**
   Exactness: when M1 and M2 commute, the two half-sized solves give a solution of the full
   system for every right part.
   */
  lemma SolveHalvesIsExact(m1: Matrix, m2: Matrix, d: nat, f: Complex, lu: Solver)
    requires Pair(m1, m2, d)
    requires Commute(m1, m2, d) && Invertible(SquareSum(m1, m2, d), d, lu)
    ensures ExactFor(m1, m2, d, lu, f)
  {
    if f.Has(d) {
      CommuteIffActions(m1, m2, d);
      HalvesAnswer(m1, m2, d, f, lu);
      var x := SolveHalves(m1, m2, d, f, lu);
      SquareSumOfTimes(m1, m2, d, x);
      CommutingProducts(m1, m2, d, f);
      SeparatesComplex(SquareSum(m1, m2, d), d, lu, Times(m1, m2, d, x), f);
    }
  }

  /** Solving gives back the state x when its image under the system is taken as the right part. */
  ghost predicate Recovers(m1: Matrix, m2: Matrix, d: nat, lu: Solver, x: Complex)
    requires Pair(m1, m2, d)
  {
    x.Has(d) ==> SolveHalves(m1, m2, d, Times(m1, m2, d, x), lu) == x
  }

  lemma CommutingRecovers(m1: Matrix, m2: Matrix, d: nat, lu: Solver, x: Complex)
    requires Pair(m1, m2, d) && Invertible(SquareSum(m1, m2, d), d, lu) && ActionsCommute(m1, m2, d)
    ensures Recovers(m1, m2, d, lu, x)
  {
    if x.Has(d) {
      CommutingProducts(m1, m2, d, x);
      HalvesAnswer(m1, m2, d, Times(m1, m2, d, x), lu);
      SeparatesComplex(SquareSum(m1, m2, d), d, lu, SolveHalves(m1, m2, d, Times(m1, m2, d, x), lu), x);
    }
  }

  lemma RecoveringCommutes(m1: Matrix, m2: Matrix, d: nat, lu: Solver, v: Vector)
    requires Pair(m1, m2, d) && Invertible(SquareSum(m1, m2, d), d, lu)
    requires Recovers(m1, m2, d, lu, Complex(v, v))
    ensures CommuteOn(m1, m2, d, v)
  {
    if |v| == d {
      var x, s := Complex(v, v), SquareSum(m1, m2, d);
      HalvesAnswer(m1, m2, d, Times(m1, m2, d, x), lu);
      ConjugateOfTimes(m1, m2, d, x);
      SumIsFirst(Apply(s, v), Apply(m2, Apply(m1, v)), Apply(m1, Apply(m2, v)));
    }
  }

  lemma SumIsFirst(a: Vector, b: Vector, c: Vector)
    requires |a| == |b| == |c| && a == Plus(a, Minus(b, c))
    ensures b == c
  {
    forall i | 0 <= i < |a|
      ensures b[i] == c[i]
    {
      assert a[i] == Plus(a, Minus(b, c))[i];
    }
  }

  /** Every state is recovered exactly when M1 and M2 commute, whatever the two matrices are. */
  lemma RecoversIffCommute(m1: Matrix, m2: Matrix, d: nat, lu: Solver)
    requires Pair(m1, m2, d) && Invertible(SquareSum(m1, m2, d), d, lu)
    ensures (forall x: Complex :: Recovers(m1, m2, d, lu, x)) <==> Commute(m1, m2, d)
  {
    CommuteIffActions(m1, m2, d);
    if forall x: Complex :: Recovers(m1, m2, d, lu, x) {
      forall v: Vector
        ensures CommuteOn(m1, m2, d, v)
      {
        RecoveringCommutes(m1, m2, d, lu, v);
      }
    }
    if ActionsCommute(m1, m2, d) {
      forall x: Complex
        ensures Recovers(m1, m2, d, lu, x)
      {
        CommutingRecovers(m1, m2, d, lu, x);
      }
    }
  }

  // ----- necessity: exchanging the halves turns the system into its conjugate

  function Exchanged(x: Complex): Complex {
    Complex(x.im, x.re)
  }

  lemma ExchangedTimes(m1: Matrix, m2: Matrix, d: nat, x: Complex)
    requires Pair(m1, m2, d) && x.Has(d)
    ensures TimesConjugate(m1, m2, d, Exchanged(x)) == Exchanged(Times(m1, m2, d, x))
    ensures Times(m1, m2, d, Exchanged(x)) == Exchanged(TimesConjugate(m1, m2, d, x))
  {
    PlusCommutes(Apply(m1, x.im), Apply(m2, x.re));
  }

  /** The two half-sized solves alone, without conjugating first. */
  function Halves(s: Matrix, f: Complex, lu: Solver): Complex {
    Complex(lu(s, f.re), lu(s, f.im))
  }

  /** What exactness says of exchanged right parts: conjugating after the halves undoes the system. */
  lemma ConjugateOfHalvesUndoes(m1: Matrix, m2: Matrix, d: nat, lu: Solver, g: Complex)
    requires Pair(m1, m2, d) && g.Has(d) && ExactFor(m1, m2, d, lu, Exchanged(g))
    ensures var h := Halves(SquareSum(m1, m2, d), Times(m1, m2, d, g), lu);
            h.Has(d) && TimesConjugate(m1, m2, d, h) == g
  {
    ExchangedTimes(m1, m2, d, g);
    ExchangedTimes(m1, m2, d, Halves(SquareSum(m1, m2, d), Times(m1, m2, d, g), lu));
  }

  lemma ExactCommutes(m1: Matrix, m2: Matrix, d: nat, lu: Solver, v: Vector)
    requires Pair(m1, m2, d) && Invertible(SquareSum(m1, m2, d), d, lu)
    requires forall f: Complex :: ExactFor(m1, m2, d, lu, f)
    ensures CommuteOn(m1, m2, d, v)
  {
    if |v| == d {
      var s, x := SquareSum(m1, m2, d), Complex(v, v);
      var g := Complex(Apply(s, v), Apply(s, v));
      var f := Halves(s, Times(m1, m2, d, g), lu);
      assert ExactFor(m1, m2, d, lu, Exchanged(g));
      ConjugateOfHalvesUndoes(m1, m2, d, lu, g);
      HalvesAnswer(m1, m2, d, f, lu);
      SeparatesComplex(s, d, lu, SolveHalves(m1, m2, d, f, lu), x);
      assert ExactFor(m1, m2, d, lu, f);
      ConjugateOfTimes(m1, m2, d, x);
      SumIsFirst(Apply(s, v), Apply(m2, Apply(m1, v)), Apply(m1, Apply(m2, v)));
    }
  }

  /** Commuting is necessary and sufficient for exactness on every right part, whatever the matrices. */
  lemma ExactIffCommute(m1: Matrix, m2: Matrix, d: nat, lu: Solver)
    requires Pair(m1, m2, d) && Invertible(SquareSum(m1, m2, d), d, lu)
    ensures (forall f: Complex :: ExactFor(m1, m2, d, lu, f)) <==> Commute(m1, m2, d)
  {
    if Commute(m1, m2, d) {
      forall f: Complex
        ensures ExactFor(m1, m2, d, lu, f)
      {
        SolveHalvesIsExact(m1, m2, d, f, lu);
      }
    }
    if forall f: Complex :: ExactFor(m1, m2, d, lu, f) {
      forall v: Vector
        ensures CommuteOn(m1, m2, d, v)
      {
        ExactCommutes(m1, m2, d, lu, v);
      }
      CommuteIffActions(m1, m2, d);
    }
  }
}

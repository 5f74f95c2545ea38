/** The object that holds the system: storage reused between calls, loading, and solving. */
module DipoleSystem {
  import opened Linear
  import opened BlockSolver
  import opened OneRightPart
  import opened SymmetricBlocks
  import opened DipoleBlocks

  /** The full matrix [[M1, -M2], [M2, M1]]. */
  function FullMatrix(m1: Matrix, m2: Matrix, d: nat): (m: Matrix)
    requires Pair(m1, m2, d)
    ensures IsMatrix(m, 2 * d, 2 * d)
  {
    seq(2 * d, r requires 0 <= r < 2 * d => if r < d then m1[r] + Negated(m2[r]) else m2[r - d] + m1[r - d])
  }

  function TopLeft(m: Matrix, d: nat): (b: Matrix)
    requires d <= |m| && forall r | 0 <= r < |m| :: d <= |m[r]|
    ensures IsMatrix(b, d, d)
  {
    seq(d, r requires 0 <= r < d => m[r][..d])
  }

  function BottomLeft(m: Matrix, d: nat): (b: Matrix)
    requires d <= |m| && forall r | 0 <= r < |m| :: d <= |m[r]|
    ensures IsMatrix(b, d, d)
  {
    seq(d, r requires 0 <= r < d => m[|m| - d + r][..d])
  }

  /** The right part every system of n dipoles has. */
  function RightPart(n: nat, an: real): (f: Vector)
    ensures |f| == 4 * n
  {
    seq(4 * n, k requires 0 <= k < 4 * n =>
      if (k < 2 * n && k % 2 == 0) || (k >= 2 * n && k % 2 == 1) then an * EPS else 0.0)
  }

  function Split(v: Vector, d: nat): (c: Complex)
    requires |v| == 2 * d
    ensures c.Has(d) && c.re + c.im == v
  {
    Complex(v[..d], v[d..])
  }

  lemma SplitImage(y: Complex, f: Vector, d: nat)
    requires y.Has(d) && |f| == 2 * d
    ensures y.re + y.im == f <==> y == Split(f, d)
  {
    assert (y.re + y.im)[..d] == y.re && (y.re + y.im)[d..] == y.im;
  }

  /** The full matrix applied to two halves is complex multiplication. */
  lemma FullMatrixActs(m1: Matrix, m2: Matrix, d: nat, x: Complex)
    requires Pair(m1, m2, d) && x.Has(d)
    ensures Apply(FullMatrix(m1, m2, d), x.re + x.im) == Times(m1, m2, d, x).re + Times(m1, m2, d, x).im
  {
    var m, y := FullMatrix(m1, m2, d), Times(m1, m2, d, x);
    forall r | 0 <= r < 2 * d
      ensures Apply(m, x.re + x.im)[r] == (y.re + y.im)[r]
    {
      if r < d {
        DotConcat(m1[r], Negated(m2[r]), x.re, x.im);
        DotNegated(m2[r], x.im);
      } else {
        DotConcat(m2[r - d], m1[r - d], x.re, x.im);
      }
    }
  }

  /** Loading a full matrix back gives the two blocks it was made from. */
  lemma LoadInvertsFullMatrix(m1: Matrix, m2: Matrix, d: nat)
    requires Pair(m1, m2, d)
    ensures TopLeft(FullMatrix(m1, m2, d), d) == m1
    ensures BottomLeft(FullMatrix(m1, m2, d), d) == m2
  {
    var m := FullMatrix(m1, m2, d);
    forall r | 0 <= r < d
      ensures TopLeft(m, d)[r] == m1[r] && BottomLeft(m, d)[r] == m2[r]
    {
    }
  }

  /** The right half of the matrix repeats the left half as the block form demands. */
  ghost predicate BlockForm(m: Matrix, d: nat)
    requires IsMatrix(m, 2 * d, 2 * d)
  {
    forall r | 0 <= r < d :: RowsInForm(m, d, r)
  }

  predicate RowsInForm(m: Matrix, d: nat, r: nat)
    requires IsMatrix(m, 2 * d, 2 * d) && r < d
  {
    m[r][d..] == Negated(m[d + r][..d]) && m[d + r][d..] == m[r][..d]
  }

  lemma LoadedRows(m: Matrix, d: nat, r: nat)
    requires IsMatrix(m, 2 * d, 2 * d) && r < d
    ensures var l := FullMatrix(TopLeft(m, d), BottomLeft(m, d), d);
            l[r] == m[r][..d] + Negated(m[d + r][..d]) && l[d + r] == m[d + r][..d] + m[r][..d]
  {
  }

  lemma RowsFaithful(m: Matrix, d: nat, r: nat)
    requires IsMatrix(m, 2 * d, 2 * d) && r < d
    ensures var l := FullMatrix(TopLeft(m, d), BottomLeft(m, d), d);
            l[r] == m[r] && l[d + r] == m[d + r] <==> RowsInForm(m, d, r)
  {
    LoadedRows(m, d, r);
    SameLeftHalf(m[r], Negated(m[d + r][..d]), d);
    SameLeftHalf(m[d + r], m[r][..d], d);
  }

  lemma SameLeftHalf(v: Vector, w: Vector, d: nat)
    requires |v| == 2 * d && |w| == d
    ensures v[..d] + w == v <==> v[d..] == w
  {
    assert v == v[..d] + v[d..];
    assert (v[..d] + w)[d..] == w;
  }

  /** And a loaded matrix is the system that gets solved exactly when it has the block form. */
  lemma {:induction false} LoadFaithfulIffBlockForm(m: Matrix, d: nat)
    requires IsMatrix(m, 2 * d, 2 * d)
    ensures FullMatrix(TopLeft(m, d), BottomLeft(m, d), d) == m <==> BlockForm(m, d)
  {
    var l := FullMatrix(TopLeft(m, d), BottomLeft(m, d), d);
    forall r | 0 <= r < d
      ensures l[r] == m[r] && l[d + r] == m[d + r] <==> RowsInForm(m, d, r)
    {
      RowsFaithful(m, d, r);
    }
    if BlockForm(m, d) {
      forall r | 0 <= r < 2 * d
        ensures l[r] == m[r]
      {
        var top := if r < d then r else r - d;
        assert RowsInForm(m, d, top);
        assert l[top] == m[top] && l[d + top] == m[d + top];
      }
    }
  }

  /** Block (i, m) of M1 or of M2. */
  function Cell(env: Analysis, an: real, xi: Coordinates, n: nat, i: nat, m: nat, first: bool): Block
    requires env.Valid() && Fits(xi, n) && Distinct(xi, n) && i < n && m < n
  {
    if first then Cells(env, an, xi, n, i, m).0 else Cells(env, an, xi, n, i, m).1
  }

  lemma CellsDetermine(env: Analysis, an: real, xi: Coordinates, n: nat, m: Matrix, first: bool)
    requires env.Valid() && IsMatrix(m, 2 * n, 2 * n) && Fits(xi, n) && Distinct(xi, n)
    requires forall k, l | 0 <= k < n && 0 <= l < n :: HasBlock(m, n, k, l, Cell(env, an, xi, n, k, l, first))
    ensures m == Spelled(if first then Grid1(env, an, xi, n) else Grid2(env, an, xi, n), n)
  {
    var g := if first then Grid1(env, an, xi, n) else Grid2(env, an, xi, n);
    forall k, l | 0 <= k < n && 0 <= l < n
      ensures HasBlock(m, n, k, l, g[k][l])
    {
      assert g[k][l] == Cell(env, an, xi, n, k, l, first);
    }
    BlocksDetermine(m, g, n);
  }

  lemma RightPartEntries(n: nat, an: real, i: nat)
    requires i < n
    ensures RightPart(n, an)[2 * i] == an * EPS && RightPart(n, an)[2 * i + 1] == 0.0
    ensures RightPart(n, an)[2 * i + 2 * n] == 0.0 && RightPart(n, an)[2 * i + 1 + 2 * n] == an * EPS
  {
    assert (2 * i + 2 * n) % 2 == 0 && (2 * i + 1 + 2 * n) % 2 == 1;
  }

  class Dipoles {
    const env: Analysis
    var m1: Matrix
    var m2: Matrix
    var f: Vector
    var an: real
    var n: nat

    /** Either nothing was set yet, or the size, the coefficient and the right part agree. */
    ghost predicate Valid()
      reads this
    {
      && env.Valid()
      && (f != [] ==> Ready())
    }

    ghost predicate Ready()
      reads this
    {
      n > 0 && an == A / (n as real) && f == RightPart(n, an) && Pair(m1, m2, 2 * n)
    }

    /** The state a freshly built object has for these coordinates. */
    ghost predicate Describes(xi: Coordinates)
      requires env.Valid() && |xi| >= 2 && Distinct(xi, |xi| / 2)
      reads this
    {
      && n == |xi| / 2 && Ready()
      && m1 == Spelled(Grid1(env, an, xi, n), n)
      && m2 == Spelled(Grid2(env, an, xi, n), n)
    }

    /** The default constructor leaves the size undefined. */
    constructor (env: Analysis, garbage: nat)
      requires env.Valid()
      ensures Valid() && this.env == env && f == []
    {
      this.env := env;
      m1, m2, f, an, n := [], [], [], A, garbage;
    }

    constructor FromCoordinates(env: Analysis, xi: Coordinates)
      requires env.Valid() && |xi| >= 2 && Distinct(xi, |xi| / 2)
      ensures Valid() && this.env == env && Describes(xi)
    {
      this.env := env;
      m1, m2, f, an, n := [], [], [], A, |xi| / 2;
      new;
      InitArrays();
      SetMatrixes(xi);
    }

    /** Resizing: the shape is right, the entries are whatever they are. */
    static method Resized(m: Matrix, rows: nat, cols: nat) returns (r: Matrix)
      ensures IsMatrix(r, rows, cols)
    {
      r := if IsMatrix(m, rows, cols) then m else seq(rows, _ => Zeros(cols));
    }

    method InitArrays()
      requires n > 0
      modifies this
      ensures n == old(n) && Ready()
      ensures n as real * an == A
    {
      an := A / (n as real);
      m1 := Resized(m1, 2 * n, 2 * n);
      m2 := Resized(m2, 2 * n, 2 * n);
      f := FilledRightPart();
    }

    /** The loop that fills the right part, four entries at a time. */
    method FilledRightPart() returns (g: Vector)
      ensures g == RightPart(n, an)
    {
      g := Zeros(4 * n);
      var i := 0;
      while i < n
        invariant 0 <= i <= n && |g| == 4 * n
        invariant forall k | 0 <= k < 2 * i :: g[k] == RightPart(n, an)[k]
        invariant forall k | 2 * n <= k < 2 * n + 2 * i :: g[k] == RightPart(n, an)[k]
      {
        RightPartEntries(n, an, i);
        g := g[2 * i := an * EPS][2 * i + 1 := 0.0][2 * i + 2 * n := 0.0][2 * i + 1 + 2 * n := an * EPS];
        i := i + 1;
      }
    }

    /** Both matrices are overwritten block by block; nothing of the old entries is left. */
    method SetMatrixes(xi: Coordinates)
      requires env.Valid() && Pair(m1, m2, 2 * n) && Fits(xi, n) && Distinct(xi, n)
      modifies this`m1, this`m2
      ensures m1 == Spelled(Grid1(env, an, xi, n), n)
      ensures m2 == Spelled(Grid2(env, an, xi, n), n)
    {
      m1 := Overwritten(m1, xi, true);
      m2 := Overwritten(m2, xi, false);
      CellsDetermine(env, an, xi, n, m1, true);
      CellsDetermine(env, an, xi, n, m2, false);
    }

    /** The nested loop over blocks; the source has it twice, for M1 and for M2. */
    method Overwritten(before: Matrix, xi: Coordinates, first: bool) returns (m: Matrix)
      requires env.Valid() && IsMatrix(before, 2 * n, 2 * n) && Fits(xi, n) && Distinct(xi, n)
      ensures IsMatrix(m, 2 * n, 2 * n)
      ensures forall k, l | 0 <= k < n && 0 <= l < n ::
                HasBlock(m, n, k, l, Cell(env, an, xi, n, k, l, first))
    {
      m := before;
      var i := 0;
      while i < n
        invariant 0 <= i <= n && IsMatrix(m, 2 * n, 2 * n)
        invariant forall k, l | 0 <= k < i && 0 <= l < n ::
                    HasBlock(m, n, k, l, Cell(env, an, xi, n, k, l, first))
      {
        var j := 0;
        while j < n
          invariant 0 <= j <= n && IsMatrix(m, 2 * n, 2 * n)
          invariant forall k, l | 0 <= k < n && 0 <= l < n && (k < i || (k == i && l < j)) ::
                      HasBlock(m, n, k, l, Cell(env, an, xi, n, k, l, first))
        {
          var block := Cell(env, an, xi, n, i, j, first);
          WithBlockKeepsOthers(m, n, i, j, block);
          m := WithBlock(m, 2 * i, 2 * j, block);
          j := j + 1;
        }
        i := i + 1;
      }
    }

    /** Whatever was set or loaded before, the outcome is that of a freshly built object. */
    method SetNewCoordinates(xi: Coordinates)
      requires Valid() && |xi| >= 2 && Distinct(xi, |xi| / 2)
      modifies this
      ensures Valid() && Describes(xi)
    {
      if |f| != |xi| * 2 {
        n := |xi| / 2;
        InitArrays();
      }
      SetMatrixes(xi);
    }

    method LoadFromMatrix(xi: Matrix)
      requires env.Valid() && |xi| >= 4 && forall r | 0 <= r < |xi| :: |xi[r]| >= 2 * (|xi| / 4)
      modifies this
      ensures Valid() && n == |xi| / 4 && Ready()
      ensures m1 == TopLeft(xi, 2 * n) && m2 == BottomLeft(xi, 2 * n)
    {
      n := |xi| / 4;
      InitArrays();
      m1 := TopLeft(xi, 2 * n);
      m2 := BottomLeft(xi, 2 * n);
    }

    method GetRightPart() returns (r: Vector)
      ensures r == f
    {
      r := f;
    }

    method GetMatrixx() returns (m: Matrix)
      requires Ready()
      ensures m == FullMatrix(m1, m2, 2 * n)
    {
      m := FullMatrix(m1, m2, 2 * n);
    }

    /**
     The flat result, as a vector of 4n. It solves the full system the object stands for, with its
     own right part, exactly if there is a solution on whose halves M1 and M2 commute.
     */
    method Solve(lu: Solver) returns (x: Vector)
      requires Ready() && Invertible(SquareSum(m1, m2, 2 * n), 2 * n, lu)
      ensures |x| == 4 * n
      ensures Split(x, 2 * n) == SolveHalves(m1, m2, 2 * n, Split(f, 2 * n), lu)
      ensures Apply(FullMatrix(m1, m2, 2 * n), x) == f
              <==> exists z: Complex :: CommutingSolution(m1, m2, 2 * n, Split(f, 2 * n), z)
      ensures Commute(m1, m2, 2 * n) ==> Apply(FullMatrix(m1, m2, 2 * n), x) == f
    {
      var re, im := SolvePair(lu);
      x := re + im;
      ghost var d := 2 * n;
      ExactIffCommutingSolution(m1, m2, d, lu, Split(f, d));
      if Commute(m1, m2, d) {
        SolveHalvesIsExact(m1, m2, d, Split(f, d), lu);
      }
      FullMatrixActs(m1, m2, d, Complex(re, im));
      SplitImage(Times(m1, m2, d, Complex(re, im)), f, d);
    }

    /** The result as two vectors of 2n. */
    method SolvePair(lu: Solver) returns (re: Vector, im: Vector)
      requires Ready() && Invertible(SquareSum(m1, m2, 2 * n), 2 * n, lu)
      ensures |re| == |im| == 2 * n
      ensures Complex(re, im) == SolveHalves(m1, m2, 2 * n, Split(f, 2 * n), lu)
    {
      var d := 2 * n;
      var s := SquareSum(m1, m2, d);
      re := lu(s, Plus(Apply(m1, f[..d]), Apply(m2, f[d..])));
      im := lu(s, Minus(Apply(m1, f[d..]), Apply(m2, f[..d])));
      HalvesAnswer(m1, m2, d, Split(f, d), lu);
    }
  }

  // ----- where the shortcut is exact for systems built from coordinates

  /**
   For every set of coordinates: the shortcut solves the system for all right parts exactly when
   the two matrices built from them commute.
   */
  lemma ExactForCoordinatesIffCommute(env: Analysis, an: real, xi: Coordinates, n: nat, lu: Solver)
    requires env.Valid() && Fits(xi, n) && Distinct(xi, n)
    requires var m1, m2 := Spelled(Grid1(env, an, xi, n), n), Spelled(Grid2(env, an, xi, n), n);
             Invertible(SquareSum(m1, m2, 2 * n), 2 * n, lu)
    ensures var m1, m2 := Spelled(Grid1(env, an, xi, n), n), Spelled(Grid2(env, an, xi, n), n);
            (forall f: Complex :: ExactFor(m1, m2, 2 * n, lu, f)) <==> Commute(m1, m2, 2 * n)
  {
    ExactIffCommute(Spelled(Grid1(env, an, xi, n), n), Spelled(Grid2(env, an, xi, n), n), 2 * n, lu);
  }

  /** Coordinates whose full system has unique solutions give half-sized systems that have, too. */
  lemma CoordinatesSeparate(env: Analysis, an: real, xi: Coordinates, n: nat, u: Vector, v: Vector)
    requires env.Valid() && Fits(xi, n) && Distinct(xi, n)
    requires UniqueSolutions(Spelled(Grid1(env, an, xi, n), n), Spelled(Grid2(env, an, xi, n), n), 2 * n)
    ensures var m1, m2 := Spelled(Grid1(env, an, xi, n), n), Spelled(Grid2(env, an, xi, n), n);
            Separates(SquareSum(m1, m2, 2 * n), 2 * n, u, v)
  {
    MatricesSymmetric(env, an, xi, n);
    SquareSumSeparates(Spelled(Grid1(env, an, xi, n), n), Spelled(Grid2(env, an, xi, n), n), 2 * n, u, v);
  }

  /** For two dipoles they always do. */
  lemma ExactForTwoDipoles(env: Analysis, an: real, xi: Coordinates, lu: Solver, f: Complex)
    requires env.Valid() && Fits(xi, 2) && Distinct(xi, 2)
    requires var m1, m2 := Spelled(Grid1(env, an, xi, 2), 2), Spelled(Grid2(env, an, xi, 2), 2);
             Invertible(SquareSum(m1, m2, 4), 4, lu)
    ensures ExactFor(Spelled(Grid1(env, an, xi, 2), 2), Spelled(Grid2(env, an, xi, 2), 2), 4, lu, f)
  {
    TwoDipolesCommute(env, an, xi);
    SolveHalvesIsExact(Spelled(Grid1(env, an, xi, 2), 2), Spelled(Grid2(env, an, xi, 2), 2), 4, f, lu);
  }

  const SKEW1: Matrix := [[1.0, 0.0], [0.0, -1.0]]
  const SKEW2: Matrix := [[0.0, 1.0], [1.0, 0.0]]

  lemma SkewActs(v: Vector)
    requires |v| == 2
    ensures Apply(SKEW1, v) == [v[0], -v[1]] && Apply(SKEW2, v) == [v[1], v[0]]
  {
    Dot2([1.0, 0.0], v);
    Dot2([0.0, -1.0], v);
    Dot2([0.0, 1.0], v);
    var u, w := Apply(SKEW1, v), Apply(SKEW2, v);
    assert u[0] == v[0] && u[1] == -v[1];
    assert w[0] == v[1] && w[1] == v[0];
  }

  /**
   A loaded system the shortcut gets wrong, with the right part every one-dipole system has: the
   two symmetric blocks do not commute, and what is returned does not solve the system.
   */
  lemma LoadedSystemSolvedWrong(lu: Solver)
    requires Invertible(SquareSum(SKEW1, SKEW2, 2), 2, lu)
    ensures RightPart(1, A / 1.0) == [1.0, 0.0] + [0.0, 1.0]
    ensures !ExactFor(SKEW1, SKEW2, 2, lu, Complex([1.0, 0.0], [0.0, 1.0]))
  {
    var f := Complex([1.0, 0.0], [0.0, 1.0]);
    var s, x := SquareSum(SKEW1, SKEW2, 2), SolveHalves(SKEW1, SKEW2, 2, f, lu);
    HalvesAnswer(SKEW1, SKEW2, 2, f, lu);
    SkewActs(f.re);
    SkewActs(f.im);
    SkewActs(x.re);
    SkewActs(x.im);
    SkewActs(Apply(SKEW1, x.re));
    SkewActs(Apply(SKEW2, x.re));
    ApplySquareSum(SKEW1, SKEW2, 2, x.re);
    assert x.re[0] + x.re[0] == 2.0 by { assert Apply(s, x.re)[0] == TimesConjugate(SKEW1, SKEW2, 2, f).re[0]; }
    SkewActs(Apply(SKEW1, x.im));
    SkewActs(Apply(SKEW2, x.im));
    ApplySquareSum(SKEW1, SKEW2, 2, x.im);
    assert x.im[1] + x.im[1] == -2.0 by { assert Apply(s, x.im)[1] == TimesConjugate(SKEW1, SKEW2, 2, f).im[1]; }
    assert Times(SKEW1, SKEW2, 2, x).re[0] == 2.0;
  }
}

/**
 Three dipoles, one at a corner and two at the same distance from it in perpendicular directions:
 the two matrices built from them do not commute.
 */
module ThreeDipoles {
  import opened Linear
  import opened Reals
  import opened BlockSolver
  import opened DipoleBlocks
  import opened AxisDipoles

  /** A point, and two more along either axis at the same distance, in any direction. */
  predicate Corner(xi: Coordinates, a: real, b: real) {
    && a != 0.0 && b != 0.0 && Square(a) == Square(b) && Fits(xi, 3)
    && xi[1] == xi[0] + a && xi[4] == xi[3]
    && xi[2] == xi[0] && xi[5] == xi[3] + b
  }

  lemma CornerDistinct(xi: Coordinates, a: real, b: real)
    requires Corner(xi, a, b)
    ensures Distinct(xi, 3)
  {
  }

  /** Entry (2, 4) of a product of two spelled-out grids: block row 1 against block column 2. */
  lemma {:induction false} ProductEntry(g: Grid, h: Grid)
    requires IsGrid(g, 3) && IsGrid(h, 3)
    ensures var m := Product(Spelled(g, 3), Spelled(h, 3), 6, 6);
            && IsMatrix(m, 6, 6)
            && m[2][4] == FirstEntry(g[1][0], h[0][2]) + (FirstEntry(g[1][1], h[1][2]) + FirstEntry(g[1][2], h[2][2]))
  {
    var a, b := Spelled(g, 3), Spelled(h, 3);
    var row, col := a[2], Column(b, 4, 6);
    CombineEntry(row, b, 6, 4);
    assert row == Top(g[1][0]) + (Top(g[1][1]) + Top(g[1][2]));
    assert col == Left(h[0][2]) + (Left(h[1][2]) + Left(h[2][2]));
    DotOfPairs(Top(g[1][0]), Top(g[1][1]), Top(g[1][2]), Left(h[0][2]), Left(h[1][2]), Left(h[2][2]));
    TopLeft(g[1][0], h[0][2]);
    TopLeft(g[1][1], h[1][2]);
    TopLeft(g[1][2], h[2][2]);
  }

  function Left(b: Block): (v: Vector)
    ensures |v| == 2
  {
    [b.e00, b.e10]
  }

  /** The first entry of the product of two blocks. */
  function FirstEntry(a: Block, b: Block): real {
    a.e00 * b.e00 + a.e01 * b.e10
  }

  lemma {:induction false} TopLeft(a: Block, b: Block)
    ensures Dot(Top(a), Left(b)) == FirstEntry(a, b)
  {
    PairDot(Top(a), Left(b), a.e00, a.e01, b.e00, b.e10);
  }

  lemma {:induction false} CornerDifferences(xi: Coordinates, a: real, b: real)
    requires Corner(xi, a, b)
    ensures Difference(xi, 3, 0, 1) == (-a, 0.0) && Difference(xi, 3, 2, 0) == (0.0, b)
    ensures SquaredDistance(xi, 3, 1, 0) == SquaredDistance(xi, 3, 0, 2)
  {
    SquareOfNegative(b);
    assert Difference(xi, 3, 1, 0) == (a, 0.0) && Difference(xi, 3, 0, 2) == (0.0, -b);
  }

  /** Two perpendicular arms with their common distance, and the diagonal. */
  ghost predicate HasArms(g: Grid, h: Grid, k: real, l: real, t: real, c: real, s: real, an: real)
    requires IsGrid(g, 3) && IsGrid(h, 3)
  {
    && IsAxisPair(g[1][0], h[1][0], k, l, t, c, s, an) && IsAxisPair(g[0][2], h[0][2], l, k, t, c, s, an)
    && g[1][1] == g[2][2] == DIAGONAL1 && h[1][1] == h[2][2] == DIAGONAL2
  }

  ghost predicate IsCorner(g: Grid, h: Grid) {
    && IsGrid(g, 3) && IsGrid(h, 3)
    && exists k, l, t, c, s, an ::
         HasArms(g, h, k, l, t, c, s, an) && c * c + s * s == 1.0 && k > l && t > 0.0 && an != 0.0
  }

  lemma ArmsCross(k: real, l: real, t: real, c: real, s: real, an: real)
    requires c * c + s * s == 1.0
    ensures Entry1(k, t, c, s, an) * Entry2(l, t, c, s, an) - Entry2(k, t, c, s, an) * Entry1(l, t, c, s, an)
            == Square(an) * (t * (k - l))
  {
    CrossTerm(l, t, c, s, k, t, c, s, an);
    AtOnce(l, k, t, c, s);
  }

  lemma AtOnce(l: real, k: real, t: real, c: real, s: real)
    requires c * c + s * s == 1.0
    ensures (l * k + t * t) * (s * c - c * s) + (t * k - l * t) * (c * c + s * s) == t * (k - l)
  {
    assert s * c == c * s && l * t == t * l;
    ZeroAndOne(l * k + t * t, s * c - c * s, t * k - l * t, c * c + s * s);
    Factored(t, k, l);
  }

  lemma ZeroAndOne(a: real, u: real, b: real, w: real)
    requires u == 0.0 && w == 1.0
    ensures a * u + b * w == b
  {
  }

  /** Entry (2, 4) of the commutator. */
  lemma {:induction false} CornerCommutator(g: Grid, h: Grid, k: real, l: real, t: real, c: real, s: real, an: real)
    requires IsGrid(g, 3) && IsGrid(h, 3) && HasArms(g, h, k, l, t, c, s, an) && c * c + s * s == 1.0
    ensures var p, q := Product(Spelled(g, 3), Spelled(h, 3), 6, 6), Product(Spelled(h, 3), Spelled(g, 3), 6, 6);
            && IsMatrix(p, 6, 6) && IsMatrix(q, 6, 6)
            && p[2][4] - q[2][4] == Square(an) * (t * (k - l))
  {
    ProductEntry(g, h);
    ProductEntry(h, g);
    ArmsCross(k, l, t, c, s, an);
    Outer(g[1][0], g[0][2], h[1][0], h[0][2]);
    Inner(DIAGONAL1, DIAGONAL2, g[1][2], h[1][2]);
  }

  lemma Outer(p: Block, q: Block, p': Block, q': Block)
    requires p.e01 == p'.e01 == 0.0
    ensures FirstEntry(p, q') - FirstEntry(p', q) == p.e00 * q'.e00 - p'.e00 * q.e00
  {
  }

  lemma Inner(x: Block, y: Block, p: Block, q: Block)
    requires x.e01 == y.e01 == x.e10 == y.e10 == 0.0
    ensures FirstEntry(x, q) + FirstEntry(p, y) == FirstEntry(y, p) + FirstEntry(q, x)
  {
  }

  lemma {:induction false} CornersDoNotCommute(g: Grid, h: Grid)
    requires IsCorner(g, h)
    ensures !Commute(Spelled(g, 3), Spelled(h, 3), 6)
  {
    var k, l, t, c, s, an :|
      HasArms(g, h, k, l, t, c, s, an) && c * c + s * s == 1.0 && k > l && t > 0.0 && an != 0.0;
    CornerCommutator(g, h, k, l, t, c, s, an);
    ProductPositive(t, k - l);
    NonZeroProduct(Square(an), t * (k - l));
  }

  lemma {:induction false} CornerArms(env: Analysis, an: real, xi: Coordinates, a: real, b: real, r: real)
    requires env.Valid() && Corner(xi, a, b) && Distinct(xi, 3) && r == GetDistance(env, xi, 3, 1, 0)
    ensures HasArms(Grid1(env, an, xi, 3), Grid2(env, an, xi, 3), Near(-a, r), Near(0.0, r), Phase(r),
                    env.cos(OMEGA * r / C), env.sin(OMEGA * r / C), an)
  {
    CornerDifferences(xi, a, b);
    AxisCells(env, an, xi, 3, 1, 0, -a, 0.0, r);
    AxisCells(env, an, xi, 3, 0, 2, 0.0, b, r);
    SameSquare(-a, b, r);
  }

  lemma {:induction false} CornerGrids(env: Analysis, an: real, xi: Coordinates, a: real, b: real)
    requires env.Valid() && env.Circular() && an != 0.0 && Corner(xi, a, b) && Distinct(xi, 3)
    ensures IsCorner(Grid1(env, an, xi, 3), Grid2(env, an, xi, 3))
  {
    var r := GetDistance(env, xi, 3, 1, 0);
    CornerArms(env, an, xi, a, b, r);
    AlongIsLarger(-a, r);
    assert env.OnCircle(OMEGA * r / C);
  }

  lemma {:induction false} SameSquare(a: real, b: real, r: real)
    requires Square(a) == Square(b) && r > 0.0
    ensures Near(a, r) == Near(b, r)
  {
    assert 3.0 * a * a == 3.0 * Square(a) && 3.0 * b * b == 3.0 * Square(b);
  }

  /**
   Systems built from coordinates, the way production builds them, whose matrices do not commute:
   every corner with arms along the axes, whatever its place, size and directions, for any cosine
   and sine on the unit circle.
   */
  lemma {:induction false} CornerDoesNotCommute(env: Analysis, an: real, xi: Coordinates, a: real, b: real)
    requires env.Valid() && env.Circular() && an != 0.0 && Corner(xi, a, b)
    ensures Distinct(xi, 3)
    ensures !Commute(Spelled(Grid1(env, an, xi, 3), 3), Spelled(Grid2(env, an, xi, 3), 3), 6)
  {
    CornerDistinct(xi, a, b);
    CornerGrids(env, an, xi, a, b);
    CornersDoNotCommute(Grid1(env, an, xi, 3), Grid2(env, an, xi, 3));
  }

  /** So some right part of each is solved wrongly, though perhaps not the object's own. */
  lemma {:induction false} CornerSolvedWrong(env: Analysis, an: real, xi: Coordinates, a: real, b: real, lu: Solver)
    requires env.Valid() && env.Circular() && an != 0.0 && Corner(xi, a, b) && Distinct(xi, 3)
    requires var m1, m2 := Spelled(Grid1(env, an, xi, 3), 3), Spelled(Grid2(env, an, xi, 3), 3);
             Invertible(SquareSum(m1, m2, 6), 6, lu)
    ensures var m1, m2 := Spelled(Grid1(env, an, xi, 3), 3), Spelled(Grid2(env, an, xi, 3), 3);
            exists f: Complex :: !ExactFor(m1, m2, 6, lu, f)
  {
    CornerDoesNotCommute(env, an, xi, a, b);
    ExactIffCommute(Spelled(Grid1(env, an, xi, 3), 3), Spelled(Grid2(env, an, xi, 3), 3), 6, lu);
  }
}

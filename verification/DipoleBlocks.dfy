/**
 The two coefficient matrices built from coordinates, block by block, over the reals. Cosine, sine
 and the square root are parameters of which only positivity of the root is used.
 */
module DipoleBlocks {
  import opened Linear
  import opened Reals
  import opened BlockSolver

  const C: real := 300000000.0
  const YO: real := 10000000.0
  const OMEGA: real := 1000000000000000.0
  const OMEGA0: real := OMEGA
  const A: real := 1.0
  const EPS: real := 1.0

  datatype Analysis = Analysis(cos: real -> real, sin: real -> real, sqrt: real -> real)
  {
    ghost predicate Valid() {
      forall x: real | x > 0.0 :: sqrt(x) > 0.0
    }

    ghost predicate Rooted() {
      forall x: real | x > 0.0 :: IsRoot(x)
    }

    predicate IsRoot(x: real) {
      sqrt(x) * sqrt(x) == x
    }

    /** Cosine and sine lie on the unit circle. */
    ghost predicate Circular() {
      forall x: real :: OnCircle(x)
    }

    predicate OnCircle(x: real) {
      cos(x) * cos(x) + sin(x) * sin(x) == 1.0
    }
  }

  /** A 2 by 2 block. */
  datatype Block = Block(e00: real, e01: real, e10: real, e11: real)
  {
    function At(a: nat, b: nat): real {
      if a == 0 then (if b == 0 then e00 else e01) else (if b == 0 then e10 else e11)
    }

    function Plus(other: Block): Block {
      Block(e00 + other.e00, e01 + other.e01, e10 + other.e10, e11 + other.e11)
    }

    function Minus(other: Block): Block {
      Block(e00 - other.e00, e01 - other.e01, e10 - other.e10, e11 - other.e11)
    }

    function Times(factor: real): Block {
      Block(e00 * factor, e01 * factor, e10 * factor, e11 * factor)
    }
  }

  /** The identity scaled. */
  function Scalar(x: real): Block {
    Block(x, 0.0, 0.0, x)
  }

  function Pow(x: real, k: nat): real {
    if k == 0 then 1.0 else x * Pow(x, k - 1)
  }

  lemma {:induction false} PowPositive(x: real, k: nat)
    requires x > 0.0
    ensures Pow(x, k) > 0.0
  {
    if k > 0 {
      PowPositive(x, k - 1);
    }
  }

  lemma {:induction false} Powers(d: real)
    requires d > 0.0
    ensures Pow(d, 2) == d * d && Pow(d, 3) == d * (d * d) && Pow(d, 5) == d * (d * Pow(d, 3))
    ensures Pow(d, 2) > 0.0 && Pow(d, 3) > 0.0 && Pow(d, 5) > 0.0
  {
    PowPositive(d, 2);
    PowPositive(d, 3);
    PowPositive(d, 5);
    assert Pow(d, 1) == d * Pow(d, 0) == d;
    assert Pow(d, 4) == d * Pow(d, 3);
  }

  /** The temporary blocks k1 and k2 of a pair of dipoles at distance `r`. */
  function GetMatrices(rim0: real, rim1: real, r: real): (Block, Block)
    requires r > 0.0
  {
    PowPositive(r, 5);
    PowPositive(r, 3);
    PowPositive(r, 2);
    (Block(3.0 * rim0 * rim0 / Pow(r, 5) - 1.0 / Pow(r, 3), 3.0 * rim0 * rim1 / Pow(r, 5),
           3.0 * rim0 * rim1 / Pow(r, 5), 3.0 * rim1 * rim1 / Pow(r, 5) - 1.0 / Pow(r, 3)),
     Scalar(OMEGA / (C * Pow(r, 2))))
  }

  // ----- coordinates

  /** Flat coordinates of n dipoles: all first components, then all second ones. */
  type Coordinates = seq<real>

  predicate Fits(xi: Coordinates, n: nat) {
    2 * n <= |xi|
  }

  function Difference(xi: Coordinates, n: nat, i1: nat, i2: nat): (real, real)
    requires Fits(xi, n) && i1 < n && i2 < n
  {
    (xi[i1] - xi[i2], xi[i1 + n] - xi[i2 + n])
  }

  function SquaredDistance(xi: Coordinates, n: nat, i1: nat, i2: nat): real
    requires Fits(xi, n) && i1 < n && i2 < n
  {
    Square(Difference(xi, n, i1, i2).0) + Square(Difference(xi, n, i1, i2).1)
  }

  /** No two dipoles share a point; otherwise the source divides by a zero distance. */
  ghost predicate Distinct(xi: Coordinates, n: nat)
    requires Fits(xi, n)
  {
    forall i, m | 0 <= i < n && 0 <= m < n && i != m :: Apart(xi, n, i, m)
  }

  predicate Apart(xi: Coordinates, n: nat, i: nat, m: nat)
    requires Fits(xi, n) && i < n && m < n
  {
    xi[i] != xi[m] || xi[i + n] != xi[m + n]
  }

  lemma SquareOfNegative(x: real)
    ensures Square(-x) == Square(x)
  {
  }

  function GetDistance(env: Analysis, xi: Coordinates, n: nat, i: nat, m: nat): (r: real)
    requires env.Valid() && Fits(xi, n) && Distinct(xi, n) && i < n && m < n && i != m
    ensures r > 0.0
  {
    assert Apart(xi, n, i, m);
    env.sqrt(SquaredDistance(xi, n, i, m))
  }

  // ----- the blocks of the two matrices

  const DIAGONAL1: Block := Scalar(OMEGA0 * OMEGA0 - OMEGA * OMEGA)
  const DIAGONAL2: Block := Scalar(-(YO * OMEGA))

  /** Block (i, m) of M1 and of M2. */
  function Cells(env: Analysis, an: real, xi: Coordinates, n: nat, i: nat, m: nat): (Block, Block)
    requires env.Valid() && Fits(xi, n) && Distinct(xi, n) && i < n && m < n
  {
    if i == m then (DIAGONAL1, DIAGONAL2)
    else
      var rim := Difference(xi, n, m, i);
      var r := GetDistance(env, xi, n, i, m);
      var (k1, k2) := GetMatrices(rim.0, rim.1, r);
      var arg := OMEGA * r / C;
      (k1.Times(env.cos(arg)).Minus(k2.Times(env.sin(arg))).Times(-an),
       k2.Times(env.cos(arg)).Plus(k1.Times(env.sin(arg))).Times(-an))
  }

  type Grid = seq<seq<Block>>

  ghost predicate IsGrid(g: Grid, n: nat) {
    |g| == n && forall i | 0 <= i < n :: |g[i]| == n
  }

  ghost function Grid1(env: Analysis, an: real, xi: Coordinates, n: nat): (g: Grid)
    requires env.Valid() && Fits(xi, n) && Distinct(xi, n)
    ensures IsGrid(g, n)
  {
    seq(n, i requires 0 <= i < n => seq(n, m requires 0 <= m < n => Cells(env, an, xi, n, i, m).0))
  }

  ghost function Grid2(env: Analysis, an: real, xi: Coordinates, n: nat): (g: Grid)
    requires env.Valid() && Fits(xi, n) && Distinct(xi, n)
    ensures IsGrid(g, n)
  {
    seq(n, i requires 0 <= i < n => seq(n, m requires 0 <= m < n => Cells(env, an, xi, n, i, m).1))
  }

  /** The matrix a grid of blocks spells out. */
  ghost function Spelled(g: Grid, n: nat): (m: Matrix)
    requires IsGrid(g, n)
    ensures IsMatrix(m, 2 * n, 2 * n)
  {
    seq(2 * n, r requires 0 <= r < 2 * n =>
      seq(2 * n, c requires 0 <= c < 2 * n => g[r / 2][c / 2].At(r % 2, c % 2)))
  }

  ghost predicate HasBlock(m: Matrix, n: nat, i: nat, j: nat, b: Block)
    requires IsMatrix(m, 2 * n, 2 * n) && i < n && j < n
  {
    && m[2 * i][2 * j] == b.e00 && m[2 * i][2 * j + 1] == b.e01
    && m[2 * i + 1][2 * j] == b.e10 && m[2 * i + 1][2 * j + 1] == b.e11
  }

  /** Overwriting every block determines the matrix, whatever was there before. */
  lemma BlocksDetermine(m: Matrix, g: Grid, n: nat)
    requires IsMatrix(m, 2 * n, 2 * n) && IsGrid(g, n)
    requires forall i, j | 0 <= i < n && 0 <= j < n :: HasBlock(m, n, i, j, g[i][j])
    ensures m == Spelled(g, n)
  {
    forall r, c | 0 <= r < 2 * n && 0 <= c < 2 * n
      ensures m[r][c] == Spelled(g, n)[r][c]
    {
      assert HasBlock(m, n, r / 2, c / 2, g[r / 2][c / 2]);
      assert r == 2 * (r / 2) + r % 2 && c == 2 * (c / 2) + c % 2;
    }
    forall r | 0 <= r < 2 * n
      ensures m[r] == Spelled(g, n)[r]
    {
    }
  }

  function WithBlock(m: Matrix, row: nat, col: nat, b: Block): (m': Matrix)
    requires row + 1 < |m| && col + 1 < |m[row]| && col + 1 < |m[row + 1]|
  {
    m[row := m[row][col := b.e00][col + 1 := b.e01]]
     [row + 1 := m[row + 1][col := b.e10][col + 1 := b.e11]]
  }

  lemma WithBlockKeepsOthers(m: Matrix, n: nat, i: nat, j: nat, b: Block)
    requires IsMatrix(m, 2 * n, 2 * n) && i < n && j < n
    ensures var m' := WithBlock(m, 2 * i, 2 * j, b);
            && IsMatrix(m', 2 * n, 2 * n)
            && HasBlock(m', n, i, j, b)
            && (forall k, l, c | 0 <= k < n && 0 <= l < n && (k != i || l != j) && HasBlock(m, n, k, l, c) ::
                  HasBlock(m', n, k, l, c))
  {
  }

  // ----- symmetry

  lemma MirroredDifference(xi: Coordinates, n: nat, i: nat, m: nat)
    requires Fits(xi, n) && i < n && m < n
    ensures Difference(xi, n, m, i).0 == -Difference(xi, n, i, m).0
    ensures Difference(xi, n, m, i).1 == -Difference(xi, n, i, m).1
    ensures SquaredDistance(xi, n, m, i) == SquaredDistance(xi, n, i, m)
  {
    SquareOfNegative(Difference(xi, n, i, m).0);
    SquareOfNegative(Difference(xi, n, i, m).1);
  }

  lemma MirroredMatrices(a: real, b: real, r: real)
    requires r > 0.0
    ensures GetMatrices(-a, -b, r) == GetMatrices(a, b, r)
  {
    assert 3.0 * (-a) * (-a) == 3.0 * a * a;
    assert 3.0 * (-a) * (-b) == 3.0 * a * b;
    assert 3.0 * (-b) * (-b) == 3.0 * b * b;
  }

  /** Exchanging two dipoles flips their difference, which enters only in quadratic terms. */
  lemma {:induction false} CellsSymmetric(env: Analysis, an: real, xi: Coordinates, n: nat, i: nat, m: nat)
    requires env.Valid() && Fits(xi, n) && Distinct(xi, n) && i < n && m < n
    ensures Cells(env, an, xi, n, i, m) == Cells(env, an, xi, n, m, i)
    ensures var (b1, b2) := Cells(env, an, xi, n, i, m); b1.e01 == b1.e10 && b2.e01 == b2.e10
  {
    if i != m {
      MirroredDifference(xi, n, i, m);
      var d := Difference(xi, n, i, m);
      MirroredMatrices(d.0, d.1, GetDistance(env, xi, n, i, m));
    }
  }

  lemma SpelledSymmetric(g: Grid, n: nat)
    requires IsGrid(g, n)
    requires forall i, j | 0 <= i < n && 0 <= j < n :: g[i][j] == g[j][i] && g[i][j].e01 == g[i][j].e10
    ensures Symmetric(Spelled(g, n), 2 * n)
  {
    forall r, c | 0 <= r < 2 * n && 0 <= c < 2 * n
      ensures Spelled(g, n)[r][c] == Spelled(g, n)[c][r]
    {
      assert g[r / 2][c / 2] == g[c / 2][r / 2];
    }
  }

  /** The matrices built from any coordinates are symmetric. */
  lemma {:induction false} MatricesSymmetric(env: Analysis, an: real, xi: Coordinates, n: nat)
    requires env.Valid() && Fits(xi, n) && Distinct(xi, n)
    ensures Symmetric(Spelled(Grid1(env, an, xi, n), n), 2 * n)
    ensures Symmetric(Spelled(Grid2(env, an, xi, n), n), 2 * n)
  {
    forall i, j | 0 <= i < n && 0 <= j < n
      ensures Cells(env, an, xi, n, i, j) == Cells(env, an, xi, n, j, i)
      ensures Cells(env, an, xi, n, i, j).0.e01 == Cells(env, an, xi, n, i, j).0.e10
      ensures Cells(env, an, xi, n, i, j).1.e01 == Cells(env, an, xi, n, i, j).1.e10
    {
      CellsSymmetric(env, an, xi, n, i, j);
    }
    SpelledSymmetric(Grid1(env, an, xi, n), n);
    SpelledSymmetric(Grid2(env, an, xi, n), n);
  }

  // ----- two dipoles: the shortcut is exact

  /** A block as a matrix of its own. */
  ghost function AsMatrix(b: Block): (m: Matrix)
    ensures IsMatrix(m, 2, 2)
  {
    [[b.e00, b.e01], [b.e10, b.e11]]
  }

  lemma Dot2(u: Vector, v: Vector)
    requires |u| == |v| == 2
    ensures Dot(u, v) == u[0] * v[0] + u[1] * v[1]
  {
    assert Dot(u[1..], v[1..]) == u[1] * v[1] + Dot(u[1..][1..], v[1..][1..]);
  }

  /** `b` is x times `k` plus y times the identity. */
  ghost predicate Combines(b: Block, k: Block, x: real, y: real) {
    b.e00 == x * k.e00 + y && b.e01 == x * k.e01 && b.e10 == x * k.e10 && b.e11 == x * k.e11 + y
  }

  /** `b` acts like x times `k` plus y times the identity. */
  ghost predicate ActsLike(b: Block, k: Block, x: real, y: real, v: Vector)
    requires |v| == 2
  {
    Apply(AsMatrix(b), v) == Plus(Scaled(x, Apply(AsMatrix(k), v)), Scaled(y, v))
  }

  lemma CombinedEntry(p: real, q: real, k: real, l: real, x: real, y: real, v: real, w: real)
    requires p == x * k + y && q == x * l
    ensures p * v + q * w == x * (k * v + l * w) + y * v
  {
    assert (x * k + y) * v == x * (k * v) + y * v;
    assert x * l * w == x * (l * w);
  }

  lemma CombinationActsLike(b: Block, k: Block, x: real, y: real, v: Vector)
    requires Combines(b, k, x, y) && |v| == 2
    ensures ActsLike(b, k, x, y, v)
  {
    var left, inner := Apply(AsMatrix(b), v), Apply(AsMatrix(k), v);
    Dot2([b.e00, b.e01], v);
    Dot2([b.e10, b.e11], v);
    Dot2([k.e00, k.e01], v);
    Dot2([k.e10, k.e11], v);
    CombinedEntry(b.e00, b.e01, k.e00, k.e01, x, y, v[0], v[1]);
    CombinedEntry(b.e11, b.e10, k.e11, k.e10, x, y, v[1], v[0]);
    EntriesOfSum(left, x, inner, y, v);
  }

  lemma EntriesOfSum(left: Vector, x: real, u: Vector, y: real, v: Vector)
    requires |left| == |u| == |v| == 2
    requires left[0] == x * u[0] + y * v[0] && left[1] == x * u[1] + y * v[1]
    ensures left == Plus(Scaled(x, u), Scaled(y, v))
  {
    assert Scaled(x, u)[0] == x * u[0] && Scaled(x, u)[1] == x * u[1];
    assert Scaled(y, v)[0] == y * v[0] && Scaled(y, v)[1] == y * v[1];
  }

  /** What a combination does to the image of another combination of the same block. */
  lemma CombinationTwice(p: Block, k: Block, x: real, y: real, z: real, w: real, v: Vector)
    requires |v| == 2
    requires ActsLike(p, k, x, y, Plus(Scaled(z, Apply(AsMatrix(k), v)), Scaled(w, v)))
    ensures var s := Apply(AsMatrix(k), v);
            var r := Apply(AsMatrix(k), s);
            Apply(AsMatrix(p), Plus(Scaled(z, s), Scaled(w, v)))
            == Plus(Plus(Scaled(x, Scaled(z, r)), Scaled(x, Scaled(w, s))),
                    Plus(Scaled(y, Scaled(z, s)), Scaled(y, Scaled(w, v))))
  {
    var m := AsMatrix(k);
    var s := Apply(m, v);
    ApplyPlus(m, Scaled(z, s), Scaled(w, v));
    ApplyScaled(m, z, s);
    ApplyScaled(m, w, v);
    ScaledPlus(x, Scaled(z, Apply(m, s)), Scaled(w, s));
    ScaledPlus(y, Scaled(z, s), Scaled(w, v));
  }

  /** Combinations of the same block and the identity commute. */
  lemma CombinationsCommute(p: Block, q: Block, k: Block, x: real, y: real, z: real, w: real, v: Vector)
    requires Combines(p, k, x, y) && Combines(q, k, z, w) && |v| == 2
    ensures CommuteOn(AsMatrix(p), AsMatrix(q), 2, v)
  {
    var s := Apply(AsMatrix(k), v);
    var r := Apply(AsMatrix(k), s);
    CombinationActsLike(p, k, x, y, v);
    CombinationActsLike(q, k, z, w, v);
    CombinationActsLike(p, k, x, y, Plus(Scaled(z, s), Scaled(w, v)));
    CombinationActsLike(q, k, z, w, Plus(Scaled(x, s), Scaled(y, v)));
    CombinationTwice(p, k, x, y, z, w, v);
    CombinationTwice(q, k, z, w, x, y, v);
    Interchanged(x, y, z, w, r, s, v);
  }

  lemma Interchanged(x: real, y: real, z: real, w: real, r: Vector, s: Vector, v: Vector)
    requires |r| == |s| == |v|
    ensures Plus(Plus(Scaled(x, Scaled(z, r)), Scaled(x, Scaled(w, s))),
                 Plus(Scaled(y, Scaled(z, s)), Scaled(y, Scaled(w, v))))
            == Plus(Plus(Scaled(z, Scaled(x, r)), Scaled(z, Scaled(y, s))),
                    Plus(Scaled(w, Scaled(x, s)), Scaled(w, Scaled(y, v))))
  {
    ScaledSwap(x, z, r);
    ScaledSwap(x, w, s);
    ScaledSwap(y, z, s);
    ScaledSwap(y, w, v);
    PlusInterchange(Scaled(x, Scaled(z, r)), Scaled(x, Scaled(w, s)), Scaled(y, Scaled(z, s)), Scaled(y, Scaled(w, v)));
  }

  lemma SumCombines(a: Block, b: Block, k: Block, x: real, y: real, z: real, w: real)
    requires Combines(a, k, x, y) && Combines(b, k, z, w)
    ensures Combines(a.Plus(b), k, x + z, y + w) && Combines(a.Minus(b), k, x - z, y - w)
  {
    DistributeBoth(x, z, k.e00);
    DistributeBoth(x, z, k.e01);
    DistributeBoth(x, z, k.e10);
    DistributeBoth(x, z, k.e11);
  }

  lemma DistributeBoth(x: real, z: real, e: real)
    ensures (x + z) * e == x * e + z * e && (x - z) * e == x * e - z * e
  {
  }

  lemma MultipleCombines(a: Block, k: Block, x: real, y: real, f: real) returns (z: real, w: real)
    requires Combines(a, k, x, y)
    ensures Combines(a.Times(f), k, z, w)
  {
    z, w := x * f, y * f;
    FactorOut(x, k.e00, y, f);
    FactorOut(x, k.e01, 0.0, f);
    FactorOut(x, k.e10, 0.0, f);
    FactorOut(x, k.e11, y, f);
  }

  lemma FactorOut(x: real, e: real, y: real, f: real)
    ensures (x * e + y) * f == (x * f) * e + y * f
  {
  }

  lemma ScalarCombines(t: real, k: Block)
    ensures Combines(Scalar(t), k, 0.0, t) && Combines(k, k, 1.0, 0.0)
  {
  }

  lemma DifferenceCombines(k: Block, t: real, c: real, s: real, f: real) returns (x: real, y: real)
    ensures Combines(k.Times(c).Minus(Scalar(t).Times(s)).Times(f), k, x, y)
  {
    ScalarCombines(t, k);
    var x1, y1 := MultipleCombines(k, k, 1.0, 0.0, c);
    var x2, y2 := MultipleCombines(Scalar(t), k, 0.0, t, s);
    SumCombines(k.Times(c), Scalar(t).Times(s), k, x1, y1, x2, y2);
    x, y := MultipleCombines(k.Times(c).Minus(Scalar(t).Times(s)), k, x1 - x2, y1 - y2, f);
  }

  lemma TotalCombines(k: Block, t: real, c: real, s: real, f: real) returns (x: real, y: real)
    ensures Combines(Scalar(t).Times(c).Plus(k.Times(s)).Times(f), k, x, y)
  {
    ScalarCombines(t, k);
    var x1, y1 := MultipleCombines(Scalar(t), k, 0.0, t, c);
    var x2, y2 := MultipleCombines(k, k, 1.0, 0.0, s);
    SumCombines(Scalar(t).Times(c), k.Times(s), k, x1, y1, x2, y2);
    x, y := MultipleCombines(Scalar(t).Times(c).Plus(k.Times(s)), k, x1 + x2, y1 + y2, f);
  }

  lemma CombinationActionsCommute(p: Block, q: Block, k: Block, x: real, y: real, z: real, w: real)
    requires Combines(p, k, x, y) && Combines(q, k, z, w)
    ensures ActionsCommute(AsMatrix(p), AsMatrix(q), 2)
  {
    forall v: Vector
      ensures CommuteOn(AsMatrix(p), AsMatrix(q), 2, v)
    {
      if |v| == 2 {
        CombinationsCommute(p, q, k, x, y, z, w, v);
      }
    }
  }

  lemma ActionsOfCombinedCommute(k: Block, t: real, c: real, s: real, an: real)
    ensures ActionsCommute(AsMatrix(k.Times(c).Minus(Scalar(t).Times(s)).Times(-an)),
                           AsMatrix(Scalar(t).Times(c).Plus(k.Times(s)).Times(-an)), 2)
  {
    var x, y := DifferenceCombines(k, t, c, s, -an);
    var z, w := TotalCombines(k, t, c, s, -an);
    CombinationActionsCommute(k.Times(c).Minus(Scalar(t).Times(s)).Times(-an),
                              Scalar(t).Times(c).Plus(k.Times(s)).Times(-an), k, x, y, z, w);
  }

  /** Both blocks of a pair of dipoles are such combinations of the pair's k1. */
  lemma PairBlocksCommute(env: Analysis, an: real, xi: Coordinates, n: nat, i: nat, m: nat)
    requires env.Valid() && Fits(xi, n) && Distinct(xi, n) && i < n && m < n && i != m
    ensures ActionsCommute(AsMatrix(Cells(env, an, xi, n, i, m).0), AsMatrix(Cells(env, an, xi, n, i, m).1), 2)
  {
    var rim := Difference(xi, n, m, i);
    var r := GetDistance(env, xi, n, i, m);
    var (k1, k2) := GetMatrices(rim.0, rim.1, r);
    ActionsOfCombinedCommute(k1, k2.e00, env.cos(OMEGA * r / C), env.sin(OMEGA * r / C), an);
  }

  /** The 4 by 4 matrix with a scalar diagonal and equal off-diagonal blocks. */
  ghost function Four(x: real, p: Block): (m: Matrix)
    ensures IsMatrix(m, 4, 4)
  {
    [[x, 0.0] + AsMatrix(p)[0], [0.0, x] + AsMatrix(p)[1], AsMatrix(p)[0] + [x, 0.0], AsMatrix(p)[1] + [0.0, x]]
  }

  lemma SpelledFour(x: real, p: Block)
    ensures Spelled([[Scalar(x), p], [p, Scalar(x)]], 2) == Four(x, p)
  {
    var g := [[Scalar(x), p], [p, Scalar(x)]];
    forall i, j | 0 <= i < 2 && 0 <= j < 2
      ensures HasBlock(Four(x, p), 2, i, j, g[i][j])
    {
    }
    BlocksDetermine(Four(x, p), g, 2);
  }

  lemma {:induction false} ScalarRows(x: real, v: Vector)
    requires |v| == 2
    ensures Dot([x, 0.0], v) == Scaled(x, v)[0] && Dot([0.0, x], v) == Scaled(x, v)[1]
  {
    assert [x, 0.0] == Scaled(x, Unit(2, 0)) && [0.0, x] == Scaled(x, Unit(2, 1));
    DotScaledUnit(x, v, 0);
    DotScaledUnit(x, v, 1);
  }

  lemma {:induction false} DotScaledUnit(x: real, v: Vector, i: nat)
    requires i < |v|
    ensures Dot(Scaled(x, Unit(|v|, i)), v) == Scaled(x, v)[i]
  {
    DotScaled(x, Unit(|v|, i), v);
    DotCommutes(Unit(|v|, i), v);
    DotUnit(v, i);
  }

  lemma FourRows(x: real, p: Block, v: Vector, w: Vector)
    requires |v| == |w| == 2
    ensures var top, bottom := Plus(Scaled(x, v), Apply(AsMatrix(p), w)), Plus(Scaled(x, w), Apply(AsMatrix(p), v));
            && Dot(Four(x, p)[0], v + w) == top[0]
            && Dot(Four(x, p)[1], v + w) == top[1]
            && Dot(Four(x, p)[2], v + w) == bottom[0]
            && Dot(Four(x, p)[3], v + w) == bottom[1]
  {
    var m := AsMatrix(p);
    ScalarRows(x, v);
    ScalarRows(x, w);
    DotConcat([x, 0.0], m[0], v, w);
    DotConcat([0.0, x], m[1], v, w);
    DotConcat(m[0], [x, 0.0], v, w);
    DotConcat(m[1], [0.0, x], v, w);
  }

  lemma FourEntries(left: Vector, top: Vector, bottom: Vector)
    requires |left| == 4 && |top| == |bottom| == 2
    requires left[0] == top[0] && left[1] == top[1] && left[2] == bottom[0] && left[3] == bottom[1]
    ensures left == top + bottom
  {
  }

  lemma FourActs(x: real, p: Block, v: Vector, w: Vector)
    requires |v| == |w| == 2
    ensures Apply(Four(x, p), v + w)
            == Plus(Scaled(x, v), Apply(AsMatrix(p), w)) + Plus(Scaled(x, w), Apply(AsMatrix(p), v))
  {
    FourRows(x, p, v, w);
    FourEntries(Apply(Four(x, p), v + w),
                Plus(Scaled(x, v), Apply(AsMatrix(p), w)), Plus(Scaled(x, w), Apply(AsMatrix(p), v)));
  }

  /** One half of two such matrices applied after each other, multiplied out. */
  lemma HalfMultipliedOut(x: real, y: real, a: Matrix, b: Matrix, v: Vector, w: Vector)
    requires IsMatrix(a, 2, 2) && IsMatrix(b, 2, 2) && |v| == |w| == 2
    ensures Plus(Scaled(x, Plus(Scaled(y, v), Apply(b, w))), Apply(a, Plus(Apply(b, v), Scaled(y, w))))
            == Plus(Plus(Scaled(x, Scaled(y, v)), Scaled(x, Apply(b, w))),
                    Plus(Apply(a, Apply(b, v)), Scaled(y, Apply(a, w))))
  {
    ScaledPlus(x, Scaled(y, v), Apply(b, w));
    ApplyPlus(a, Apply(b, v), Scaled(y, w));
    ApplyScaled(a, y, w);
  }

  lemma HalvesAgree(x: real, y: real, a: Matrix, b: Matrix, v: Vector, w: Vector)
    requires IsMatrix(a, 2, 2) && IsMatrix(b, 2, 2) && |v| == |w| == 2 && CommuteOn(a, b, 2, v)
    ensures Plus(Scaled(x, Plus(Scaled(y, v), Apply(b, w))), Apply(a, Plus(Apply(b, v), Scaled(y, w))))
            == Plus(Scaled(y, Plus(Scaled(x, v), Apply(a, w))), Apply(b, Plus(Apply(a, v), Scaled(x, w))))
  {
    HalfMultipliedOut(x, y, a, b, v, w);
    HalfMultipliedOut(y, x, b, a, v, w);
    ScaledSwap(x, y, v);
    PlusExchange(Scaled(x, Scaled(y, v)), Scaled(x, Apply(b, w)), Apply(a, Apply(b, v)), Scaled(y, Apply(a, w)));
  }

  lemma FoursCommute(x: real, y: real, p: Block, q: Block, v: Vector, w: Vector)
    requires |v| == |w| == 2
    requires CommuteOn(AsMatrix(p), AsMatrix(q), 2, v) && CommuteOn(AsMatrix(p), AsMatrix(q), 2, w)
    ensures Apply(Four(x, p), Apply(Four(y, q), v + w)) == Apply(Four(y, q), Apply(Four(x, p), v + w))
  {
    var a, b := AsMatrix(p), AsMatrix(q);
    FourActs(y, q, v, w);
    FourActs(x, p, v, w);
    FourActs(x, p, Plus(Scaled(y, v), Apply(b, w)), Plus(Scaled(y, w), Apply(b, v)));
    FourActs(y, q, Plus(Scaled(x, v), Apply(a, w)), Plus(Scaled(x, w), Apply(a, v)));
    PlusCommutes(Scaled(y, w), Apply(b, v));
    PlusCommutes(Scaled(x, w), Apply(a, v));
    PlusCommutes(Scaled(y, v), Apply(b, w));
    PlusCommutes(Scaled(x, v), Apply(a, w));
    HalvesAgree(x, y, a, b, v, w);
    HalvesAgree(x, y, a, b, w, v);
  }

  /** So for two dipoles, wherever they are, M1 and M2 commute and the shortcut is exact. */
  lemma TwoDipolesCommute(env: Analysis, an: real, xi: Coordinates)
    requires env.Valid() && Fits(xi, 2) && Distinct(xi, 2)
    ensures Commute(Spelled(Grid1(env, an, xi, 2), 2), Spelled(Grid2(env, an, xi, 2), 2), 4)
  {
    var (p, q) := Cells(env, an, xi, 2, 0, 1);
    TwoDipoleGrids(env, an, xi);
    SpelledFour(DIAGONAL1.e00, p);
    SpelledFour(DIAGONAL2.e00, q);
    PairBlocksCommute(env, an, xi, 2, 0, 1);
    FourActionsCommute(DIAGONAL1.e00, DIAGONAL2.e00, p, q);
    CommuteIffActions(Four(DIAGONAL1.e00, p), Four(DIAGONAL2.e00, q), 4);
  }

  lemma TwoDipoleGrids(env: Analysis, an: real, xi: Coordinates)
    requires env.Valid() && Fits(xi, 2) && Distinct(xi, 2)
    ensures var (p, q) := Cells(env, an, xi, 2, 0, 1);
            && Grid1(env, an, xi, 2) == [[Scalar(DIAGONAL1.e00), p], [p, Scalar(DIAGONAL1.e00)]]
            && Grid2(env, an, xi, 2) == [[Scalar(DIAGONAL2.e00), q], [q, Scalar(DIAGONAL2.e00)]]
  {
    var (p, q) := Cells(env, an, xi, 2, 0, 1);
    CellsSymmetric(env, an, xi, 2, 0, 1);
    var g, h := Grid1(env, an, xi, 2), Grid2(env, an, xi, 2);
    assert g[0] == [DIAGONAL1, p] && g[1] == [p, DIAGONAL1];
    assert h[0] == [DIAGONAL2, q] && h[1] == [q, DIAGONAL2];
  }

  lemma FourActionsCommute(x: real, y: real, p: Block, q: Block)
    requires ActionsCommute(AsMatrix(p), AsMatrix(q), 2)
    ensures ActionsCommute(Four(x, p), Four(y, q), 4)
  {
    forall v: Vector
      ensures CommuteOn(Four(x, p), Four(y, q), 4, v)
    {
      if |v| == 4 {
        assert CommuteOn(AsMatrix(p), AsMatrix(q), 2, v[..2]) && CommuteOn(AsMatrix(p), AsMatrix(q), 2, v[2..]);
        FoursCommute(x, y, p, q, v[..2], v[2..]);
        assert v == v[..2] + v[2..];
      }
    }
  }
}

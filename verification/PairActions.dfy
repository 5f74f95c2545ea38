/**
 What the blocks of the two matrices do to vectors: along the difference of two dipoles and across
 it each of them is multiplication by a number, and these numbers determine the block.
 */
module PairActions {
  import opened Linear
  import opened Reals
  import opened DipoleBlocks

  /** The block sends (x, y) to l times itself. */
  predicate Multiplies(b: Block, x: real, y: real, l: real) {
    b.e00 * x + b.e01 * y == l * x && b.e10 * x + b.e11 * y == l * y
  }

  lemma MultipliesScaled(b: Block, x: real, y: real, l: real, f: real, m: real)
    requires Multiplies(b, x, y, l) && m == l * f
    ensures Multiplies(b.Times(f), x, y, m)
  {
    ScaledRow(b.e00, b.e01, x, y, l * x, f);
    ScaledRow(b.e10, b.e11, x, y, l * y, f);
    assert (l * x) * f == (l * f) * x && (l * y) * f == (l * f) * y;
  }

  lemma ScaledRow(a: real, b: real, x: real, y: real, z: real, f: real)
    requires a * x + b * y == z
    ensures (a * f) * x + (b * f) * y == z * f
  {
    assert (a * f) * x == (a * x) * f && (b * f) * y == (b * y) * f;
    assert (a * x + b * y) * f == (a * x) * f + (b * y) * f;
  }

  lemma MultipliesSum(a: Block, b: Block, x: real, y: real, k: real, l: real)
    requires Multiplies(a, x, y, k) && Multiplies(b, x, y, l)
    ensures Multiplies(a.Plus(b), x, y, k + l) && Multiplies(a.Minus(b), x, y, k - l)
  {
    SumRow(a.e00, b.e00, x);
    SumRow(a.e01, b.e01, y);
    SumRow(a.e10, b.e10, x);
    SumRow(a.e11, b.e11, y);
    SumRow(k, l, x);
    SumRow(k, l, y);
  }

  lemma SumRow(a: real, b: real, x: real)
    ensures (a + b) * x == a * x + b * x && (a - b) * x == a * x - b * x
  {
  }

  // ----- the two blocks of a pair

  lemma Reciprocal(x: real, p: real)
    requires p > 0.0
    ensures x / p == x * (1.0 / p)
  {
    var w := 1.0 / p;
    assert w * p == 1.0;
    assert (x * w) * p == x * (w * p);
  }

  /** Entries with w for the fifth and z for the third negative power of the distance. */
  lemma NearBlock(a: real, b: real, r: real, w: real, z: real)
    requires r > 0.0 && r * r == Square(a) + Square(b) && w * (r * r) == z
    ensures Multiplies(Block(3.0 * a * a * w - z, 3.0 * a * b * w, 3.0 * a * b * w, 3.0 * b * b * w - z), a, b, 2.0 * z)
    ensures Multiplies(Block(3.0 * a * a * w - z, 3.0 * a * b * w, 3.0 * a * b * w, 3.0 * b * b * w - z), -b, a, -z)
  {
    var q := Square(a) + Square(b);
    assert (3.0 * a * a * w - z) * a + 3.0 * a * b * w * b == 3.0 * a * (w * q) - z * a;
    assert 3.0 * a * b * w * a + (3.0 * b * b * w - z) * b == 3.0 * b * (w * q) - z * b;
    assert (3.0 * a * a * w - z) * -b + 3.0 * a * b * w * a == z * b;
    assert 3.0 * a * b * w * -b + (3.0 * b * b * w - z) * a == -z * a;
  }

  lemma {:induction false} GetMatricesAs(a: real, b: real, r: real, w: real, z: real, t: real)
    requires r > 0.0 && Pow(r, 5) > 0.0 && Pow(r, 3) > 0.0 && w == 1.0 / Pow(r, 5) && z == 1.0 / Pow(r, 3)
    requires C * Pow(r, 2) > 0.0 && t == OMEGA / (C * Pow(r, 2))
    ensures GetMatrices(a, b, r)
            == (Block(3.0 * a * a * w - z, 3.0 * a * b * w, 3.0 * a * b * w, 3.0 * b * b * w - z), Scalar(t))
  {
    var p := Pow(r, 5);
    Reciprocal(3.0 * a * a, p);
    Reciprocal(3.0 * a * b, p);
    Reciprocal(3.0 * b * b, p);
    assert 3.0 * a * a / p == 3.0 * a * a * w && 3.0 * b * b / p == 3.0 * b * b * w;
    assert 3.0 * a * b / p == 3.0 * a * b * w;
  }

  /** The reciprocal of the cube, and the entry of k2. */
  lemma {:induction false} Fractions(r: real) returns (w: real, z: real, t: real)
    requires r > 0.0
    ensures Pow(r, 5) > 0.0 && Pow(r, 3) > 0.0 && C * Pow(r, 2) > 0.0 && r * r * r > 0.0 && C * (r * r) > 0.0
    ensures w == 1.0 / Pow(r, 5) && z == 1.0 / Pow(r, 3) && t == OMEGA / (C * Pow(r, 2)) && w * (r * r) == z
    ensures 2.0 / (r * r * r) == 2.0 * z && -1.0 / (r * r * r) == -z && OMEGA / (C * (r * r)) == t
  {
    Powers(r);
    assert r * r * r == r * (r * r);
    ProductPositive(C, r * r);
    w, z, t := 1.0 / Pow(r, 5), 1.0 / Pow(r, 3), OMEGA / (C * Pow(r, 2));
    Reciprocal(2.0, Pow(r, 3));
    Reciprocal(-1.0, Pow(r, 3));
    FifthAndThird(r, Pow(r, 3), Pow(r, 5));
  }

  lemma ScalarMultiplies(t: real, x: real, y: real)
    ensures Multiplies(Scalar(t), x, y, t)
  {
  }

  lemma FifthAndThird(r: real, p3: real, p5: real)
    requires r > 0.0 && p3 > 0.0 && p5 > 0.0 && p5 == r * (r * p3)
    ensures (1.0 / p5) * (r * r) == 1.0 / p3
  {
    var w, z := 1.0 / p5, 1.0 / p3;
    assert w * p5 == 1.0 && z * p3 == 1.0;
    assert (w * (r * r)) * p3 == w * p5;
    SameQuotient(w * (r * r), z, p3);
  }

  lemma SameQuotient(x: real, y: real, p: real)
    requires p > 0.0 && x * p == y * p
    ensures x == y
  {
    assert (x - y) * p == 0.0;
  }

  lemma CombinedFirst(k1: Block, k2: Block, x: real, y: real, k: real, t: real, c: real, s: real, an: real, l: real)
    requires Multiplies(k1, x, y, k) && Multiplies(k2, x, y, t) && l == (k * c - t * s) * -an
    ensures Multiplies(k1.Times(c).Minus(k2.Times(s)).Times(-an), x, y, l)
  {
    var kc, ts := k * c, t * s;
    MultipliesScaled(k1, x, y, k, c, kc);
    MultipliesScaled(k2, x, y, t, s, ts);
    MultipliesSum(k1.Times(c), k2.Times(s), x, y, kc, ts);
    MultipliesScaled(k1.Times(c).Minus(k2.Times(s)), x, y, kc - ts, -an, l);
  }

  lemma CombinedSecond(k1: Block, k2: Block, x: real, y: real, k: real, t: real, c: real, s: real, an: real, l: real)
    requires Multiplies(k1, x, y, k) && Multiplies(k2, x, y, t) && l == (t * c + k * s) * -an
    ensures Multiplies(k2.Times(c).Plus(k1.Times(s)).Times(-an), x, y, l)
  {
    var tc, ks := t * c, k * s;
    MultipliesScaled(k2, x, y, t, c, tc);
    MultipliesScaled(k1, x, y, k, s, ks);
    MultipliesSum(k2.Times(c), k1.Times(s), x, y, tc, ks);
    MultipliesScaled(k2.Times(c).Plus(k1.Times(s)), x, y, tc + ks, -an, l);
  }

  lemma DistanceIsRoot(env: Analysis, xi: Coordinates, n: nat, i: nat, m: nat)
    requires env.Valid() && env.Rooted() && Fits(xi, n) && Distinct(xi, n) && i < n && m < n && i != m
    ensures var (a, b) := Difference(xi, n, m, i);
            var r := GetDistance(env, xi, n, i, m);
            r > 0.0 && r * r == Square(a) + Square(b)
  {
    assert Apart(xi, n, i, m);
    MirroredDifference(xi, n, i, m);
    assert env.IsRoot(SquaredDistance(xi, n, i, m));
  }

  /** The block at row i and column j of a matrix of blocks. */
  ghost function BlockAt(m: Matrix, n: nat, i: nat, j: nat): Block
    requires IsMatrix(m, 2 * n, 2 * n) && i < n && j < n
  {
    Block(m[2 * i][2 * j], m[2 * i][2 * j + 1], m[2 * i + 1][2 * j], m[2 * i + 1][2 * j + 1])
  }

  lemma {:induction false} BlocksOfSpelled(g: Grid, n: nat, i: nat, j: nat)
    requires IsGrid(g, n) && i < n && j < n
    ensures BlockAt(Spelled(g, n), n, i, j) == g[i][j]
  {
  }

  /** With k along (a, b), l across it and t for k2: what the pair's blocks in M1 and M2 do. */
  predicate ActsAsField(
      b1: Block, b2: Block, a: real, b: real, k: real, l: real, t: real, c: real, s: real, an: real)
  {
    && Multiplies(b1, a, b, (k * c - t * s) * -an) && Multiplies(b1, -b, a, (l * c - t * s) * -an)
    && Multiplies(b2, a, b, (t * c + k * s) * -an) && Multiplies(b2, -b, a, (t * c + l * s) * -an)
  }

  lemma CombinedActs(k1: Block, a: real, b: real, k: real, l: real, t: real, c: real, s: real, an: real)
    requires Multiplies(k1, a, b, k) && Multiplies(k1, -b, a, l)
    ensures ActsAsField(k1.Times(c).Minus(Scalar(t).Times(s)).Times(-an),
                        Scalar(t).Times(c).Plus(k1.Times(s)).Times(-an), a, b, k, l, t, c, s, an)
  {
    ScalarMultiplies(t, a, b);
    ScalarMultiplies(t, -b, a);
    CombinedFirst(k1, Scalar(t), a, b, k, t, c, s, an, (k * c - t * s) * -an);
    CombinedFirst(k1, Scalar(t), -b, a, l, t, c, s, an, (l * c - t * s) * -an);
    CombinedSecond(k1, Scalar(t), a, b, k, t, c, s, an, (t * c + k * s) * -an);
    CombinedSecond(k1, Scalar(t), -b, a, l, t, c, s, an, (t * c + l * s) * -an);
  }

  /** Along the difference k1 multiplies by twice the cube's reciprocal, across it by its negative. */
  lemma {:induction false} GetMatricesAct(a: real, b: real, r: real)
    requires r > 0.0 && r * r == Square(a) + Square(b)
    ensures r * r * r > 0.0 && C * (r * r) > 0.0
    ensures Multiplies(GetMatrices(a, b, r).0, a, b, 2.0 / (r * r * r))
    ensures Multiplies(GetMatrices(a, b, r).0, -b, a, -1.0 / (r * r * r))
    ensures GetMatrices(a, b, r).1 == Scalar(OMEGA / (C * (r * r)))
  {
    var w, z, t := Fractions(r);
    GetMatricesAs(a, b, r, w, z, t);
    NearBlock(a, b, r, w, z);
  }

  lemma {:induction false} CellsAct(
      env: Analysis, an: real, xi: Coordinates, n: nat, i: nat, m: nat, a: real, b: real, r: real)
    requires env.Valid() && env.Rooted() && Fits(xi, n) && Distinct(xi, n) && i < n && m < n && i != m
    requires (a, b) == Difference(xi, n, m, i) && r == GetDistance(env, xi, n, i, m)
    ensures r > 0.0 && r * r == Square(a) + Square(b) && r * r * r > 0.0 && C * (r * r) > 0.0
    ensures ActsAsField(Cells(env, an, xi, n, i, m).0, Cells(env, an, xi, n, i, m).1, a, b,
                        2.0 / (r * r * r), -1.0 / (r * r * r), OMEGA / (C * (r * r)),
                        env.cos(OMEGA * r / C), env.sin(OMEGA * r / C), an)
  {
    DistanceIsRoot(env, xi, n, i, m);
    GetMatricesAct(a, b, r);
    CombinedActs(GetMatrices(a, b, r).0, a, b, 2.0 / (r * r * r), -1.0 / (r * r * r), OMEGA / (C * (r * r)),
                 env.cos(OMEGA * r / C), env.sin(OMEGA * r / C), an);
  }

  /**
   The matrices of any coordinates: each pair's block multiplies the difference (a, b) of the two
   points and the vector across it, by the field of a dipole at that distance turned by its phase.
   */
  lemma {:induction false} PairBlocksAct(env: Analysis, an: real, xi: Coordinates, n: nat, i: nat, m: nat, r: real)
    requires env.Valid() && env.Rooted() && Fits(xi, n) && Distinct(xi, n) && i < n && m < n && i != m
    requires r == GetDistance(env, xi, n, i, m)
    ensures r > 0.0 && r * r == Square(xi[m] - xi[i]) + Square(xi[m + n] - xi[i + n])
    ensures r * r * r > 0.0 && C * (r * r) > 0.0
    ensures ActsAsField(BlockAt(Spelled(Grid1(env, an, xi, n), n), n, i, m),
                        BlockAt(Spelled(Grid2(env, an, xi, n), n), n, i, m), xi[m] - xi[i], xi[m + n] - xi[i + n],
                        2.0 / (r * r * r), -1.0 / (r * r * r), OMEGA / (C * (r * r)),
                        env.cos(OMEGA * r / C), env.sin(OMEGA * r / C), an)
  {
    CellsAct(env, an, xi, n, i, m, xi[m] - xi[i], xi[m + n] - xi[i + n], r);
    BlocksOfSpelled(Grid1(env, an, xi, n), n, i, m);
    BlocksOfSpelled(Grid2(env, an, xi, n), n, i, m);
  }

  /** The blocks on the two diagonals multiply every vector by the same number. */
  lemma {:induction false} DiagonalBlocksAct(
      env: Analysis, an: real, xi: Coordinates, n: nat, i: nat, x: real, y: real)
    requires env.Valid() && Fits(xi, n) && Distinct(xi, n) && i < n
    ensures Multiplies(BlockAt(Spelled(Grid1(env, an, xi, n), n), n, i, i), x, y, OMEGA0 * OMEGA0 - OMEGA * OMEGA)
    ensures Multiplies(BlockAt(Spelled(Grid2(env, an, xi, n), n), n, i, i), x, y, -(YO * OMEGA))
  {
    BlocksOfSpelled(Grid1(env, an, xi, n), n, i, i);
    BlocksOfSpelled(Grid2(env, an, xi, n), n, i, i);
  }

  /** A block is determined by what it does along a difference and across it. */
  lemma ActionsDetermine(p: Block, q: Block, a: real, b: real, k: real, l: real)
    requires a != 0.0 || b != 0.0
    requires Multiplies(p, a, b, k) && Multiplies(q, a, b, k) && Multiplies(p, -b, a, l) && Multiplies(q, -b, a, l)
    ensures p == q
  {
    RowDetermined(p.e00, p.e01, q.e00, q.e01, a, b);
    RowDetermined(p.e10, p.e11, q.e10, q.e11, a, b);
  }

  lemma RowDetermined(u: real, v: real, u': real, v': real, a: real, b: real)
    requires a != 0.0 || b != 0.0
    requires u * a + v * b == u' * a + v' * b && u * -b + v * a == u' * -b + v' * a
    ensures u == u' && v == v'
  {
    var x, y, q := u - u', v - v', Square(a) + Square(b);
    SumRow(u, u', a);
    SumRow(v, v', b);
    SumRow(u, u', -b);
    SumRow(v, v', a);
    assert x * a + y * b == 0.0 && x * -b + y * a == 0.0;
    assert x * q == (x * a + y * b) * a + (x * -b + y * a) * -b;
    assert y * q == (x * a + y * b) * b + (x * -b + y * a) * a;
    ZeroOf(x, q);
    ZeroOf(y, q);
  }

  lemma ZeroOf(x: real, q: real)
    requires q > 0.0 && x * q == 0.0
    ensures x == 0.0
  {
  }
}

/**
 Dipoles on a line along an axis: the blocks of each pair are diagonal, and each component of the
 system can be followed on its own.
 */
module AxisDipoles {
  import opened Linear
  import opened Reals
  import opened BlockSolver
  import opened DipoleBlocks

  // ----- rows of three pairs

  /** A row of three pairs times a column of three pairs. */
  lemma {:induction false} DotOfPairs(a: Vector, b: Vector, c: Vector, p: Vector, q: Vector, r: Vector)
    requires |a| == |b| == |c| == |p| == |q| == |r| == 2
    ensures Dot(a + (b + c), p + (q + r)) == Dot(a, p) + (Dot(b, q) + Dot(c, r))
  {
    DotConcat(a, b + c, p, q + r);
    DotConcat(b, c, q, r);
  }

  lemma {:induction false} PairDot(u: Vector, v: Vector, x: real, y: real, z: real, w: real)
    requires u == [x, y] && v == [z, w]
    ensures Dot(u, v) == x * z + y * w
  {
    Dot2(u, v);
  }

  lemma {:induction false} PairOfHalf(u: Vector, v: Vector)
    requires |u| == |v| == 2
    ensures u[1] == 0.0 ==> Dot(u, v) == u[0] * v[0]
    ensures u[0] == 0.0 ==> Dot(u, v) == u[1] * v[1]
  {
    Dot2(u, v);
    HalfOfSum(u[0], v[0], u[1], v[1]);
  }

  lemma HalfOfSum(a: real, b: real, c: real, d: real)
    ensures c == 0.0 ==> a * b + c * d == a * b
    ensures a == 0.0 ==> a * b + c * d == c * d
  {
  }

  function Top(b: Block): (v: Vector)
    ensures |v| == 2
  {
    [b.e00, b.e01]
  }

  function Bottom(b: Block): (v: Vector)
    ensures |v| == 2
  {
    [b.e10, b.e11]
  }

  // ----- entries of the blocks of a pair

  /** What a diagonal entry k of k1 becomes in M1 and in M2. */
  function Entry1(k: real, t: real, c: real, s: real, an: real): real {
    (k * c - t * s) * -an
  }

  function Entry2(k: real, t: real, c: real, s: real, an: real): real {
    (t * c + k * s) * -an
  }

  /** A diagonal entry of k1, from the component of the difference and the distance. */
  function Near(a: real, r: real): real
    requires r > 0.0
  {
    PowPositive(r, 5);
    PowPositive(r, 3);
    3.0 * a * a / Pow(r, 5) - 1.0 / Pow(r, 3)
  }

  /** The entry of k2. */
  function Phase(r: real): (t: real)
    requires r > 0.0
    ensures t > 0.0
  {
    PowPositive(r, 2);
    OMEGA / (C * Pow(r, 2))
  }

  /** Diagonal blocks with these entries of k1 and this one of k2. */
  predicate IsAxisPair(b1: Block, b2: Block, k: real, l: real, t: real, c: real, s: real, an: real) {
    && b1.e00 == Entry1(k, t, c, s, an) && b2.e00 == Entry2(k, t, c, s, an)
    && b1.e11 == Entry1(l, t, c, s, an) && b2.e11 == Entry2(l, t, c, s, an)
    && b1.e01 == b1.e10 == b2.e01 == b2.e10 == 0.0
  }

  lemma {:induction false} AxisMatrices(a: real, b: real, r: real)
    requires r > 0.0 && (a == 0.0 || b == 0.0)
    ensures var (k1, k2) := GetMatrices(a, b, r);
            k1 == Block(Near(a, r), 0.0, 0.0, Near(b, r)) && k2 == Scalar(Phase(r))
  {
    PowPositive(r, 5);
    NoMixedTerm(a, b, Pow(r, 5));
  }

  lemma NoMixedTerm(a: real, b: real, d: real)
    requires d > 0.0 && (a == 0.0 || b == 0.0)
    ensures 3.0 * a * b / d == 0.0
  {
  }

  lemma {:induction false} CombinedEntries(k: real, l: real, t: real, c: real, s: real, an: real)
    ensures var k1 := Block(k, 0.0, 0.0, l);
            IsAxisPair(k1.Times(c).Minus(Scalar(t).Times(s)).Times(-an),
                       Scalar(t).Times(c).Plus(k1.Times(s)).Times(-an),
                       k, l, t, c, s, an)
  {
  }

  /** The blocks of two dipoles whose difference is along an axis. */
  lemma {:induction false} AxisCells(
      env: Analysis, an: real, xi: Coordinates, n: nat, i: nat, m: nat, a: real, b: real, r: real)
    requires env.Valid() && Fits(xi, n) && Distinct(xi, n) && i < n && m < n && i != m
    requires Difference(xi, n, m, i) == (a, b) && (a == 0.0 || b == 0.0)
    requires r == GetDistance(env, xi, n, i, m)
    ensures r > 0.0
    ensures IsAxisPair(Cells(env, an, xi, n, i, m).0, Cells(env, an, xi, n, i, m).1, Near(a, r), Near(b, r),
                       Phase(r), env.cos(OMEGA * r / C), env.sin(OMEGA * r / C), an)
  {
    AxisMatrices(a, b, r);
    CombinedEntries(Near(a, r), Near(b, r), Phase(r), env.cos(OMEGA * r / C), env.sin(OMEGA * r / C), an);
  }

  // ----- the cross term of two pairs

  lemma Regroup(a: real, b: real, c: real, d: real)
    ensures (a * b) * (c * d) == (c * a) * (d * b)
  {
    assert (a * b) * (c * d) == a * (b * (c * d));
    assert (c * a) * (d * b) == a * (c * (d * b));
  }

  lemma Expand(a: real, b: real, x: real, y: real)
    ensures (a - b) * (x + y) == a * x + a * y - b * x - b * y
    ensures (a + b) * (x - y) == a * x - a * y + b * x - b * y
  {
  }

  lemma Bracket(k: real, t: real, c: real, s: real, k': real, t': real, c': real, s': real)
    ensures (k' * c' - t' * s') * (t * c + k * s) - (t' * c' + k' * s') * (k * c - t * s)
            == (k * k' + t * t') * (s * c' - c * s') + (t * k' - k * t') * (c * c' + s * s')
  {
    Expand(k' * c', t' * s', t * c, k * s);
    Expand(t' * c', k' * s', k * c, t * s);
    Expand(k * k', t * t', s * c', c * s');
    Expand(t * k', k * t', c * c', s * s');
    Regroup(k', c', t, c);
    Regroup(k', c', k, s);
    Regroup(t', s', t, c);
    Regroup(t', s', k, s);
    Regroup(t', c', k, c);
    Regroup(t', c', t, s);
    Regroup(k', s', k, c);
    Regroup(k', s', t, s);
  }

  lemma OutOfBoth(x: real, y: real, an: real)
    ensures (x * -an) * (y * -an) == Square(an) * (x * y)
  {
  }

  lemma Factored(a: real, p: real, q: real)
    ensures a * p - a * q == a * (p - q)
  {
  }

  /** What two pairs leave in the commutator. */
  lemma CrossTerm(k: real, t: real, c: real, s: real, k': real, t': real, c': real, s': real, an: real)
    ensures Entry1(k', t', c', s', an) * Entry2(k, t, c, s, an) - Entry2(k', t', c', s', an) * Entry1(k, t, c, s, an)
            == Square(an) * ((k * k' + t * t') * (s * c' - c * s') + (t * k' - k * t') * (c * c' + s * s'))
  {
    var x, y, z, w := k' * c' - t' * s', t * c + k * s, t' * c' + k' * s', k * c - t * s;
    OutOfBoth(x, y, an);
    OutOfBoth(z, w, an);
    Factored(Square(an), x * y, z * w);
    Bracket(k, t, c, s, k', t', c', s');
  }

  lemma NonZeroProduct(a: real, b: real)
    requires a > 0.0 && b != 0.0
    ensures a * b != 0.0
  {
    if b > 0.0 {
      ProductPositive(a, b);
    } else {
      ProductPositive(a, 0.0 - b);
      assert a * (0.0 - b) == 0.0 - a * b;
    }
  }

  // ----- entries of k1

  lemma {:induction false} NearEven(a: real, r: real)
    requires r > 0.0
    ensures Near(-a, r) == Near(a, r)
  {
    assert 3.0 * -a * -a == 3.0 * a * a;
  }

  /** Along the direction of the difference the entry is larger than across it. */
  lemma {:induction false} AlongIsLarger(a: real, r: real)
    requires a != 0.0 && r > 0.0
    ensures Near(a, r) > Near(0.0, r)
  {
    PowPositive(r, 5);
    PowPositive(r, 3);
    FirstTerm(a, Pow(r, 5));
    NoMixedTerm(0.0, 0.0, Pow(r, 5));
  }

  lemma FirstTerm(a: real, p: real)
    requires a != 0.0 && p > 0.0
    ensures 3.0 * a * a / p > 0.0
  {
    assert 3.0 * a * a == 3.0 * Square(a);
    QuotientPositive(3.0 * a * a, p);
  }

  lemma QuotientPositive(a: real, p: real)
    requires a > 0.0 && p > 0.0
    ensures a / p > 0.0
  {
  }
}

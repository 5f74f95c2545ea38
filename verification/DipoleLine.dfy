/**
 Three equally spaced dipoles on a line along an axis: the system the code builds and the right part
 it holds, which is never solved.
 */
module DipoleLine {
  import opened Linear
  import opened Reals
  import opened BlockSolver
  import opened OneRightPart
  import opened DipoleBlocks
  import opened AxisDipoles
  import opened DipoleSystem

  // ----- one component of a system of three

  function Entry(b: Block, a: nat): real {
    if a == 0 then b.e00 else b.e11
  }

  ghost predicate Axial(g: Grid) {
    IsGrid(g, 3) && forall i, j | 0 <= i < 3 && 0 <= j < 3 :: g[i][j].e01 == g[i][j].e10 == 0.0
  }

  function Row3(x: real, y: real, z: real, u: real, v: real, w: real): real {
    x * u + (y * v + z * w)
  }

  function Part(b: Block, a: nat): (v: Vector)
    ensures |v| == 2
  {
    if a == 0 then Top(b) else Bottom(b)
  }

  lemma {:induction false} AxialPart(b: Block, a: nat, v: Vector)
    requires b.e01 == b.e10 == 0.0 && a < 2 && |v| == 2
    ensures Dot(Part(b, a), v) == Entry(b, a) * v[a]
  {
    PairOfHalf(Part(b, a), v);
  }

  /** With diagonal blocks a row only sees its own component. */
  lemma {:induction false} AxialRow(g: Grid, v: Vector, i: nat, a: nat)
    requires Axial(g) && |v| == 6 && i < 3 && a < 2
    ensures Apply(Spelled(g, 3), v)[2 * i + a]
            == Row3(Entry(g[i][0], a), Entry(g[i][1], a), Entry(g[i][2], a), v[a], v[2 + a], v[4 + a])
  {
    var row := Spelled(g, 3)[2 * i + a];
    assert row == Part(g[i][0], a) + (Part(g[i][1], a) + Part(g[i][2], a));
    assert v == v[..2] + (v[2..4] + v[4..]);
    DotOfPairs(Part(g[i][0], a), Part(g[i][1], a), Part(g[i][2], a), v[..2], v[2..4], v[4..]);
    AxialPart(g[i][0], a, v[..2]);
    AxialPart(g[i][1], a, v[2..4]);
    AxialPart(g[i][2], a, v[4..]);
  }

  /** One component of M1 and of M2: its diagonal, its neighbours and its ends. */
  datatype Component = Component(x: real, y: real, p: real, p': real, q: real, q': real)
  {
    /** What it leaves in the commutator. */
    function Cross(): real {
      q * p' - q' * p
    }
  }

  function Spaced(diagonal: real, near: real, far: real, i: nat, j: nat): real {
    if i == j then diagonal else if i == j + 1 || j == i + 1 then near else far
  }

  ghost predicate Follows(g: Grid, h: Grid, a: nat, e: Component) {
    && Axial(g) && Axial(h)
    && forall i, j | 0 <= i < 3 && 0 <= j < 3 ::
         Entry(g[i][j], a) == Spaced(e.x, e.p, e.q, i, j) && Entry(h[i][j], a) == Spaced(e.y, e.p', e.q', i, j)
  }

  datatype Triple = Triple(u: real, v: real, w: real)

  /** An equally spaced component applied. */
  function Image(x: real, p: real, q: real, t: Triple): Triple {
    Triple(Row3(x, p, q, t.u, t.v, t.w), Row3(p, x, p, t.u, t.v, t.w), Row3(q, p, x, t.u, t.v, t.w))
  }

  function Part3(v: Vector, a: nat): Triple
    requires |v| == 6 && a < 2
  {
    Triple(v[a], v[2 + a], v[4 + a])
  }

  lemma {:induction false} ComponentApplied(g: Grid, h: Grid, a: nat, e: Component, v: Vector)
    requires Follows(g, h, a, e) && a < 2 && |v| == 6
    ensures Part3(Apply(Spelled(g, 3), v), a) == Image(e.x, e.p, e.q, Part3(v, a))
    ensures Part3(Apply(Spelled(h, 3), v), a) == Image(e.y, e.p', e.q', Part3(v, a))
  {
    AxialRow(g, v, 0, a);
    AxialRow(g, v, 1, a);
    AxialRow(g, v, 2, a);
    AxialRow(h, v, 0, a);
    AxialRow(h, v, 1, a);
    AxialRow(h, v, 2, a);
  }

  lemma Spread(a: real, x: real, y: real, z: real, u: real, v: real, w: real)
    ensures a * Row3(x, y, z, u, v, w) == Row3(a * x, a * y, a * z, u, v, w)
  {
    assert a * (x * u) == (a * x) * u && a * (y * v) == (a * y) * v && a * (z * w) == (a * z) * w;
  }

  lemma Gather(x: real, y: real, z: real, u: real)
    ensures x * u + (y * u + z * u) == (x + (y + z)) * u
  {
  }

  /** Row a, b, c after an equally spaced component, by columns. */
  lemma RowOfImage(a: real, b: real, c: real, x: real, p: real, q: real, t: Triple)
    ensures var i := Image(x, p, q, t);
            Row3(a, b, c, i.u, i.v, i.w)
            == Row3(Row3(a, b, c, x, p, q), Row3(a, b, c, p, x, p), Row3(a, b, c, q, p, x), t.u, t.v, t.w)
  {
    Spread(a, x, p, q, t.u, t.v, t.w);
    Spread(b, p, x, p, t.u, t.v, t.w);
    Spread(c, q, p, x, t.u, t.v, t.w);
    Gather(a * x, b * p, c * q, t.u);
    Gather(a * p, b * x, c * p, t.v);
    Gather(a * q, b * p, c * x, t.w);
  }

  lemma Difference1(a: real, b: real, c: real, a': real, b': real, c': real, w: real, t: Triple)
    requires Row3(a, b, c, t.u, t.v, t.w) == Row3(a', b', c', t.u, t.v, t.w)
    ensures a == a' && b == b' + w && c == c' ==> w * t.v == 0.0
    ensures a == a' - w && b == b' && c == c' - w ==> w * (t.u + t.w) == 0.0
  {
    Factored(t.v, b, b');
    Factored(t.u, a, a');
    Factored(t.w, c, c');
    assert w * (t.u + t.w) == w * t.u + w * t.w;
  }

  /** A vector on which the two matrices commute vanishes in the middle and is odd around it. */
  lemma ComponentCommutes(e: Component, t: Triple)
    requires Image(e.x, e.p, e.q, Image(e.y, e.p', e.q', t)) == Image(e.y, e.p', e.q', Image(e.x, e.p, e.q, t))
    requires e.Cross() != 0.0
    ensures t.v == 0.0 && t.u + t.w == 0.0
  {
    RowOfImage(e.x, e.p, e.q, e.y, e.p', e.q', t);
    RowOfImage(e.y, e.p', e.q', e.x, e.p, e.q, t);
    RowOfImage(e.p, e.x, e.p, e.y, e.p', e.q', t);
    RowOfImage(e.p', e.y, e.p', e.x, e.p, e.q, t);
    Difference1(
      Row3(e.x, e.p, e.q, e.y, e.p', e.q'), Row3(e.x, e.p, e.q, e.p', e.y, e.p'), Row3(e.x, e.p, e.q, e.q', e.p', e.y),
      Row3(e.y, e.p', e.q', e.x, e.p, e.q), Row3(e.y, e.p', e.q', e.p, e.x, e.p), Row3(e.y, e.p', e.q', e.q, e.p, e.x),
      e.Cross(), t);
    Difference1(
      Row3(e.p, e.x, e.p, e.y, e.p', e.q'), Row3(e.p, e.x, e.p, e.p', e.y, e.p'), Row3(e.p, e.x, e.p, e.q', e.p', e.y),
      Row3(e.p', e.y, e.p', e.x, e.p, e.q), Row3(e.p', e.y, e.p', e.p, e.x, e.p), Row3(e.p', e.y, e.p', e.q, e.p, e.x),
      e.Cross(), t);
    ZeroFactor(e.Cross(), t.v);
    ZeroFactor(e.Cross(), t.u + t.w);
  }

  lemma ZeroFactor(w: real, z: real)
    requires w != 0.0 && w * z == 0.0
    ensures z == 0.0
  {
  }

  /** And such a vector is sent to zero in the middle. */
  lemma MiddleVanishes(x: real, p: real, q: real, t: Triple)
    requires t.v == 0.0 && t.u + t.w == 0.0
    ensures Image(x, p, q, t).v == 0.0
  {
    assert p * t.u + p * t.w == p * (t.u + t.w);
  }

  /** No state on whose halves the matrices commute has anything in the middle of its image. */
  lemma {:induction false} MiddleOfImage(g: Grid, h: Grid, a: nat, e: Component, x: Complex)
    requires Follows(g, h, a, e) && a < 2 && e.Cross() != 0.0 && x.Has(6)
    requires CommuteOn(Spelled(g, 3), Spelled(h, 3), 6, x.re) && CommuteOn(Spelled(g, 3), Spelled(h, 3), 6, x.im)
    ensures var y := Times(Spelled(g, 3), Spelled(h, 3), 6, x); y.re[2 + a] == 0.0 && y.im[2 + a] == 0.0
  {
    OddAround(g, h, a, e, x.re);
    OddAround(g, h, a, e, x.im);
  }

  lemma {:induction false} OddAround(g: Grid, h: Grid, a: nat, e: Component, v: Vector)
    requires Follows(g, h, a, e) && a < 2 && e.Cross() != 0.0 && |v| == 6
    requires CommuteOn(Spelled(g, 3), Spelled(h, 3), 6, v)
    ensures Apply(Spelled(g, 3), v)[2 + a] == 0.0 && Apply(Spelled(h, 3), v)[2 + a] == 0.0
  {
    ComponentApplied(g, h, a, e, v);
    ComponentApplied(g, h, a, e, Apply(Spelled(g, 3), v));
    ComponentApplied(g, h, a, e, Apply(Spelled(h, 3), v));
    ComponentCommutes(e, Part3(v, a));
    MiddleVanishes(e.x, e.p, e.q, Part3(v, a));
    MiddleVanishes(e.y, e.p', e.q', Part3(v, a));
  }

  /** The two components of a line, of which at least one leaves something in the commutator. */
  ghost predicate IsLine(g: Grid, h: Grid) {
    exists e0: Component, e1: Component ::
      Follows(g, h, 0, e0) && Follows(g, h, 1, e1) && (e0.Cross() != 0.0 || e1.Cross() != 0.0)
  }

  /** A right part that is not zero in the middle is solved wrongly. */
  lemma {:induction false} LineNotExact(g: Grid, h: Grid, lu: Solver, f: Complex)
    requires IsGrid(g, 3) && IsGrid(h, 3) && IsLine(g, h) && f.Has(6) && f.re[2] != 0.0 && f.im[3] != 0.0
    requires Invertible(SquareSum(Spelled(g, 3), Spelled(h, 3), 6), 6, lu)
    ensures !ExactFor(Spelled(g, 3), Spelled(h, 3), 6, lu, f)
  {
    if ExactFor(Spelled(g, 3), Spelled(h, 3), 6, lu, f) {
      ExactAnswerCommutes(Spelled(g, 3), Spelled(h, 3), 6, lu, f);
      var x := SolveHalves(Spelled(g, 3), Spelled(h, 3), 6, f, lu);
      var e0: Component, e1: Component :|
        Follows(g, h, 0, e0) && Follows(g, h, 1, e1) && (e0.Cross() != 0.0 || e1.Cross() != 0.0);
      if e0.Cross() != 0.0 {
        MiddleOfImage(g, h, 0, e0, x);
      } else {
        MiddleOfImage(g, h, 1, e1, x);
      }
    }
  }

  // ----- three points on a line

  /** Three points at distance d from each other, along the first axis or along the second. */
  predicate Line(xi: Coordinates, d: real, vertical: bool) {
    && d > 0.0 && Fits(xi, 3)
    && if vertical then
         xi[4] == xi[3] + d && xi[5] == xi[3] + 2.0 * d && xi[0] == xi[1] == xi[2]
       else
         xi[1] == xi[0] + d && xi[2] == xi[0] + 2.0 * d && xi[3] == xi[4] == xi[5]
  }

  lemma LineDistinct(xi: Coordinates, d: real, vertical: bool)
    requires Line(xi, d, vertical)
    ensures Distinct(xi, 3)
  {
  }

  /** Two points are one or two distances apart. */
  function Apart3(d: real, i: nat, m: nat): real {
    if i == m + 1 || m == i + 1 then d else 2.0 * d
  }

  function Along(x: real, vertical: bool): (real, real) {
    if vertical then (0.0, x) else (x, 0.0)
  }

  lemma {:induction false} LineDifference(xi: Coordinates, d: real, vertical: bool, i: nat, m: nat)
    requires Line(xi, d, vertical) && i < 3 && m < 3 && i != m
    ensures var x := if m < i then -Apart3(d, i, m) else Apart3(d, i, m);
            Difference(xi, 3, m, i) == Along(x, vertical)
    ensures SquaredDistance(xi, 3, i, m) == Square(Apart3(d, i, m))
  {
    var x := Apart3(d, i, m);
    SquareOfNegative(x);
    assert Difference(xi, 3, i, m) == Along(if m < i then x else -x, vertical);
    assert Square(0.0) == 0.0;
  }

  lemma RootOfSquare(env: Analysis, x: real)
    requires env.Valid() && env.Rooted() && x > 0.0
    ensures env.sqrt(Square(x)) == x
  {
    var r := env.sqrt(Square(x));
    assert env.IsRoot(Square(x));
    SameRoot(r, x);
  }

  lemma SameRoot(r: real, x: real)
    requires r > 0.0 && x > 0.0 && r * r == Square(x)
    ensures r == x
  {
    assert (r - x) * (r + x) == r * r - Square(x);
    if r != x {
      NonZeroProduct(r + x, r - x);
    }
  }

  /** An entry of k1 of two points r apart: along the line or across it. */
  function LineNear(r: real, vertical: bool, a: nat): real
    requires r > 0.0
  {
    if (a == 1) == vertical then Near(r, r) else Near(0.0, r)
  }

  lemma {:induction false} LineCells(
      env: Analysis, an: real, xi: Coordinates, d: real, vertical: bool, i: nat, m: nat, r: real)
    requires env.Valid() && env.Rooted() && Line(xi, d, vertical) && Distinct(xi, 3)
    requires i < 3 && m < 3 && i != m && r == Apart3(d, i, m)
    ensures IsAxisPair(Cells(env, an, xi, 3, i, m).0, Cells(env, an, xi, 3, i, m).1,
                       LineNear(r, vertical, 0), LineNear(r, vertical, 1),
                       Phase(r), env.cos(OMEGA * r / C), env.sin(OMEGA * r / C), an)
  {
    LineDifference(xi, d, vertical, i, m);
    RootOfSquare(env, r);
    var rim := Difference(xi, 3, m, i);
    AxisCells(env, an, xi, 3, i, m, rim.0, rim.1, r);
    NearEven(r, r);
  }

  /** The component the pairs at distance d and at distance 2d make up. */
  function LineComponent(env: Analysis, an: real, d: real, vertical: bool, a: nat): Component
    requires d > 0.0
  {
    var c, s := env.cos(OMEGA * d / C), env.sin(OMEGA * d / C);
    var c', s' := env.cos(OMEGA * (2.0 * d) / C), env.sin(OMEGA * (2.0 * d) / C);
    Composed(LineNear(d, vertical, a), Phase(d), c, s, LineNear(2.0 * d, vertical, a), Phase(2.0 * d), c', s', an)
  }

  function Composed(k: real, t: real, c: real, s: real, k': real, t': real, c': real, s': real, an: real): Component {
    Component(DIAGONAL1.e00, DIAGONAL2.e00,
              Entry1(k, t, c, s, an), Entry2(k, t, c, s, an), Entry1(k', t', c', s', an), Entry2(k', t', c', s', an))
  }

  lemma {:induction false} LineEntry(
      env: Analysis, an: real, xi: Coordinates, d: real, vertical: bool, i: nat, m: nat, a: nat)
    requires env.Valid() && env.Rooted() && Line(xi, d, vertical) && Distinct(xi, 3)
    requires i < 3 && m < 3 && a < 2
    ensures var (b1, b2) := Cells(env, an, xi, 3, i, m);
            var e := LineComponent(env, an, d, vertical, a);
            && Entry(b1, a) == Spaced(e.x, e.p, e.q, i, m) && Entry(b2, a) == Spaced(e.y, e.p', e.q', i, m)
            && b1.e01 == b1.e10 == b2.e01 == b2.e10 == 0.0
  {
    if i != m {
      LineCells(env, an, xi, d, vertical, i, m, Apart3(d, i, m));
    }
  }

  lemma {:induction false} LineFollows(env: Analysis, an: real, xi: Coordinates, d: real, vertical: bool, a: nat)
    requires env.Valid() && env.Rooted() && Line(xi, d, vertical) && Distinct(xi, 3) && a < 2
    ensures Follows(Grid1(env, an, xi, 3), Grid2(env, an, xi, 3), a, LineComponent(env, an, d, vertical, a))
  {
    forall i, m | 0 <= i < 3 && 0 <= m < 3
      ensures var (b1, b2) := Cells(env, an, xi, 3, i, m);
              var e := LineComponent(env, an, d, vertical, a);
              && Entry(b1, a) == Spaced(e.x, e.p, e.q, i, m) && Entry(b2, a) == Spaced(e.y, e.p', e.q', i, m)
              && b1.e01 == b1.e10 == b2.e01 == b2.e10 == 0.0
    {
      LineEntry(env, an, xi, d, vertical, i, m, a);
    }
  }

  // ----- what the two components leave in the commutator

  /** All entries of k1 and k2 in terms of two numbers. */
  lemma {:induction false} LineValues(d: real) returns (u: real, t: real)
    requires d > 0.0
    ensures u > 0.0 && t > 0.0 && Phase(d) == t && Phase(2.0 * d) == t / 4.0
    ensures Near(d, d) == 2.0 * u && Near(2.0 * d, 2.0 * d) == u / 4.0
    ensures Near(0.0, d) == -u && Near(0.0, 2.0 * d) == -u / 8.0
  {
    PowPositive(d, 3);
    PowPositive(d, 2);
    QuotientPositive(1.0, Pow(d, 3));
    u, t := 1.0 / Pow(d, 3), Phase(d);
    Powers(d);
    Powers(2.0 * d);
    PowersOfDouble(d);
    CubeLeft(d, Pow(d, 3));
    CubeLeft(2.0 * d, Pow(2.0 * d, 3));
    Eighth(Pow(d, 3));
    Quarter(OMEGA, C, Pow(d, 2));
  }

  lemma PowersOfDouble(d: real)
    requires d > 0.0
    ensures Pow(2.0 * d, 2) == 4.0 * Pow(d, 2) && Pow(2.0 * d, 3) == 8.0 * Pow(d, 3)
  {
    Powers(d);
    Powers(2.0 * d);
    assert (2.0 * d) * (2.0 * d) == 4.0 * (d * d);
    assert (2.0 * d) * (4.0 * (d * d)) == 8.0 * (d * (d * d));
  }

  lemma CubeLeft(d: real, z: real)
    requires d > 0.0 && z > 0.0
    ensures d * (d * z) > 0.0 && 3.0 * d * d / (d * (d * z)) == 3.0 * (1.0 / z)
    ensures 3.0 * 0.0 * 0.0 / (d * (d * z)) == 0.0
  {
    ProductPositive(d, z);
    ProductPositive(d, d * z);
    var y, w := d * (d * z), 1.0 / z;
    assert z * w == 1.0;
    assert (3.0 * w) * y == 3.0 * d * d * (z * w);
    QuotientIs(3.0 * d * d, y, 3.0 * w);
  }

  lemma QuotientIs(a: real, y: real, q: real)
    requires y > 0.0 && q * y == a
    ensures a / y == q
  {
  }

  lemma Eighth(z: real)
    requires z > 0.0
    ensures 1.0 / (8.0 * z) == (1.0 / z) / 8.0
  {
    var w := 1.0 / z;
    assert z * w == 1.0;
    QuotientIs(1.0, 8.0 * z, w / 8.0);
  }

  lemma Quarter(a: real, c: real, z: real)
    requires c > 0.0 && z > 0.0
    ensures c * z > 0.0 && c * (4.0 * z) > 0.0 && a / (c * (4.0 * z)) == (a / (c * z)) / 4.0
  {
    ProductPositive(c, z);
    ProductPositive(c, 4.0 * z);
    var w := a / (c * z);
    assert w * (c * z) == a;
    assert c * (4.0 * z) == 4.0 * (c * z);
    QuotientIs(a, c * (4.0 * z), w / 4.0);
  }

  /** A point on the unit circle times the conjugate of another is on it as well. */
  lemma TurnedBack(c: real, s: real, c': real, s': real)
    requires c * c + s * s == 1.0 && c' * c' + s' * s' == 1.0
    ensures s * c' - c * s' != 0.0 || c * c' + s * s' != 0.0
  {
    BackToFirst(c, s, c', s');
    Vanishing(c', s', s * c' - c * s', c * c' + s * s');
    Vanishing(c, s, s, c);
  }

  lemma Vanishing(a: real, b: real, x: real, y: real)
    ensures x == 0.0 && y == 0.0 ==> a * y - b * x == 0.0 && b * y + a * x == 0.0 && a * y + b * x == 0.0
  {
  }

  lemma BackToFirst(c: real, s: real, c': real, s': real)
    requires c' * c' + s' * s' == 1.0
    ensures c == c' * (c * c' + s * s') - s' * (s * c' - c * s')
    ensures s == s' * (c * c' + s * s') + c' * (s * c' - c * s')
  {
    assert c' * (c * c' + s * s') - s' * (s * c' - c * s') == c * (c' * c' + s' * s');
    assert s' * (c * c' + s * s') + c' * (s * c' - c * s') == s * (c' * c' + s' * s');
  }

  /** What is left of entries k and k' at distance d and 2d, the angle between them as (y, x). */
  function Left(k: real, k': real, t: real, x: real, y: real): real {
    (k * k' + t * (t / 4.0)) * x + (t * k' - k * (t / 4.0)) * y
  }

  lemma NotBothVanish(u: real, t: real, x: real, y: real)
    requires u > 0.0 && t > 0.0 && (x != 0.0 || y != 0.0)
    ensures Left(2.0 * u, u / 4.0, t, x, y) != 0.0 || Left(-u, -u / 8.0, t, x, y) != 0.0
  {
    var uu, tt, tu := u * u, t * t, t * u;
    ProductPositive(u, u);
    ProductPositive(t, t);
    ProductPositive(t, u);
    assert 2.0 * u * (u / 4.0) + t * (t / 4.0) == uu / 2.0 + tt / 4.0;
    assert t * (u / 4.0) - 2.0 * u * (t / 4.0) == -tu / 4.0;
    assert -u * (-u / 8.0) + t * (t / 4.0) == uu / 8.0 + tt / 4.0;
    assert t * (-u / 8.0) - -u * (t / 4.0) == tu / 8.0;
    TwoEquations(uu, tt, tu, x, y);
  }

  lemma TwoEquations(uu: real, tt: real, tu: real, x: real, y: real)
    requires uu > 0.0 && tt > 0.0 && tu > 0.0 && (x != 0.0 || y != 0.0)
    ensures (uu / 2.0 + tt / 4.0) * x + (-tu / 4.0) * y != 0.0 || (uu / 8.0 + tt / 4.0) * x + (tu / 8.0) * y != 0.0
  {
    var a, b := uu / 2.0 + tt / 4.0, uu / 8.0 + tt / 4.0;
    assert (a * x + (-tu / 4.0) * y) + 2.0 * (b * x + (tu / 8.0) * y) == (a + 2.0 * b) * x;
    if x != 0.0 {
      NonZeroProduct(a + 2.0 * b, x);
    } else {
      NonZeroProduct(tu / 8.0, y);
    }
  }

  lemma CrossValue(k: real, k': real, t: real, c: real, s: real, c': real, s': real, an: real)
    requires an != 0.0 && Left(k, k', t, s * c' - c * s', c * c' + s * s') != 0.0
    ensures Composed(k, t, c, s, k', t / 4.0, c', s', an).Cross() != 0.0
  {
    var z := Left(k, k', t, s * c' - c * s', c * c' + s * s');
    CrossTerm(k, t, c, s, k', t / 4.0, c', s', an);
    NonZeroProduct(Square(an), z);
    assert Composed(k, t, c, s, k', t / 4.0, c', s', an).Cross() == Square(an) * z;
  }

  /** One component, given its entries. */
  lemma {:induction false} ComponentLeaves(
      env: Analysis, an: real, d: real, vertical: bool, a: nat, k: real, k': real, t: real,
      c: real, s: real, c': real, s': real)
    requires d > 0.0 && an != 0.0 && Phase(d) == t && Phase(2.0 * d) == t / 4.0
    requires LineNear(d, vertical, a) == k && LineNear(2.0 * d, vertical, a) == k'
    requires c == env.cos(OMEGA * d / C) && s == env.sin(OMEGA * d / C)
    requires c' == env.cos(OMEGA * (2.0 * d) / C) && s' == env.sin(OMEGA * (2.0 * d) / C)
    requires Left(k, k', t, s * c' - c * s', c * c' + s * s') != 0.0
    ensures LineComponent(env, an, d, vertical, a).Cross() != 0.0
  {
    assert LineComponent(env, an, d, vertical, a) == Composed(k, t, c, s, k', t / 4.0, c', s', an);
    CrossValue(k, k', t, c, s, c', s', an);
  }

  /** For any place and size, at least one component leaves something. */
  lemma {:induction false} LineCross(env: Analysis, an: real, d: real, vertical: bool) returns (a: nat)
    requires env.Circular() && an != 0.0 && d > 0.0
    ensures a < 2 && LineComponent(env, an, d, vertical, a).Cross() != 0.0
  {
    var c, s := env.cos(OMEGA * d / C), env.sin(OMEGA * d / C);
    var c', s' := env.cos(OMEGA * (2.0 * d) / C), env.sin(OMEGA * (2.0 * d) / C);
    assert env.OnCircle(OMEGA * d / C) && env.OnCircle(OMEGA * (2.0 * d) / C);
    var u, t := LineValues(d);
    var x, y := s * c' - c * s', c * c' + s * s';
    TurnedBack(c, s, c', s');
    NotBothVanish(u, t, x, y);
    if Left(2.0 * u, u / 4.0, t, x, y) != 0.0 {
      a := if vertical then 1 else 0;
      ComponentLeaves(env, an, d, vertical, a, 2.0 * u, u / 4.0, t, c, s, c', s');
    } else {
      a := if vertical then 0 else 1;
      ComponentLeaves(env, an, d, vertical, a, -u, -u / 8.0, t, c, s, c', s');
    }
  }

  // ----- main results

  lemma {:induction false} LineGrids(env: Analysis, an: real, xi: Coordinates, d: real, vertical: bool)
    requires env.Valid() && env.Rooted() && env.Circular() && an != 0.0 && Line(xi, d, vertical) && Distinct(xi, 3)
    ensures IsLine(Grid1(env, an, xi, 3), Grid2(env, an, xi, 3))
  {
    LineFollows(env, an, xi, d, vertical, 0);
    LineFollows(env, an, xi, d, vertical, 1);
    var a := LineCross(env, an, d, vertical);
  }

  /**
   The right part every system of three dipoles holds is never solved when they stand equally
   spaced on a line along an axis, wherever and at whatever distance.
   */
  lemma {:induction false} LineSolvedWrong(
      env: Analysis, an: real, xi: Coordinates, d: real, vertical: bool, lu: Solver)
    requires env.Valid() && env.Rooted() && env.Circular() && an != 0.0 && Line(xi, d, vertical) && Distinct(xi, 3)
    requires var m1, m2 := Spelled(Grid1(env, an, xi, 3), 3), Spelled(Grid2(env, an, xi, 3), 3);
             Invertible(SquareSum(m1, m2, 6), 6, lu)
    ensures var m1, m2 := Spelled(Grid1(env, an, xi, 3), 3), Spelled(Grid2(env, an, xi, 3), 3);
            !ExactFor(m1, m2, 6, lu, Split(RightPart(3, an), 6))
  {
    LineGrids(env, an, xi, d, vertical);
    RightPartEntries(3, an, 1);
    LineNotExact(Grid1(env, an, xi, 3), Grid2(env, an, xi, 3), lu, Split(RightPart(3, an), 6));
  }

  /** So no object set to such coordinates is solved: its answer is not a solution of its system. */
  lemma {:induction false} LineObjectSolvedWrong(dip: Dipoles, xi: Coordinates, d: real, vertical: bool, lu: Solver)
    requires dip.env.Valid() && dip.env.Rooted() && dip.env.Circular()
    requires 6 <= |xi| <= 7 && Line(xi, d, vertical) && Distinct(xi, 3) && dip.Describes(xi)
    requires Invertible(SquareSum(dip.m1, dip.m2, 6), 6, lu)
    ensures var x := SolveHalves(dip.m1, dip.m2, 6, Split(dip.f, 6), lu);
            x.Has(6) && Apply(FullMatrix(dip.m1, dip.m2, 6), x.re + x.im) != dip.f
  {
    LineSolvedWrong(dip.env, dip.an, xi, d, vertical, lu);
    var f := Split(dip.f, 6);
    HalvesAnswer(dip.m1, dip.m2, 6, f, lu);
    FullMatrixActs(dip.m1, dip.m2, 6, SolveHalves(dip.m1, dip.m2, 6, f, lu));
    SplitImage(Times(dip.m1, dip.m2, 6, SolveHalves(dip.m1, dip.m2, 6, f, lu)), dip.f, 6);
  }
}

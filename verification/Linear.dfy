/** Vectors and matrices over the reals: as much algebra as the block solver needs. */
module Linear {
  type Vector = seq<real>
  type Matrix = seq<Vector>

  predicate IsMatrix(m: Matrix, rows: nat, cols: nat) {
    |m| == rows && forall i | 0 <= i < rows :: |m[i]| == cols
  }

  function Plus(u: Vector, v: Vector): (w: Vector)
    requires |u| == |v|
    ensures |w| == |u|
  {
    seq(|u|, i requires 0 <= i < |u| => u[i] + v[i])
  }

  function Minus(u: Vector, v: Vector): (w: Vector)
    requires |u| == |v|
    ensures |w| == |u|
  {
    seq(|u|, i requires 0 <= i < |u| => u[i] - v[i])
  }

  function Scaled(a: real, v: Vector): (w: Vector)
    ensures |w| == |v|
  {
    seq(|v|, i requires 0 <= i < |v| => a * v[i])
  }

  function Zeros(n: nat): (z: Vector)
    ensures |z| == n
  {
    seq(n, _ => 0.0)
  }

  function Dot(u: Vector, v: Vector): real
    requires |u| == |v|
  {
    if |u| == 0 then 0.0 else u[0] * v[0] + Dot(u[1..], v[1..])
  }

  /** Matrix times vector. */
  function Apply(m: Matrix, v: Vector): (w: Vector)
    requires IsMatrix(m, |m|, |v|)
    ensures |w| == |m|
  {
    seq(|m|, i requires 0 <= i < |m| => Dot(m[i], v))
  }

  /** Row vector times matrix: the rows of `m` combined with the coefficients `u`. */
  function Combine(u: Vector, m: Matrix, cols: nat): (w: Vector)
    requires IsMatrix(m, |u|, cols)
    ensures |w| == cols
  {
    if |u| == 0 then Zeros(cols) else Plus(Scaled(u[0], m[0]), Combine(u[1..], m[1..], cols))
  }

  /** Matrix product, row by row. */
  function Product(a: Matrix, b: Matrix, inner: nat, cols: nat): (c: Matrix)
    requires IsMatrix(a, |a|, inner) && IsMatrix(b, inner, cols)
    ensures IsMatrix(c, |a|, cols)
  {
    seq(|a|, i requires 0 <= i < |a| => Combine(a[i], b, cols))
  }

  function Sum(a: Matrix, b: Matrix, rows: nat, cols: nat): (c: Matrix)
    requires IsMatrix(a, rows, cols) && IsMatrix(b, rows, cols)
    ensures IsMatrix(c, rows, cols)
  {
    seq(rows, i requires 0 <= i < rows => Plus(a[i], b[i]))
  }

  function Negated(v: Vector): (w: Vector)
    ensures |w| == |v|
  {
    seq(|v|, i requires 0 <= i < |v| => -v[i])
  }

  // ----- dot products are bilinear

  lemma {:induction false} DotPlus(u: Vector, v: Vector, w: Vector)
    requires |u| == |v| == |w|
    ensures Dot(u, Plus(v, w)) == Dot(u, v) + Dot(u, w)
  {
    if |u| > 0 {
      assert Plus(v, w)[1..] == Plus(v[1..], w[1..]);
      DotPlus(u[1..], v[1..], w[1..]);
    }
  }

  lemma {:induction false} DotMinus(u: Vector, v: Vector, w: Vector)
    requires |u| == |v| == |w|
    ensures Dot(u, Minus(v, w)) == Dot(u, v) - Dot(u, w)
  {
    if |u| > 0 {
      assert Minus(v, w)[1..] == Minus(v[1..], w[1..]);
      DotMinus(u[1..], v[1..], w[1..]);
    }
  }

  lemma {:induction false} DotCommutes(u: Vector, v: Vector)
    requires |u| == |v|
    ensures Dot(u, v) == Dot(v, u)
  {
    if |u| > 0 {
      DotCommutes(u[1..], v[1..]);
    }
  }

  lemma {:induction false} DotScaled(a: real, u: Vector, v: Vector)
    requires |u| == |v|
    ensures Dot(Scaled(a, u), v) == a * Dot(u, v)
  {
    if |u| > 0 {
      ScaledTail(a, u);
      DotScaled(a, u[1..], v[1..]);
      ScaledTerm(a, u[0], v[0], Dot(u[1..], v[1..]));
    }
  }

  lemma ScaledTerm(a: real, x: real, y: real, rest: real)
    ensures a * x * y + a * rest == a * (x * y + rest)
  {
  }

  lemma {:induction false} DotZeros(v: Vector)
    ensures Dot(Zeros(|v|), v) == 0.0
  {
    if |v| > 0 {
      assert Zeros(|v|)[1..] == Zeros(|v[1..]|);
      DotZeros(v[1..]);
    }
  }

  lemma {:induction false} DotNegated(u: Vector, v: Vector)
    requires |u| == |v|
    ensures Dot(Negated(u), v) == -Dot(u, v)
  {
    if |u| > 0 {
      assert Negated(u)[1..] == Negated(u[1..]);
      DotNegated(u[1..], v[1..]);
    }
  }

  lemma {:induction false} DotConcat(a: Vector, b: Vector, c: Vector, d: Vector)
    requires |a| == |c| && |b| == |d|
    ensures Dot(a + b, c + d) == Dot(a, c) + Dot(b, d)
  {
    if |a| == 0 {
      assert a + b == b && c + d == d;
    } else {
      assert (a + b)[1..] == a[1..] + b && (c + d)[1..] == c[1..] + d;
      DotConcat(a[1..], b, c[1..], d);
    }
  }

  // ----- vectors rearranged

  lemma RealDistribute(a: real, x: real, y: real)
    ensures a * (x + y) == a * x + a * y
  {
  }

  lemma RealSwap(a: real, b: real, x: real)
    ensures a * (b * x) == b * (a * x)
  {
  }

  lemma ScaledPlus(a: real, u: Vector, v: Vector)
    requires |u| == |v|
    ensures Scaled(a, Plus(u, v)) == Plus(Scaled(a, u), Scaled(a, v))
  {
    forall i | 0 <= i < |u|
      ensures Scaled(a, Plus(u, v))[i] == Plus(Scaled(a, u), Scaled(a, v))[i]
    {
      RealDistribute(a, u[i], v[i]);
      assert Plus(u, v)[i] == u[i] + v[i];
    }
  }

  lemma ScaledSwap(a: real, b: real, v: Vector)
    ensures Scaled(a, Scaled(b, v)) == Scaled(b, Scaled(a, v))
  {
    forall i | 0 <= i < |v|
      ensures Scaled(a, Scaled(b, v))[i] == Scaled(b, Scaled(a, v))[i]
    {
      RealSwap(a, b, v[i]);
      assert Scaled(a, v)[i] == a * v[i] && Scaled(b, v)[i] == b * v[i];
    }
  }

  lemma PlusCommutes(u: Vector, v: Vector)
    requires |u| == |v|
    ensures Plus(u, v) == Plus(v, u)
  {
  }

  lemma PlusAssociative(a: Vector, b: Vector, c: Vector)
    requires |a| == |b| == |c|
    ensures Plus(Plus(a, b), c) == Plus(a, Plus(b, c))
  {
  }

  lemma PlusKeepsIffZero(u: Vector, v: Vector)
    requires |u| == |v|
    ensures Plus(u, v) == v <==> u == Zeros(|u|)
  {
    if Plus(u, v) == v {
      assert forall i | 0 <= i < |u| :: Plus(u, v)[i] == u[i] + v[i];
    } else {
      assert exists i | 0 <= i < |u| :: Plus(u, v)[i] != v[i];
    }
  }

  /** Of four summands the second and the fourth change places. */
  lemma PlusExchange(a: Vector, b: Vector, c: Vector, d: Vector)
    requires |a| == |b| == |c| == |d|
    ensures Plus(Plus(a, b), Plus(c, d)) == Plus(Plus(a, d), Plus(c, b))
  {
  }

  /** And the second and the third. */
  lemma PlusInterchange(a: Vector, b: Vector, c: Vector, d: Vector)
    requires |a| == |b| == |c| == |d|
    ensures Plus(Plus(a, b), Plus(c, d)) == Plus(Plus(a, c), Plus(b, d))
  {
  }

  /** The i-th unit vector. */
  function Unit(n: nat, i: nat): (v: Vector)
    ensures |v| == n
  {
    seq(n, k => if k == i then 1.0 else 0.0)
  }

  lemma {:induction false} DotUnit(u: Vector, i: nat)
    requires i < |u|
    ensures Dot(u, Unit(|u|, i)) == u[i]
  {
    if i == 0 {
      assert Unit(|u|, 0)[1..] == Zeros(|u| - 1);
      DotCommutes(u[1..], Zeros(|u| - 1));
      DotZeros(u[1..]);
    } else {
      assert Unit(|u|, i)[1..] == Unit(|u| - 1, i - 1);
      DotUnit(u[1..], i - 1);
    }
  }

  // ----- matrices act linearly, and products act one after the other

  lemma ApplyPlus(m: Matrix, v: Vector, w: Vector)
    requires |v| == |w| && IsMatrix(m, |m|, |v|)
    ensures Apply(m, Plus(v, w)) == Plus(Apply(m, v), Apply(m, w))
  {
    forall i | 0 <= i < |m|
      ensures Apply(m, Plus(v, w))[i] == Plus(Apply(m, v), Apply(m, w))[i]
    {
      DotPlus(m[i], v, w);
    }
  }

  lemma ApplyMinus(m: Matrix, v: Vector, w: Vector)
    requires |v| == |w| && IsMatrix(m, |m|, |v|)
    ensures Apply(m, Minus(v, w)) == Minus(Apply(m, v), Apply(m, w))
  {
    forall i | 0 <= i < |m|
      ensures Apply(m, Minus(v, w))[i] == Minus(Apply(m, v), Apply(m, w))[i]
    {
      DotMinus(m[i], v, w);
    }
  }

  lemma ScaledSecondTerm(a: real, x: real, y: real, rest: real)
    ensures x * (a * y) + a * rest == a * (x * y + rest)
  {
  }

  lemma ScaledTail(a: real, v: Vector)
    requires |v| > 0
    ensures Scaled(a, v)[1..] == Scaled(a, v[1..])
  {
    forall i | 0 <= i < |v| - 1
      ensures Scaled(a, v)[1..][i] == Scaled(a, v[1..])[i]
    {
      assert v[1..][i] == v[i + 1];
    }
  }

  lemma {:induction false} DotWithScaled(u: Vector, a: real, v: Vector)
    requires |u| == |v|
    ensures Dot(u, Scaled(a, v)) == a * Dot(u, v)
  {
    if |u| > 0 {
      ScaledTail(a, v);
      DotWithScaled(u[1..], a, v[1..]);
      ScaledSecondTerm(a, u[0], v[0], Dot(u[1..], v[1..]));
    }
  }

  lemma ApplyScaled(m: Matrix, a: real, v: Vector)
    requires IsMatrix(m, |m|, |v|)
    ensures Apply(m, Scaled(a, v)) == Scaled(a, Apply(m, v))
  {
    forall i | 0 <= i < |m|
      ensures Apply(m, Scaled(a, v))[i] == Scaled(a, Apply(m, v))[i]
    {
      DotWithScaled(m[i], a, v);
    }
  }

  lemma ApplySum(a: Matrix, b: Matrix, v: Vector)
    requires IsMatrix(a, |a|, |v|) && IsMatrix(b, |a|, |v|)
    ensures Apply(Sum(a, b, |a|, |v|), v) == Plus(Apply(a, v), Apply(b, v))
  {
    forall i | 0 <= i < |a|
      ensures Apply(Sum(a, b, |a|, |v|), v)[i] == Plus(Apply(a, v), Apply(b, v))[i]
    {
      DotCommutes(Plus(a[i], b[i]), v);
      DotPlus(v, a[i], b[i]);
      DotCommutes(v, a[i]);
      DotCommutes(v, b[i]);
    }
  }

  lemma {:induction false} DotCombine(u: Vector, m: Matrix, v: Vector)
    requires IsMatrix(m, |u|, |v|)
    ensures Dot(Combine(u, m, |v|), v) == Dot(u, Apply(m, v))
  {
    if |u| == 0 {
      DotZeros(v);
    } else {
      var first, rest := Scaled(u[0], m[0]), Combine(u[1..], m[1..], |v|);
      DotCommutes(Plus(first, rest), v);
      DotPlus(v, first, rest);
      DotCommutes(v, first);
      DotCommutes(v, rest);
      DotScaled(u[0], m[0], v);
      DotCombine(u[1..], m[1..], v);
      assert Apply(m, v)[1..] == Apply(m[1..], v);
    }
  }

  /** Associativity, in the form the solver uses it: (A B) v == A (B v). */
  lemma ApplyProduct(a: Matrix, b: Matrix, v: Vector)
    requires IsMatrix(a, |a|, |b|) && IsMatrix(b, |b|, |v|)
    ensures Apply(Product(a, b, |b|, |v|), v) == Apply(a, Apply(b, v))
  {
    forall i | 0 <= i < |a|
      ensures Apply(Product(a, b, |b|, |v|), v)[i] == Apply(a, Apply(b, v))[i]
    {
      DotCombine(a[i], b, v);
    }
  }

  function Column(m: Matrix, j: nat, cols: nat): (v: Vector)
    requires IsMatrix(m, |m|, cols) && j < cols
    ensures |v| == |m|
  {
    seq(|m|, i requires 0 <= i < |m| => m[i][j])
  }

  /** The rows combined by `Product` are the textbook sums of row times column. */
  lemma {:induction false} CombineEntry(u: Vector, m: Matrix, cols: nat, j: nat)
    requires IsMatrix(m, |u|, cols) && j < cols
    ensures Combine(u, m, cols)[j] == Dot(u, Column(m, j, cols))
  {
    if |u| > 0 {
      CombineEntry(u[1..], m[1..], cols, j);
      assert Column(m, j, cols)[1..] == Column(m[1..], j, cols);
    }
  }

  /** Matrices that act alike are equal. */
  lemma SameAction(a: Matrix, b: Matrix, rows: nat, cols: nat)
    requires IsMatrix(a, rows, cols) && IsMatrix(b, rows, cols)
    requires forall v: Vector | |v| == cols :: Apply(a, v) == Apply(b, v)
    ensures a == b
  {
    forall i, j | 0 <= i < rows && 0 <= j < cols
      ensures a[i][j] == b[i][j]
    {
      assert Apply(a, Unit(cols, j))[i] == Apply(b, Unit(cols, j))[i];
      DotUnit(a[i], j);
      DotUnit(b[i], j);
    }
    forall i | 0 <= i < rows
      ensures a[i] == b[i]
    {
    }
  }

  ghost predicate Symmetric(m: Matrix, n: nat)
    requires IsMatrix(m, n, n)
  {
    forall i, j | 0 <= i < n && 0 <= j < n :: m[i][j] == m[j][i]
  }

  /** A symmetric matrix moves across the dot product. */
  lemma {:induction false} SelfAdjoint(m: Matrix, n: nat, u: Vector, v: Vector)
    requires IsMatrix(m, n, n) && Symmetric(m, n) && |u| == |v| == n
    ensures Dot(Apply(m, u), v) == Dot(u, Apply(m, v))
  {
    forall j | 0 <= j < n
      ensures Combine(u, m, n)[j] == Apply(m, u)[j]
    {
      CombineEntry(u, m, n, j);
      assert Column(m, j, n) == m[j];
      DotCommutes(u, m[j]);
    }
    assert Combine(u, m, n) == Apply(m, u);
    DotCombine(u, m, v);
  }

  lemma {:induction false} ApplyZeros(m: Matrix, n: nat)
    requires IsMatrix(m, n, n)
    ensures Apply(m, Zeros(n)) == Zeros(n)
  {
    forall i | 0 <= i < n
      ensures Apply(m, Zeros(n))[i] == 0.0
    {
      DotCommutes(m[i], Zeros(n));
      DotZeros(m[i]);
    }
  }
}

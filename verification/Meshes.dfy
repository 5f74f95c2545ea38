/** Spherical meshes: building them, printing them as tables and reading them back. */
module Meshes {
  import opened Outcomes
  import Linear
  import opened Quotients
  import opened Tables

  datatype Dims = Dims(theta: nat, phi: nat)
  datatype Limits = Limits(thetaLow: real, thetaHigh: real, phiLow: real, phiHigh: real)
  datatype MeshError = IoError | ZeroLinspace | ZeroSizes | MismatchedSizes

  /** The fields of a mesh object; entry j * dims.phi + i belongs to theta j and phi i. */
  datatype Mesh = Mesh(dims: Dims, limits: Limits, phi: seq<real>, theta: seq<real>, values: seq<real>)

  const PI: real := 3.141592653589793
  const DEFAULT_DIMS: Dims := Dims(7, 25)
  const DEFAULT_LIMITS: Limits := Limits(0.0, PI / 2.0, 0.0, PI * 2.0)

  // ----- flat positions

  lemma FlatPosition(j: nat, i: nat, height: nat, width: nat)
    requires j < height && i < width
    ensures (j * width + i) / width == j && (j * width + i) % width == i
    ensures 0 <= j * width + i < height * width
  {
    QuotientAndRest(j, i, width);
    DigitBelow(j, i, height, width);
  }

  lemma FlatSplit(k: nat, height: nat, width: nat)
    requires k < height * width
    ensures width > 0 && k / width < height && k % width < width
    ensures k == (k / width) * width + k % width
  {
    DivMod(k, width);
    QuotientBelow(k, height, width);
  }

  lemma SplitIff(k: nat, j: nat, i: nat, height: nat, width: nat)
    requires k < height * width && j < height && i < width
    ensures k == j * width + i <==> k / width == j && k % width == i
  {
    FlatPosition(j, i, height, width);
    FlatSplit(k, height, width);
  }

  // ----- evenly spaced values

  function Point(low: real, high: real, n: nat, i: int): real
    requires n >= 2
  {
    i as real * ((high - low) / (n - 1) as real) + low
  }

  function Linspace(low: real, high: real, n: nat): (v: seq<real>)
    requires n >= 2
    ensures |v| == n
  {
    seq(n, i => Point(low, high, n, i))
  }

  lemma PointEnds(low: real, high: real, n: nat)
    requires n >= 2
    ensures Point(low, high, n, 0) == low && Point(low, high, n, n - 1) == high
  {
  }

  lemma NextPoint(low: real, high: real, n: nat, i: nat)
    requires n >= 2
    ensures Point(low, high, n, i + 1) - Point(low, high, n, i) == (high - low) / (n - 1) as real
  {
    var step := (high - low) / (n - 1) as real;
    assert (i + 1) as real * step == i as real * step + step;
  }

  ghost predicate EvenSteps(v: seq<real>) {
    forall i | 0 < i < |v| :: v[i] - v[i - 1] == v[1] - v[0]
  }

  lemma {:induction false} EvenStepsAdd(v: seq<real>, i: nat)
    requires |v| >= 2 && EvenSteps(v) && i < |v|
    ensures v[i] == i as real * (v[1] - v[0]) + v[0]
  {
    if i > 0 {
      EvenStepsAdd(v, i - 1);
      var step := v[1] - v[0];
      assert i as real * step == (i - 1) as real * step + step;
    }
  }

  /** Evenly spaced with both bounds hit: that, and nothing else, is the sequence computed. */
  lemma LinspaceIffEven(v: seq<real>, low: real, high: real, n: nat)
    requires n >= 2
    ensures v == Linspace(low, high, n) <==> |v| == n && v[0] == low && v[n - 1] == high && EvenSteps(v)
  {
    if v == Linspace(low, high, n) {
      LinspaceIsEven(low, high, n);
    }
    if |v| == n && v[0] == low && v[n - 1] == high && EvenSteps(v) {
      EvenIsLinspace(v);
    }
  }

  lemma LinspaceIsEven(low: real, high: real, n: nat)
    requires n >= 2
    ensures var v := Linspace(low, high, n); v[0] == low && v[n - 1] == high && EvenSteps(v)
  {
    var v := Linspace(low, high, n);
    PointEnds(low, high, n);
    NextPoint(low, high, n, 0);
    forall i | 0 < i < |v| ensures v[i] - v[i - 1] == v[1] - v[0] {
      NextPoint(low, high, n, i - 1);
    }
  }

  lemma EvenIsLinspace(v: seq<real>)
    requires |v| >= 2 && EvenSteps(v)
    ensures v == Linspace(v[0], v[|v| - 1], |v|)
  {
    var n := |v|;
    EvenStepsAdd(v, n - 1);
    StepFromSpan((n - 1) as real, v[1] - v[0], v[n - 1] - v[0]);
    forall i | 0 <= i < n ensures v[i] == Point(v[0], v[n - 1], n, i) {
      EvenStepsAdd(v, i);
    }
  }

  lemma StepFromSpan(count: real, step: real, span: real)
    requires count > 0.0 && count * step == span
    ensures span / count == step
  {
  }

  /** n == 1 divides by zero and is not modelled. */
  method MyLinspace(low: real, high: real, n: nat) returns (r: Result<seq<real>, MeshError>)
    requires n != 1
    ensures n == 0 || low == high <==> r.Failure?
    ensures r.Failure? ==> r.error == ZeroLinspace
    ensures r.Success? ==> r.value == Linspace(low, high, n)
  {
    if n == 0 || low - high == 0.0 {
      return Failure(ZeroLinspace);
    }
    var result := new real[n];
    var step := (high - low) / (n - 1) as real;
    for i := 0 to n
      invariant forall k | 0 <= k < i :: result[k] == Point(low, high, n, k)
    {
      result[i] := i as real * step + low;
    }
    assert result[..] == Linspace(low, high, n);
    return Success(result[..]);
  }

  // ----- the grid

  /** Copies of `a` one behind the other. */
  function Tiled(a: seq<real>, copies: nat): (t: seq<real>)
    ensures |t| == copies * |a|
  {
    var rows := seq(copies, _ => a);
    FlatLength(rows, |a|);
    Flat(rows)
  }

  /** Every value of `b`, `width` times in a row. */
  function Stretched(b: seq<real>, width: nat): (t: seq<real>)
    ensures |t| == |b| * width
  {
    var rows := seq(|b|, i requires 0 <= i < |b| => seq(width, _ => b[i]));
    FlatLength(rows, width);
    Flat(rows)
  }

  lemma {:induction false} GridCell(a: seq<real>, b: seq<real>, i: nat, j: nat)
    requires i < |b| && j < |a|
    ensures 0 <= i * |a| + j < |b| * |a|
    ensures Tiled(a, |b|)[i * |a| + j] == a[j] && Stretched(b, |a|)[i * |a| + j] == b[i]
  {
    FlatPosition(i, j, |b|, |a|);
    FlatEntry(seq(|b|, _ => a), |a|, i, j);
    FlatEntry(seq(|b|, k requires 0 <= k < |b| => seq(|a|, _ => b[k])), |a|, i, j);
  }

  method MyMeshGrid(a: seq<real>, b: seq<real>) returns (tiled: seq<real>, stretched: seq<real>)
    ensures tiled == Tiled(a, |b|) && stretched == Stretched(b, |a|)
  {
    var w := |a|;
    var first, second := new real[|b| * w], new real[|b| * w];
    ghost var tiles, stretches := Tiled(a, |b|), Stretched(b, w);
    for i := 0 to |b|
      invariant i * w <= first.Length && first != second
      invariant forall k | 0 <= k < i * w :: first[k] == tiles[k] && second[k] == stretches[k]
    {
      RowsFit(i, |b|, w);
      ghost var start := i * w;
      for j := 0 to w
        invariant forall k | 0 <= k < start + j :: first[k] == tiles[k] && second[k] == stretches[k]
      {
        GridCell(a, b, i, j);
        first[i * w + j] := a[j];
        second[i * w + j] := b[i];
      }
    }
    tiled, stretched := first[..], second[..];
  }

  predicate Degenerate(dims: Dims, limits: Limits) {
    || dims.theta == 0 || dims.phi == 0
    || limits.thetaLow == limits.thetaHigh || limits.phiLow == limits.phiHigh
  }

  function Constructed(dims: Dims, limits: Limits, values: seq<real>): Mesh
    requires dims.theta >= 2 && dims.phi >= 2
  {
    var phi := Linspace(limits.phiLow, limits.phiHigh, dims.phi);
    var theta := Linspace(limits.thetaLow, limits.thetaHigh, dims.theta);
    Mesh(dims, limits, Tiled(phi, dims.theta), Stretched(theta, dims.phi), values)
  }

  /** The grid point of theta j and phi i is at position j * width + i and nowhere else. */
  lemma GridPoint(dims: Dims, limits: Limits, values: seq<real>, k: nat, j: nat, i: nat)
    requires dims.theta >= 2 && dims.phi >= 2 && !Degenerate(dims, limits)
    requires k < dims.theta * dims.phi && j < dims.theta && i < dims.phi
    ensures IsGridPoint(Constructed(dims, limits, values), k, j, i) <==> k == j * dims.phi + i
  {
    OnlyItsGridPoint(dims, limits, values, k, j, i);
    SplitIff(k, j, i, dims.theta, dims.phi);
  }

  lemma OnlyItsGridPoint(dims: Dims, limits: Limits, values: seq<real>, k: nat, j: nat, i: nat)
    requires dims.theta >= 2 && dims.phi >= 2 && !Degenerate(dims, limits)
    requires k < dims.theta * dims.phi
    ensures IsGridPoint(Constructed(dims, limits, values), k, j, i) <==> k / dims.phi == j && k % dims.phi == i
  {
    ConstructedAt(dims, limits, values, k);
    var q, r := k / dims.phi, k % dims.phi;
    PointsDiffer(limits.phiLow, limits.phiHigh, dims.phi, r, i);
    PointsDiffer(limits.thetaLow, limits.thetaHigh, dims.theta, q, j);
  }

  predicate IsGridPoint(m: Mesh, k: nat, j: nat, i: nat)
    requires m.dims.theta >= 2 && m.dims.phi >= 2
  {
    && k < |m.phi| && m.phi[k] == Point(m.limits.phiLow, m.limits.phiHigh, m.dims.phi, i)
    && k < |m.theta| && m.theta[k] == Point(m.limits.thetaLow, m.limits.thetaHigh, m.dims.theta, j)
  }

  lemma ConstructedAt(dims: Dims, limits: Limits, values: seq<real>, k: nat)
    requires dims.theta >= 2 && dims.phi >= 2 && k < dims.theta * dims.phi
    ensures var m := Constructed(dims, limits, values);
            && |m.phi| == |m.theta| == dims.theta * dims.phi
            && m.phi[k] == Point(limits.phiLow, limits.phiHigh, dims.phi, k % dims.phi)
            && m.theta[k] == Point(limits.thetaLow, limits.thetaHigh, dims.theta, k / dims.phi)
  {
    FlatSplit(k, dims.theta, dims.phi);
    GridCell(Linspace(limits.phiLow, limits.phiHigh, dims.phi), Linspace(limits.thetaLow, limits.thetaHigh, dims.theta),
             k / dims.phi, k % dims.phi);
  }

  lemma PointsDiffer(low: real, high: real, n: nat, i: nat, j: nat)
    requires n >= 2 && low != high
    ensures Point(low, high, n, i) == Point(low, high, n, j) <==> i == j
  {
    var step := (high - low) / (n - 1) as real;
    assert step != 0.0 by {
      StepTimesCount(step, (n - 1) as real, high - low);
    }
    assert Point(low, high, n, i) - Point(low, high, n, j) == (i as real - j as real) * step;
  }

  lemma StepTimesCount(step: real, count: real, span: real)
    requires count > 0.0 && step == span / count
    ensures step * count == span
  {
  }

  /** A refused construction has already changed dimensions and limits, but no array. */
  function AfterConstruct(before: Mesh, dims: Dims, limits: Limits): Mesh
    requires dims.theta != 1 && dims.phi != 1
  {
    if Degenerate(dims, limits) then before.(dims := dims, limits := limits)
    else Constructed(dims, limits, before.values)
  }

  function DefaultMesh(construct: bool): Mesh {
    var cells := if construct then Linear.Zeros(DEFAULT_DIMS.theta * DEFAULT_DIMS.phi) else [];
    Mesh(DEFAULT_DIMS, DEFAULT_LIMITS, cells, cells, cells)
  }

  method ComputeFunction(a: seq<real>, b: seq<real>, func: (real, real) -> real)
      returns (r: Result<seq<real>, MeshError>)
    ensures r == Failure(ZeroSizes) <==> |a| == 0 || |b| == 0
    ensures r == Failure(MismatchedSizes) <==> |a| != 0 && |b| != 0 && |a| != |b|
    ensures r.Success? <==> |a| == |b| != 0
    ensures r.Success? ==> |r.value| == |a| && forall i | 0 <= i < |a| :: r.value[i] == func(a[i], b[i])
  {
    if |a| == 0 || |b| == 0 {
      return Failure(ZeroSizes);
    }
    if |a| != |b| {
      return Failure(MismatchedSizes);
    }
    var result := new real[|a|];
    for i := 0 to |a|
      invariant forall k | 0 <= k < i :: result[k] == func(a[k], b[k])
    {
      result[i] := func(a[i], b[i]);
    }
    return Success(result[..]);
  }

  /** The mesh object: two coordinate arrays and the values over them. */
  class MeshCreator {
    var dims: Dims
    var limits: Limits
    var phi: seq<real>
    var theta: seq<real>
    var values: seq<real>

    constructor (construct: bool)
      ensures State() == DefaultMesh(construct)
    {
      dims, limits := DEFAULT_DIMS, DEFAULT_LIMITS;
      phi, theta, values := [], [], [];
      new;
      if construct {
        var cells := Linear.Zeros(dims.theta * dims.phi);
        phi, theta, values := cells, cells, cells;
      }
    }

    function State(): Mesh
      reads this
    {
      Mesh(dims, limits, phi, theta, values)
    }

    method ConstructMeshes(dims: Dims, limits: Limits) returns (error: Option<MeshError>)
      requires dims.theta != 1 && dims.phi != 1
      modifies this
      ensures error == if Degenerate(dims, limits) then Some(ZeroLinspace) else None
      ensures State() == AfterConstruct(old(State()), dims, limits)
    {
      this.dims, this.limits := dims, limits;
      var phiLine := MyLinspace(limits.phiLow, limits.phiHigh, dims.phi);
      if phiLine.Failure? {
        return Some(phiLine.error);
      }
      var thetaLine := MyLinspace(limits.thetaLow, limits.thetaHigh, dims.theta);
      if thetaLine.Failure? {
        return Some(thetaLine.error);
      }
      phi, theta := MyMeshGrid(phiLine.value, thetaLine.value);
      return None;
    }

    method ApplyFunction(func: (real, real) -> real) returns (error: Option<MeshError>)
      modifies this`values
      ensures error.None? <==> |phi| == |theta| != 0
      ensures error.Some? ==> values == old(values)
      ensures error.None? ==> |values| == |phi| && forall k | 0 <= k < |phi| :: values[k] == func(phi[k], theta[k])
    {
      var r := ComputeFunction(phi, theta, func);
      if r.Failure? {
        return Some(r.error);
      }
      values := r.value;
      return None;
    }
  }

  /** Rows of the flat array; inverse of writing rows one behind the other. */
  method Unflatten(flat: seq<real>, dims: Dims) returns (rows: seq<seq<real>>)
    requires |flat| >= dims.theta * dims.phi
    ensures |rows| == dims.theta && AllOfWidth(rows, dims.phi)
    ensures Flat(rows) == flat[..dims.theta * dims.phi]
  {
    rows := [];
    for i := 0 to dims.theta
      invariant |rows| == i && AllOfWidth(rows, dims.phi)
      invariant i * dims.phi <= dims.theta * dims.phi
      invariant Flat(rows) == flat[..i * dims.phi]
    {
      RowsFit(i, dims.theta, dims.phi);
      ghost var start := i * dims.phi;
      var row := new real[dims.phi];
      for j := 0 to dims.phi
        invariant row[..j] == flat[start..start + j]
      {
        row[j] := flat[i * dims.phi + j];
        assert row[..j + 1] == row[..j] + [row[j]];
        assert flat[start..start + j + 1] == flat[start..start + j] + [flat[start + j]];
      }
      assert row[..dims.phi] == row[..];
      assert flat[..start] + flat[start..start + dims.phi] == flat[..start + dims.phi];
      rows := rows + [row[..]];
    }
  }
}

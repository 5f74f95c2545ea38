/**
 Where in a printed table each number stands. The parsers skip most headings and every derived
 column, so that a table is read back says little about these.
 */
module TableCells {
  import opened Quotients
  import opened Tables
  import opened Meshes
  import opened MeshTables
  import opened Solutions

  /** The tokens in front of the first line, and the lines behind them. */
  lemma {:induction false} TableEntry(head: seq<Token>, rows: seq<seq<real>>, width: nat, i: nat, k: nat)
    requires AllOfWidth(rows, width) && i < |rows| && k < width
    ensures var table := head + Lines(rows) + [LineEnd];
            && |table| == |head| + |rows| * (1 + width) + 1
            && 0 <= i * (1 + width) && (i + 1) * (1 + width) <= |rows| * (1 + width)
            && table[|head| + i * (1 + width)] == LineEnd
            && table[|head| + i * (1 + width) + (1 + k)] == Num(rows[i][k])
  {
    LinesEntry(rows, width, i, k);
  }

  // ----- meshes

  /** Where the line of the i-th phi starts. */
  function RowStart(dims: Dims, i: nat): nat {
    7 + dims.theta + i * (2 + dims.theta)
  }

  /**
   The value of the j-th theta and the i-th phi stands on the line that is headed by that phi, in
   the column that is headed by that theta.
   */
  ghost predicate CellPrinted(table: seq<Token>, dims: Dims, i: nat, j: nat, phi: real, theta: real, value: real) {
    && i < dims.phi && j < dims.theta && |table| == 8 + dims.theta + dims.phi * (2 + dims.theta)
    && RowStart(dims, i) + 2 + j < |table|
    && table[7 + j] == Num(theta)
    && table[RowStart(dims, i)] == LineEnd
    && table[RowStart(dims, i) + 1] == Num(phi)
    && table[RowStart(dims, i) + 2 + j] == Num(value)
  }

  lemma {:induction false} MeshHead(m: Mesh)
    requires Printable(m)
    ensures var head := Header(m.dims) + Nums(DecTheta(m));
            |head| == 7 + m.dims.theta && head[..3] == [Count(m.dims.theta), Count(m.dims.phi), LineEnd]
  {
  }

  lemma ColumnHead(m: Mesh, j: nat)
    requires Printable(m) && j < m.dims.theta
    ensures 0 <= j * m.dims.phi < |m.theta|
    ensures (Header(m.dims) + Nums(DecTheta(m)))[7 + j] == Num(m.theta[j * m.dims.phi])
  {
    HeadWithin(j, m.dims.theta, m.dims.phi);
  }

  lemma {:induction false} MeshCell(m: Mesh, i: nat, j: nat)
    requires Printable(m) && i < m.dims.phi && j < m.dims.theta
    ensures |DecTokens(m)| >= 3 && DecTokens(m)[..3] == [Count(m.dims.theta), Count(m.dims.phi), LineEnd]
    ensures 0 <= j * m.dims.phi < |m.theta| && 0 <= j * m.dims.phi + i < |m.values|
    ensures CellPrinted(DecTokens(m), m.dims, i, j, m.phi[i], m.theta[j * m.dims.phi], m.values[j * m.dims.phi + i])
  {
    var head, rows := Header(m.dims) + Nums(DecTheta(m)), DecRows(m);
    MeshHead(m);
    ColumnHead(m, j);
    DecRowEntry(m, i, j);
    TableEntry(head, rows, 1 + m.dims.theta, i, 0);
    TableEntry(head, rows, 1 + m.dims.theta, i, 1 + j);
    assert rows[i] == DecRow(m, i);
  }

  lemma {:induction false} Grid(m: Mesh, k: nat, j: nat, i: nat)
    requires Regular(m) && j < m.dims.theta && i < m.dims.phi && k == j * m.dims.phi + i
    ensures IsGridPoint(m, k, j, i)
  {
    FlatPosition(j, i, m.dims.theta, m.dims.phi);
    GridPoint(m.dims, m.limits, m.values, k, j, i);
  }

  /** On its own grids a point has the phi of the first line and the theta of the first column. */
  lemma {:induction false} OnGridLines(m: Mesh, k: nat, j: nat, i: nat)
    requires Regular(m) && j < m.dims.theta && i < m.dims.phi && k == j * m.dims.phi + i
    ensures i < |m.phi| && k < |m.phi| && m.phi[k] == m.phi[i]
    ensures 0 <= j * m.dims.phi < |m.theta| && k < |m.theta| && m.theta[k] == m.theta[j * m.dims.phi]
  {
    Grid(m, k, j, i);
    Grid(m, i, 0, i);
    Grid(m, j * m.dims.phi, j, 0);
  }

  lemma RegularPrintable(m: Mesh)
    requires Regular(m)
    ensures Printable(m)
  {
    GridEnds(m.dims, m.limits, m.values);
  }

  /** The table of a mesh with its own grids: every value under its theta and behind its phi. */
  lemma {:induction false} GridPointPrinted(m: Mesh, k: nat, j: nat, i: nat)
    requires Regular(m) && j < m.dims.theta && i < m.dims.phi && k == j * m.dims.phi + i
    ensures Printable(m) && k < |m.phi| && k < |m.theta| && k < |m.values|
    ensures CellPrinted(DecTokens(m), m.dims, i, j, m.phi[k], m.theta[k], m.values[k])
  {
    RegularPrintable(m);
    OnGridLines(m, k, j, i);
    MeshCell(m, i, j);
  }

  /** The plain form starts with theta's count and phi's, and then with the bounds of each. */
  lemma {:induction false} PlainHead(m: Mesh, fmt: Format)
    ensures var text, limits := SerialTokens(m, true, true, fmt), m.limits;
            && |text| >= 9 && text[0] == Count(m.dims.theta) && text[1] == Count(m.dims.phi) && text[2] == LineEnd
            && text[3] == Num(limits.thetaLow) && text[4] == Num(limits.thetaHigh) && text[5] == LineEnd
            && text[6] == Num(limits.phiLow) && text[7] == Num(limits.phiHigh) && text[8] == LineEnd
  {
  }

  // ----- solutions

  /** A root of every number that has one. */
  ghost predicate TrueRoot(root: real -> real) {
    forall x: real :: x >= 0.0 ==> root(x) >= 0.0 && root(x) * root(x) == x
  }

  predicate IsModulus(c: real, a: real, b: real) {
    c >= 0.0 && c * c == a * a + b * b
  }

  lemma RootIsModulus(a: real, b: real, root: real -> real)
    requires TrueRoot(root)
    ensures IsModulus(Modulus(a, b, root), a, b)
  {
    assert a * a >= 0.0 && b * b >= 0.0;
  }

  lemma {:induction false} SolutionEntry(sol: seq<real>, root: real -> real, r: nat, k: nat)
    requires r < 2 * (|sol| / 4) && k < 3
    ensures var table, line, half := SolutionTokens(sol, root), 9 + 4 * r, 2 * (|sol| / 4);
            && table[0] == Count(|sol| / 4) && |table| == 10 + 4 * half && line + 3 < |table| && r + half < |sol|
            && table[line] == LineEnd && table[line + 1 + k] == Num(SolutionRow(sol, r, root)[k])
  {
    assert SolutionRows(sol, root)[r] == SolutionRow(sol, r, root);
    TableEntry(SolutionHeader(|sol| / 4), SolutionRows(sol, root), 3, r, k);
  }

  /**
   On line r stand component r, the one half a vector behind it, and a number that is the modulus
   of the two as a complex number.
   */
  lemma {:induction false} SolutionLine(sol: seq<real>, root: real -> real, r: nat)
    requires TrueRoot(root) && r < 2 * (|sol| / 4)
    ensures var table, line, half := SolutionTokens(sol, root), 9 + 4 * r, 2 * (|sol| / 4);
            && table[0] == Count(|sol| / 4) && |table| == 10 + 4 * half && line + 3 < |table| && r + half < |sol|
            && table[line] == LineEnd && table[line + 1] == Num(sol[r]) && table[line + 2] == Num(sol[r + half])
            && table[line + 3].Num? && IsModulus(table[line + 3].x, sol[r], sol[r + half])
  {
    SolutionEntry(sol, root, r, 0);
    SolutionEntry(sol, root, r, 1);
    SolutionEntry(sol, root, r, 2);
    RootIsModulus(sol[r], sol[r + 2 * (|sol| / 4)], root);
  }

  // ----- coordinates

  /** On line i stands point i, its second coordinate being half a vector behind the first. */
  lemma {:induction false} CoordinateLine(col: seq<real>, i: nat)
    requires i < |col| / 2
    ensures var table, line, n := CoordinateTokens(col), 4 + 3 * i, |col| / 2;
            && table[3] == Count(n) && |table| == 5 + 3 * n && line + 2 < |table|
            && table[line] == LineEnd && table[line + 1] == Num(col[i]) && table[line + 2] == Num(col[i + n])
  {
    TableEntry(CoordinateHeader(|col| / 2), CoordinateRows(col), 2, i, 0);
    TableEntry(CoordinateHeader(|col| / 2), CoordinateRows(col), 2, i, 1);
  }
}

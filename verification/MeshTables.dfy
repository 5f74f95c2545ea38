/** Meshes as text: a transposed table for people, and a plain list of values for programs. */
module MeshTables {
  import opened Outcomes
  import opened Quotients
  import opened Tables
  import opened Meshes
  import Formats
  import FormattedRows
  import Linear

  datatype IoFormat = Serializable | HumanReadable

  // ----- what is printed

  /** The table has a column for every theta and a row for every phi. */
  predicate Printable(m: Mesh) {
    && m.dims.theta > 0
    && |m.phi| >= m.dims.phi
    && |m.theta| > (m.dims.theta - 1) * m.dims.phi
    && |m.values| >= m.dims.theta * m.dims.phi
  }

  lemma HeadWithin(i: nat, height: nat, width: nat)
    requires i < height
    ensures 0 <= i * width <= (height - 1) * width
  {
    if i < height - 1 {
      Multiples(width, i, height - 1);
    }
  }

  function DecTheta(m: Mesh): (r: seq<real>)
    requires Printable(m)
    ensures |r| == m.dims.theta
  {
    seq(m.dims.theta, i requires 0 <= i < m.dims.theta =>
      HeadWithin(i, m.dims.theta, m.dims.phi); m.theta[i * m.dims.phi])
  }

  function DecRow(m: Mesh, i: nat): (r: seq<real>)
    requires Printable(m) && i < m.dims.phi
    ensures |r| == 1 + m.dims.theta
  {
    [m.phi[i]] + seq(m.dims.theta, j requires 0 <= j < m.dims.theta =>
      FlatPosition(j, i, m.dims.theta, m.dims.phi); m.values[j * m.dims.phi + i])
  }

  lemma DecRowEntry(m: Mesh, i: nat, j: nat)
    requires Printable(m) && i < m.dims.phi && j < m.dims.theta
    ensures 0 <= j * m.dims.phi + i < |m.values| && DecRow(m, i)[1 + j] == m.values[j * m.dims.phi + i]
  {
    FlatPosition(j, i, m.dims.theta, m.dims.phi);
  }

  function DecRows(m: Mesh): (rows: seq<seq<real>>)
    requires Printable(m)
    ensures |rows| == m.dims.phi && AllOfWidth(rows, 1 + m.dims.theta)
    ensures forall i | 0 <= i < |rows| :: rows[i] == DecRow(m, i)
  {
    seq(m.dims.phi, i requires 0 <= i < m.dims.phi => DecRow(m, i))
  }

  function Header(dims: Dims): seq<Token> {
    [Count(dims.theta), Count(dims.phi), LineEnd, Word("Функция"), Word("I(phi,th)"), LineEnd, Word("phi\\th")]
  }

  function DecTokens(m: Mesh): seq<Token>
    requires Printable(m)
  {
    Header(m.dims) + Nums(DecTheta(m)) + Lines(DecRows(m)) + [LineEnd]
  }

  type Format = FormattedRows.RowFormat

  /** The values in the given format, behind optional dimensions and limits. */
  function SerialTokens(m: Mesh, printDims: bool, printLimits: bool, fmt: Format): seq<Token> {
    (if printDims then DimTokens(m.dims) else []) + (if printLimits then LimitTokens(m.limits) else [])
    + FormattedRows.RowTokens(m.values, fmt)
  }

  function DimTokens(dims: Dims): seq<Token> {
    [Count(dims.theta), Count(dims.phi), LineEnd]
  }

  function LimitTokens(limits: Limits): seq<Token> {
    [Num(limits.thetaLow), Num(limits.thetaHigh), LineEnd, Num(limits.phiLow), Num(limits.phiHigh), LineEnd]
  }

  // ----- what is parsed

  function Built(dims: Dims, limits: Limits, values: seq<real>): Result<Mesh, MeshError>
    requires dims.theta != 1 && dims.phi != 1
  {
    if Degenerate(dims, limits) then Failure(ZeroLinspace) else Success(Constructed(dims, limits, values))
  }

  function ReadDims(s: Source): (Dims, Source) {
    var (theta, s1) := ReadCount(s);
    var (phi, s2) := ReadCount(s1);
    (Dims(theta, phi), s2)
  }

  lemma TableCell(dims: Dims, k: nat)
    requires k < dims.theta * dims.phi
    ensures dims.phi > 0
    ensures 0 <= Cell(dims, k) < dims.phi * (1 + dims.theta)
  {
    FlatSplit(k, dims.theta, dims.phi);
    FlatPosition(k % dims.phi, 1 + k / dims.phi, dims.phi, 1 + dims.theta);
  }

  /** Where the table holds what belongs at k: rows and columns swapped, a column of phi in front. */
  function Cell(dims: Dims, k: nat): nat
    requires dims.phi > 0
  {
    (k % dims.phi) * (1 + dims.theta) + (1 + k / dims.phi)
  }

  function Transposed(table: seq<real>, dims: Dims): (values: seq<real>)
    requires |table| == dims.phi * (1 + dims.theta)
    ensures |values| == dims.theta * dims.phi
  {
    seq(dims.theta * dims.phi, k requires 0 <= k < dims.theta * dims.phi => TableCell(dims, k); table[Cell(dims, k)])
  }

  /** The limits are what stands at the ends of the printed grid lines. */
  function TableLimits(thetas: seq<real>, table: seq<real>, dims: Dims): Limits
    requires |thetas| == dims.theta > 0 && |table| == dims.phi * (1 + dims.theta)
  {
    if dims.phi == 0 then Limits(thetas[0], thetas[dims.theta - 1], 0.0, 0.0)
    else
      FlatPosition(dims.phi - 1, 0, dims.phi, 1 + dims.theta);
      Limits(thetas[0], thetas[dims.theta - 1], table[0], table[(dims.phi - 1) * (1 + dims.theta)])
  }

  function ParsedDec(s: Source): (Result<Mesh, MeshError>, Source)
    requires Measurable(s, HumanReadable, None)
  {
    var (dims, s1) := ReadDims(s);
    if s1.failed then (Failure(IoError), s1)
    else
      var thetas := ReadReals(SkipWord(SkipLine(SkipLine(s1))), dims.theta);
      var table := ReadReals(thetas.1, dims.phi * (1 + dims.theta));
      (Built(dims, TableLimits(thetas.0, table.0, dims), Transposed(table.0, dims)), table.1)
  }

  function ParsedSerial(s: Source, dimOpt: Option<Dims>, limitOpt: Option<Limits>): (Result<Mesh, MeshError>, Source)
    requires Measurable(s, Serializable, dimOpt)
  {
    var (dims, s1) := if dimOpt.Some? then (dimOpt.value, s) else ReadDims(s);
    if dimOpt.None? && s1.failed then (Failure(IoError), s1)
    else
      var ends := ReadReals(s1, 4);
      var (limits, s2) :=
        if limitOpt.Some? then (limitOpt.value, s1)
        else (Limits(ends.0[0], ends.0[1], ends.0[2], ends.0[3]), ends.1);
      if s2.failed then (Failure(IoError), s2)
      else
        var values := ReadReals(s2, dims.theta * dims.phi);
        (Built(dims, limits, values.0), values.1)
  }

  /** No dimension is one, nor, in a table, is theta's below two. */
  predicate Measurable(s: Source, form: IoFormat, dimOpt: Option<Dims>) {
    var (dims, s1) := if form.Serializable? && dimOpt.Some? then (dimOpt.value, Source([], false)) else ReadDims(s);
    s1.failed || (dims.theta != 1 && dims.phi != 1 && (form.HumanReadable? ==> dims.theta != 0))
  }

  function Parsed(
      s: Source, form: IoFormat, dimOpt: Option<Dims>, limitOpt: Option<Limits>): (Result<Mesh, MeshError>, Source)
    requires Measurable(s, form, dimOpt)
  {
    if form.Serializable? then ParsedSerial(s, dimOpt, limitOpt) else ParsedDec(s)
  }

  // ----- the printer

  method PutHeader(out: TokenOutput, dims: Dims)
    modifies out
    ensures out.written == old(out.written) + Header(dims)
  {
    out.Put(Count(dims.theta));
    out.Put(Count(dims.phi));
    out.Put(LineEnd);
    out.Put(Word("Функция"));
    out.Put(Word("I(phi,th)"));
    out.Put(LineEnd);
    out.Put(Word("phi\\th"));
  }

  method PutRow(mesh: MeshCreator, i: nat, out: TokenOutput)
    requires Printable(mesh.State()) && i < mesh.dims.phi
    modifies out
    ensures out.written == old(out.written) + Nums(DecRow(mesh.State(), i)) + [LineEnd]
  {
    ghost var row := DecRow(mesh.State(), i);
    var height, width := mesh.dims.theta, mesh.dims.phi;
    out.Put(Num(mesh.phi[i]));
    for j := 0 to height - 1
      invariant out.written == old(out.written) + Nums(row[..1 + j])
    {
      DecRowEntry(mesh.State(), i, j);
      out.Put(Num(mesh.values[j * width + i]));
      assert Nums(row[..2 + j]) == Nums(row[..1 + j]) + [Num(row[1 + j])];
    }
    DecRowEntry(mesh.State(), i, height - 1);
    out.Put(Num(mesh.values[(height - 1) * width + i]));
    assert Nums(row) == Nums(row[..height]) + [Num(row[height])];
    out.Put(LineEnd);
  }

  method PutTheta(mesh: MeshCreator, out: TokenOutput)
    requires Printable(mesh.State())
    modifies out
    ensures out.written == old(out.written) + Nums(DecTheta(mesh.State())) + [LineEnd]
  {
    ghost var row := DecTheta(mesh.State());
    var height, width := mesh.dims.theta, mesh.dims.phi;
    for i := 0 to height - 1
      invariant out.written == old(out.written) + Nums(row[..i])
    {
      HeadWithin(i, height, width);
      out.Put(Num(mesh.theta[i * width]));
      assert Nums(row[..i + 1]) == Nums(row[..i]) + [Num(row[i])];
    }
    out.Put(Num(mesh.theta[(height - 1) * width]));
    assert Nums(row) == Nums(row[..height - 1]) + [Num(row[height - 1])];
    out.Put(LineEnd);
  }

  method PrintDec(mesh: MeshCreator, out: TokenOutput)
    requires Printable(mesh.State())
    modifies out
    ensures out.written == old(out.written) + DecTokens(mesh.State())
  {
    PutHeader(out, mesh.dims);
    PutTheta(mesh, out);
    PutRows(mesh, out, old(out.written) + Header(mesh.dims) + Nums(DecTheta(mesh.State())));
    Regroup(old(out.written), Header(mesh.dims), Nums(DecTheta(mesh.State())), Lines(DecRows(mesh.State())));
  }

  /** A row for every phi, the line end before the first being written already. */
  method PutRows(mesh: MeshCreator, out: TokenOutput, ghost head: seq<Token>)
    requires Printable(mesh.State()) && out.written == head + [LineEnd]
    modifies out
    ensures out.written == head + Lines(DecRows(mesh.State())) + [LineEnd]
  {
    ghost var rows := DecRows(mesh.State());
    assert Lines(rows[..0]) == [];
    for i := 0 to mesh.dims.phi
      invariant out.written == head + Lines(rows[..i]) + [LineEnd]
    {
      NextLine(head, rows, i);
      PutRow(mesh, i, out);
    }
    assert rows[..|rows|] == rows;
  }

  lemma Regroup(a: seq<Token>, b: seq<Token>, c: seq<Token>, d: seq<Token>)
    ensures a + b + c + d == a + (b + c + d)
  {
  }

  method PutDims(dims: Dims, wanted: bool, out: TokenOutput)
    modifies out
    ensures out.written == old(out.written) + if wanted then DimTokens(dims) else []
  {
    if wanted {
      out.Put(Count(dims.theta));
      out.Put(Count(dims.phi));
      out.Put(LineEnd);
    }
  }

  method PutLimits(limits: Limits, wanted: bool, out: TokenOutput)
    modifies out
    ensures out.written == old(out.written) + if wanted then LimitTokens(limits) else []
  {
    if !wanted {
      return;
    }
    out.Put(Num(limits.thetaLow));
    out.Put(Num(limits.thetaHigh));
    out.Put(LineEnd);
    out.Put(Num(limits.phiLow));
    out.Put(Num(limits.phiHigh));
    out.Put(LineEnd);
  }

  method PrintMesh(
      out: TokenOutput, mesh: MeshCreator, form: IoFormat, printDims: bool, printLimits: bool, fmt: Format)
    requires form.HumanReadable? ==> Printable(mesh.State())
    modifies out
    ensures out.written == old(out.written)
              + if form.HumanReadable? then DecTokens(mesh.State())
                else SerialTokens(mesh.State(), printDims, printLimits, fmt)
  {
    if form.HumanReadable? {
      PrintDec(mesh, out);
      return;
    }
    PutDims(mesh.dims, printDims, out);
    PutLimits(mesh.limits, printLimits, out);
    FormattedRows.PutRow(out, mesh.values, fmt);
    Regroup(old(out.written), if printDims then DimTokens(mesh.dims) else [],
            if printLimits then LimitTokens(mesh.limits) else [], FormattedRows.RowTokens(mesh.values, fmt));
  }

  // ----- the parser

  /** Everything of the table before row i, column j has reached its place. */
  ghost predicate Filled(m: seq<real>, read: seq<real>, dims: Dims, i: nat, j: nat) {
    && |m| == dims.theta * dims.phi
    && (dims.phi > 0 ==> forall k | 0 <= k < |m| :: Due(dims, k, i, j) ==> Placed(m, read, dims, k))
  }

  predicate Due(dims: Dims, k: nat, i: nat, j: nat)
    requires dims.phi > 0
  {
    k % dims.phi < i || (k % dims.phi == i && k / dims.phi < j)
  }

  predicate Placed(m: seq<real>, read: seq<real>, dims: Dims, k: nat)
    requires dims.phi > 0 && k < |m|
  {
    Cell(dims, k) < |read| && m[k] == read[Cell(dims, k)]
  }

  lemma FillCell(m: seq<real>, read: seq<real>, dims: Dims, i: nat, j: nat, x: real)
    requires Filled(m, read, dims, i, j) && i < dims.phi && j < dims.theta
    requires |read| == i * (1 + dims.theta) + (1 + j)
    ensures 0 <= j * dims.phi + i < |m|
    ensures Filled(m[j * dims.phi + i := x], read + [x], dims, i, j + 1)
  {
    var here := j * dims.phi + i;
    FlatPosition(j, i, dims.theta, dims.phi);
    var m' := m[here := x];
    forall k | 0 <= k < |m'| && Due(dims, k, i, j + 1) ensures Placed(m', read + [x], dims, k) {
      if k == here {
        assert Cell(dims, k) == |read|;
      } else {
        DivMod(k, dims.phi);
        assert Due(dims, k, i, j);
        assert Placed(m, read, dims, k);
      }
    }
  }

  lemma RowFilled(m: seq<real>, read: seq<real>, dims: Dims, i: nat)
    requires Filled(m, read, dims, i, dims.theta)
    ensures Filled(m, read, dims, i + 1, 0)
  {
    forall k | dims.phi > 0 && 0 <= k < |m| && Due(dims, k, i + 1, 0) ensures Placed(m, read, dims, k) {
      DueBefore(dims, k, i);
    }
  }

  lemma DueBefore(dims: Dims, k: nat, i: nat)
    requires k < dims.theta * dims.phi && dims.phi > 0 && Due(dims, k, i + 1, 0)
    ensures Due(dims, k, i, dims.theta)
  {
    FlatSplit(k, dims.theta, dims.phi);
  }

  lemma HeadRead(m: seq<real>, read: seq<real>, dims: Dims, i: nat, x: real)
    requires Filled(m, read, dims, i, 0)
    ensures Filled(m, read + [x], dims, i, 0)
  {
    forall k | dims.phi > 0 && 0 <= k < |m| && Due(dims, k, i, 0) ensures Placed(m, read + [x], dims, k) {
      assert Placed(m, read, dims, k);
    }
  }

  lemma AllFilled(m: seq<real>, table: seq<real>, dims: Dims)
    requires |table| == dims.phi * (1 + dims.theta)
    requires Filled(m, table, dims, dims.phi, 0)
    ensures m == Transposed(table, dims)
  {
    forall k | 0 <= k < |m| ensures m[k] == Transposed(table, dims)[k] {
      FlatSplit(k, dims.theta, dims.phi);
      assert Due(dims, k, dims.phi, 0);
      assert Placed(m, table, dims, k);
    }
  }

  /** One row: its phi, and its values, each into the column of the array that is its row. */
  method ParseRow(input: TokenInput, m: array<real>, dims: Dims, i: nat, ghost start: Source, ghost read: seq<real>)
      returns (head: real, ghost read': seq<real>)
    requires i < dims.phi && |read| == i * (1 + dims.theta)
    requires ReadReals(start, |read|) == (read, input.State())
    requires Filled(m[..], read, dims, i, 0)
    modifies input, m
    ensures |read'| == (i + 1) * (1 + dims.theta) && read <= read' && read'[|read|] == head
    ensures ReadReals(start, |read'|) == (read', input.State())
    ensures Filled(m[..], read', dims, i + 1, 0)
  {
    ghost var now := input.State();
    head := input.GetReal();
    ReadAlong(start, read, now, |read|, head, input.State());
    HeadRead(m[..], read, dims, i, head);
    read' := read + [head];
    for j := 0 to dims.theta
      invariant |read'| == |read| + 1 + j && read + [head] <= read'
      invariant ReadReals(start, |read'|) == (read', input.State())
      invariant Filled(m[..], read', dims, i, j)
    {
      now := input.State();
      var value := input.GetReal();
      ReadAlong(start, read', now, |read'|, value, input.State());
      FillCell(m[..], read', dims, i, j, value);
      ghost var before := m[..];
      m[j * dims.phi + i] := value;
      assert m[..] == before[j * dims.phi + i := value];
      read' := read' + [value];
    }
    RowFilled(m[..], read', dims, i);
    RowsFit(i, dims.phi, 1 + dims.theta);
  }

  /** All rows; the first and the last phi are kept as limits. */
  method ParseTable(input: TokenInput, dims: Dims) returns (values: seq<real>, low: real, high: real)
    modifies input
    ensures var table := ReadReals(old(input.State()), dims.phi * (1 + dims.theta));
            && values == Transposed(table.0, dims) && input.State() == table.1
            && (dims.phi == 0 ==> low == high == 0.0)
            && (dims.phi > 0 ==>
                  && 0 <= (dims.phi - 1) * (1 + dims.theta) < |table.0|
                  && low == table.0[0] && high == table.0[(dims.phi - 1) * (1 + dims.theta)])
  {
    var m := new real[dims.theta * dims.phi];
    low, high := 0.0, 0.0;
    ghost var start, read := input.State(), [];
    for i := 0 to dims.phi
      invariant |read| == i * (1 + dims.theta) && ReadReals(start, |read|) == (read, input.State())
      invariant Filled(m[..], read, dims, i, 0)
      invariant i == 0 ==> low == 0.0
      invariant i > 0 ==> |read| > 0 && low == read[0]
      invariant i < dims.phi || i == 0 ==> high == 0.0
      invariant i == dims.phi > 0 ==>
                  0 <= (i - 1) * (1 + dims.theta) < |read| && high == read[(i - 1) * (1 + dims.theta)]
    {
      var head;
      ghost var read';
      head, read' := ParseRow(input, m, dims, i, start, read);
      RowsFit(i, dims.phi, 1 + dims.theta);
      if i == 0 {
        low := head;
      }
      if i == dims.phi - 1 {
        high := head;
      }
      read := read';
    }
    assert ReadReals(start, dims.phi * (1 + dims.theta)) == (read, input.State());
    AllFilled(m[..], read, dims);
    values := m[..];
  }

  /** The row of thetas, of which the first and the last are kept. */
  method ParseTheta(input: TokenInput, n: nat) returns (low: real, high: real)
    requires n >= 2
    modifies input
    ensures var row := ReadReals(old(input.State()), n);
            low == row.0[0] && high == row.0[n - 1] && input.State() == row.1
  {
    ghost var start := input.State();
    low := input.GetReal();
    ReadAlong(start, [], start, 0, low, input.State());
    for i := 0 to n - 2
      invariant ReadReals(start, i + 1).1 == input.State() && ReadReals(start, i + 1).0[0] == low
    {
      var _ := input.GetReal();
      ReadRealsPrefix(start, 1, i + 2);
      assert ReadReals(start, i + 2).0[..1][0] == ReadReals(start, 1).0[0];
    }
    high := input.GetReal();
    ReadRealsPrefix(start, 1, n);
    assert ReadReals(start, n).0[..1][0] == low;
  }

  method ParseDims(input: TokenInput) returns (dims: Dims)
    modifies input
    ensures (dims, input.State()) == ReadDims(old(input.State()))
  {
    var theta := input.GetCount();
    var phi := input.GetCount();
    dims := Dims(theta, phi);
  }

  method ParseLimits(input: TokenInput) returns (limits: Limits)
    modifies input
    ensures var ends := ReadReals(old(input.State()), 4);
            limits == Limits(ends.0[0], ends.0[1], ends.0[2], ends.0[3]) && input.State() == ends.1
  {
    var a := input.GetReal();
    ghost var s1 := input.State();
    var b := input.GetReal();
    ghost var s2 := input.State();
    var c := input.GetReal();
    ghost var s3 := input.State();
    var d := input.GetReal();
    ReadAlong(old(input.State()), [], old(input.State()), 0, a, s1);
    ReadAlong(old(input.State()), [a], s1, 1, b, s2);
    assert [a] + [b] == [a, b];
    ReadAlong(old(input.State()), [a, b], s2, 2, c, s3);
    assert [a, b] + [c] == [a, b, c];
    ReadAlong(old(input.State()), [a, b, c], s3, 3, d, input.State());
    limits := Limits(a, b, c, d);
  }

  method ParseValues(input: TokenInput, n: nat) returns (values: seq<real>)
    modifies input
    ensures (values, input.State()) == ReadReals(old(input.State()), n)
  {
    values := [];
    for i := 0 to n
      invariant (values, input.State()) == ReadReals(old(input.State()), i)
    {
      var v := input.GetReal();
      values := values + [v];
    }
  }

  datatype Fields = Fields(dims: Dims, limits: Limits, values: seq<real>)

  function BuiltFrom(r: Result<Fields, MeshError>): Result<Mesh, MeshError>
    requires r.Success? ==> r.value.dims.theta != 1 && r.value.dims.phi != 1
  {
    if r.Failure? then Failure(r.error) else Built(r.value.dims, r.value.limits, r.value.values)
  }

  method ParseSerial(input: TokenInput, dimOpt: Option<Dims>, limitOpt: Option<Limits>)
      returns (r: Result<Fields, MeshError>)
    requires Measurable(input.State(), Serializable, dimOpt)
    modifies input
    ensures r.Success? ==> r.value.dims.theta != 1 && r.value.dims.phi != 1
    ensures ParsedSerial(old(input.State()), dimOpt, limitOpt) == (BuiltFrom(r), input.State())
  {
    var dims, limits;
    if dimOpt.Some? {
      dims := dimOpt.value;
    } else {
      dims := ParseDims(input);
      if input.failed {
        return Failure(IoError);
      }
    }
    if limitOpt.Some? {
      limits := limitOpt.value;
    } else {
      limits := ParseLimits(input);
    }
    if input.failed {
      return Failure(IoError);
    }
    var values := ParseValues(input, dims.theta * dims.phi);
    return Success(Fields(dims, limits, values));
  }

  method ParseDec(input: TokenInput) returns (r: Result<Fields, MeshError>)
    requires Measurable(input.State(), HumanReadable, None)
    modifies input
    ensures r.Success? ==> r.value.dims.theta != 1 && r.value.dims.phi != 1
    ensures ParsedDec(old(input.State())) == (BuiltFrom(r), input.State())
  {
    var dims := ParseDims(input);
    if input.failed {
      return Failure(IoError);
    }
    input.GetLine();
    input.GetLine();
    input.GetWord();
    var thetaLow, thetaHigh := ParseTheta(input, dims.theta);
    var values, phiLow, phiHigh := ParseTable(input, dims);
    return Success(Fields(dims, Limits(thetaLow, thetaHigh, phiLow, phiHigh), values));
  }

  /** The format is taken and not looked at: the values are always read as the default one has them. */
  method ParseMeshFrom(input: TokenInput, form: IoFormat, dimOpt: Option<Dims>, limitOpt: Option<Limits>, fmt: Format)
      returns (r: Result<MeshCreator, MeshError>)
    requires Measurable(input.State(), form, dimOpt)
    modifies input
    ensures var parsed := Parsed(old(input.State()), form, dimOpt, limitOpt);
            && input.State() == parsed.1
            && (r.Failure? ==> parsed.0 == Failure(r.error))
            && (r.Success? ==> fresh(r.value) && parsed.0 == Success(r.value.State()))
  {
    var mesh := new MeshCreator(true);
    var fields;
    match form {
      case Serializable => fields := ParseSerial(input, dimOpt, limitOpt);
      case HumanReadable => fields := ParseDec(input);
    }
    if fields.Failure? {
      return Failure(fields.error);
    }
    mesh.values := fields.value.values;
    var error := mesh.ConstructMeshes(fields.value.dims, fields.value.limits);
    if error.Some? {
      return Failure(error.value);
    }
    return Success(mesh);
  }

  // ----- round trips

  /** What a table still tells about the limits. */
  function GridLimits(m: Mesh): Limits
    requires Printable(m) && m.dims.phi > 0
  {
    HeadWithin(m.dims.theta - 1, m.dims.theta, m.dims.phi);
    Limits(m.theta[0], m.theta[(m.dims.theta - 1) * m.dims.phi], m.phi[0], m.phi[m.dims.phi - 1])
  }

  lemma {:induction false} EntryBack(m: Mesh, k: nat)
    requires Printable(m) && k < m.dims.theta * m.dims.phi
    ensures m.dims.phi > 0 && Cell(m.dims, k) < |Flat(DecRows(m))|
    ensures Flat(DecRows(m))[Cell(m.dims, k)] == m.values[k]
  {
    FlatSplit(k, m.dims.theta, m.dims.phi);
    var j, i := k / m.dims.phi, k % m.dims.phi;
    DecRowEntry(m, i, j);
    assert DecRows(m)[i] == DecRow(m, i);
    FlatAt(DecRows(m), 1 + m.dims.theta, i, 1 + j, Cell(m.dims, k));
  }

  lemma FlatAt(rows: seq<seq<real>>, width: nat, i: nat, k: nat, at: int)
    requires AllOfWidth(rows, width) && i < |rows| && k < width && at == i * width + k
    ensures 0 <= at < |Flat(rows)| && Flat(rows)[at] == rows[i][k]
  {
    FlatEntry(rows, width, i, k);
  }

  lemma TransposedBack(m: Mesh)
    requires Printable(m)
    ensures var table := Flat(DecRows(m));
            && |table| == m.dims.phi * (1 + m.dims.theta)
            && Transposed(table, m.dims) == m.values[..m.dims.theta * m.dims.phi]
  {
    FlatLength(DecRows(m), 1 + m.dims.theta);
    var table, size := Flat(DecRows(m)), m.dims.theta * m.dims.phi;
    forall k | 0 <= k < size ensures Transposed(table, m.dims)[k] == m.values[k] {
      EntryBack(m, k);
    }
    assert Transposed(table, m.dims) == m.values[..size];
  }

  lemma LimitsBack(m: Mesh)
    requires Printable(m) && m.dims.phi > 0
    ensures var table := Flat(DecRows(m));
            && |table| == m.dims.phi * (1 + m.dims.theta)
            && TableLimits(DecTheta(m), table, m.dims) == GridLimits(m)
  {
    var rows := DecRows(m);
    FlatLength(rows, 1 + m.dims.theta);
    FlatEntry(rows, 1 + m.dims.theta, 0, 0);
    FlatEntry(rows, 1 + m.dims.theta, m.dims.phi - 1, 0);
    assert Flat(rows)[0] == rows[0][0] == m.phi[0];
    HeadWithin(m.dims.theta - 1, m.dims.theta, m.dims.phi);
  }

  lemma HeaderBack(s: Source, dims: Dims, rest: seq<Token>)
    requires !s.failed && SkipLineEnds(s.rest) == Header(dims) + rest
    ensures var (d, s1) := ReadDims(s);
            d == dims && !s1.failed && SkipWord(SkipLine(SkipLine(s1))) == Source(rest, false)
  {
    var all := Header(dims) + rest;
    var (d, s1) := ReadDims(s);
    assert SkipLineEnds(all[1..]) == all[1..];
    assert s1 == Source(all[2..], false);
    assert AfterLine(all[2..]) == all[3..];
    assert AfterLine(all[3..]) == AfterLine(all[3..][1..]) && AfterLine(all[4..]) == AfterLine(all[4..][1..]);
    assert all[3..][1..] == all[4..] && all[4..][1..] == all[5..] && all[5..][1..] == all[6..];
    assert AfterLine(all[5..]) == all[6..];
    assert SkipLineEnds(all[6..]) == all[6..];
    assert all[6..][1..] == rest;
  }

  lemma RegroupTable(a: seq<Token>, b: seq<Token>, c: seq<Token>, d: seq<Token>, e: seq<Token>)
    ensures a + b + c + d + e == a + (b + (c + (d + e)))
  {
  }

  /** Whatever mesh is printed, parsing rebuilds it from its values and the ends of its grid. */
  lemma {:induction false} TableReadBack(m: Mesh, s: Source, tail: seq<Token>)
    requires Printable(m) && m.dims.theta >= 2 && m.dims.phi >= 2
    requires !s.failed && SkipLineEnds(s.rest) == DecTokens(m) + tail
    ensures Measurable(s, HumanReadable, None)
    ensures ParsedDec(s)
            == (Built(m.dims, GridLimits(m), m.values[..m.dims.theta * m.dims.phi]), Source([LineEnd] + tail, false))
  {
    var thetas, rows := DecTheta(m), DecRows(m);
    var body := Lines(rows) + ([LineEnd] + tail);
    RegroupTable(Header(m.dims), Nums(thetas), Lines(rows), [LineEnd], tail);
    HeaderBack(s, m.dims, Nums(thetas) + body);
    ReadRow(thetas, body);
    ReadLines(rows, 1 + m.dims.theta, [LineEnd] + tail);
    TransposedBack(m);
    LimitsBack(m);
  }

  /** The grids are the ones its dimensions and limits call for. */
  predicate Regular(m: Mesh) {
    && m.dims.theta >= 2 && m.dims.phi >= 2 && !Degenerate(m.dims, m.limits)
    && |m.values| == m.dims.theta * m.dims.phi
    && m == Constructed(m.dims, m.limits, m.values)
  }

  lemma GridEnds(dims: Dims, limits: Limits, values: seq<real>)
    requires dims.theta >= 2 && dims.phi >= 2 && |values| >= dims.theta * dims.phi
    ensures var m := Constructed(dims, limits, values); Printable(m) && GridLimits(m) == limits
  {
    var m := Constructed(dims, limits, values);
    var height, width := dims.theta, dims.phi;
    FlatPosition(0, width - 1, height, width);
    FlatPosition(height - 1, 0, height, width);
    RowsFit(0, height, width);
    ConstructedAt(dims, limits, values, 0);
    ConstructedAt(dims, limits, values, width - 1);
    ConstructedAt(dims, limits, values, (height - 1) * width);
    PointEnds(limits.thetaLow, limits.thetaHigh, height);
    PointEnds(limits.phiLow, limits.phiHigh, width);
  }

  /** The table restores a mesh completely exactly when its arrays are regular. */
  lemma {:induction false} TableRoundTripIff(m: Mesh, s: Source, tail: seq<Token>)
    requires Printable(m) && m.dims.theta >= 2 && m.dims.phi >= 2
    requires !s.failed && SkipLineEnds(s.rest) == DecTokens(m) + tail
    ensures Measurable(s, HumanReadable, None)
    ensures ParsedDec(s).0 == Success(m) <==> Regular(m)
    ensures ParsedDec(s).1 == Source([LineEnd] + tail, false)
  {
    TableReadBack(m, s, tail);
    if Regular(m) {
      GridEnds(m.dims, m.limits, m.values);
      assert m.values[..m.dims.theta * m.dims.phi] == m.values;
    }
  }

  /** A default object cannot come back: its grids are zero until they are constructed. */
  lemma DefaultMeshRefused(s: Source)
    requires !s.failed && SkipLineEnds(s.rest) == DecTokens(DefaultMesh(true))
    ensures Measurable(s, HumanReadable, None)
    ensures ParsedDec(s).0 == Failure(ZeroLinspace)
  {
    var m := DefaultMesh(true);
    assert DecTokens(m) + [] == DecTokens(m);
    TableReadBack(m, s, []);
  }

  ghost predicate Printables(meshes: seq<Mesh>) {
    forall i | 0 <= i < |meshes| :: Printable(meshes[i]) && meshes[i].dims.theta >= 2 && meshes[i].dims.phi >= 2
  }

  function PrintedAll(meshes: seq<Mesh>): seq<Token>
    requires Printables(meshes)
  {
    if |meshes| == 0 then [] else DecTokens(meshes[0]) + PrintedAll(meshes[1..])
  }

  /** Parsing mesh after mesh gives exactly these, and then the tail is reached. */
  ghost predicate ReadsBack(s: Source, meshes: seq<Mesh>, tail: seq<Token>)
    decreases |meshes|
  {
    if |meshes| == 0 then !s.failed && OnLine(s.rest, tail)
    else
      && Measurable(s, HumanReadable, None)
      && ParsedDec(s).0 == Success(meshes[0])
      && ReadsBack(ParsedDec(s).1, meshes[1..], tail)
  }

  ghost predicate AllRegular(meshes: seq<Mesh>) {
    forall i | 0 <= i < |meshes| :: Regular(meshes[i])
  }

  lemma FirstAndOthers(meshes: seq<Mesh>)
    requires |meshes| > 0
    ensures AllRegular(meshes) <==> Regular(meshes[0]) && AllRegular(meshes[1..])
  {
    if Regular(meshes[0]) && AllRegular(meshes[1..]) {
      forall i | 0 <= i < |meshes| ensures Regular(meshes[i]) {
        assert i > 0 ==> meshes[i] == meshes[1..][i - 1];
      }
    }
  }

  lemma TableAhead(m: Mesh, rest: seq<Token>, tail: seq<Token>)
    requires Printable(m) && OnLine(rest, DecTokens(m) + tail)
    ensures SkipLineEnds(rest) == DecTokens(m) + tail
  {
    var tokens := DecTokens(m) + tail;
    assert tokens[0] == Count(m.dims.theta);
    if rest != tokens {
      assert rest[1..] == tokens;
    }
  }

  /** Meshes printed back to back, whatever follows, are all restored exactly when all are regular. */
  lemma {:induction false} MeshListRoundTripIff(meshes: seq<Mesh>, s: Source, tail: seq<Token>)
    requires Printables(meshes) && !s.failed && OnLine(s.rest, PrintedAll(meshes) + tail)
    ensures ReadsBack(s, meshes, tail) <==> AllRegular(meshes)
    decreases |meshes|
  {
    if |meshes| == 0 {
      assert PrintedAll(meshes) + tail == tail;
    } else {
      var others := PrintedAll(meshes[1..]) + tail;
      assert PrintedAll(meshes) + tail == DecTokens(meshes[0]) + others;
      TableAhead(meshes[0], s.rest, others);
      TableRoundTripIff(meshes[0], s, others);
      MeshListRoundTripIff(meshes[1..], ParsedDec(s).1, tail);
      FirstAndOthers(meshes);
    }
  }

  // ----- the plain format

  lemma LimitsReadBack(rest: seq<Token>, limits: Limits, tail: seq<Token>)
    requires OnLine(rest, LimitTokens(limits) + tail)
    ensures ReadReals(Source(rest, false), 4)
            == ([limits.thetaLow, limits.thetaHigh, limits.phiLow, limits.phiHigh], Source([LineEnd] + tail, false))
  {
    var theta, phi := [limits.thetaLow, limits.thetaHigh], [limits.phiLow, limits.phiHigh];
    var behind := Nums(phi) + ([LineEnd] + tail);
    assert LimitTokens(limits) + tail == Nums(theta) + ([LineEnd] + behind);
    ReadOnLine(rest, theta, [LineEnd] + behind);
    ReadOnLine([LineEnd] + behind, phi, [LineEnd] + tail);
    ReadRealsSplit(Source(rest, false), 2, 2);
    assert theta + phi == [limits.thetaLow, limits.thetaHigh, limits.phiLow, limits.phiHigh];
  }

  lemma DimsReadBack(dims: Dims, tail: seq<Token>)
    ensures ReadDims(Source(DimTokens(dims) + tail, false)) == (dims, Source([LineEnd] + tail, false))
  {
    var all := DimTokens(dims) + tail;
    assert all[1..] == [Count(dims.phi), LineEnd] + tail && all[1..][1..] == [LineEnd] + tail;
  }

  lemma {:induction false} ValuesReadBack(m: Mesh, rest: seq<Token>, printLimits: bool, fmt: Format, tail: seq<Token>)
    requires |m.values| > 0
    requires OnLine(rest, (if printLimits then LimitTokens(m.limits) else [])
                          + (FormattedRows.RowTokens(m.values, fmt) + tail))
    ensures var s := Source(rest, false);
            var ends := ReadReals(s, 4);
            var l := m.limits;
            var s2 := if printLimits then ends.1 else s;
            && (printLimits ==> ends.0 == [l.thetaLow, l.thetaHigh, l.phiLow, l.phiHigh])
            && !s2.failed && ReadReals(s2, |m.values|).0 == FormattedRows.Kept(m.values, fmt)
            && (Passes(fmt) ==> ReadReals(s2, |m.values|).1 == Source(FormattedRows.After(fmt) + tail, false))
  {
    var values := FormattedRows.RowTokens(m.values, fmt) + tail;
    if printLimits {
      LimitsReadBack(rest, m.limits, values);
      FormattedRows.RowReadBack([LineEnd] + values, m.values, fmt, tail);
    } else {
      assert [] + values == values;
      FormattedRows.RowReadBack(rest, m.values, fmt, tail);
    }
  }

  /** All delimiters in front of a value are white space. */
  predicate Passes(fmt: Format) {
    FormattedRows.StartPasses(fmt) && FormattedRows.SeparatorPasses(fmt)
  }

  /** Any format, any choice of what is printed and what the parser is told instead. */
  lemma {:induction false} SerialReadBack(m: Mesh, printDims: bool, printLimits: bool, fmt: Format, tail: seq<Token>)
    requires m.dims.theta >= 2 && m.dims.phi >= 2 && |m.values| == m.dims.theta * m.dims.phi
    ensures var s := Source(SerialTokens(m, printDims, printLimits, fmt) + tail, false);
            var dimOpt := if printDims then None else Some(m.dims);
            var limitOpt := if printLimits then None else Some(m.limits);
            && Measurable(s, Serializable, dimOpt)
            && ParsedSerial(s, dimOpt, limitOpt).0 == Built(m.dims, m.limits, FormattedRows.Kept(m.values, fmt))
            && (Passes(fmt) ==> ParsedSerial(s, dimOpt, limitOpt).1 == Source(FormattedRows.After(fmt) + tail, false))
  {
    var s := Source(SerialTokens(m, printDims, printLimits, fmt) + tail, false);
    var dims := if printDims then DimTokens(m.dims) else [];
    var row := FormattedRows.RowTokens(m.values, fmt);
    var behind := (if printLimits then LimitTokens(m.limits) else []) + (row + tail);
    RegroupSerial(dims, if printLimits then LimitTokens(m.limits) else [], row, tail);
    FlatPosition(0, 0, m.dims.theta, m.dims.phi);
    if printDims {
      DimsReadBack(m.dims, behind);
      ValuesReadBack(m, [LineEnd] + behind, printLimits, fmt, tail);
    } else {
      assert [] + behind == behind;
      ValuesReadBack(m, behind, printLimits, fmt, tail);
    }
  }

  lemma RegroupSerial(a: seq<Token>, b: seq<Token>, c: seq<Token>, d: seq<Token>)
    ensures a + b + c + d == a + (b + (c + d))
  {
  }

  /**
   Limits are carried as they are here, and still only a regular mesh comes back. The format has
   to be one of white space, unless what its delimiters cut off is zero anyway.
   */
  lemma SerialRoundTripIff(m: Mesh, printDims: bool, printLimits: bool, fmt: Format, tail: seq<Token>)
    requires m.dims.theta >= 2 && m.dims.phi >= 2 && |m.values| == m.dims.theta * m.dims.phi
    ensures var s := Source(SerialTokens(m, printDims, printLimits, fmt) + tail, false);
            var dimOpt := if printDims then None else Some(m.dims);
            var limitOpt := if printLimits then None else Some(m.limits);
            && Measurable(s, Serializable, dimOpt) && |m.values| > 0
            && (ParsedSerial(s, dimOpt, limitOpt).0 == Success(m) <==>
                  && Regular(m)
                  && (FormattedRows.StartPasses(fmt) || m.values == Linear.Zeros(|m.values|))
                  && (FormattedRows.SeparatorPasses(fmt) || m.values[1..] == Linear.Zeros(|m.values| - 1)))
  {
    FlatPosition(0, 0, m.dims.theta, m.dims.phi);
    SerialReadBack(m, printDims, printLimits, fmt, tail);
    FormattedRows.KeptIff(m.values, fmt);
  }

  /** What a format has to be for every regular mesh to come back. */
  lemma FormatRestoresIff(dims: Dims, limits: Limits, fmt: Format)
    requires dims.theta >= 2 && dims.phi >= 2 && !Degenerate(dims, limits)
    ensures (forall values: seq<real> | |values| == dims.theta * dims.phi :: Restores(dims, limits, values, fmt))
            <==> Passes(fmt)
  {
    var n := dims.theta * dims.phi;
    FlatPosition(0, 1, dims.theta, dims.phi);
    forall values: seq<real> | |values| == n
      ensures Restores(dims, limits, values, fmt) <==> FormattedRows.Kept(values, fmt) == values
    {
      SerialReadBack(Constructed(dims, limits, values), true, true, fmt, []);
    }
    FormattedRows.FormatKeepsIff(n, fmt);
  }

  /** The mesh with these values, printed with everything in the format, is what is parsed. */
  ghost predicate Restores(dims: Dims, limits: Limits, values: seq<real>, fmt: Format)
    requires dims.theta >= 2 && dims.phi >= 2
  {
    var m := Constructed(dims, limits, values);
    var s := Source(SerialTokens(m, true, true, fmt) + [], false);
    Measurable(s, Serializable, None) && ParsedSerial(s, None, None).0 == Success(m)
  }

  /** Printed in brackets with commas and parsed with that very format, a mesh comes back as zeros. */
  lemma BracketedMeshLost(m: Mesh, tail: seq<Token>)
    requires Regular(m)
    ensures FormattedRows.KeepsNumbersApart(Formats.BRACKET_FORMAT)
    ensures var s := Source(SerialTokens(m, true, true, Formats.BRACKET_FORMAT) + tail, false);
            && Measurable(s, Serializable, None)
            && ParsedSerial(s, None, None).0 == Success(m.(values := Linear.Zeros(|m.values|)))
  {
    assert !FormattedRows.Streams.IsSpace("["[0]);
    SerialReadBack(m, true, true, Formats.BRACKET_FORMAT, tail);
  }
}

/** Solutions and coordinates as tables for people, and reading them back. */
module Solutions {
  import opened Outcomes
  import opened Quotients
  import opened Tables

  // ----- what is printed

  /** Row r pairs component r with the one half a vector behind, and their modulus. */
  function SolutionRow(sol: seq<real>, r: nat, root: real -> real): (row: seq<real>)
    requires r < 2 * (|sol| / 4)
    ensures |row| == 3
  {
    var n := |sol| / 4;
    var a, b := sol[r], sol[r + 2 * n];
    [a, b, Modulus(a, b, root)]
  }

  function Modulus(a: real, b: real, root: real -> real): real {
    root(a * a + b * b)
  }

  function SolutionRows(sol: seq<real>, root: real -> real): (rows: seq<seq<real>>)
    ensures |rows| == 2 * (|sol| / 4) && AllOfWidth(rows, 3)
    ensures forall r | 0 <= r < |rows| :: rows[r] == SolutionRow(sol, r, root)
  {
    seq(2 * (|sol| / 4), r requires 0 <= r < 2 * (|sol| / 4) => SolutionRow(sol, r, root))
  }

  function SolutionHeader(n: nat): seq<Token> {
    [Count(n), LineEnd] + TITLE + [LineEnd] + COLUMN_NAMES
  }

  const TITLE: seq<Token> := [Word("Решение"), Word("системы"), Word("диполей")]
  const COLUMN_NAMES: seq<Token> := [Word("Ai(x\\ny)"), Word("Bi(x\\ny)"), Word("Ci(x\\ny)")]

  function SolutionTokens(sol: seq<real>, root: real -> real): seq<Token> {
    SolutionHeader(|sol| / 4) + Lines(SolutionRows(sol, root)) + [LineEnd]
  }

  function CoordinateRows(col: seq<real>): (rows: seq<seq<real>>)
    ensures |rows| == |col| / 2 && AllOfWidth(rows, 2)
    ensures forall i | 0 <= i < |rows| :: rows[i] == [col[i], col[i + |col| / 2]]
  {
    seq(|col| / 2, i requires 0 <= i < |col| / 2 => [col[i], col[i + |col| / 2]])
  }

  function CoordinateHeader(n: nat): seq<Token> {
    [Word("Координаты"), Word("диполей"), LineEnd, Count(n)]
  }

  function CoordinateTokens(col: seq<real>): seq<Token> {
    CoordinateHeader(|col| / 2) + Lines(CoordinateRows(col)) + [LineEnd]
  }

  // ----- what is parsed

  /** Two columns of a table put one behind the other, further columns left out. */
  function Columns(table: seq<real>, width: nat, height: nat): (v: seq<real>)
    requires width >= 2 && |table| == height * width
    ensures |v| == 2 * height
  {
    seq(2 * height, k requires 0 <= k < 2 * height =>
      RowsFit(k % height, height, width);
      if k < height then table[k * width] else table[(k - height) * width + 1])
  }

  function ParsedSolution(s: Source): (Option<seq<real>>, Source) {
    var (n, s1) := ReadCount(s);
    var s2 := SkipLine(SkipLine(SkipLine(s1)));
    if s2.failed then (None, s2)
    else
      var table := ReadReals(s2, 2 * n * 3);
      (Some(Columns(table.0, 3, 2 * n)), table.1)
  }

  function ParsedCoordinates(s: Source): (Option<seq<real>>, Source) {
    var (n, s1) := ReadCount(SkipLine(s));
    if s1.failed then (None, s1)
    else
      var table := ReadReals(s1, n * 2);
      (Some(Columns(table.0, 2, n)), table.1)
  }

  // ----- the printers

  method PutWords(out: TokenOutput, tokens: seq<Token>)
    modifies out
    ensures out.written == old(out.written) + tokens
  {
    for i := 0 to |tokens|
      invariant out.written == old(out.written) + tokens[..i]
    {
      out.Put(tokens[i]);
    }
  }

  method PutRow(out: TokenOutput, row: seq<real>)
    modifies out
    ensures out.written == old(out.written) + Nums(row) + [LineEnd]
  {
    out.PutNums(row);
    out.Put(LineEnd);
  }

  method PutNext(out: TokenOutput, row: seq<real>, ghost head: seq<Token>, ghost rows: seq<seq<real>>, ghost i: nat)
    requires i < |rows| && row == rows[i]
    requires out.written == head + Lines(rows[..i]) + [LineEnd]
    modifies out
    ensures out.written == head + Lines(rows[..i + 1]) + [LineEnd]
  {
    NextLine(head, rows, i);
    PutRow(out, row);
  }

  /** The two rows of dipole i, with the third column derived. */
  method PutDipole(out: TokenOutput, sol: seq<real>, i: nat, root: real -> real, ghost head: seq<Token>)
    requires 2 * i + 1 < |SolutionRows(sol, root)|
    requires out.written == head + Lines(SolutionRows(sol, root)[..2 * i]) + [LineEnd]
    modifies out
    ensures out.written == head + Lines(SolutionRows(sol, root)[..2 * i + 2]) + [LineEnd]
  {
    var n := |sol| / 4;
    ghost var rows := SolutionRows(sol, root);
    var r, half := 2 * i, 2 * n;
    assert rows[r] == SolutionRow(sol, r, root) && rows[r + 1] == SolutionRow(sol, r + 1, root);
    var xc := Modulus(sol[r], sol[r + half], root);
    var yc := Modulus(sol[r + 1], sol[r + 1 + half], root);
    PutNext(out, [sol[r], sol[r + half], xc], head, rows, r);
    PutNext(out, [sol[r + 1], sol[r + 1 + half], yc], head, rows, r + 1);
  }

  /** All rows, the line end before the first being written already. */
  method PutSolutionRows(out: TokenOutput, sol: seq<real>, root: real -> real, ghost head: seq<Token>)
    requires out.written == head + [LineEnd]
    modifies out
    ensures out.written == head + Lines(SolutionRows(sol, root)) + [LineEnd]
  {
    ghost var rows := SolutionRows(sol, root);
    assert Lines(rows[..0]) == [];
    for i := 0 to |sol| / 4
      invariant out.written == head + Lines(rows[..2 * i]) + [LineEnd]
    {
      PutDipole(out, sol, i, root, head);
    }
    assert rows[..|rows|] == rows;
  }

  method PrintSolutionFormat1(out: TokenOutput, sol: seq<real>, root: real -> real)
    modifies out
    ensures out.written == old(out.written) + SolutionTokens(sol, root)
  {
    var n := |sol| / 4;
    ghost var head := old(out.written) + SolutionHeader(n);
    PutWords(out, SolutionHeader(n));
    out.Put(LineEnd);
    PutSolutionRows(out, sol, root, head);
    Regroup(old(out.written), SolutionHeader(n), Lines(SolutionRows(sol, root)), [LineEnd]);
  }

  lemma Regroup(a: seq<Token>, b: seq<Token>, c: seq<Token>, d: seq<Token>)
    ensures a + b + c + d == a + (b + c + d) == a + (b + (c + d))
  {
  }

  method PrintCoordinates2(out: TokenOutput, col: seq<real>)
    modifies out
    ensures out.written == old(out.written) + CoordinateTokens(col)
  {
    var n := |col| / 2;
    ghost var rows := CoordinateRows(col);
    PutWords(out, CoordinateHeader(n) + [LineEnd]);
    ghost var head := old(out.written) + CoordinateHeader(n);
    assert Lines(rows[..0]) == [];
    for i := 0 to n
      invariant out.written == head + Lines(rows[..i]) + [LineEnd]
    {
      PutNext(out, [col[i], col[i + n]], head, rows, i);
    }
    assert rows[..n] == rows;
  }

  // ----- the parsers

  /** The first rows of the table have reached their two places each. */
  ghost predicate Stored(v: seq<real>, read: seq<real>, width: nat, height: nat, done: nat) {
    && |v| == 2 * height && done <= height && |read| == done * width
    && forall k | 0 <= k < done :: RowStored(v, read, width, height, k)
  }

  predicate RowStored(v: seq<real>, read: seq<real>, width: nat, height: nat, k: nat)
    requires |v| == 2 * height && k < height
  {
    0 <= k * width < |read| - 1 && v[k] == read[k * width] && v[k + height] == read[k * width + 1]
  }

  lemma StoreRow(v: seq<real>, read: seq<real>, row: seq<real>, height: nat, done: nat)
    requires |row| >= 2 && done < height && Stored(v, read, |row|, height, done)
    ensures Stored(v[done := row[0]][done + height := row[1]], read + row, |row|, height, done + 1)
  {
    var v' := v[done := row[0]][done + height := row[1]];
    RowsFit(done, height, |row|);
    forall k | 0 <= k < done + 1 ensures RowStored(v', read + row, |row|, height, k) {
      if k < done {
        assert RowStored(v, read, |row|, height, k);
      }
    }
  }

  method StoreInto(v: array<real>, k: nat, height: nat, row: seq<real>, ghost read: seq<real>)
    requires |row| >= 2 && k < height && Stored(v[..], read, |row|, height, k)
    modifies v
    ensures Stored(v[..], read + row, |row|, height, k + 1)
  {
    ghost var before := v[..];
    v[k] := row[0];
    v[k + height] := row[1];
    StoreRow(before, read, row, height, k);
    assert v[..] == before[k := row[0]][k + height := row[1]];
  }

  lemma AllStored(v: seq<real>, table: seq<real>, width: nat, height: nat)
    requires width >= 2 && Stored(v, table, width, height, height)
    ensures v == Columns(table, width, height)
  {
    forall k | 0 <= k < 2 * height ensures v[k] == Columns(table, width, height)[k] {
      assert RowStored(v, table, width, height, if k < height then k else k - height);
    }
  }

  method ParsePair(input: TokenInput, ghost start: Source, ghost read: seq<real>) returns (a: real, b: real)
    requires ReadReals(start, |read|) == (read, input.State())
    modifies input
    ensures ReadReals(start, |read| + 2) == (read + [a, b], input.State())
  {
    ghost var s0 := input.State();
    a := input.GetReal();
    ghost var s1 := input.State();
    b := input.GetReal();
    ReadAlong(start, read, s0, |read|, a, s1);
    ReadAlong(start, read + [a], s1, |read| + 1, b, input.State());
    assert read + [a] + [b] == read + [a, b];
  }

  method ParseTriple(input: TokenInput, ghost start: Source, ghost read: seq<real>) returns (a: real, b: real, c: real)
    requires ReadReals(start, |read|) == (read, input.State())
    modifies input
    ensures ReadReals(start, |read| + 3) == (read + [a, b, c], input.State())
  {
    a, b := ParsePair(input, start, read);
    ghost var s2 := input.State();
    c := input.GetReal();
    ReadAlong(start, read + [a, b], s2, |read| + 2, c, input.State());
    assert read + [a, b] + [c] == read + [a, b, c];
  }

  /** The six values of dipole i, the moduli dropped. */
  method ParseDipole(input: TokenInput, sol: array<real>, n: nat, i: nat, ghost start: Source, ghost read: seq<real>)
      returns (ghost read': seq<real>)
    requires i < n && Stored(sol[..], read, 3, 2 * n, 2 * i)
    requires ReadReals(start, |read|) == (read, input.State())
    modifies input, sol
    ensures ReadReals(start, |read'|) == (read', input.State())
    ensures Stored(sol[..], read', 3, 2 * n, 2 * i + 2)
  {
    var xa, xb, xc := ParseTriple(input, start, read);
    read' := read + [xa, xb, xc];
    var ya, yb, yc := ParseTriple(input, start, read');
    StoreInto(sol, 2 * i, 2 * n, [xa, xb, xc], read);
    StoreInto(sol, 2 * i + 1, 2 * n, [ya, yb, yc], read');
    read' := read' + [ya, yb, yc];
  }

  method ParseSolution(input: TokenInput) returns (r: Option<seq<real>>)
    modifies input
    ensures (r, input.State()) == ParsedSolution(old(input.State()))
  {
    var n := input.GetCount();
    input.GetLine();
    input.GetLine();
    input.GetLine();
    if input.failed {
      return None;
    }
    var sol := new real[n * 4];
    ghost var start, read := input.State(), [];
    for i := 0 to n
      invariant ReadReals(start, |read|) == (read, input.State())
      invariant Stored(sol[..], read, 3, 2 * n, 2 * i)
    {
      read := ParseDipole(input, sol, n, i, start, read);
    }
    AllStored(sol[..], read, 3, 2 * n);
    return Some(sol[..]);
  }

  method ParseCoordinates(input: TokenInput) returns (r: Option<seq<real>>)
    modifies input
    ensures (r, input.State()) == ParsedCoordinates(old(input.State()))
  {
    input.GetLine();
    var n := input.GetCount();
    if input.failed {
      return None;
    }
    var coord := new real[n * 2];
    ghost var start, read := input.State(), [];
    for i := 0 to n
      invariant ReadReals(start, |read|) == (read, input.State())
      invariant Stored(coord[..], read, 2, n, i)
    {
      var x, y := ParsePair(input, start, read);
      StoreInto(coord, i, n, [x, y], read);
      read := read + [x, y];
    }
    AllStored(coord[..], read, 2, n);
    return Some(coord[..]);
  }

  // ----- round trips

  lemma ColumnEntry(rows: seq<seq<real>>, width: nat, k: nat)
    requires width >= 2 && AllOfWidth(rows, width) && k < 2 * |rows|
    requires |Flat(rows)| == |rows| * width
    ensures Columns(Flat(rows), width, |rows|)[k] == if k < |rows| then rows[k][0] else rows[k - |rows|][1]
  {
    if k < |rows| {
      FlatEntry(rows, width, k, 0);
    } else {
      FlatEntry(rows, width, k - |rows|, 1);
    }
  }

  /** Rows that pair each entry of the first half with its partner give the vector back. */
  lemma ColumnsOfPairs(v: seq<real>, rows: seq<seq<real>>, width: nat)
    requires width >= 2 && AllOfWidth(rows, width) && 2 * |rows| <= |v|
    requires forall i | 0 <= i < |rows| :: rows[i][0] == v[i] && rows[i][1] == v[i + |rows|]
    ensures |Flat(rows)| == |rows| * width
    ensures Columns(Flat(rows), width, |rows|) == v[..2 * |rows|]
  {
    FlatLength(rows, width);
    forall k | 0 <= k < 2 * |rows| ensures Columns(Flat(rows), width, |rows|)[k] == v[k] {
      ColumnEntry(rows, width, k);
    }
  }

  /** Rows whose first line end has been passed already. */
  lemma ReadPastLineEnd(rows: seq<seq<real>>, width: nat, tail: seq<Token>)
    requires width > 0 && AllOfWidth(rows, width)
    ensures var all := Lines(rows) + ([LineEnd] + tail);
            && all[0] == LineEnd
            && var left := if |rows| == 0 then tail else [LineEnd] + tail;
               ReadReals(Source(all[1..], false), |rows| * width) == (Flat(rows), Source(left, false))
  {
    var all := Lines(rows) + ([LineEnd] + tail);
    FirstIsLineEnd(rows);
    if |rows| == 0 {
      assert all[1..] == tail;
    } else {
      assert all == [LineEnd] + all[1..];
      RowsFit(0, |rows|, width);
      ReadFirstOfLine(Source(all, false), Source(all[1..], false), |rows| * width);
      ReadLines(rows, width, [LineEnd] + tail);
    }
  }

  lemma {:induction false} FirstIsLineEnd(rows: seq<seq<real>>)
    ensures if |rows| == 0 then Lines(rows) == [] else |Lines(rows)| > 0 && Lines(rows)[0] == LineEnd
    decreases |rows|
  {
    if |rows| > 1 {
      FirstIsLineEnd(rows[..|rows| - 1]);
    } else if |rows| == 1 {
      assert Lines(rows[..0]) == [];
    }
  }

  lemma SolutionHeaderPassed(s: Source, n: nat, body: seq<Token>)
    requires !s.failed && |body| > 0 && body[0] == LineEnd
    requires SkipLineEnds(s.rest) == SolutionHeader(n) + body
    ensures ReadCount(s).0 == n
    ensures SkipLine(SkipLine(SkipLine(ReadCount(s).1))) == Source(body[1..], false)
  {
    var names := COLUMN_NAMES + [LineEnd] + body[1..];
    var title := TITLE + [LineEnd] + names;
    assert body == [LineEnd] + body[1..];
    HeaderLines(n, body, names, title);
    assert ([Count(n)] + ([LineEnd] + title))[1..] == [LineEnd] + title && ([LineEnd] + title)[1..] == title;
    PassLine(TITLE, names);
    PassLine(COLUMN_NAMES, body[1..]);
  }

  lemma HeaderLines(n: nat, body: seq<Token>, names: seq<Token>, title: seq<Token>)
    requires |body| > 0 && body == [LineEnd] + body[1..]
    requires names == COLUMN_NAMES + [LineEnd] + body[1..] && title == TITLE + [LineEnd] + names
    ensures SolutionHeader(n) + body == [Count(n)] + ([LineEnd] + title)
  {
    assert names == COLUMN_NAMES + body;
  }

  lemma {:induction false} PassLine(words: seq<Token>, rest: seq<Token>)
    requires forall i | 0 <= i < |words| :: words[i].Word?
    ensures AfterLine(words + [LineEnd] + rest) == rest
    decreases |words|
  {
    var all := words + [LineEnd] + rest;
    if |words| > 0 {
      assert all[1..] == words[1..] + [LineEnd] + rest;
      PassLine(words[1..], rest);
    } else {
      assert all[1..] == rest;
    }
  }

  /** Printing and parsing returns the longest front part of a length that is a multiple of four. */
  lemma {:induction false} SolutionReadBack(sol: seq<real>, root: real -> real, s: Source, tail: seq<Token>)
    requires !s.failed && SkipLineEnds(s.rest) == SolutionTokens(sol, root) + tail
    ensures ParsedSolution(s)
            == (Some(sol[..4 * (|sol| / 4)]), Source(if |sol| < 4 then tail else [LineEnd] + tail, false))
  {
    var n, rows := |sol| / 4, SolutionRows(sol, root);
    var body := Lines(rows) + ([LineEnd] + tail);
    Regroup(SolutionHeader(n), Lines(rows), [LineEnd], tail);
    ReadPastLineEnd(rows, 3, tail);
    SolutionHeaderPassed(s, n, body);
    SolutionColumns(sol, root);
  }

  lemma SolutionColumns(sol: seq<real>, root: real -> real)
    ensures var rows := SolutionRows(sol, root);
            && |Flat(rows)| == |rows| * 3
            && Columns(Flat(rows), 3, |rows|) == sol[..4 * (|sol| / 4)]
  {
    var rows := SolutionRows(sol, root);
    forall i | 0 <= i < |rows| ensures rows[i][0] == sol[i] && rows[i][1] == sol[i + |rows|] {
      assert rows[i] == SolutionRow(sol, i, root);
    }
    ColumnsOfPairs(sol, rows, 3);
  }

  /** Every entry comes back, whatever modulus was printed beside it, exactly if none is left over. */
  lemma SolutionRoundTripIff(sol: seq<real>, root: real -> real, s: Source, tail: seq<Token>)
    requires !s.failed && SkipLineEnds(s.rest) == SolutionTokens(sol, root) + tail
    ensures ParsedSolution(s).0 == Some(sol) <==> |sol| % 4 == 0
  {
    SolutionReadBack(sol, root, s, tail);
    assert |sol| % 4 == 0 ==> sol[..4 * (|sol| / 4)] == sol;
  }

  lemma CoordinatesReadBack(col: seq<real>, tail: seq<Token>)
    ensures ParsedCoordinates(Source(CoordinateTokens(col) + tail, false))
            == (Some(col[..2 * (|col| / 2)]), Source([LineEnd] + tail, false))
  {
    var n, rows := |col| / 2, CoordinateRows(col);
    var body := Lines(rows) + ([LineEnd] + tail);
    var all := CoordinateTokens(col) + tail;
    assert all == CoordinateHeader(n) + body;
    assert all == all[..2] + [LineEnd] + ([Count(n)] + body);
    PassLine(all[..2], [Count(n)] + body);
    assert ([Count(n)] + body)[1..] == body;
    ReadLines(rows, 2, [LineEnd] + tail);
    ColumnsOfPairs(col, rows, 2);
  }

  /** Every coordinate comes back exactly if the two halves are equally long. */
  lemma CoordinatesRoundTripIff(col: seq<real>, tail: seq<Token>)
    ensures ParsedCoordinates(Source(CoordinateTokens(col) + tail, false)).0 == Some(col) <==> |col| % 2 == 0
  {
    CoordinatesReadBack(col, tail);
    assert |col| % 2 == 0 ==> col[..2 * (|col| / 2)] == col;
  }

  // ----- coordinates behind other text

  predicate NoNumbers(text: seq<Token>) {
    forall i | 0 <= i < |text| :: text[i].Word? || text[i].LineEnd?
  }

  predicate OneLine(text: seq<Token>) {
    forall i | 0 <= i < |text| :: text[i].Word?
  }

  lemma {:induction false} WordsAhead(text: seq<Token>, rest: seq<Token>)
    requires NoNumbers(text) && |rest| > 0 && rest[0].Word?
    ensures |SkipLineEnds(text + rest)| > 0 && SkipLineEnds(text + rest)[0].Word?
    decreases |text|
  {
    if |text| == 0 {
      assert text + rest == rest;
    } else {
      assert (text + rest)[1..] == text[1..] + rest;
      if text[0].LineEnd? {
        WordsAhead(text[1..], rest);
      }
    }
  }

  /** With a line end in it, the text's own first line is what is skipped. */
  lemma {:induction false} OtherLineSkipped(text: seq<Token>, rest: seq<Token>) returns (behind: seq<Token>)
    requires NoNumbers(text) && !OneLine(text)
    ensures NoNumbers(behind) && AfterLine(text + rest) == behind + rest
    decreases |text|
  {
    assert (text + rest)[1..] == text[1..] + rest;
    if text[0].LineEnd? {
      behind := text[1..];
    } else {
      behind := OtherLineSkipped(text[1..], rest);
    }
  }

  /** Words on the line of the title are skipped with it. */
  lemma {:induction false} SameLineSkipped(text: seq<Token>, col: seq<real>, tail: seq<Token>)
    requires OneLine(text)
    ensures AfterLine(text + CoordinateTokens(col) + tail) == AfterLine(CoordinateTokens(col) + tail)
  {
    var title := CoordinateHeader(|col| / 2)[..2];
    var rest := [Count(|col| / 2)] + Lines(CoordinateRows(col)) + [LineEnd] + tail;
    assert CoordinateTokens(col) + tail == title + [LineEnd] + rest;
    assert text + CoordinateTokens(col) + tail == (text + title) + [LineEnd] + rest;
    PassLine(title, rest);
    PassLine(text + title, rest);
  }

  /**
   The title is skipped as the rest of the current line, whatever words are on it. Behind a line
   end that is another line, and the title is then taken for the number. So behind any text the
   coordinates come back exactly if the text ends no line, and the two halves are equally long.
   */
  lemma {:induction false} CoordinatesBehindTextIff(text: seq<Token>, col: seq<real>, tail: seq<Token>)
    requires NoNumbers(text)
    ensures ParsedCoordinates(Source(text + CoordinateTokens(col) + tail, false)).0 == Some(col)
            <==> OneLine(text) && |col| % 2 == 0
    ensures !OneLine(text) ==> ParsedCoordinates(Source(text + CoordinateTokens(col) + tail, false)).0 == None
  {
    var table := CoordinateTokens(col) + tail;
    assert text + CoordinateTokens(col) + tail == text + table;
    assert |table| > 0 && table[0] == Word("Координаты");
    if OneLine(text) {
      SameLineSkipped(text, col, tail);
      CoordinatesRoundTripIff(col, tail);
    } else {
      var behind := OtherLineSkipped(text, table);
      WordsAhead(behind, table);
    }
  }

  /** Two tables of coordinates in one stream: the second one is never read, whatever is in them. */
  lemma SecondCoordinatesRefused(first: seq<real>, second: seq<real>, tail: seq<Token>)
    ensures var s := ParsedCoordinates(Source(CoordinateTokens(first) + (CoordinateTokens(second) + tail), false)).1;
            !s.failed && ParsedCoordinates(s).0 == None
  {
    CoordinatesReadBack(first, CoordinateTokens(second) + tail);
    assert [LineEnd] + (CoordinateTokens(second) + tail) == [LineEnd] + CoordinateTokens(second) + tail;
    CoordinatesBehindTextIff([LineEnd], second, tail);
  }
}

/**
 Human-readable tables at token level: numbers, words and line ends. Numbers are exact reals;
 tabs between tokens are not represented.
 */
module Tables {
  import opened Quotients

  datatype Token = Num(x: real) | Count(n: nat) | Word(text: string) | LineEnd

  datatype Source = Source(rest: seq<Token>, failed: bool)

  function SkipLineEnds(rest: seq<Token>): (r: seq<Token>) {
    if |rest| > 0 && rest[0].LineEnd? then SkipLineEnds(rest[1..]) else rest
  }

  /** Extraction of a floating value; what is no number gives 0 and the fail bit. */
  function ReadReal(s: Source): (real, Source) {
    if s.failed then (0.0, s)
    else
      var rest := SkipLineEnds(s.rest);
      if |rest| > 0 && rest[0].Num? then (rest[0].x, Source(rest[1..], false))
      else if |rest| > 0 && rest[0].Count? then (rest[0].n as real, Source(rest[1..], false))
      else (0.0, Source(rest, true))
  }

  function ReadCount(s: Source): (nat, Source) {
    if s.failed then (0, s)
    else
      var rest := SkipLineEnds(s.rest);
      if |rest| > 0 && rest[0].Count? then (rest[0].n, Source(rest[1..], false)) else (0, Source(rest, true))
  }

  function SkipWord(s: Source): Source {
    if s.failed then s
    else
      var rest := SkipLineEnds(s.rest);
      if |rest| > 0 then Source(rest[1..], false) else Source(rest, true)
  }

  /** Drops everything up to and including the next line end. */
  function SkipLine(s: Source): Source {
    if s.failed || |s.rest| == 0 then Source(s.rest, true) else Source(AfterLine(s.rest), false)
  }

  function AfterLine(rest: seq<Token>): seq<Token> {
    if |rest| == 0 then [] else if rest[0].LineEnd? then rest[1..] else AfterLine(rest[1..])
  }

  /** The next k values, in order. */
  function ReadReals(s: Source, k: nat): (r: (seq<real>, Source))
    ensures |r.0| == k
    decreases k
  {
    if k == 0 then ([], s)
    else
      var before := ReadReals(s, k - 1);
      var (x, after) := ReadReal(before.1);
      (before.0 + [x], after)
  }

  lemma {:induction false} ReadRealsPrefix(s: Source, k: nat, n: nat)
    requires k <= n
    ensures ReadReals(s, n).0[..k] == ReadReals(s, k).0
    decreases n
  {
    if k < n {
      ReadRealsPrefix(s, k, n - 1);
      assert ReadReals(s, n).0[..k] == ReadReals(s, n - 1).0[..k];
    }
  }

  lemma {:induction false} ReadRealsSplit(s: Source, a: nat, b: nat)
    ensures var first := ReadReals(s, a);
            ReadReals(s, a + b) == (first.0 + ReadReals(first.1, b).0, ReadReals(first.1, b).1)
    decreases b
  {
    var first := ReadReals(s, a);
    if b == 0 {
      assert first.0 + [] == first.0;
    } else {
      ReadRealsSplit(s, a, b - 1);
      var (x, _) := ReadReal(ReadReals(first.1, b - 1).1);
      assert first.0 + ReadReals(first.1, b - 1).0 + [x] == first.0 + (ReadReals(first.1, b - 1).0 + [x]);
    }
  }

  lemma ReadAlong(s: Source, read: seq<real>, now: Source, n: nat, x: real, after: Source)
    requires ReadReals(s, n) == (read, now) && ReadReal(now) == (x, after)
    ensures ReadReals(s, n + 1) == (read + [x], after)
    ensures [] + [x] == [x]
  {
  }

  // ----- printed rows

  function Nums(xs: seq<real>): (t: seq<Token>)
    ensures |t| == |xs|
  {
    seq(|xs|, i requires 0 <= i < |xs| => Num(xs[i]))
  }

  /** Each row on a line of its own, the line end in front. */
  function Lines(rows: seq<seq<real>>): seq<Token> {
    if |rows| == 0 then [] else Lines(rows[..|rows| - 1]) + ([LineEnd] + Nums(rows[|rows| - 1]))
  }

  function Flat(rows: seq<seq<real>>): seq<real> {
    if |rows| == 0 then [] else Flat(rows[..|rows| - 1]) + rows[|rows| - 1]
  }

  lemma NextLine(before: seq<Token>, rows: seq<seq<real>>, i: nat)
    requires i < |rows|
    ensures before + Lines(rows[..i]) + [LineEnd] + Nums(rows[i]) + [LineEnd]
            == before + Lines(rows[..i + 1]) + [LineEnd]
  {
    assert rows[..i + 1][..i] == rows[..i] && rows[..i + 1][i] == rows[i];
    assert Lines(rows[..i + 1]) == Lines(rows[..i]) + ([LineEnd] + Nums(rows[i]));
  }

  lemma {:induction false} ReadRow(xs: seq<real>, rest: seq<Token>)
    ensures ReadReals(Source(Nums(xs) + rest, false), |xs|) == (xs, Source(rest, false))
    decreases |xs|
  {
    if |xs| == 0 {
      assert Nums(xs) + rest == rest;
    } else {
      var last := |xs| - 1;
      assert Nums(xs) + rest == Nums(xs[..last]) + ([Num(xs[last])] + rest);
      ReadRow(xs[..last], [Num(xs[last])] + rest);
      assert xs == xs[..last] + [xs[last]];
    }
  }

  lemma ReadFirstOfLine(s: Source, t: Source, k: nat)
    requires !s.failed && !t.failed && k > 0 && s.rest == [LineEnd] + t.rest
    ensures ReadReals(s, k) == ReadReals(t, k)
    decreases k
  {
    if k == 1 {
      assert s.rest[1..] == t.rest;
      assert ReadReal(ReadReals(s, 0).1) == ReadReal(ReadReals(t, 0).1);
    } else {
      ReadFirstOfLine(s, t, k - 1);
    }
  }

  /** A row on its own line. */
  lemma ReadLine(xs: seq<real>, rest: seq<Token>)
    requires |xs| > 0
    ensures ReadReals(Source([LineEnd] + Nums(xs) + rest, false), |xs|) == (xs, Source(rest, false))
  {
    assert [LineEnd] + Nums(xs) + rest == [LineEnd] + (Nums(xs) + rest);
    ReadFirstOfLine(Source([LineEnd] + Nums(xs) + rest, false), Source(Nums(xs) + rest, false), |xs|);
    ReadRow(xs, rest);
  }

  /** The tokens, perhaps behind the line end the last read has left. */
  predicate OnLine(rest: seq<Token>, tokens: seq<Token>) {
    rest == tokens || rest == [LineEnd] + tokens
  }

  lemma {:induction false} ReadOnLine(rest: seq<Token>, xs: seq<real>, tail: seq<Token>)
    requires |xs| > 0 && OnLine(rest, Nums(xs) + tail)
    ensures ReadReals(Source(rest, false), |xs|) == (xs, Source(tail, false))
  {
    if rest == Nums(xs) + tail {
      ReadRow(xs, tail);
    } else {
      assert rest == [LineEnd] + Nums(xs) + tail;
      ReadLine(xs, tail);
    }
  }

  ghost predicate AllOfWidth(rows: seq<seq<real>>, width: nat) {
    forall i | 0 <= i < |rows| :: |rows[i]| == width
  }

  lemma {:induction false} ReadLines(rows: seq<seq<real>>, width: nat, rest: seq<Token>)
    requires width > 0 && AllOfWidth(rows, width)
    ensures ReadReals(Source(Lines(rows) + rest, false), |rows| * width) == (Flat(rows), Source(rest, false))
    decreases |rows|
  {
    if |rows| == 0 {
      assert Lines(rows) + rest == rest;
    } else {
      var last := |rows| - 1;
      var line := [LineEnd] + Nums(rows[last]);
      assert Lines(rows) + rest == Lines(rows[..last]) + (line + rest);
      ReadLines(rows[..last], width, line + rest);
      ReadLine(rows[last], rest);
      RowsFit(last, |rows|, width);
      ReadRealsSplit(Source(Lines(rows) + rest, false), last * width, width);
    }
  }

  lemma {:induction false} FlatEntry(rows: seq<seq<real>>, width: nat, i: nat, k: nat)
    requires AllOfWidth(rows, width) && i < |rows| && k < width
    ensures |Flat(rows)| == |rows| * width && i * width + k < |rows| * width
    ensures Flat(rows)[i * width + k] == rows[i][k]
    decreases |rows|
  {
    var last := |rows| - 1;
    FlatLength(rows[..last], width);
    RowsFit(last, |rows|, width);
    if i < last {
      FlatEntry(rows[..last], width, i, k);
    }
  }

  lemma {:induction false} FlatLength(rows: seq<seq<real>>, width: nat)
    requires AllOfWidth(rows, width)
    ensures |Flat(rows)| == |rows| * width
    decreases |rows|
  {
    if |rows| > 0 {
      FlatLength(rows[..|rows| - 1], width);
      RowsFit(|rows| - 1, |rows|, width);
    }
  }

  lemma {:induction false} LinesLength(rows: seq<seq<real>>, width: nat)
    requires AllOfWidth(rows, width)
    ensures |Lines(rows)| == |rows| * (1 + width)
    decreases |rows|
  {
    if |rows| > 0 {
      LinesLength(rows[..|rows| - 1], width);
      RowsFit(|rows| - 1, |rows|, 1 + width);
    }
  }

  /** Rows of equal length: where line i starts, and what stands on it. */
  lemma {:induction false} LinesEntry(rows: seq<seq<real>>, width: nat, i: nat, k: nat)
    requires AllOfWidth(rows, width) && i < |rows| && k < width
    ensures |Lines(rows)| == |rows| * (1 + width) && 0 <= i * (1 + width) && (i + 1) * (1 + width) <= |Lines(rows)|
    ensures Lines(rows)[i * (1 + width)] == LineEnd
    ensures Lines(rows)[i * (1 + width) + (1 + k)] == Num(rows[i][k])
    decreases |rows|
  {
    var last := |rows| - 1;
    LinesLength(rows[..last], width);
    RowsFit(last, |rows|, 1 + width);
    RowsFit(i, |rows|, 1 + width);
    if i < last {
      LinesEntry(rows[..last], width, i, k);
    }
  }

  // ----- the token source as an object

  class TokenInput {
    var rest: seq<Token>
    var failed: bool

    constructor (tokens: seq<Token>)
      ensures State() == Source(tokens, false)
    {
      rest, failed := tokens, false;
    }

    function State(): Source
      reads this
    {
      Source(rest, failed)
    }

    method Become(s: Source)
      modifies this
      ensures State() == s
    {
      rest, failed := s.rest, s.failed;
    }

    method GetReal() returns (x: real)
      modifies this
      ensures (x, State()) == ReadReal(old(State()))
    {
      var (v, s) := ReadReal(State());
      x := v;
      Become(s);
    }

    method GetCount() returns (n: nat)
      modifies this
      ensures (n, State()) == ReadCount(old(State()))
    {
      var (v, s) := ReadCount(State());
      n := v;
      Become(s);
    }

    method GetLine()
      modifies this
      ensures State() == SkipLine(old(State()))
    {
      Become(SkipLine(State()));
    }

    method GetWord()
      modifies this
      ensures State() == SkipWord(old(State()))
    {
      Become(SkipWord(State()));
    }
  }

  /** The token sink; what is written only ever grows. */
  class TokenOutput {
    var written: seq<Token>

    constructor ()
      ensures written == []
    {
      written := [];
    }

    method Put(t: Token)
      modifies this
      ensures written == old(written) + [t]
    {
      written := written + [t];
    }

    method PutNums(xs: seq<real>)
      modifies this
      ensures written == old(written) + Nums(xs)
    {
      for i := 0 to |xs|
        invariant written == old(written) + Nums(xs[..i])
      {
        Put(Num(xs[i]));
        assert Nums(xs[..i + 1]) == Nums(xs[..i]) + [Num(xs[i])];
      }
      assert xs[..|xs|] == xs;
    }
  }
}

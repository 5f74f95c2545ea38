/** Printing a vector of unsigned words in a text format and parsing it back. */
module Vectors {
  import opened MachineWords
  import opened Outcomes
  import opened Streams
  import opened Formats

  // ----- printing

  function MaxWidth(values: seq<Word>): nat {
    if |values| == 0 then 0
    else
      var here, others := |Decimal(values[0])|, MaxWidth(values[1..]);
      if here < others then others else here
  }

  function Repeated(c: char, n: nat): (s: string)
    ensures |s| == n && forall i | 0 <= i < n :: s[i] == c
  {
    if n == 0 then "" else [c] + Repeated(c, n - 1)
  }

  function Padding(v: Word, width: nat, fill: char): string {
    Repeated(fill, if |Decimal(v)| < width then width - |Decimal(v)| else 0)
  }

  function PrintItems(values: seq<Word>, width: nat, fill: char, separator: string): string
    requires |values| > 0
  {
    Padding(values[0], width, fill) + Decimal(values[0])
    + if |values| == 1 then "" else separator + PrintItems(values[1..], width, fill, separator)
  }

  function PrintRow(values: seq<Word>, fmt: EFormat): string {
    if |values| == 0 then fmt.matPrefix + fmt.matSuffix
    else
      var width := if AlignsColumns(fmt) then MaxWidth(values) else 0;
      fmt.matPrefix + fmt.rowPrefix
      + PrintItems(values, width, fmt.fill, fmt.coeffSeparator)
      + fmt.rowSuffix + fmt.matSuffix
  }

  /** The size header, if wanted, and the vector as a one-row matrix. */
  function OneDimSerialize(values: seq<Word>, printSize: bool, fmt: EFormat): string {
    (if printSize then Decimal(|values|) + "\n" else "") + PrintRow(values, fmt)
  }

  // ----- parsing

  function ReadItems(s: Stream, n: nat, separator: string): (r: (seq<Word>, Stream))
    ensures |r.0| == n
    decreases n
  {
    if n == 0 then ([], s)
    else
      var (first, s1) := ReadWord(s);
      if n == 1 then ([first], s1)
      else
        var (others, s2) := ReadItems(TakeDelim(s1, separator), n - 1, separator);
        ([first] + others, s2)
  }

  /** Nothing is returned, but an exception thrown, only if the size cannot be read. */
  function ReadVector(s: Stream, size: Option<Word>, fmt: EFormat): (Option<seq<Word>>, Stream) {
    var (n, s1) := if size.Some? then (size.value, s) else ReadWord(s);
    if s1.failed then (None, s1)
    else
      var (values, s2) := ReadItems(TakeDelim(s1, fmt.rowPrefix), n, fmt.coeffSeparator);
      (Some(values), TakeDelim(s2, fmt.rowSuffix))
  }

  lemma ReadItemsTurn(done: seq<Word>, s: Stream, n: nat, separator: string)
    requires n > 0
    ensures var (first, s1) := ReadWord(s);
            var s2 := if n > 1 then TakeDelim(s1, separator) else s1;
            (done + ReadItems(s, n, separator).0, ReadItems(s, n, separator).1)
            == (done + [first] + ReadItems(s2, n - 1, separator).0, ReadItems(s2, n - 1, separator).1)
  {
    var (first, s1) := ReadWord(s);
    if n > 1 {
      var others := ReadItems(TakeDelim(s1, separator), n - 1, separator).0;
      assert done + ([first] + others) == done + [first] + others;
    } else {
      assert done + [first] == done + [first] + [];
    }
  }

  /** The item loop: no delimiter is expected behind the last item. */
  method ParseItems(input: InputStream, size: nat, separator: string) returns (res: seq<Word>)
    modifies input
    ensures (res, input.State()) == ReadItems(old(input.State()), size, separator)
  {
    res := [];
    var i := 0;
    assert [] + ReadItems(input.State(), size, separator).0 == ReadItems(input.State(), size, separator).0;
    while i < size
      invariant 0 <= i <= size && |res| == i
      invariant var now := ReadItems(input.State(), size - i, separator);
                ReadItems(old(input.State()), size, separator) == (res + now.0, now.1)
    {
      ReadItemsTurn(res, input.State(), size - i, separator);
      var v := input.GetWord();
      res := res + [v];
      if i < size - 1 {
        var _ := ParseDelim(input, separator);
      }
      i := i + 1;
    }
    assert res + [] == res;
  }

  method ParseOneDim(input: InputStream, sizeOpt: Option<Word>, fmt: EFormat) returns (r: Option<seq<Word>>)
    modifies input
    ensures (r, input.State()) == ReadVector(old(input.State()), sizeOpt, fmt)
  {
    var size: Word;
    if sizeOpt.Some? {
      size := sizeOpt.value;
    } else {
      size := input.GetWord();
    }
    if input.failed {
      return None;
    }
    var _ := ParseDelim(input, fmt.rowPrefix);
    var res := ParseItems(input, size, fmt.coeffSeparator);
    var _ := ParseDelim(input, fmt.rowSuffix);
    return Some(res);
  }

  // ----- the round trip

  /** A delimiter printed as `p` is passed over by a parser told `q`. */
  predicate Agree(p: string, q: string) {
    if AllSpaces(p) then AllSpaces(q) else p == q
  }

  /** What is left of a printed delimiter for the next extraction to skip. */
  function Leftover(p: string): (s: string)
    ensures AllSpaces(s)
  {
    if AllSpaces(p) then p else ""
  }

  lemma DelimPassed(p: string, q: string, rest: string)
    requires Agree(p, q)
    ensures TakeDelim(Stream(p + rest, false), q) == Stream(Leftover(p) + rest, false)
  {
    if !AllSpaces(p) {
      MatchExact(p, rest);
      assert "" + rest == rest;
    }
  }

  lemma SpacesJoin(a: string, b: string)
    requires AllSpaces(a) && AllSpaces(b)
    ensures AllSpaces(a + b)
  {
  }

  lemma Regroup(a: string, b: string, c: string, d: string, e: string, f: string)
    ensures a + (b + c + (d + e)) + f == a + b + c + (d + (e + f))
    ensures a + (b + c + "") + f == a + b + c + f
  {
  }

  lemma RegroupRow(a: string, b: string, c: string, d: string, e: string, f: string)
    ensures a + ("" + b + c + d + e) + f == a + b + (c + (d + e + f))
    ensures d + e + f == d + (e + f)
    ensures a + (b + c) == a + b + c
  {
  }

  lemma {:induction false} ItemsBack(
      spaces: string, values: seq<Word>, width: nat, fill: char, p: string, q: string, rest: string)
    requires |values| > 0 && AllSpaces(spaces)
    requires width > 0 ==> IsSpace(fill)
    requires |values| > 1 ==> Agree(p, q) && p != "" && !IsDigit(p[0])
    requires !StartsWithDigit(rest)
    ensures ReadItems(Stream(spaces + PrintItems(values, width, fill, p) + rest, false), |values|, q)
            == (values, Stream(rest, false))
    decreases |values|
  {
    FirstBack(spaces, values, width, fill, p, q, rest);
    if |values| == 1 {
      assert values == [values[0]];
    } else {
      ItemsBack(Leftover(p), values[1..], width, fill, p, q, rest);
      assert values == [values[0]] + values[1..];
    }
  }

  /** The first value, and what the parser goes on with. */
  lemma {:induction false} FirstBack(
      spaces: string, values: seq<Word>, width: nat, fill: char, p: string, q: string, rest: string)
    requires |values| > 0 && AllSpaces(spaces)
    requires width > 0 ==> IsSpace(fill)
    requires |values| > 1 ==> Agree(p, q) && p != "" && !IsDigit(p[0])
    requires !StartsWithDigit(rest)
    ensures var (first, s) := ReadWord(Stream(spaces + PrintItems(values, width, fill, p) + rest, false));
            && first == values[0]
            && if |values| == 1 then s == Stream(rest, false)
               else TakeDelim(s, q) == Stream(Leftover(p) + PrintItems(values[1..], width, fill, p) + rest, false)
  {
    var pad := Padding(values[0], width, fill);
    SpacesJoin(spaces, pad);
    PrintedFirst(spaces, values, width, fill, p, rest);
    if |values| == 1 {
      ReadPrintedWord(spaces + pad, values[0], rest);
    } else {
      var items := PrintItems(values[1..], width, fill, p);
      FirstItemBack(spaces + pad, values[0], p, q, items + rest);
      RegroupRow(Leftover(p), items, rest, "", "", "");
    }
  }

  lemma {:induction false} PrintedFirst(
      spaces: string, values: seq<Word>, width: nat, fill: char, p: string, rest: string)
    requires |values| > 0
    ensures var front := spaces + Padding(values[0], width, fill) + Decimal(values[0]);
            spaces + PrintItems(values, width, fill, p) + rest
            == front + if |values| == 1 then rest else p + (PrintItems(values[1..], width, fill, p) + rest)
  {
    var pad, text := Padding(values[0], width, fill), Decimal(values[0]);
    if |values| == 1 {
      Regroup(spaces, pad, text, "", "", rest);
    } else {
      Regroup(spaces, pad, text, p, PrintItems(values[1..], width, fill, p), rest);
    }
  }

  lemma {:induction false} FirstItemBack(spaces: string, v: Word, p: string, q: string, rest: string)
    requires AllSpaces(spaces) && Agree(p, q) && p != "" && !IsDigit(p[0])
    ensures var (first, s) := ReadWord(Stream(spaces + Decimal(v) + (p + rest), false));
            first == v && TakeDelim(s, q) == Stream(Leftover(p) + rest, false)
  {
    FirstOf(p, rest);
    ReadPrintedWord(spaces, v, p + rest);
    DelimPassed(p, q, rest);
  }

  lemma FirstOf(p: string, rest: string)
    requires p != "" && !IsDigit(p[0])
    ensures !StartsWithDigit(p + rest)
  {
  }

  /** What has to hold of the printing format `p`, the parsing format `q` and the text behind. */
  predicate RoundTripFormats(values: seq<Word>, printSize: bool, p: EFormat, q: EFormat, rest: string) {
    && p.matPrefix == ""
    && Agree(p.rowPrefix, q.rowPrefix) && Agree(p.rowSuffix, q.rowSuffix)
    && (printSize ==> AllSpaces(p.rowPrefix))
    && (AlignsColumns(p) ==> IsSpace(p.fill))
    && (|values| > 1 ==>
          Agree(p.coeffSeparator, q.coeffSeparator) && p.coeffSeparator != "" && !IsDigit(p.coeffSeparator[0]))
    && !StartsWithDigit(p.rowSuffix + p.matSuffix + rest)
  }

  /** Everything behind the size: prefix, items, suffix. */
  lemma RowBack(spaces: string, values: seq<Word>, p: EFormat, q: EFormat, rest: string)
    requires |values| > 0 && AllSpaces(spaces) && RoundTripFormats(values, spaces != "", p, q, rest)
    ensures var s := TakeDelim(Stream(spaces + PrintRow(values, p) + rest, false), q.rowPrefix);
            var (read, s') := ReadItems(s, |values|, q.coeffSeparator);
            && read == values
            && TakeDelim(s', q.rowSuffix) == Stream(Leftover(p.rowSuffix) + p.matSuffix + rest, false)
  {
    var width := if AlignsColumns(p) then MaxWidth(values) else 0;
    var items := PrintItems(values, width, p.fill, p.coeffSeparator);
    var after := p.rowSuffix + p.matSuffix + rest;
    RegroupRow(spaces, p.rowPrefix, items, p.rowSuffix, p.matSuffix, rest);
    PrefixPassed(spaces, p, q, items + after);
    RegroupRow(Leftover(spaces + p.rowPrefix), items, after, "", "", "");
    ItemsBack(Leftover(spaces + p.rowPrefix), values, width, p.fill, p.coeffSeparator, q.coeffSeparator, after);
    DelimPassed(p.rowSuffix, q.rowSuffix, p.matSuffix + rest);
    RegroupRow(Leftover(p.rowSuffix), p.matSuffix, rest, "", "", "");
  }

  lemma PrefixPassed(spaces: string, p: EFormat, q: EFormat, rest: string)
    requires AllSpaces(spaces) && Agree(p.rowPrefix, q.rowPrefix)
    requires spaces != "" ==> AllSpaces(p.rowPrefix)
    ensures TakeDelim(Stream(spaces + p.rowPrefix + rest, false), q.rowPrefix)
            == Stream(Leftover(spaces + p.rowPrefix) + rest, false)
  {
    if spaces != "" {
      SpacesJoin(spaces, p.rowPrefix);
    } else {
      assert spaces + p.rowPrefix == p.rowPrefix;
    }
    DelimPassed(spaces + p.rowPrefix, q.rowPrefix, rest);
  }

  /**
   Any non-empty vector is read back exactly, and the stream is left behind it, even by a parser
   told another format as long as the two agree up to space.
   */
  lemma {:induction false} VectorRoundTrip(values: seq<Word>, printSize: bool, p: EFormat, q: EFormat, rest: string)
    requires 0 < |values| < WORD_RANGE && RoundTripFormats(values, printSize, p, q, rest)
    ensures ReadVector(Stream(OneDimSerialize(values, printSize, p) + rest, false),
                       if printSize then None else Some(|values|), q)
            == (Some(values), Stream(Leftover(p.rowSuffix) + p.matSuffix + rest, false))
  {
    var row := PrintRow(values, p);
    if printSize {
      assert OneDimSerialize(values, true, p) + rest == "" + Decimal(|values|) + ("\n" + row + rest);
      ReadPrintedWord("", |values|, "\n" + row + rest);
      RowBack("\n", values, p, q, rest);
    } else {
      assert OneDimSerialize(values, false, p) + rest == "" + row + rest;
      RowBack("", values, p, q, rest);
    }
  }

  /** The benchmark column of the database, {a,b,c}: the array reads back and nothing is left. */
  lemma DatabaseColumnRoundTrip(values: seq<Word>)
    requires 0 < |values| < WORD_RANGE
    ensures var text := OneDimSerialize(values, false, VECTOR_DB_FORMAT);
            ReadVector(Stream(text, false), Some(|values|), VECTOR_DB_FORMAT) == (Some(values), Stream("", false))
  {
    var text := OneDimSerialize(values, false, VECTOR_DB_FORMAT);
    assert text + "" == text;
    assert VECTOR_DB_FORMAT.rowSuffix + VECTOR_DB_FORMAT.matSuffix + "" == "}";
    assert !IsSpace("}"[0]) && !IsSpace(","[0]) && !IsSpace("{"[0]);
    VectorRoundTrip(values, false, VECTOR_DB_FORMAT, VECTOR_DB_FORMAT, "");
    assert Leftover("}") + "" + "" == "";
  }

  /** Printed tab-separated with a size and parsed with the default format, as the solutions are. */
  lemma DefaultFormatsRoundTrip(values: seq<Word>, rest: string)
    requires 0 < |values| < WORD_RANGE
    ensures ReadVector(Stream(OneDimSerialize(values, true, VECTOR_FORMAT_1) + rest, false), None, DEFAULT)
            == (Some(values), Stream("\n" + rest, false))
  {
    assert "" + "\n" + rest == "\n" + rest;
    FirstOf("\n", rest);
    assert RoundTripFormats(values, true, VECTOR_FORMAT_1, DEFAULT, rest);
    VectorRoundTrip(values, true, VECTOR_FORMAT_1, DEFAULT, rest);
  }

  // ----- the printed text

  /** No number is longer than the common width, and one is that long. */
  lemma {:induction false} WidestEntry(values: seq<Word>) returns (k: nat)
    requires values != []
    ensures k < |values| && |Decimal(values[k])| == MaxWidth(values)
    ensures forall i | 0 <= i < |values| :: |Decimal(values[i])| <= MaxWidth(values)
  {
    k := 0;
    if |values| > 1 {
      var later := WidestEntry(values[1..]);
      if |Decimal(values[0])| < MaxWidth(values[1..]) {
        k := later + 1;
      }
      assert forall i | 1 <= i < |values| :: values[i] == values[1..][i - 1];
    }
  }

  lemma {:induction false} ItemLength(v: Word, width: nat, fill: char)
    requires |Decimal(v)| <= width
    ensures |Padding(v, width, fill) + Decimal(v)| == width
  {
  }

  lemma {:induction false} NextItems(values: seq<Word>, width: nat, fill: char, separator: string)
    requires |values| > 1
    ensures PrintItems(values, width, fill, separator)
            == (Padding(values[0], width, fill) + Decimal(values[0]))
               + (separator + PrintItems(values[1..], width, fill, separator))
  {
  }

  /** Aligned numbers all take that width. */
  lemma {:induction false} AlignedLength(values: seq<Word>, width: nat, fill: char, separator: string)
    requires values != [] && forall v <- values :: |Decimal(v)| <= width
    ensures |PrintItems(values, width, fill, separator)| == |values| * width + (|values| - 1) * |separator|
  {
    ItemLength(values[0], width, fill);
    if |values| > 1 {
      AlignedLength(values[1..], width, fill, separator);
      NextItems(values, width, fill, separator);
      OneItemMore(|values| - 1, width, |separator|);
    }
  }

  lemma OneItemMore(n: nat, width: nat, gap: nat)
    ensures (n + 1) * width + n * gap == width + gap + (n * width + (n - 1) * gap)
  {
  }

  lemma {:induction false} SmallNumbers()
    ensures Decimal(7) == "7" && Decimal(2) == "2" && Decimal(12) == "12"
  {
    assert Decimal(12) == Decimal(1) + [DigitChar(2)];
  }

  lemma {:induction false} SmallPaddings()
    ensures Padding(7, 2, ' ') == " " && Padding(12, 2, ' ') == "" && Padding(7, 0, ' ') == Padding(12, 0, ' ') == ""
  {
    SmallNumbers();
    assert Repeated(' ', 1) == " " + Repeated(' ', 0) == " ";
  }

  lemma {:induction false} PairText(width: nat, separator: string)
    ensures PrintItems([7, 12], width, ' ', separator)
            == Padding(7, width, ' ') + Decimal(7) + (separator + (Padding(12, width, ' ') + Decimal(12)))
  {
    NextItems([7, 12], width, ' ', separator);
    assert [7, 12][1..] == [12];
    assert PrintItems([12], width, ' ', separator) == Padding(12, width, ' ') + Decimal(12) + "";
  }

  lemma {:induction false} PairWidth()
    ensures MaxWidth([7, 12]) == 2
  {
    SmallNumbers();
    assert [7, 12][1..] == [12] && [12][1..] == [];
    assert MaxWidth([12]) == 2;
  }

  lemma {:induction false} AlignedPair()
    ensures PrintItems([7, 12], 2, ' ', " ") == " 7 12"
  {
    SmallNumbers();
    SmallPaddings();
    PairText(2, " ");
  }

  /** A vector aligned behind its size. */
  lemma {:induction false} AlignedText()
    ensures OneDimSerialize([7, 12], true, DEFAULT) == "2\n 7 12"
  {
    SmallNumbers();
    PairWidth();
    AlignedPair();
    assert PrintRow([7, 12], DEFAULT) == " 7 12";
    assert "2" + "\n" + " 7 12" == "2\n 7 12";
  }

  /** And one as the database has it. */
  lemma {:induction false} DatabaseText()
    ensures OneDimSerialize([7, 12], false, VECTOR_DB_FORMAT) == "{7,12}"
  {
    SmallNumbers();
    SmallPaddings();
    PairText(0, ",");
  }

  // ----- texts in another format

  predicate AllZero(values: seq<Word>) {
    forall i | 0 <= i < |values| :: values[i] == 0
  }

  lemma {:induction false} FailedItems(s: Stream, n: nat, separator: string)
    requires s.failed
    ensures AllZero(ReadItems(s, n, separator).0) && ReadItems(s, n, separator).1 == s
    decreases n
  {
    if n > 1 {
      FailedItems(s, n - 1, separator);
    }
  }

  /** Without the visible prefix in front every value is zero, and there is no exception. */
  lemma {:induction false} PrefixMissing(text: string, n: Word, fmt: EFormat)
    requires !IsOnlyWhitespace(fmt.rowPrefix) && !(fmt.rowPrefix <= text)
    ensures ReadVector(Stream(text, false), Some(n), fmt).0.Some?
    ensures var values := ReadVector(Stream(text, false), Some(n), fmt).0.value; |values| == n && AllZero(values)
    ensures ReadVector(Stream(text, false), Some(n), fmt).1.failed
  {
    var s := TakeDelim(Stream(text, false), fmt.rowPrefix);
    MatchIffNext(text, fmt.rowPrefix);
    FailedItems(s, n, fmt.coeffSeparator);
    if fmt.rowSuffix != "" {
      assert Match(s, fmt.rowSuffix).failed;
    }
  }

  /** Without the visible separator behind the first value the others are zero. */
  lemma {:induction false} SeparatorMissing(text: string, n: nat, separator: string)
    requires n > 1 && !IsOnlyWhitespace(separator)
    requires !ReadWord(Stream(text, false)).1.failed && !(separator <= ReadWord(Stream(text, false)).1.rest)
    ensures var (values, s) := ReadItems(Stream(text, false), n, separator);
            && |values| == n && values[0] == ReadWord(Stream(text, false)).0 && AllZero(values[1..]) && s.failed
  {
    var after := ReadWord(Stream(text, false)).1;
    MatchIffNext(after.rest, separator);
    FailedItems(TakeDelim(after, separator), n - 1, separator);
  }
}

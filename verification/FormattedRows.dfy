/**
 A row of values printed with a format's delimiters, and what a parser reads of it that is told
 no format: white space between the values is passed over, anything else stops it.
 */
module FormattedRows {
  import opened Tables
  import opened Formats
  import Linear
  import Streams

  predicate PartOfNumber(c: char) {
    Streams.IsDigit(c) || 'a' <= c <= 'z' || 'A' <= c <= 'Z' || c == '+' || c == '-' || c == '.'
  }

  /** White space, or text that neither prolongs the number in front nor starts another. */
  predicate Separates(text: string) {
    var visible := Streams.SkipSpaces(text);
    visible == "" || (!PartOfNumber(text[0]) && !PartOfNumber(visible[0]))
  }

  /** Formats whose delimiters can be told from the numbers between them. */
  predicate KeepsNumbersApart(fmt: EFormat) {
    && fmt.coeffSeparator != "" && Separates(fmt.coeffSeparator)
    && Separates(fmt.matPrefix) && Separates(fmt.rowPrefix)
    && Separates(fmt.rowSuffix) && Separates(fmt.matSuffix)
    && (AlignsColumns(fmt) ==> Streams.IsSpace(fmt.fill))
  }

  type RowFormat = fmt: EFormat | KeepsNumbersApart(fmt) witness DEFAULT

  // ----- printing

  /** White space leaves no token of its own. */
  function DelimTokens(text: string): seq<Token> {
    if Streams.AllSpaces(text) then [] else [Word(text)]
  }

  function ItemTokens(values: seq<real>, separator: string): seq<Token> {
    if |values| == 0 then []
    else
      var last := |values| - 1;
      ItemTokens(values[..last], separator) + ((if last == 0 then [] else DelimTokens(separator)) + [Num(values[last])])
  }

  function Before(fmt: RowFormat): seq<Token> {
    DelimTokens(fmt.matPrefix) + DelimTokens(fmt.rowPrefix)
  }

  function After(fmt: RowFormat): seq<Token> {
    DelimTokens(fmt.rowSuffix) + DelimTokens(fmt.matSuffix)
  }

  function RowTokens(values: seq<real>, fmt: RowFormat): seq<Token> {
    if |values| == 0 then DelimTokens(fmt.matPrefix) + DelimTokens(fmt.matSuffix)
    else Before(fmt) + ItemTokens(values, fmt.coeffSeparator) + After(fmt)
  }

  method PutDelim(out: TokenOutput, text: string)
    modifies out
    ensures out.written == old(out.written) + DelimTokens(text)
  {
    if !Streams.AllSpaces(text) {
      out.Put(Word(text));
    }
  }

  lemma RegroupRow(a: seq<Token>, b: seq<Token>, c: seq<Token>, d: seq<Token>, e: seq<Token>, f: seq<Token>)
    ensures a + b + c + d + e + f == a + (b + c + d + (e + f))
    ensures a + b + c == a + (b + c)
  {
  }

  method PutItems(out: TokenOutput, values: seq<real>, separator: string)
    modifies out
    ensures out.written == old(out.written) + ItemTokens(values, separator)
  {
    for i := 0 to |values|
      invariant out.written == old(out.written) + ItemTokens(values[..i], separator)
    {
      ghost var before := out.written;
      if i != 0 {
        PutDelim(out, separator);
      }
      assert out.written == before + if i == 0 then [] else DelimTokens(separator);
      out.Put(Num(values[i]));
      NextItem(old(out.written), values, i, separator);
    }
    assert values[..|values|] == values;
  }

  lemma NextItem(before: seq<Token>, values: seq<real>, i: nat, separator: string)
    requires i < |values|
    ensures before + ItemTokens(values[..i], separator) + (if i == 0 then [] else DelimTokens(separator))
            + [Num(values[i])]
            == before + ItemTokens(values[..i + 1], separator)
  {
    assert values[..i + 1][..i] == values[..i];
  }

  method PutRow(out: TokenOutput, values: seq<real>, fmt: RowFormat)
    modifies out
    ensures out.written == old(out.written) + RowTokens(values, fmt)
  {
    PutDelim(out, fmt.matPrefix);
    if |values| > 0 {
      PutDelim(out, fmt.rowPrefix);
      PutItems(out, values, fmt.coeffSeparator);
      PutDelim(out, fmt.rowSuffix);
    }
    PutDelim(out, fmt.matSuffix);
    RegroupRow(old(out.written), DelimTokens(fmt.matPrefix), DelimTokens(fmt.rowPrefix),
               ItemTokens(values, fmt.coeffSeparator), DelimTokens(fmt.rowSuffix), DelimTokens(fmt.matSuffix));
    RegroupRow(old(out.written), DelimTokens(fmt.matPrefix), DelimTokens(fmt.matSuffix), [], [], []);
  }

  // ----- reading without the format

  predicate StartPasses(fmt: RowFormat) {
    Streams.AllSpaces(fmt.matPrefix) && Streams.AllSpaces(fmt.rowPrefix)
  }

  predicate SeparatorPasses(fmt: RowFormat) {
    Streams.AllSpaces(fmt.coeffSeparator)
  }

  /** What arrives: nothing behind a visible prefix, one value before a visible separator. */
  function Kept(values: seq<real>, fmt: RowFormat): (kept: seq<real>)
    ensures |kept| == |values|
  {
    if !StartPasses(fmt) then Linear.Zeros(|values|)
    else if SeparatorPasses(fmt) || |values| == 0 then values
    else [values[0]] + Linear.Zeros(|values| - 1)
  }

  lemma {:induction false} FailedReads(s: Source, k: nat)
    requires s.failed
    ensures ReadReals(s, k) == (Linear.Zeros(k), s)
    decreases k
  {
    if k > 0 {
      FailedReads(s, k - 1);
      assert Linear.Zeros(k - 1) + [0.0] == Linear.Zeros(k);
    }
  }

  lemma {:induction false} BlockedReads(s: Source, k: nat)
    requires !s.failed && k > 0
    requires |SkipLineEnds(s.rest)| > 0 && SkipLineEnds(s.rest)[0].Word?
    ensures ReadReals(s, k).0 == Linear.Zeros(k) && ReadReals(s, k).1.failed
  {
    ReadRealsSplit(s, 1, k - 1);
    assert ReadReals(s, 0) == ([], s);
    assert ReadReals(s, 1).0 == [0.0] && ReadReals(s, 1).1.failed;
    FailedReads(ReadReals(s, 1).1, k - 1);
    assert [0.0] + Linear.Zeros(k - 1) == Linear.Zeros(k);
  }

  lemma {:induction false} PassingItems(values: seq<real>, separator: string)
    requires Streams.AllSpaces(separator)
    ensures ItemTokens(values, separator) == Nums(values)
    decreases |values|
  {
    if |values| > 0 {
      PassingItems(values[..|values| - 1], separator);
    }
  }

  lemma {:induction false} FirstItems(values: seq<real>, separator: string)
    requires |values| > 0
    ensures var t := ItemTokens(values, separator);
            && |t| > 0 && t[0] == Num(values[0])
            && (|values| > 1 && !Streams.AllSpaces(separator) ==> |t| > 1 && t[1] == Word(separator))
    decreases |values|
  {
    if |values| > 1 {
      FirstItems(values[..|values| - 1], separator);
      if |values| == 2 {
        assert values[..1][..0] == [];
        assert ItemTokens(values[..1], separator) == [Num(values[0])];
      }
    }
  }

  lemma BlockedOnLine(rest: seq<Token>, tokens: seq<Token>)
    requires OnLine(rest, tokens) && |tokens| > 0 && tokens[0].Word?
    ensures SkipLineEnds(rest) == tokens
  {
    if rest != tokens {
      assert rest[1..] == tokens;
    }
  }

  lemma {:induction false} BlockedBySeparator(rest: seq<Token>, values: seq<real>, separator: string, tail: seq<Token>)
    requires |values| > 0 && !Streams.AllSpaces(separator)
    requires OnLine(rest, ItemTokens(values, separator) + tail)
    ensures ReadReals(Source(rest, false), |values|).0 == [values[0]] + Linear.Zeros(|values| - 1)
  {
    var t, s := ItemTokens(values, separator), Source(rest, false);
    var behind := t[1..] + tail;
    FirstItems(values, separator);
    FirstToken(t, values[0], tail);
    ReadOnLine(rest, [values[0]], behind);
    ReadRealsSplit(s, 1, |values| - 1);
    if |values| > 1 {
      assert SkipLineEnds(behind) == behind;
      BlockedReads(Source(behind, false), |values| - 1);
    }
  }

  lemma FirstToken(t: seq<Token>, x: real, tail: seq<Token>)
    requires |t| > 0 && t[0] == Num(x)
    ensures t + tail == Nums([x]) + (t[1..] + tail)
  {
    assert Nums([x]) == [Num(x)] && t == [t[0]] + t[1..];
  }

  lemma RowAhead(values: seq<real>, fmt: RowFormat, tail: seq<Token>)
    requires |values| > 0
    ensures RowTokens(values, fmt) + tail
            == Before(fmt) + (ItemTokens(values, fmt.coeffSeparator) + (After(fmt) + tail))
    ensures StartPasses(fmt) ==>
              RowTokens(values, fmt) + tail == ItemTokens(values, fmt.coeffSeparator) + (After(fmt) + tail)
    ensures !StartPasses(fmt) ==> |RowTokens(values, fmt) + tail| > 0 && (RowTokens(values, fmt) + tail)[0].Word?
  {
    var items := ItemTokens(values, fmt.coeffSeparator);
    assert RowTokens(values, fmt) + tail == Before(fmt) + (items + (After(fmt) + tail));
    assert StartPasses(fmt) ==> Before(fmt) == [];
    assert !StartPasses(fmt) ==> |Before(fmt)| > 0 && Before(fmt)[0].Word?;
  }

  /** A row is read as what arrives of it; if its delimiters pass, the input is left behind it. */
  lemma {:induction false} RowReadBack(rest: seq<Token>, values: seq<real>, fmt: RowFormat, tail: seq<Token>)
    requires |values| > 0 && OnLine(rest, RowTokens(values, fmt) + tail)
    ensures ReadReals(Source(rest, false), |values|).0 == Kept(values, fmt)
    ensures StartPasses(fmt) && SeparatorPasses(fmt) ==>
              ReadReals(Source(rest, false), |values|).1 == Source(After(fmt) + tail, false)
  {
    RowAhead(values, fmt, tail);
    if !StartPasses(fmt) {
      BlockedOnLine(rest, RowTokens(values, fmt) + tail);
      BlockedReads(Source(rest, false), |values|);
    } else if SeparatorPasses(fmt) {
      PassingItems(values, fmt.coeffSeparator);
      ReadOnLine(rest, values, After(fmt) + tail);
    } else {
      BlockedBySeparator(rest, values, fmt.coeffSeparator, After(fmt) + tail);
    }
  }

  /** All of a row arrives if its delimiters are white space, or if what they cut off is zero anyway. */
  lemma KeptIff(values: seq<real>, fmt: RowFormat)
    requires |values| > 0
    ensures Kept(values, fmt) == values <==>
              && (StartPasses(fmt) || values == Linear.Zeros(|values|))
              && (SeparatorPasses(fmt) || values[1..] == Linear.Zeros(|values| - 1))
  {
    assert Linear.Zeros(|values|)[1..] == Linear.Zeros(|values| - 1);
    assert values == [values[0]] + values[1..];
  }

  /** The formats that can be used with every row are those of white space. */
  lemma FormatKeepsIff(n: nat, fmt: RowFormat)
    requires n > 1
    ensures (forall values: seq<real> | |values| == n :: Kept(values, fmt) == values)
            <==> StartPasses(fmt) && SeparatorPasses(fmt)
  {
    var ones := seq(n, _ => 1.0);
    KeptIff(ones, fmt);
    assert ones[1] != Linear.Zeros(n)[1] && ones[1..][0] != Linear.Zeros(n - 1)[0];
  }
}

/** The text format description, its own printed form, and delimiters. */
module Formats {
  import opened Outcomes
  import opened Streams

  datatype EFormat = EFormat(
    precision: Int32, flags: Int32,
    coeffSeparator: string, rowSeparator: string, rowPrefix: string, rowSuffix: string,
    matPrefix: string, matSuffix: string, fill: char)

  /** Columns are padded to a common width unless the format says not to. */
  predicate AlignsColumns(fmt: EFormat) {
    fmt.flags % 2 == 0
  }

  /** The precision of the stream is left as it is. */
  const STREAM_PRECISION: Int32 := -1

  const DEFAULT: EFormat := EFormat(STREAM_PRECISION, 0, " ", "\n", "", "", "", "", ' ')
  const VECTOR_FORMAT_1: EFormat := EFormat(STREAM_PRECISION, 1, "\t", "", "", "", "", "\n", ' ')
  const BRACKET_FORMAT: EFormat := EFormat(STREAM_PRECISION, 1, ",", "", "[", "]", "", "\n", ' ')
  const VECTOR_DB_FORMAT: EFormat := EFormat(STREAM_PRECISION, 1, ",", "", "{", "}", "", "", ' ')

  // ----- delimiters

  /** A delimiter of space only is left to number extraction to skip. */
  predicate IsOnlyWhitespace(text: string) {
    text != "" && AllSpaces(text)
  }

  /** Character by character; the one that does not match is consumed, and the fail bit set. */
  function Match(s: Stream, delim: string): Stream
    decreases |delim|
  {
    if delim == "" then s
    else if s.failed || s.rest == "" then Stream(s.rest, true)
    else if s.rest[0] != delim[0] then Stream(s.rest[1..], true)
    else Match(Stream(s.rest[1..], false), delim[1..])
  }

  function TakeDelim(s: Stream, delim: string): Stream {
    if IsOnlyWhitespace(delim) then s else Match(s, delim)
  }

  lemma {:induction false} MatchExact(delim: string, rest: string)
    ensures Match(Stream(delim + rest, false), delim) == Stream(rest, false)
  {
    if delim == "" {
      assert delim + rest == rest;
    } else {
      assert (delim + rest)[1..] == delim[1..] + rest;
      MatchExact(delim[1..], rest);
    }
  }

  /** How far two texts agree. */
  function CommonLength(a: string, b: string): (k: nat)
    ensures k <= |a| && k <= |b| && a[..k] == b[..k]
    ensures k < |a| && k < |b| ==> a[k] != b[k]
  {
    if a == "" || b == "" || a[0] != b[0] then 0 else 1 + CommonLength(a[1..], b[1..])
  }

  /** A delimiter is matched exactly if it is what comes next, and then it is consumed. */
  lemma {:induction false} MatchIffNext(text: string, delim: string)
    ensures !Match(Stream(text, false), delim).failed <==> delim <= text
    ensures delim <= text ==> Match(Stream(text, false), delim).rest == text[|delim|..]
    decreases |delim|
  {
    if delim != "" && text != "" && text[0] == delim[0] {
      MatchIffNext(text[1..], delim[1..]);
      PrefixBehindFirst(text, delim);
    }
  }

  lemma PrefixBehindFirst(text: string, delim: string)
    requires delim != "" && text != "" && text[0] == delim[0]
    ensures delim[1..] <= text[1..] <==> delim <= text
  {
    assert text == [text[0]] + text[1..] && delim == [delim[0]] + delim[1..];
  }

  /** Otherwise everything up to and including the first character that differs is consumed. */
  lemma {:induction false} MatchStops(text: string, delim: string)
    requires !(delim <= text)
    ensures var k := CommonLength(text, delim);
            Match(Stream(text, false), delim).rest == if k < |text| then text[k + 1..] else ""
    decreases |delim|
  {
    if text != "" && text[0] == delim[0] {
      PrefixBehindFirst(text, delim);
      MatchStops(text[1..], delim[1..]);
    }
  }

  /** The extraction loop; the result says whether every character has matched. */
  method ParseDelim(input: InputStream, delim: string) returns (matched: bool)
    modifies input
    ensures input.State() == TakeDelim(old(input.State()), delim)
    ensures matched == !input.failed
  {
    if IsOnlyWhitespace(delim) {
      return !input.failed;
    }
    var i := 0;
    while i < |delim|
      invariant 0 <= i <= |delim|
      invariant Match(input.State(), delim[i..]) == Match(old(input.State()), delim)
    {
      assert delim[i..][0] == delim[i] && delim[i..][1..] == delim[i + 1..];
      var c := input.GetChar();
      if c == None || c.value != delim[i] {
        input.failed := true;
        return false;
      }
      i := i + 1;
    }
    return !input.failed;
  }

  // ----- quoted strings

  function Escaped(s: string): string {
    if s == "" then ""
    else (if s[0] == '"' || s[0] == '\\' then ['\\', s[0]] else [s[0]]) + Escaped(s[1..])
  }

  function Quoted(s: string): string {
    "\"" + Escaped(s) + "\""
  }

  /** One backslash is added for each quote and each backslash, and nothing else. */
  lemma {:induction false} EscapedLength(s: string)
    ensures |Escaped(s)| == |s| + multiset(s)['"'] + multiset(s)['\\']
  {
    if s != "" {
      assert s == [s[0]] + s[1..];
      EscapedLength(s[1..]);
    }
  }

  /** Up to the closing quote; a backslash takes the next character as it input. */
  function Unescape(rest: string): (string, Stream)
    decreases |rest|
  {
    if rest == "" then ("", Stream("", true))
    else if rest[0] == '"' then ("", Stream(rest[1..], false))
    else if rest[0] == '\\' then
      if |rest| == 1 then ("", Stream("", true))
      else var (s, t) := Unescape(rest[2..]); ([rest[1]] + s, t)
    else var (s, t) := Unescape(rest[1..]); ([rest[0]] + s, t)
  }

  function WordLength(s: string): (k: nat)
    ensures k <= |s|
    ensures forall i | 0 <= i < k :: !IsSpace(s[i])
    ensures k < |s| ==> IsSpace(s[k])
  {
    if s == "" || IsSpace(s[0]) then 0 else 1 + WordLength(s[1..])
  }

  /** Without an opening quote a plain word is read instead. */
  function ReadQuoted(s: Stream): (string, Stream) {
    if s.failed then ("", s)
    else
      var text := SkipSpaces(s.rest);
      if text == "" then ("", Stream("", true))
      else if text[0] == '"' then Unescape(text[1..])
      else (text[..WordLength(text)], Stream(text[WordLength(text)..], false))
  }

  lemma {:induction false} UnescapeEscaped(s: string, rest: string)
    ensures Unescape(Escaped(s) + "\"" + rest) == (s, Stream(rest, false))
  {
    var text := Escaped(s) + "\"" + rest;
    if s == "" {
      assert text == "\"" + rest;
      assert text[1..] == rest;
    } else {
      var tail := Escaped(s[1..]) + "\"" + rest;
      assert s == [s[0]] + s[1..];
      UnescapeEscaped(s[1..], rest);
      if s[0] == '"' || s[0] == '\\' {
        assert text == ['\\', s[0]] + tail;
        assert text[2..] == tail;
      } else {
        assert text == [s[0]] + tail;
        assert text[1..] == tail;
      }
    }
  }

  /** Any string comes back from its quoted form, quotes, backslashes and newlines included. */
  lemma {:induction false} ReadQuotedBack(spaces: string, s: string, rest: string)
    requires AllSpaces(spaces)
    ensures ReadQuoted(Stream(spaces + Quoted(s) + rest, false)) == (s, Stream(rest, false))
  {
    var text := Quoted(s) + rest;
    assert spaces + Quoted(s) + rest == spaces + text;
    SkipSpacesOver(spaces, text);
    QuotedText(s, rest);
    UnescapeEscaped(s, rest);
  }

  lemma QuotedText(s: string, rest: string)
    ensures (Quoted(s) + rest)[0] == '"' && (Quoted(s) + rest)[1..] == Escaped(s) + "\"" + rest
  {
    assert Quoted(s) + rest == "\"" + (Escaped(s) + "\"" + rest);
  }

  // ----- the format's own stream operators

  /** The seven strings in printing order. */
  function Strings(fmt: EFormat): (strings: seq<string>)
    ensures |strings| == 7
  {
    [fmt.coeffSeparator, fmt.rowSeparator, fmt.rowPrefix, fmt.rowSuffix, fmt.matPrefix, fmt.matSuffix, [fmt.fill]]
  }

  function PrintStrings(strings: seq<string>): string {
    if |strings| == 0 then "" else " " + Quoted(strings[0]) + PrintStrings(strings[1..])
  }

  function PrintFormat(fmt: EFormat): string {
    PrintInt(fmt.precision) + " " + PrintInt(fmt.flags) + PrintStrings(Strings(fmt))
  }

  function ReadStrings(s: Stream, n: nat): (r: (seq<string>, Stream))
    ensures |r.0| == n
    decreases n
  {
    if n == 0 then ([], s)
    else
      var (first, s1) := ReadQuoted(s);
      var (others, s2) := ReadStrings(s1, n - 1);
      ([first] + others, s2)
  }

  /** The fill must be a single character; otherwise the fail bit is set and nothing is stored. */
  function ReadFormat(s: Stream): (Option<EFormat>, Stream) {
    var (precision, s1) := ReadInt(s);
    var (flags, s2) := ReadInt(s1);
    var (t, s3) := ReadStrings(s2, 7);
    if |t[6]| != 1 then (None, Stream(s3.rest, true))
    else (Some(EFormat(precision, flags, t[0], t[1], t[2], t[3], t[4], t[5], t[6][0])), s3)
  }

  lemma PrintStringsFirst(strings: seq<string>, rest: string)
    requires |strings| > 0
    ensures PrintStrings(strings) + rest == " " + Quoted(strings[0]) + (PrintStrings(strings[1..]) + rest)
  {
  }

  lemma {:induction false} ReadStringsBack(strings: seq<string>, rest: string)
    ensures ReadStrings(Stream(PrintStrings(strings) + rest, false), |strings|) == (strings, Stream(rest, false))
  {
    if |strings| == 0 {
      assert PrintStrings(strings) + rest == rest;
    } else {
      var more := PrintStrings(strings[1..]) + rest;
      PrintStringsFirst(strings, rest);
      ReadQuotedBack(" ", strings[0], more);
      ReadStringsBack(strings[1..], rest);
      assert strings == [strings[0]] + strings[1..];
    }
  }

  lemma PrintedBefore(s: string, others: seq<string>)
    ensures PrintStrings([s] + others) == " " + Quoted(s) + PrintStrings(others)
  {
    assert ([s] + others)[1..] == others;
  }

  lemma {:induction false} LastThree(e: string, f: string, g: string)
    ensures PrintStrings([e, f, g]) == " " + Quoted(e) + (" " + Quoted(f) + (" " + Quoted(g)))
  {
    PrintedBefore(g, []);
    PrintedBefore(f, [g]);
    PrintedBefore(e, [f, g]);
    assert [g] + [] == [g] && [f] + [g] == [f, g] && [e] + [f, g] == [e, f, g];
    assert PrintStrings([]) == "" && " " + Quoted(g) + "" == " " + Quoted(g);
  }

  lemma {:induction false} SevenStrings(a: string, b: string, c: string, d: string, e: string, f: string, g: string)
    ensures PrintStrings([a, b, c, d, e, f, g])
            == " " + Quoted(a) + (" " + Quoted(b) + (" " + Quoted(c) + (" " + Quoted(d)
               + (" " + Quoted(e) + (" " + Quoted(f) + (" " + Quoted(g)))))))
  {
    LastThree(e, f, g);
    PrintedBefore(d, [e, f, g]);
    PrintedBefore(c, [d, e, f, g]);
    PrintedBefore(b, [c, d, e, f, g]);
    PrintedBefore(a, [b, c, d, e, f, g]);
    assert [d] + [e, f, g] == [d, e, f, g] && [c] + [d, e, f, g] == [c, d, e, f, g];
    assert [b] + [c, d, e, f, g] == [b, c, d, e, f, g] && [a] + [b, c, d, e, f, g] == [a, b, c, d, e, f, g];
  }

  /** The fields in the order of the description: two numbers and seven quoted strings. */
  lemma {:induction false} FormatText(fmt: EFormat)
    ensures PrintFormat(fmt)
            == PrintInt(fmt.precision) + " " + PrintInt(fmt.flags)
               + (" " + Quoted(fmt.coeffSeparator) + (" " + Quoted(fmt.rowSeparator)
                  + (" " + Quoted(fmt.rowPrefix) + (" " + Quoted(fmt.rowSuffix) + (" " + Quoted(fmt.matPrefix)
                     + (" " + Quoted(fmt.matSuffix) + (" " + Quoted([fmt.fill]))))))))
  {
    SevenStrings(fmt.coeffSeparator, fmt.rowSeparator, fmt.rowPrefix, fmt.rowSuffix, fmt.matPrefix, fmt.matSuffix,
                 [fmt.fill]);
  }

  /** Every format description is read back as it was printed, whatever its strings contain. */
  lemma {:induction false} FormatRoundTrip(fmt: EFormat, rest: string)
    ensures ReadFormat(Stream(PrintFormat(fmt) + rest, false)) == (Some(fmt), Stream(rest, false))
  {
    var strings := PrintStrings(Strings(fmt)) + rest;
    var flags := " " + PrintInt(fmt.flags) + strings;
    assert PrintFormat(fmt) + rest == "" + PrintInt(fmt.precision) + flags;
    ReadPrintedInt("", fmt.precision, flags);
    assert strings[0] == ' ';
    ReadPrintedInt(" ", fmt.flags, strings);
    ReadStringsBack(Strings(fmt), rest);
  }
}

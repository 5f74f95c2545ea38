/**
 Which printing formats the parser can do without knowing: reading with the default format, as
 meshes and solutions are, gives every vector back exactly if the format is transparent.
 */
module VectorFormats {
  import opened MachineWords
  import opened Outcomes
  import opened Streams
  import opened Formats
  import opened Vectors

  predicate AllZeros(s: string) {
    forall i | 0 <= i < |s| :: s[i] == '0'
  }

  function PlusLength(s: string): (k: nat)
    ensures k <= |s|
  {
    if s != "" && s[0] == '+' then 1 else 0
  }

  /** Text in front of a number that does not change its value: space, a plus sign, zeros. */
  predicate Skippable(p: string) {
    var t := SkipSpaces(p);
    AllZeros(t[PlusLength(t)..])
  }

  /** The same for text behind which the number may be padded. */
  predicate SkippablePadded(p: string, fill: char) {
    Skippable(p) && (fill == '0' || (IsSpace(fill) && AllSpaces(p)))
  }

  predicate Passed(p: string, fmt: EFormat) {
    if AlignsColumns(fmt) then SkippablePadded(p, fmt.fill) else Skippable(p)
  }

  function Lead(fmt: EFormat): string {
    fmt.matPrefix + fmt.rowPrefix
  }

  function Behind(fmt: EFormat, rest: string): string {
    fmt.rowSuffix + fmt.matSuffix + rest
  }

  /** What the default parser needs of a format, and of the text behind the row. */
  predicate Transparent(fmt: EFormat, rest: string) {
    && Passed(Lead(fmt), fmt) && Passed(fmt.coeffSeparator, fmt)
    && fmt.coeffSeparator != "" && !IsDigit(fmt.coeffSeparator[0])
    && !StartsWithDigit(Behind(fmt, rest))
  }

  // ----- space and digits

  lemma {:induction false} SkipSpacesFront(p: string, x: string)
    requires SkipSpaces(p) != "" || (x != "" && !IsSpace(x[0]))
    ensures SkipSpaces(p + x) == SkipSpaces(p) + x
    decreases |p|
  {
    if p == "" {
      assert p + x == x;
    } else if IsSpace(p[0]) {
      assert (p + x)[1..] == p[1..] + x;
      SkipSpacesFront(p[1..], x);
    }
  }

  lemma AllSkipped(p: string)
    ensures SkipSpaces(p) == "" <==> AllSpaces(p)
  {
    if AllSpaces(p) {
      SkipSpacesOver(p, "");
      assert p + "" == p;
    } else {
      SomeVisible(p);
    }
  }

  lemma {:induction false} SomeVisible(p: string)
    requires !AllSpaces(p)
    ensures SkipSpaces(p) != ""
  {
    if IsSpace(p[0]) {
      assert forall i | 1 <= i < |p| :: p[i] == p[1..][i - 1];
      SomeVisible(p[1..]);
    }
  }

  predicate AllDigits(s: string) {
    forall i | 0 <= i < |s| :: IsDigit(s[i])
  }

  lemma NatOfNext(a: string, c: char)
    requires AllDigits(a) && IsDigit(c)
    ensures AllDigits(a + [c]) && NatOf(a + [c]) == 10 * NatOf(a) + DigitValue(c)
  {
    assert (a + [c])[..|a|] == a;
  }

  lemma {:induction false} NatOfZeros(z: string, d: string)
    requires AllZeros(z) && AllDigits(d)
    ensures AllDigits(z + d) && NatOf(z + d) == NatOf(d)
    decreases |z| + |d|
  {
    if d != "" {
      var last := |d| - 1;
      NatOfZeros(z, d[..last]);
      NatOfNext(z + d[..last], d[last]);
      assert z + d == z + d[..last] + [d[last]];
    } else if z != "" {
      var last := |z| - 1;
      NatOfZeros(z[..last], "");
      assert z[..last] + "" == z[..last] && z + "" == z;
    }
  }

  lemma {:induction false} ZeroIsZeros(u: string)
    requires AllDigits(u) && NatOf(u) == 0
    ensures AllZeros(u)
  {
    if u != "" {
      var last := |u| - 1;
      ZeroIsZeros(u[..last]);
      assert u == u[..last] + [u[last]];
    }
  }

  /** More digits behind a number make it larger, and keep a larger one larger. */
  lemma {:induction false} DigitsBehind(a: string, b: string, d: string)
    requires AllDigits(a) && AllDigits(b) && AllDigits(d) && NatOf(a) < NatOf(b)
    ensures AllDigits(a + d) && AllDigits(b + d) && NatOf(a + d) < NatOf(b + d)
    ensures d != "" ==> NatOf(a + d) >= 10 * NatOf(a)
    ensures NatOf(a + d) >= NatOf(a)
    decreases |d|
  {
    if d == "" {
      assert a + d == a && b + d == b;
    } else {
      var last := |d| - 1;
      DigitsBehind(a, b, d[..last]);
      NatOfNext(a + d[..last], d[last]);
      NatOfNext(b + d[..last], d[last]);
      assert a + d == a + d[..last] + [d[last]] && b + d == b + d[..last] + [d[last]];
    }
  }

  // ----- transparent formats are read back

  /** The number at the front of a text taken apart. */
  lemma {:induction false} NumberAt(s: string, t: string, digits: string, behind: string)
    requires SkipSpaces(s) == t && t[SignLength(t)..] == digits + behind
    requires digits != "" && AllDigits(digits) && !StartsWithDigit(behind)
    ensures ReadWord(Stream(s, false)) == Signed(NatOf(digits), t != "" && t[0] == '-', behind)
  {
    var sign := SignLength(t);
    DigitRunExact(digits, behind);
    assert (digits + behind)[..|digits|] == digits && (digits + behind)[|digits|..] == behind;
    assert t[sign + |digits|..] == t[sign..][|digits|..];
  }

  function Signed(n: nat, negative: bool, behind: string): (Word, Stream) {
    if n >= WORD_RANGE then (WORD_RANGE - 1, Stream(behind, true))
    else (if negative then SubWord(0, n) else n, Stream(behind, false))
  }

  lemma {:induction false} ReadBehindSkippable(p: string, n: Word, rest: string)
    requires Skippable(p) && !StartsWithDigit(rest)
    ensures ReadWord(Stream(p + Decimal(n) + rest, false)) == (n, Stream(rest, false))
  {
    var d := Decimal(n);
    var t := SkipSpaces(p);
    var zeros := t[PlusLength(t)..];
    NatOfZeros(zeros, d);
    NatOfDecimal(n);
    SkippedBefore(p, d, rest);
    SignBefore(t, d, rest);
    NumberAt(p + d + rest, t + d + rest, zeros + d, rest);
  }

  lemma {:induction false} SkippedBefore(p: string, d: string, rest: string)
    requires d != "" && AllDigits(d)
    ensures SkipSpaces(p + d + rest) == SkipSpaces(p) + d + rest
  {
    var x := d + rest;
    assert x[0] == d[0];
    assert p + d + rest == p + x && SkipSpaces(p) + d + rest == SkipSpaces(p) + x;
    SkipSpacesFront(p, x);
  }

  /** The sign of a text in front of digits, if it is followed by zeros only. */
  lemma {:induction false} SignBefore(t: string, d: string, rest: string)
    requires d != "" && AllDigits(d) && AllZeros(t[PlusLength(t)..])
    ensures var text := t + d + rest;
            && SignLength(text) == PlusLength(t) && text[0] != '-'
            && text[SignLength(text)..] == (t[PlusLength(t)..] + d) + rest
  {
    var text := t + d + rest;
    assert text[0] == if t == "" then d[0] else t[0];
  }

  lemma {:induction false} PaddingSkippable(p: string, fill: char, k: nat)
    requires Skippable(p) && (k > 0 ==> SkippablePadded(p, fill))
    ensures Skippable(p + Repeated(fill, k))
  {
    var pad := Repeated(fill, k);
    if k == 0 {
      assert p + pad == p;
    } else if fill == '0' {
      SkipSpacesFront(p, pad);
      var t := SkipSpaces(p);
      assert (t + pad)[PlusLength(t + pad)..] == t[PlusLength(t)..] + pad;
    } else {
      AllSkipped(p + pad);
    }
  }

  predicate PassedAt(p: string, width: nat, fill: char) {
    if width > 0 then SkippablePadded(p, fill) else Skippable(p)
  }

  /** A number at the front of every text, and the next text behind it. */
  ghost predicate Chained(texts: seq<string>, values: seq<Word>) {
    && |texts| == |values| + 1
    && forall i | 0 <= i < |values| :: ReadWord(Stream(texts[i], false)) == (values[i], Stream(texts[i + 1], false))
  }

  lemma {:induction false} ChainRead(texts: seq<string>, values: seq<Word>)
    requires |values| > 0 && Chained(texts, values)
    ensures ReadItems(Stream(texts[0], false), |values|, " ") == (values, Stream(texts[|values|], false))
    decreases |values|
  {
    assert TakeDelim(Stream(texts[1], false), " ") == Stream(texts[1], false);
    assert values == [values[0]] + values[1..];
    if |values| == 1 {
      assert values == [values[0]];
    } else {
      assert Chained(texts[1..], values[1..]) by {
        assert forall i | 0 <= i < |values| - 1 :: texts[1..][i] == texts[i + 1] && values[1..][i] == values[i + 1];
      }
      ChainRead(texts[1..], values[1..]);
    }
  }

  function TextFrom(
      lead: string, values: seq<Word>, i: nat, width: nat, fill: char, separator: string, rest: string): string
    requires i <= |values|
  {
    if i == |values| then rest
    else (if i == 0 then lead else separator) + PrintItems(values[i..], width, fill, separator) + rest
  }

  lemma {:induction false} ItemArrives(
      lead: string, values: seq<Word>, i: nat, width: nat, fill: char, separator: string, rest: string)
    requires i < |values| && PassedAt(lead, width, fill) && !StartsWithDigit(rest)
    requires PassedAt(separator, width, fill) && separator != "" && !IsDigit(separator[0])
    ensures ReadWord(Stream(TextFrom(lead, values, i, width, fill, separator, rest), false))
            == (values[i], Stream(TextFrom(lead, values, i + 1, width, fill, separator, rest), false))
  {
    FirstArrives(if i == 0 then lead else separator, values[i..], width, fill, separator, rest);
    assert values[i..][1..] == values[i + 1..];
  }

  lemma {:induction false} ItemsArrive(
      lead: string, values: seq<Word>, width: nat, fill: char, separator: string, rest: string)
    requires |values| > 0 && PassedAt(lead, width, fill) && !StartsWithDigit(rest)
    requires PassedAt(separator, width, fill) && separator != "" && !IsDigit(separator[0])
    ensures ReadItems(Stream(lead + PrintItems(values, width, fill, separator) + rest, false), |values|, " ")
            == (values, Stream(rest, false))
  {
    var n := |values|;
    var texts := seq(n + 1, i requires 0 <= i <= n => TextFrom(lead, values, i, width, fill, separator, rest));
    forall i | 0 <= i < n
      ensures ReadWord(Stream(texts[i], false)) == (values[i], Stream(texts[i + 1], false))
    {
      ItemArrives(lead, values, i, width, fill, separator, rest);
    }
    assert values[0..] == values;
    ChainRead(texts, values);
  }

  lemma {:induction false} FirstArrives(
      lead: string, values: seq<Word>, width: nat, fill: char, separator: string, rest: string)
    requires |values| > 0 && PassedAt(lead, width, fill) && !StartsWithDigit(rest)
    requires separator != "" && !IsDigit(separator[0])
    ensures ReadWord(Stream(lead + PrintItems(values, width, fill, separator) + rest, false))
            == (values[0], Stream(if |values| == 1 then rest
                                  else separator + PrintItems(values[1..], width, fill, separator) + rest, false))
  {
    var pad := Padding(values[0], width, fill);
    PrintedFirst(lead, values, width, fill, separator, rest);
    PaddingSkippable(lead, fill, |pad|);
    if |values| == 1 {
      ReadBehindSkippable(lead + pad, values[0], rest);
    } else {
      var items := PrintItems(values[1..], width, fill, separator);
      FirstOf(separator, items + rest);
      ReadBehindSkippable(lead + pad, values[0], separator + (items + rest));
      Associate(separator, items, rest);
    }
  }

  lemma Associate(a: string, b: string, c: string)
    ensures a + (b + c) == a + b + c
  {
  }

  /** The parser with its default format, told the size, returns the vector that was printed. */
  ghost predicate Arrives(values: seq<Word>, fmt: EFormat, rest: string) {
    0 < |values| < WORD_RANGE ==>
      ReadVector(Stream(PrintRow(values, fmt) + rest, false), Some(|values|), DEFAULT).0 == Some(values)
  }

  function WidthOf(values: seq<Word>, fmt: EFormat): nat {
    if AlignsColumns(fmt) then MaxWidth(values) else 0
  }

  lemma {:induction false} DefaultReading(values: seq<Word>, fmt: EFormat, rest: string)
    requires 0 < |values| < WORD_RANGE
    ensures var items := PrintItems(values, WidthOf(values, fmt), fmt.fill, fmt.coeffSeparator);
            var text := Lead(fmt) + items + Behind(fmt, rest);
            && PrintRow(values, fmt) + rest == text
            && ReadVector(Stream(text, false), Some(|values|), DEFAULT).0
               == Some(ReadItems(Stream(text, false), |values|, " ").0)
  {
    var items := PrintItems(values, WidthOf(values, fmt), fmt.fill, fmt.coeffSeparator);
    Joined(fmt.matPrefix, fmt.rowPrefix, items, fmt.rowSuffix, fmt.matSuffix, rest);
  }

  lemma Joined(a: string, b: string, c: string, d: string, e: string, f: string)
    ensures a + b + c + d + e + f == (a + b) + c + (d + e + f)
  {
  }

  lemma {:induction false} TransparentArrives(values: seq<Word>, fmt: EFormat, rest: string)
    requires Transparent(fmt, rest)
    ensures Arrives(values, fmt, rest)
  {
    if 0 < |values| < WORD_RANGE {
      DefaultReading(values, fmt, rest);
      ItemsArrive(Lead(fmt), values, WidthOf(values, fmt), fmt.fill, fmt.coeffSeparator, Behind(fmt, rest));
    }
  }

  // ----- and only they are

  /** Where text in front of the digits stops them short, what is read does not depend on them. */
  lemma {:induction false} StoppedShort(p: string, d: string, rest: string)
    requires d != "" && AllDigits(d)
    requires var t := SkipSpaces(p); DigitRun(t[SignLength(t)..]) < |t[SignLength(t)..]|
    ensures ReadWord(Stream(p + d + rest, false)).0 == ReadWord(Stream(p, false)).0
  {
    var t := SkipSpaces(p);
    var text, u := t + d + rest, t[SignLength(t)..];
    SkippedBefore(p, d, rest);
    assert text[0] == t[0];
    assert text[SignLength(t)..] == u + (d + rest);
    StopsAt(u, d + rest, DigitRun(u));
    SameValue(p + d + rest, p, DigitRun(u));
  }

  lemma {:induction false} StopsAt(u: string, x: string, k: nat)
    requires k == DigitRun(u) < |u|
    ensures DigitRun(u + x) == k && (u + x)[..k] == u[..k]
  {
    assert u + x == u[..k] + (u[k..] + x);
    DigitRunExact(u[..k], u[k..] + x);
  }

  /** The value is that of the sign and the digits. */
  lemma {:induction false} SameValue(a: string, b: string, k: nat)
    requires var t, u := SkipSpaces(a), SkipSpaces(b);
             && SignLength(t) == SignLength(u) && t != "" && u != "" && t[0] == u[0]
             && DigitRun(t[SignLength(t)..]) == DigitRun(u[SignLength(u)..]) == k
             && t[SignLength(t)..][..k] == u[SignLength(u)..][..k]
    ensures ReadWord(Stream(a, false)).0 == ReadWord(Stream(b, false)).0
  {
  }

  /** The value read behind digits only. */
  lemma {:induction false} ValueBehindDigits(p: string, c: char, rest: string, t: string, u: string, d: string)
    requires IsDigit(c) && t == SkipSpaces(p) && u == t[SignLength(t)..] && AllDigits(u)
    requires d == rest[..DigitRun(rest)]
    ensures AllDigits(u + [c] + d)
    ensures ReadWord(Stream(p + [c] + rest, false)).0 == Signed(NatOf(u + [c] + d), t != "" && t[0] == '-', "").0
  {
    var behind, text := rest[|d|..], t + [c] + rest;
    SkippedBefore(p, [c], rest);
    assert text[0] == if t == "" then c else t[0];
    SignKept(t, c, rest, u, d, behind);
    NumberAt(p + [c] + rest, text, u + [c] + d, behind);
  }

  lemma {:induction false} SignKept(t: string, c: char, rest: string, u: string, d: string, behind: string)
    requires IsDigit(c) && u == t[SignLength(t)..] && rest == d + behind
    ensures var text := t + [c] + rest;
            SignLength(text) == SignLength(t) && text[SignLength(text)..] == (u + [c] + d) + behind
  {
    var text := t + [c] + rest;
    assert text[0] == if t == "" then c else t[0];
    assert text == t[..SignLength(t)] + ((u + [c] + d) + behind);
  }

  /** Signs and overflow cannot make a larger number look like one and the next like two. */
  lemma OneAndTwoSigned(n: nat, m: nat, negative: bool)
    requires Signed(n, negative, "").0 == 1 && Signed(m, negative, "").0 == 2 && n < m
    ensures !negative && n == 1
  {
  }

  /** If one and two are both read behind `p`, it is skippable, and no digit follows them. */
  lemma {:induction false} OneAndTwo(p: string, rest: string)
    requires ReadWord(Stream(p + "1" + rest, false)).0 == 1
    requires ReadWord(Stream(p + "2" + rest, false)).0 == 2
    ensures Skippable(p) && !StartsWithDigit(rest)
  {
    var t := SkipSpaces(p);
    var u, d := t[SignLength(t)..], rest[..DigitRun(rest)];
    if DigitRun(u) < |u| {
      StoppedShort(p, "1", rest);
      StoppedShort(p, "2", rest);
    } else {
      OneAndTwoBehindDigits(p, rest, t, u, d);
    }
  }

  lemma {:induction false} OneAndTwoBehindDigits(p: string, rest: string, t: string, u: string, d: string)
    requires t == SkipSpaces(p) && u == t[SignLength(t)..] && AllDigits(u) && d == rest[..DigitRun(rest)]
    requires ReadWord(Stream(p + ['1'] + rest, false)).0 == 1
    requires ReadWord(Stream(p + ['2'] + rest, false)).0 == 2
    ensures Skippable(p) && !StartsWithDigit(rest)
  {
    ValueBehindDigits(p, '1', rest, t, u, d);
    ValueBehindDigits(p, '2', rest, t, u, d);
    OnlyZeros(u, d, t != "" && t[0] == '-');
    assert PlusLength(t) == SignLength(t);
  }

  lemma {:induction false} OnlyZeros(u: string, d: string, negative: bool)
    requires AllDigits(u) && AllDigits(d)
    requires AllDigits(u + ['1'] + d) && AllDigits(u + ['2'] + d)
    requires Signed(NatOf(u + ['1'] + d), negative, "").0 == 1
    requires Signed(NatOf(u + ['2'] + d), negative, "").0 == 2
    ensures !negative && AllZeros(u) && d == ""
  {
    NatOfNext(u, '1');
    NatOfNext(u, '2');
    DigitsBehind(u + ['1'], u + ['2'], d);
    OneAndTwoSigned(NatOf(u + ['1'] + d), NatOf(u + ['2'] + d), negative);
    ZeroIsZeros(u);
  }

  lemma {:induction false} PaddingNecessary(p: string, fill: char)
    requires Skippable(p + [fill, fill])
    ensures fill == '0' || (IsSpace(fill) && AllSpaces(p))
  {
    var pad := [fill, fill];
    AllSkipped(p);
    if !IsSpace(fill) || !AllSpaces(p) {
      SkipSpacesFront(p, pad);
      var t := SkipSpaces(p) + pad;
      assert t[PlusLength(t)..][|t| - PlusLength(t) - 1] == fill;
    }
  }

  lemma DecimalsOf()
    ensures Decimal(1) == "1" && Decimal(2) == "2" && Decimal(100) == "100"
  {
    assert Decimal(10) == Decimal(1) + [DigitChar(0)];
    assert Decimal(100) == Decimal(10) + [DigitChar(0)];
  }

  /** The text printed for two values. */
  lemma {:induction false} PairText(v: Word, w: Word, width: nat, fmt: EFormat, rest: string)
    ensures Lead(fmt) + PrintItems([v, w], width, fmt.fill, fmt.coeffSeparator) + Behind(fmt, rest)
            == Lead(fmt) + Padding(v, width, fmt.fill) + Decimal(v) + Second(w, width, fmt, rest)
  {
    var values, sep, behind := [v, w], fmt.coeffSeparator, Behind(fmt, rest);
    assert values[1..] == [w];
    PrintedFirst(Lead(fmt), values, width, fmt.fill, sep, behind);
    PrintedFirst("", [w], width, fmt.fill, sep, behind);
    var items := PrintItems([w], width, fmt.fill, sep);
    assert "" + items == items && "" + Padding(w, width, fmt.fill) == Padding(w, width, fmt.fill);
    Associate(Padding(w, width, fmt.fill), Decimal(w), behind);
  }

  function Second(w: Word, width: nat, fmt: EFormat, rest: string): string {
    fmt.coeffSeparator + (Padding(w, width, fmt.fill) + Decimal(w) + Behind(fmt, rest))
  }

  /** What reading two printed values takes. */
  lemma {:induction false} PairArrives(v: Word, w: Word, fmt: EFormat, rest: string, width: nat)
    requires Arrives([v, w], fmt, rest) && width == WidthOf([v, w], fmt)
    ensures var text := Lead(fmt) + Padding(v, width, fmt.fill) + Decimal(v) + Second(w, width, fmt, rest);
            var (first, s) := ReadWord(Stream(text, false));
            first == v && ReadWord(s).0 == w
  {
    DefaultReading([v, w], fmt, rest);
    PairText(v, w, width, fmt, rest);
    ReadTwo(Stream(Lead(fmt) + Padding(v, width, fmt.fill) + Decimal(v) + Second(w, width, fmt, rest), false));
  }

  lemma ReadTwo(s: Stream)
    ensures ReadItems(s, 2, " ").0 == [ReadWord(s).0, ReadWord(ReadWord(s).1).0]
  {
    assert TakeDelim(ReadWord(s).1, " ") == ReadWord(s).1;
    assert ReadItems(ReadWord(s).1, 1, " ").0 == [ReadWord(ReadWord(s).1).0];
  }

  lemma {:induction false} WidthOfPair(v: Word, w: Word)
    ensures MaxWidth([v, w]) == if |Decimal(v)| < |Decimal(w)| then |Decimal(w)| else |Decimal(v)|
  {
    assert [v, w][1..] == [w] && [w][1..] == [];
    assert MaxWidth([w]) == |Decimal(w)|;
  }

  /** Two numbers of one digit are printed without padding. */
  lemma {:induction false} ShortPair(v: Word, w: Word, fmt: EFormat, rest: string)
    requires Arrives([v, w], fmt, rest) && |Decimal(v)| == |Decimal(w)| == 1
    ensures var second := fmt.coeffSeparator + Decimal(w) + Behind(fmt, rest);
            var (first, s) := ReadWord(Stream(Lead(fmt) + Decimal(v) + second, false));
            first == v && ReadWord(s).0 == w
  {
    var width := WidthOf([v, w], fmt);
    WidthOfPair(v, w);
    PairArrives(v, w, fmt, rest, width);
    assert Padding(v, width, fmt.fill) == "" && Padding(w, width, fmt.fill) == "";
    assert Lead(fmt) + "" == Lead(fmt) && "" + Decimal(w) == Decimal(w);
    Associate(fmt.coeffSeparator, Decimal(w), Behind(fmt, rest));
  }

  /** Without padding: both delimiters are skippable, and nothing prolongs a number. */
  lemma {:induction false} ArrivingIsSkippable(fmt: EFormat, rest: string)
    requires forall values: seq<Word> :: Arrives(values, fmt, rest)
    ensures Skippable(Lead(fmt)) && Skippable(fmt.coeffSeparator)
    ensures fmt.coeffSeparator != "" && !IsDigit(fmt.coeffSeparator[0]) && !StartsWithDigit(Behind(fmt, rest))
  {
    DecimalsOf();
    var sep, behind := fmt.coeffSeparator, Behind(fmt, rest);
    assert Arrives([1, 1], fmt, rest) && Arrives([2, 1], fmt, rest) && Arrives([1, 2], fmt, rest);
    ShortPair(1, 1, fmt, rest);
    ShortPair(2, 1, fmt, rest);
    ShortPair(1, 2, fmt, rest);
    OneAndTwo(Lead(fmt), sep + "1" + behind);
    SeparatorFirst(sep, "1", "2", behind);
    ReadBehindSkippable(Lead(fmt), 1, sep + "1" + behind);
    ReadBehindSkippable(Lead(fmt), 1, sep + "2" + behind);
    OneAndTwo(sep, behind);
  }

  lemma SeparatorFirst(separator: string, x: string, y: string, rest: string)
    requires x != "" && AllDigits(x) && y != "" && !StartsWithDigit(separator + x + rest)
    ensures separator != "" && !IsDigit(separator[0]) && !StartsWithDigit(separator + y + rest)
  {
    FirstChar(separator, x, rest);
    FirstChar(separator, y, rest);
  }

  lemma FirstChar(separator: string, x: string, rest: string)
    requires x != ""
    ensures (separator + x + rest)[0] == if separator == "" then x[0] else separator[0]
  {
  }

  lemma {:induction false} PadOfTwo(fmt: EFormat)
    ensures Padding(1, 3, fmt.fill) == Padding(2, 3, fmt.fill) == [fmt.fill, fmt.fill]
            && Padding(100, 3, fmt.fill) == ""
  {
    DecimalsOf();
    assert Repeated(fmt.fill, 1) == [fmt.fill] + Repeated(fmt.fill, 0);
    assert Repeated(fmt.fill, 2) == [fmt.fill] + Repeated(fmt.fill, 1);
  }

  lemma {:induction false} LeadPadded(fmt: EFormat, rest: string)
    requires AlignsColumns(fmt) && Arrives([1, 100], fmt, rest) && Arrives([2, 100], fmt, rest)
    ensures fmt.fill == '0' || (IsSpace(fmt.fill) && AllSpaces(Lead(fmt)))
  {
    DecimalsOf();
    WidthOfPair(1, 100);
    WidthOfPair(2, 100);
    PairArrives(1, 100, fmt, rest, 3);
    PairArrives(2, 100, fmt, rest, 3);
    PadOfTwo(fmt);
    OneAndTwo(Lead(fmt) + [fmt.fill, fmt.fill], Second(100, 3, fmt, rest));
    PaddingNecessary(Lead(fmt), fmt.fill);
  }

  lemma {:induction false} SeparatorPadded(fmt: EFormat, rest: string)
    requires AlignsColumns(fmt) && Arrives([100, 1], fmt, rest) && Arrives([100, 2], fmt, rest)
    requires Skippable(Lead(fmt)) && fmt.coeffSeparator != "" && !IsDigit(fmt.coeffSeparator[0])
    ensures fmt.fill == '0' || (IsSpace(fmt.fill) && AllSpaces(fmt.coeffSeparator))
  {
    DecimalsOf();
    WidthOfPair(100, 1);
    WidthOfPair(100, 2);
    PairArrives(100, 1, fmt, rest, 3);
    PairArrives(100, 2, fmt, rest, 3);
    PadOfTwo(fmt);
    assert Lead(fmt) + "" == Lead(fmt);
    var pad, behind := [fmt.fill, fmt.fill], Behind(fmt, rest);
    ReadBehindSkippable(Lead(fmt), 100, Second(1, 3, fmt, rest));
    ReadBehindSkippable(Lead(fmt), 100, Second(2, 3, fmt, rest));
    SecondText(fmt.coeffSeparator, pad, "1", behind);
    SecondText(fmt.coeffSeparator, pad, "2", behind);
    OneAndTwo(fmt.coeffSeparator + pad, behind);
    PaddingNecessary(fmt.coeffSeparator, fmt.fill);
  }

  lemma SecondText(a: string, b: string, c: string, d: string)
    ensures a + (b + c + d) == (a + b) + c + d
  {
  }

  /**
   Exactly the transparent formats can be read back without being known: of all formats and texts
   behind the row, those in front of whose numbers there is nothing but space, a plus sign and
   zeros, in that order, and behind whose numbers no digit follows.
   */
  lemma {:induction false} DefaultReadsIffTransparent(fmt: EFormat, rest: string)
    ensures (forall values: seq<Word> :: Arrives(values, fmt, rest)) <==> Transparent(fmt, rest)
  {
    if Transparent(fmt, rest) {
      forall values: seq<Word>
        ensures Arrives(values, fmt, rest)
      {
        TransparentArrives(values, fmt, rest);
      }
    }
    if forall values: seq<Word> :: Arrives(values, fmt, rest) {
      ArrivingIsSkippable(fmt, rest);
      if AlignsColumns(fmt) {
        assert Arrives([1, 100], fmt, rest) && Arrives([2, 100], fmt, rest);
        assert Arrives([100, 1], fmt, rest) && Arrives([100, 2], fmt, rest);
        LeadPadded(fmt, rest);
        SeparatorPadded(fmt, rest);
      }
    }
  }
}

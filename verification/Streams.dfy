/** Text streams at character level, as far as the printers and parsers use them. */
module Streams {
  import opened MachineWords
  import opened Outcomes

  /** What is left to read, and whether the fail bit is set. */
  datatype Stream = Stream(rest: string, failed: bool)

  predicate IsSpace(c: char) {
    c == ' ' || '\t' <= c <= '\r'
  }

  predicate IsDigit(c: char) {
    '0' <= c <= '9'
  }

  predicate AllSpaces(s: string) {
    forall i | 0 <= i < |s| :: IsSpace(s[i])
  }

  function SkipSpaces(s: string): (r: string)
    ensures |r| <= |s|
    ensures r != "" ==> !IsSpace(r[0])
  {
    if s != "" && IsSpace(s[0]) then SkipSpaces(s[1..]) else s
  }

  lemma {:induction false} SkipSpacesOver(spaces: string, s: string)
    requires AllSpaces(spaces)
    ensures SkipSpaces(spaces + s) == SkipSpaces(s)
  {
    if spaces == "" {
      assert spaces + s == s;
    } else {
      assert (spaces + s)[1..] == spaces[1..] + s;
      SkipSpacesOver(spaces[1..], s);
    }
  }

  // ----- decimal numbers

  function DigitChar(d: nat): (c: char)
    requires d < 10
    ensures IsDigit(c)
  {
    ('0' as int + d) as char
  }

  function DigitValue(c: char): (d: nat)
    requires IsDigit(c)
    ensures d < 10
  {
    c as int - '0' as int
  }

  function Decimal(n: nat): (s: string)
    ensures s != "" && forall i | 0 <= i < |s| :: IsDigit(s[i])
  {
    if n < 10 then [DigitChar(n)] else Decimal(n / 10) + [DigitChar(n % 10)]
  }

  function NatOf(s: string): nat
    requires forall i | 0 <= i < |s| :: IsDigit(s[i])
  {
    if s == "" then 0 else 10 * NatOf(s[..|s| - 1]) + DigitValue(s[|s| - 1])
  }

  lemma {:induction false} NatOfDecimal(n: nat)
    ensures NatOf(Decimal(n)) == n
  {
    if n < 10 {
      assert [DigitChar(n)][..0] == "";
    } else {
      NatOfDecimal(n / 10);
      var s := Decimal(n);
      assert s[..|s| - 1] == Decimal(n / 10);
    }
  }

  /** The longest run of digits at the front. */
  function DigitRun(s: string): (k: nat)
    ensures k <= |s|
    ensures forall i | 0 <= i < k :: IsDigit(s[i])
    ensures k < |s| ==> !IsDigit(s[k])
  {
    if s == "" || !IsDigit(s[0]) then 0 else 1 + DigitRun(s[1..])
  }

  predicate StartsWithDigit(s: string) {
    s != "" && IsDigit(s[0])
  }

  lemma {:induction false} DigitRunExact(digits: string, rest: string)
    requires forall i | 0 <= i < |digits| :: IsDigit(digits[i])
    requires !StartsWithDigit(rest)
    ensures DigitRun(digits + rest) == |digits|
  {
    if digits == "" {
      assert digits + rest == rest;
    } else {
      assert (digits + rest)[1..] == digits[1..] + rest;
      DigitRunExact(digits[1..], rest);
    }
  }

  /** An optional sign in front of the digits. */
  function SignLength(s: string): (k: nat)
    ensures k <= 1 && k <= |s|
  {
    if s != "" && (s[0] == '-' || s[0] == '+') then 1 else 0
  }

  /**
   Extraction of an unsigned 64-bit number: leading space is skipped, a minus sign negates
   modulo the word, no digits give 0 and too many the largest word, both with the fail bit.
   */
  function ReadWord(s: Stream): (Word, Stream) {
    if s.failed then (0, s)
    else
      var text := SkipSpaces(s.rest);
      var sign := SignLength(text);
      var k := DigitRun(text[sign..]);
      var rest := text[sign + k..];
      if k == 0 then (0, Stream(rest, true))
      else
        var n := NatOf(text[sign..][..k]);
        if n >= WORD_RANGE then (WORD_RANGE - 1, Stream(rest, true))
        else (if sign == 1 && text[0] == '-' then SubWord(0, n) else n, Stream(rest, false))
  }

  type Int32 = x: int | -0x8000_0000 <= x <= 0x7FFF_FFFF

  /** Extraction of a signed 32-bit number. */
  function ReadInt(s: Stream): (Int32, Stream) {
    if s.failed then (0, s) else IntAt(SkipSpaces(s.rest))
  }

  function IntAt(text: string): (Int32, Stream) {
    if text != "" && text[0] == '-' then SignedInt(text[1..], true)
    else if text != "" && text[0] == '+' then SignedInt(text[1..], false)
    else SignedInt(text, false)
  }

  /** The digits behind the sign; out of range gives the nearest bound and the fail bit. */
  function SignedInt(text: string, negative: bool): (Int32, Stream) {
    var k := DigitRun(text);
    if k == 0 then (0, Stream(text, true))
    else
      var n: int := NatOf(text[..k]);
      var v := if negative then -n else n;
      if v > 0x7FFF_FFFF then (0x7FFF_FFFF, Stream(text[k..], true))
      else if v < -0x8000_0000 then (-0x8000_0000, Stream(text[k..], true))
      else (v, Stream(text[k..], false))
  }

  function PrintInt(n: int): string {
    if n < 0 then "-" + Decimal(-n) else Decimal(n)
  }

  lemma DecimalIsText(n: nat, rest: string)
    requires !StartsWithDigit(rest)
    ensures var text := Decimal(n) + rest;
            && SkipSpaces(text) == text && SignLength(text) == 0
            && DigitRun(text) == |Decimal(n)| && text[..|Decimal(n)|] == Decimal(n) && text[|Decimal(n)|..] == rest
  {
    var text := Decimal(n) + rest;
    DigitRunExact(Decimal(n), rest);
    assert text[0] == Decimal(n)[0];
  }

  /** Reading a printed word back, behind any space and in front of anything but a digit. */
  lemma ReadPrintedWord(spaces: string, n: Word, rest: string)
    requires AllSpaces(spaces) && !StartsWithDigit(rest)
    ensures ReadWord(Stream(spaces + Decimal(n) + rest, false)) == (n, Stream(rest, false))
  {
    var text := Decimal(n) + rest;
    assert spaces + Decimal(n) + rest == spaces + text;
    SkipSpacesOver(spaces, text);
    DecimalIsText(n, rest);
    assert text[0..] == text;
    NatOfDecimal(n);
  }

  /** A number too large gives the largest word and the fail bit. */
  lemma ReadTooLarge(spaces: string, n: nat, rest: string)
    requires AllSpaces(spaces) && !StartsWithDigit(rest) && n >= WORD_RANGE
    ensures ReadWord(Stream(spaces + Decimal(n) + rest, false)) == (WORD_RANGE - 1, Stream(rest, true))
  {
    var text := Decimal(n) + rest;
    DecimalIsText(n, rest);
    NatOfDecimal(n);
    assert text[0..] == text;
    assert spaces + Decimal(n) + rest == spaces + text;
    SkipSpacesOver(spaces, text);
  }

  lemma MinusText(digits: string, rest: string)
    ensures var text := "-" + digits + rest;
            && SkipSpaces(text) == text && SignLength(text) == 1 && text[0] == '-'
            && text[1..] == digits + rest && text[1 + |digits|..] == rest
  {
  }

  /** A minus sign negates modulo the word. */
  lemma ReadMinus(spaces: string, n: Word, rest: string)
    requires AllSpaces(spaces) && !StartsWithDigit(rest) && n > 0
    ensures ReadWord(Stream(spaces + ("-" + Decimal(n)) + rest, false)) == (WORD_RANGE - n, Stream(rest, false))
  {
    DecimalIsText(n, rest);
    NatOfDecimal(n);
    MinusText(Decimal(n), rest);
    SkipSpacesOver(spaces, "-" + Decimal(n) + rest);
    assert spaces + ("-" + Decimal(n)) + rest == spaces + ("-" + Decimal(n) + rest);
  }

  /** No digit: nothing is read, and the fail bit is set. */
  lemma ReadNoWord(spaces: string, rest: string)
    requires AllSpaces(spaces) && !StartsWithDigit(rest)
    requires rest != "" ==> !IsSpace(rest[0]) && rest[0] != '-' && rest[0] != '+'
    ensures ReadWord(Stream(spaces + rest, false)) == (0, Stream(rest, true))
  {
    SkipSpacesOver(spaces, rest);
    assert rest[0..] == rest;
  }

  /** The usual decimal digits, without a zero in front. */
  lemma {:induction false} DecimalSpelled(n: nat)
    ensures n > 0 ==> Decimal(n)[0] != '0'
    ensures Decimal(0) == "0" && Decimal(5807) == "5807"
  {
    if n >= 10 {
      DecimalSpelled(n / 10);
    }
    assert Decimal(58) == Decimal(5) + [DigitChar(8)];
    assert Decimal(580) == Decimal(58) + [DigitChar(0)];
    assert Decimal(5807) == Decimal(580) + [DigitChar(7)];
  }

  lemma SignedDecimal(m: nat, v: int, negative: bool, rest: string)
    requires !StartsWithDigit(rest)
    requires v == if negative then 0 - m else m
    requires -0x8000_0000 <= v <= 0x7FFF_FFFF
    ensures SignedInt(Decimal(m) + rest, negative) == (v, Stream(rest, false))
  {
    DecimalIsText(m, rest);
    NatOfDecimal(m);
  }

  lemma ReadNegative(spaces: string, m: nat, v: int, rest: string)
    requires AllSpaces(spaces) && !StartsWithDigit(rest)
    requires v == 0 - m && -0x8000_0000 <= v
    ensures ReadInt(Stream(spaces + ("-" + Decimal(m)) + rest, false)) == (v, Stream(rest, false))
  {
    var text := "-" + Decimal(m) + rest;
    assert spaces + ("-" + Decimal(m)) + rest == spaces + text;
    SkipSpacesOver(spaces, text);
    assert text[0] == '-' && text[1..] == Decimal(m) + rest;
    SignedDecimal(m, v, true, rest);
  }

  lemma ReadNonNegative(spaces: string, m: nat, rest: string)
    requires AllSpaces(spaces) && !StartsWithDigit(rest) && m <= 0x7FFF_FFFF
    ensures ReadInt(Stream(spaces + Decimal(m) + rest, false)) == (m, Stream(rest, false))
  {
    var text := Decimal(m) + rest;
    assert spaces + Decimal(m) + rest == spaces + text;
    SkipSpacesOver(spaces, text);
    DecimalIsText(m, rest);
    assert IsDigit(text[0]);
    SignedDecimal(m, m, false, rest);
  }

  lemma ReadPrintedInt(spaces: string, n: Int32, rest: string)
    requires AllSpaces(spaces) && !StartsWithDigit(rest)
    ensures ReadInt(Stream(spaces + PrintInt(n) + rest, false)) == (n, Stream(rest, false))
  {
    var i: int := n;
    if i < 0 {
      ReadNegative(spaces, 0 - i, i, rest);
    } else {
      ReadNonNegative(spaces, i, rest);
    }
  }

  // ----- the stream object

  class InputStream {
    var rest: string
    var failed: bool

    constructor (text: string)
      ensures State() == Stream(text, false)
    {
      rest, failed := text, false;
    }

    function State(): Stream
      reads this
    {
      Stream(rest, failed)
    }

    method GetWord() returns (n: Word)
      modifies this
      ensures (n, State()) == ReadWord(old(State()))
    {
      var (v, s) := ReadWord(State());
      n := v;
      rest, failed := s.rest, s.failed;
    }

    /** One character without skipping space; at the end of the text the fail bit is set. */
    method GetChar() returns (c: Option<char>)
      modifies this
      ensures old(failed) || old(rest) == "" ==> c == None && rest == old(rest) && failed
      ensures !old(failed) && old(rest) != "" ==> c == Some(old(rest)[0]) && State() == Stream(old(rest)[1..], false)
    {
      if failed || rest == "" {
        failed := true;
        return None;
      }
      c := Some(rest[0]);
      rest := rest[1..];
    }
  }
}

/**
 The texts the two connection-string parsers accept, as a grammar: which strings are scanned, and
 into which fields, of all strings and not only of formatted ones.
 */
module ConnectionGrammar {
  import opened Outcomes
  import opened Streams
  import opened Formats
  import opened ConnectionFormats
  import opened ConnectionStrings

  predicate IsWord(w: string) {
    w != "" && forall i | 0 <= i < |w| :: !IsSpace(w[i])
  }

  /** A word behind a gap, which stops where the text does or a space follows. */
  predicate WordIn(s: string, gap: string, w: string, rest: string) {
    s == gap + w + rest && AllSpaces(gap) && IsWord(w) && EndsWord(rest)
  }

  predicate AreDigits(digits: string) {
    digits != "" && forall i | 0 <= i < |digits| :: IsDigit(digits[i])
  }

  /** A number behind a gap, with as many digits as there are. */
  predicate NumberIn(s: string, gap: string, digits: string, rest: string) {
    s == gap + digits + rest && AllSpaces(gap) && AreDigits(digits) && !StartsWithDigit(rest)
  }

  lemma {:induction false} SpacesAhead(s: string) returns (k: nat)
    ensures k <= |s| && AllSpaces(s[..k]) && s[k..] == SkipSpaces(s)
  {
    k := 0;
    if s != "" && IsSpace(s[0]) {
      var others := SpacesAhead(s[1..]);
      k := others + 1;
      assert forall i | 1 <= i < k :: s[..k][i] == s[1..][..others][i - 1];
      assert s[k..] == s[1..][others..];
    }
  }

  lemma {:induction false} GapAhead(s: string) returns (gap: string)
    ensures AllSpaces(gap) && s == gap + SkipSpaces(s)
  {
    var k := SpacesAhead(s);
    gap := s[..k];
  }

  lemma GapJoins(gap: string, text: string, k: nat)
    requires k <= |text|
    ensures gap + text == gap + text[..k] + text[k..]
  {
    assert text == text[..k] + text[k..];
  }

  /** What is scanned is a word of the text. */
  lemma {:induction false} WordFound(s: string) returns (gap: string)
    requires ScanWord(s).Some?
    ensures WordIn(s, gap, ScanWord(s).value.0, ScanWord(s).value.1)
  {
    gap := GapAhead(s);
    GapJoins(gap, SkipSpaces(s), WordLength(SkipSpaces(s)));
  }

  /** And a word of the text is scanned. */
  lemma {:induction false} WordScanned(s: string, gap: string, w: string, rest: string)
    requires WordIn(s, gap, w, rest)
    ensures ScanWord(s) == Some((w, rest))
  {
    var text := w + rest;
    assert gap + w + rest == gap + text;
    SkipSpacesOver(gap, text);
    assert text[0] == w[0];
    WordLengthExact(w, rest);
  }

  lemma {:induction false} NumberFound(s: string) returns (gap: string, digits: string)
    requires ScanPort(s).Some?
    ensures NumberIn(s, gap, digits, ScanPort(s).value.1) && NatOf(digits) == ScanPort(s).value.0
  {
    gap := GapAhead(s);
    var text := SkipSpaces(s);
    digits := text[..DigitRun(text)];
    GapJoins(gap, text, DigitRun(text));
  }

  lemma {:induction false} NumberScanned(s: string, gap: string, digits: string, rest: string)
    requires NumberIn(s, gap, digits, rest)
    ensures ScanPort(s) == if NatOf(digits) < 0x1_0000_0000 then Some((NatOf(digits), rest)) else None
  {
    var text := digits + rest;
    assert gap + digits + rest == gap + text;
    SkipSpacesOver(gap, text);
    assert text[0] == digits[0];
    DigitRunExact(digits, rest);
    assert text[..|digits|] == digits && text[|digits|..] == rest;
  }

  // ----- PostgreSQL

  /** The texts behind the scheme and behind each of the first four fields, with what separates them. */
  datatype Cuts = Cuts(s: string, s1: string, s2: string, s3: string, s4: string, rest: string, gaps: seq<string>)

  /** Three words, a number and a word, one behind the other. */
  predicate SpellsPostgres(c: Cuts, f: PostgresFields, digits: string) {
    && |c.gaps| == 5
    && WordIn(c.s, c.gaps[0], f.user, c.s1)
    && WordIn(c.s1, c.gaps[1], f.password, c.s2)
    && WordIn(c.s2, c.gaps[2], f.host, c.s3)
    && NumberIn(c.s3, c.gaps[3], digits, c.s4) && NatOf(digits) == f.port
    && WordIn(c.s4, c.gaps[4], f.dbname, c.rest)
  }

  /** The decoded text is the scheme and behind it user, password, host, port and database. */
  ghost predicate IsPostgresText(text: string, f: PostgresFields) {
    exists c: Cuts, digits :: text == "postgresql" + c.s && SpellsPostgres(c, f, digits)
  }

  lemma {:induction false} SpelledIsScanned(c: Cuts, f: PostgresFields, digits: string)
    requires SpellsPostgres(c, f, digits)
    ensures ScanPostgres(c.s) == Some(f)
  {
    WordScanned(c.s, c.gaps[0], f.user, c.s1);
    WordScanned(c.s1, c.gaps[1], f.password, c.s2);
    WordScanned(c.s2, c.gaps[2], f.host, c.s3);
    NumberScanned(c.s3, c.gaps[3], digits, c.s4);
    WordScanned(c.s4, c.gaps[4], f.dbname, c.rest);
  }

  lemma {:induction false} ScannedIsSpelled(s: string) returns (c: Cuts, digits: string)
    requires ScanPostgres(s).Some?
    ensures c.s == s && SpellsPostgres(c, ScanPostgres(s).value, digits)
  {
    var s1 := ScanWord(s).value.1;
    var s2 := ScanWord(s1).value.1;
    var s3 := ScanWord(s2).value.1;
    var s4 := ScanPort(s3).value.1;
    var g0 := WordFound(s);
    var g1 := WordFound(s1);
    var g2 := WordFound(s2);
    var g3, d := NumberFound(s3);
    var g4 := WordFound(s4);
    digits := d;
    c := Cuts(s, s1, s2, s3, s4, ScanWord(s4).value.1, [g0, g1, g2, g3, g4]);
  }

  lemma SchemeAhead(text: string, s: string)
    ensures text == "postgresql" + s <==> |text| >= 10 && text[..10] == "postgresql" && text[10..] == s
  {
    assert |text| >= 10 ==> text == text[..10] + text[10..];
  }

  /** Of all strings exactly these are read, and exactly into these fields. */
  lemma {:induction false} PostgresReadIffSpelled(s: string, f: PostgresFields)
    ensures ParsePostgres(s) == Some(f) <==> IsPostgresText(UrlDecode(s), f)
  {
    var text := UrlDecode(s);
    if ParsePostgres(s) == Some(f) {
      var c, digits := ScannedIsSpelled(text[10..]);
      SchemeAhead(text, c.s);
    }
    if IsPostgresText(text, f) {
      var c: Cuts, digits :| text == "postgresql" + c.s && SpellsPostgres(c, f, digits);
      SchemeAhead(text, c.s);
      SpelledIsScanned(c, f, digits);
    }
  }

  // ----- AMQP

  /** Five words, one behind the other. */
  predicate SpellsAmqp(c: Cuts, scheme: string, user: string, password: string, host: string, port: string) {
    && |c.gaps| == 5
    && WordIn(c.s, c.gaps[0], scheme, c.s1)
    && WordIn(c.s1, c.gaps[1], user, c.s2)
    && WordIn(c.s2, c.gaps[2], password, c.s3)
    && WordIn(c.s3, c.gaps[3], host, c.s4)
    && WordIn(c.s4, c.gaps[4], port, c.rest)
  }

  /** A secure connection is one whose scheme ends in an s. */
  ghost predicate IsAmqpText(text: string, f: AmqpFields) {
    exists c: Cuts, scheme, host, port ::
      && c.s == text && SpellsAmqp(c, scheme, f.user, f.password, host, port)
      && f.hostPort == host + ":" + port && (f.secure <==> scheme[|scheme| - 1] == 's')
  }

  lemma {:induction false} ScannedAmqpIsSpelled(s: string) returns (c: Cuts, scheme: string, host: string, port: string)
    requires ParseAmqp(s).Some?
    ensures var f := ParseAmqp(s).value;
            && c.s == UrlDecode(s) && SpellsAmqp(c, scheme, f.user, f.password, host, port)
            && f.hostPort == host + ":" + port && (f.secure <==> scheme[|scheme| - 1] == 's')
  {
    var s0 := UrlDecode(s);
    var s1 := ScanWord(s0).value.1;
    var s2 := ScanWord(s1).value.1;
    var s3 := ScanWord(s2).value.1;
    var s4 := ScanWord(s3).value.1;
    var g0 := WordFound(s0);
    var g1 := WordFound(s1);
    var g2 := WordFound(s2);
    var g3 := WordFound(s3);
    var g4 := WordFound(s4);
    scheme, host, port := ScanWord(s0).value.0, ScanWord(s3).value.0, ScanWord(s4).value.0;
    c := Cuts(s0, s1, s2, s3, s4, ScanWord(s4).value.1, [g0, g1, g2, g3, g4]);
  }

  lemma {:induction false} SpelledAmqpIsScanned(
      s: string, c: Cuts, scheme: string, user: string, password: string, host: string, port: string)
    requires c.s == UrlDecode(s) && SpellsAmqp(c, scheme, user, password, host, port)
    ensures ParseAmqp(s) == Some(AmqpFields(host + ":" + port, user, password, scheme[|scheme| - 1] == 's'))
  {
    WordScanned(c.s, c.gaps[0], scheme, c.s1);
    WordScanned(c.s1, c.gaps[1], user, c.s2);
    WordScanned(c.s2, c.gaps[2], password, c.s3);
    WordScanned(c.s3, c.gaps[3], host, c.s4);
    WordScanned(c.s4, c.gaps[4], port, c.rest);
  }

  lemma {:induction false} AmqpReadIffSpelled(s: string, f: AmqpFields)
    ensures ParseAmqp(s) == Some(f) <==> IsAmqpText(UrlDecode(s), f)
  {
    if ParseAmqp(s) == Some(f) {
      var c, scheme, host, port := ScannedAmqpIsSpelled(s);
    }
    if IsAmqpText(UrlDecode(s), f) {
      var c: Cuts, scheme, host, port :|
        && c.s == UrlDecode(s) && SpellsAmqp(c, scheme, f.user, f.password, host, port)
        && f.hostPort == host + ":" + port && (f.secure <==> scheme[|scheme| - 1] == 's');
      SpelledAmqpIsScanned(s, c, scheme, f.user, f.password, host, port);
    }
  }

  // ----- the formatted text, by example

  lemma {:induction false} PostgresText()
    ensures FormatPostgres(PostgresFields("me", "pw", "db", 7, "runs")) == "postgresql://me:pw@db:7/runs"
  {
    assert Decimal(7) == "7";
    var credentials := "postgresql://" + "me" + ":" + "pw";
    assert credentials == "postgresql://me:pw";
    var host := credentials + "@" + "db";
    assert host == "postgresql://me:pw@db";
    assert host + ":" + "7" + "/" + "runs" == "postgresql://me:pw@db:7/runs";
  }

  lemma {:induction false} AmqpTexts()
    ensures FormatAmqp(AmqpFields("mq:7", "me", "pw", true)) == "amqps://me:pw@mq:7/"
    ensures FormatAmqp(AmqpFields("mq:7", "me", "pw", false)) == "amqp://me:pw@mq:7/"
  {
    assert "amqps" + "://" + "me" + ":" + "pw" == "amqps://me:pw";
    assert "amqps://me:pw" + "@" + "mq:7" + "/" == "amqps://me:pw@mq:7/";
    assert "amqp" + "://" + "me" + ":" + "pw" == "amqp://me:pw";
    assert "amqp://me:pw" + "@" + "mq:7" + "/" == "amqp://me:pw@mq:7/";
  }

  lemma {:induction false} DelimitersDecoded()
    ensures UrlDecode("/a@b:c?d&e=f#") == " a b c d e f "
  {
  }
}

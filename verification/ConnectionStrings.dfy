/**
 Connection strings: a formatted string cached beside the fields it is made of, and a parser that
 first turns every URL delimiter into a space and then scans words.
 */
module ConnectionStrings {
  import opened Outcomes
  import opened Streams
  import opened Formats
  import opened ConnectionFormats

  predicate IsDelimiter(c: char) {
    c == '/' || c == '@' || c == ':' || c == '?' || c == '&' || c == '=' || c == '#'
  }

  function Decoded(c: char): char {
    if IsDelimiter(c) then ' ' else c
  }

  function UrlDecode(url: string): (s: string)
    ensures |s| == |url| && forall i | 0 <= i < |url| :: s[i] == Decoded(url[i])
  {
    seq(|url|, i requires 0 <= i < |url| => Decoded(url[i]))
  }

  lemma UrlDecodeConcat(a: string, b: string)
    ensures UrlDecode(a + b) == UrlDecode(a) + UrlDecode(b)
  {
  }

  /** A field that survives decoding and scanning: one word without delimiters. */
  predicate Clean(w: string) {
    w != "" && forall i | 0 <= i < |w| :: !IsSpace(w[i]) && !IsDelimiter(w[i])
  }

  lemma CleanDecodes(w: string)
    requires Clean(w)
    ensures UrlDecode(w) == w
  {
  }

  // ----- scanning

  /** The next word and what follows it. */
  function ScanWord(s: string): Option<(string, string)> {
    var text := SkipSpaces(s);
    if text == "" then None else Some((text[..WordLength(text)], text[WordLength(text)..]))
  }

  /** The next unsigned 32-bit number and what follows it. */
  function ScanPort(s: string): Option<(Port, string)> {
    var text := SkipSpaces(s);
    var k := DigitRun(text);
    if k == 0 || NatOf(text[..k]) >= 0x1_0000_0000 then None else Some((NatOf(text[..k]), text[k..]))
  }

  predicate EndsWord(s: string) {
    s == "" || IsSpace(s[0])
  }

  lemma {:induction false} WordLengthExact(w: string, rest: string)
    requires forall i | 0 <= i < |w| :: !IsSpace(w[i])
    requires EndsWord(rest)
    ensures WordLength(w + rest) == |w|
  {
    if w == "" {
      assert w + rest == rest;
    } else {
      assert (w + rest)[1..] == w[1..] + rest;
      WordLengthExact(w[1..], rest);
    }
  }

  lemma ScanWordBack(spaces: string, w: string, rest: string)
    requires AllSpaces(spaces) && Clean(w) && EndsWord(rest)
    ensures ScanWord(spaces + w + rest) == Some((w, rest))
  {
    var text := w + rest;
    assert spaces + w + rest == spaces + text;
    SkipSpacesOver(spaces, text);
    assert text[0] == w[0];
    WordLengthExact(w, rest);
  }

  lemma ScanPortBack(spaces: string, port: Port, rest: string)
    requires AllSpaces(spaces) && EndsWord(rest)
    ensures ScanPort(spaces + Decimal(port) + rest) == Some((port, rest))
  {
    var text := Decimal(port) + rest;
    assert spaces + Decimal(port) + rest == spaces + text;
    SkipSpacesOver(spaces, text);
    DecimalIsText(port, rest);
    NatOfDecimal(port);
  }

  predicate NoDelimiters(s: string) {
    forall i | 0 <= i < |s| :: !IsDelimiter(s[i])
  }

  lemma {:induction false} SkipSpacesIsSuffix(s: string)
    requires NoDelimiters(s)
    ensures NoDelimiters(SkipSpaces(s))
  {
    if s != "" && IsSpace(s[0]) {
      SkipSpacesIsSuffix(s[1..]);
    }
  }

  /** From text without delimiters every scanned word is clean, and so is the text that follows. */
  lemma ScannedIsClean(s: string)
    requires NoDelimiters(s) && ScanWord(s).Some?
    ensures Clean(ScanWord(s).value.0) && NoDelimiters(ScanWord(s).value.1)
  {
    SkipSpacesIsSuffix(s);
  }

  lemma ScannedPortLeavesClean(s: string)
    requires NoDelimiters(s) && ScanPort(s).Some?
    ensures NoDelimiters(ScanPort(s).value.1)
  {
    SkipSpacesIsSuffix(s);
  }

  // ----- PostgreSQL

  /** The scan behind the literal scheme. */
  function ScanPostgres(s: string): Option<PostgresFields> {
    match ScanWord(s)
    case None => None
    case Some((user, s1)) =>
      match ScanWord(s1)
      case None => None
      case Some((password, s2)) =>
        match ScanWord(s2)
        case None => None
        case Some((host, s3)) =>
          match ScanPort(s3)
          case None => None
          case Some((port, s4)) =>
            match ScanWord(s4)
            case None => None
            case Some((dbname, _)) => Some(PostgresFields(user, password, host, port, dbname))
  }

  function ParsePostgres(s: string): Option<PostgresFields> {
    var text := UrlDecode(s);
    if |text| < 10 || text[..10] != "postgresql" then None else ScanPostgres(text[10..])
  }

  predicate CleanPostgres(f: PostgresFields) {
    Clean(f.user) && Clean(f.password) && Clean(f.host) && Clean(f.dbname)
  }

  lemma ScanPostgresBack(f: PostgresFields)
    requires CleanPostgres(f)
    ensures ScanPostgres("   " + f.user + " " + f.password + " " + f.host + " " + Decimal(f.port) + " " + f.dbname)
            == Some(f)
  {
    var s4 := " " + f.dbname;
    var s3 := " " + Decimal(f.port) + s4;
    var s2 := " " + f.host + s3;
    var s1 := " " + f.password + s2;
    assert "   " + f.user + " " + f.password + " " + f.host + " " + Decimal(f.port) + " " + f.dbname
           == "   " + f.user + s1;
    ScanWordBack("   ", f.user, s1);
    ScanWordBack(" ", f.password, s2);
    ScanWordBack(" ", f.host, s3);
    ScanPortBack(" ", f.port, s4);
    assert s4 == " " + f.dbname + "";
    ScanWordBack(" ", f.dbname, "");
  }

  /** Appending a delimiter and a clean field appends a space and the field to the decoded text. */
  lemma DecodedStep(prefix: string, decoded: string, delim: string, field: string)
    requires UrlDecode(prefix) == decoded && UrlDecode(delim) == " "
    requires UrlDecode(field) == field
    ensures UrlDecode(prefix + delim + field) == decoded + " " + field
  {
    UrlDecodeConcat(prefix, delim);
    UrlDecodeConcat(prefix + delim, field);
  }

  lemma DelimitersDecode()
    ensures UrlDecode(":") == UrlDecode("@") == UrlDecode("/") == " " && UrlDecode("://") == "   "
  {
  }

  lemma GroupPostgres(a: string, b: string, c: string, d: string, e: string, f: string, g: string)
    ensures a + b + c + " " + d + " " + e + " " + f + " " + g == a + (b + c + " " + d + " " + e + " " + f + " " + g)
  {
  }

  lemma DecodedPostgres(f: PostgresFields)
    requires CleanPostgres(f)
    ensures UrlDecode(FormatPostgres(f))
            == "postgresql" + ("   " + f.user + " " + f.password + " " + f.host + " " + Decimal(f.port) + " "
              + f.dbname)
  {
    var port := Decimal(f.port);
    CleanDecodes(f.user);
    CleanDecodes(f.password);
    CleanDecodes(f.host);
    CleanDecodes(port);
    CleanDecodes(f.dbname);
    DelimitersDecode();
    SchemeDecodes("postgresql", f.user);
    var a := "postgresql" + "://" + f.user;
    DecodedStep(a, "postgresql" + "   " + f.user, ":", f.password);
    var b := a + ":" + f.password;
    DecodedStep(b, "postgresql" + "   " + f.user + " " + f.password, "@", f.host);
    var c := b + "@" + f.host;
    DecodedStep(c, "postgresql" + "   " + f.user + " " + f.password + " " + f.host, ":", port);
    var d := c + ":" + port;
    DecodedStep(d, "postgresql" + "   " + f.user + " " + f.password + " " + f.host + " " + port, "/", f.dbname);
    GroupPostgres("postgresql", "   ", f.user, f.password, f.host, port, f.dbname);
    assert "postgresql" + "://" == "postgresql://";
  }

  lemma SchemeDecodes(scheme: string, user: string)
    requires Clean(scheme) && UrlDecode(user) == user
    ensures UrlDecode(scheme + "://" + user) == scheme + "   " + user
  {
    CleanDecodes(scheme);
    DelimitersDecode();
    UrlDecodeConcat(scheme, "://");
    UrlDecodeConcat(scheme + "://", user);
  }

  lemma ScannedPostgresClean(s: string)
    requires NoDelimiters(s) && ScanPostgres(s).Some?
    ensures CleanPostgres(ScanPostgres(s).value)
  {
    ScannedIsClean(s);
    var s1 := ScanWord(s).value.1;
    ScannedIsClean(s1);
    var s2 := ScanWord(s1).value.1;
    ScannedIsClean(s2);
    var s3 := ScanWord(s2).value.1;
    ScannedPortLeavesClean(s3);
    ScannedIsClean(ScanPort(s3).value.1);
  }

  /** Parsing inverts formatting exactly when every text field is one clean word. */
  lemma PostgresRoundTripIffClean(f: PostgresFields)
    ensures ParsePostgres(FormatPostgres(f)) == Some(f) <==> CleanPostgres(f)
  {
    if CleanPostgres(f) {
      DecodedPostgres(f);
      ScanPostgresBack(f);
    }
    if ParsePostgres(FormatPostgres(f)) == Some(f) {
      ScannedPostgresClean(UrlDecode(FormatPostgres(f))[10..]);
    }
  }

  lemma CleanIsUnambiguous(f: PostgresFields)
    requires CleanPostgres(f)
    ensures Unambiguous(f)
  {
    var t, d := Address(f), Decimal(f.port);
    assert t == f.host + ":" + (d + "/" + f.dbname);
    assert forall i | 0 <= i < |f.host| :: t[i] == f.host[i];
    assert forall i | |f.host| < i < |t| :: t[i] == (d + "/" + f.dbname)[i - |f.host| - 1];
    assert ':' !in d + "/" + f.dbname;
  }

  /** So on clean fields comparing the formatted strings is comparing the fields, whatever the other side. */
  lemma PostgresEqualityIsFieldEquality(f: PostgresFields, g: PostgresFields)
    requires CleanPostgres(f)
    ensures FormatPostgres(f) == FormatPostgres(g) <==> f == g
  {
    CleanIsUnambiguous(f);
    PostgresIdentifiesIffUnambiguous(f);
  }

  class PostgreSQLCStr {
    var user: string
    var password: string
    var host: string
    var port: Port
    var dbname: string
    var formatted: string

    function Fields(): PostgresFields
      reads this
    {
      PostgresFields(user, password, host, port, dbname)
    }

    /** Once anything was set, the cached string is the format of the fields. */
    ghost predicate Valid()
      reads this
    {
      formatted == FormatPostgres(Fields()) || (formatted == "" && Fields() == POSTGRES_DEFAULT)
    }

    constructor ()
      ensures Valid() && Fields() == POSTGRES_DEFAULT && formatted == ""
    {
      user, password, host, port, dbname, formatted := "", "", "", 5432, "", "";
    }

    constructor From(user: string, password: string, host: string, dbname: string, port: Port)
      ensures Valid() && Fields() == PostgresFields(user, password, host, port, dbname)
      ensures formatted == FormatPostgres(Fields())
    {
      this.user, this.password, this.host, this.port, this.dbname := user, password, host, port, dbname;
      formatted := "";
      new;
      UpdateFormat();
    }

    method UpdateFormat()
      modifies this`formatted
      ensures formatted == FormatPostgres(Fields())
    {
      formatted := "postgresql://" + user + ":" + password + "@" + host + ":" + Decimal(port) + "/" + dbname;
    }

    method SetUser(newUser: string)
      modifies this
      ensures Valid() && Fields() == old(Fields()).(user := newUser) && formatted == FormatPostgres(Fields())
    {
      user := newUser;
      UpdateFormat();
    }

    method SetPassword(newPassword: string)
      modifies this
      ensures Valid() && Fields() == old(Fields()).(password := newPassword) && formatted == FormatPostgres(Fields())
    {
      password := newPassword;
      UpdateFormat();
    }

    method SetHost(newHost: string)
      modifies this
      ensures Valid() && Fields() == old(Fields()).(host := newHost) && formatted == FormatPostgres(Fields())
    {
      host := newHost;
      UpdateFormat();
    }

    method SetPort(newPort: Port)
      modifies this
      ensures Valid() && Fields() == old(Fields()).(port := newPort) && formatted == FormatPostgres(Fields())
    {
      port := newPort;
      UpdateFormat();
    }

    method SetDbname(newDbname: string)
      modifies this
      ensures Valid() && Fields() == old(Fields()).(dbname := newDbname) && formatted == FormatPostgres(Fields())
    {
      dbname := newDbname;
      UpdateFormat();
    }

    /**
     Comparison of the cached strings. It compares the fields when one side is unambiguous, but an
     object never set to anything differs from one set to the very same fields.
     */
    method Equals(rhs: PostgreSQLCStr) returns (equal: bool)
      requires Valid() && rhs.Valid()
      ensures formatted != "" && rhs.formatted != "" && (Unambiguous(Fields()) || Unambiguous(rhs.Fields())) ==>
                (equal <==> Fields() == rhs.Fields())
      ensures formatted == "" && rhs.formatted == "" ==> equal && Fields() == rhs.Fields()
      ensures (formatted == "") != (rhs.formatted == "") ==> !equal
    {
      equal := formatted == rhs.formatted;
      PostgresIdentifiesIffUnambiguous(Fields());
      PostgresIdentifiesIffUnambiguous(rhs.Fields());
    }

    /** A string that cannot be scanned leaves the object as it was. */
    method FromString(s: string) returns (scanned: bool)
      requires Valid()
      modifies this
      ensures Valid() && scanned == ParsePostgres(s).Some?
      ensures if scanned then Fields() == ParsePostgres(s).value && formatted == FormatPostgres(Fields())
              else Fields() == old(Fields()) && formatted == old(formatted)
    {
      var parsed := ParsePostgres(s);
      if parsed.None? {
        return false;
      }
      var f := parsed.value;
      user, password, host, port, dbname := f.user, f.password, f.host, f.port, f.dbname;
      UpdateFormat();
      return true;
    }
  }

  // ----- AMQP

  function ParseAmqp(s: string): Option<AmqpFields> {
    match ScanWord(UrlDecode(s))
    case None => None
    case Some((scheme, s1)) =>
      match ScanWord(s1)
      case None => None
      case Some((user, s2)) =>
        match ScanWord(s2)
        case None => None
        case Some((password, s3)) =>
          match ScanWord(s3)
          case None => None
          case Some((host, s4)) =>
            match ScanWord(s4)
            case None => None
            case Some((port, _)) =>
              Some(AmqpFields(host + ":" + port, user, password, scheme != "" && scheme[|scheme| - 1] == 's'))
  }

  /** A host and a port, each one clean word. */
  ghost predicate CleanHostPort(hostPort: string) {
    exists host, port :: IsHostPort(hostPort, host, port)
  }

  predicate IsHostPort(hostPort: string, host: string, port: string) {
    Clean(host) && Clean(port) && hostPort == host + ":" + port
  }

  ghost predicate CleanAmqp(f: AmqpFields) {
    Clean(f.user) && Clean(f.password) && CleanHostPort(f.hostPort)
  }

  lemma GroupAmqp(a: string, b: string, c: string, d: string, e: string)
    ensures a + "   " + b + " " + c + " " + d + " " + e + " " + ""
            == a + ("   " + b + (" " + c + (" " + d + (" " + e + " "))))
  {
  }

  lemma DecodedAmqp(f: AmqpFields, host: string, port: string)
    requires Clean(f.user) && Clean(f.password) && IsHostPort(f.hostPort, host, port)
    ensures UrlDecode(FormatAmqp(f))
            == Scheme(f.secure) + ("   " + f.user + (" " + f.password + (" " + host + (" " + port + " "))))
  {
    var scheme := Scheme(f.secure);
    CleanDecodes(f.user);
    CleanDecodes(f.password);
    CleanDecodes(host);
    CleanDecodes(port);
    DelimitersDecode();
    SchemeDecodes(scheme, f.user);
    var a := scheme + "://" + f.user;
    DecodedStep(a, scheme + "   " + f.user, ":", f.password);
    var b := a + ":" + f.password;
    DecodedStep(b, scheme + "   " + f.user + " " + f.password, "@", host);
    var c := b + "@" + host;
    DecodedStep(c, scheme + "   " + f.user + " " + f.password + " " + host, ":", port);
    var d := c + ":" + port;
    assert UrlDecode("") == "";
    DecodedStep(d, scheme + "   " + f.user + " " + f.password + " " + host + " " + port, "/", "");
    GroupAmqp(scheme, f.user, f.password, host, port);
    assert FormatAmqp(f) == d + "/" + "" by { AmqpText(b, host, port); }
  }

  lemma AmqpText(b: string, host: string, port: string)
    ensures b + "@" + (host + ":" + port) + "/" == b + "@" + host + ":" + port + "/" + ""
  {
  }

  lemma ParseAmqpBack(f: AmqpFields, host: string, port: string)
    requires Clean(f.user) && Clean(f.password) && IsHostPort(f.hostPort, host, port)
    ensures ParseAmqp(FormatAmqp(f)) == Some(f)
  {
    DecodedAmqp(f, host, port);
    var s4 := " " + port + " ";
    var s3 := " " + host + s4;
    var s2 := " " + f.password + s3;
    var s1 := "   " + f.user + s2;
    var scheme := Scheme(f.secure);
    assert Clean(scheme);
    assert "" + scheme + s1 == scheme + s1;
    ScanWordBack("", scheme, s1);
    ScanWordBack("   ", f.user, s2);
    ScanWordBack(" ", f.password, s3);
    ScanWordBack(" ", host, s4);
    ScanWordBack(" ", port, " ");
  }

  lemma ParsedAmqpClean(s: string)
    requires ParseAmqp(s).Some?
    ensures CleanAmqp(ParseAmqp(s).value)
  {
    ScannedIsClean(UrlDecode(s));
    var s1 := ScanWord(UrlDecode(s)).value.1;
    ScannedIsClean(s1);
    var s2 := ScanWord(s1).value.1;
    ScannedIsClean(s2);
    var s3 := ScanWord(s2).value.1;
    ScannedIsClean(s3);
    var s4 := ScanWord(s3).value.1;
    ScannedIsClean(s4);
    assert IsHostPort(ParseAmqp(s).value.hostPort, ScanWord(s3).value.0, ScanWord(s4).value.0);
  }

  lemma AmqpRoundTripIffClean(f: AmqpFields)
    ensures ParseAmqp(FormatAmqp(f)) == Some(f) <==> CleanAmqp(f)
  {
    if CleanAmqp(f) {
      var host, port :| IsHostPort(f.hostPort, host, port);
      ParseAmqpBack(f, host, port);
    }
    if ParseAmqp(FormatAmqp(f)) == Some(f) {
      ParsedAmqpClean(FormatAmqp(f));
    }
  }

  lemma AmqpEqualityIsFieldEquality(f: AmqpFields, g: AmqpFields)
    requires CleanAmqp(f)
    ensures FormatAmqp(f) == FormatAmqp(g) <==> f == g
  {
    var host, port :| IsHostPort(f.hostPort, host, port);
    AmqpIdentifiesIffUnambiguous(f);
  }

  class AMQPSQLCStr {
    var hostPort: string
    var user: string
    var password: string
    var secure: bool
    var formatted: string

    function Fields(): AmqpFields
      reads this
    {
      AmqpFields(hostPort, user, password, secure)
    }

    ghost predicate Valid()
      reads this
    {
      formatted == FormatAmqp(Fields()) || (formatted == "" && Fields() == AMQP_DEFAULT)
    }

    constructor ()
      ensures Valid() && Fields() == AMQP_DEFAULT && formatted == ""
    {
      hostPort, user, password, secure, formatted := "", "", "", false, "";
    }

    constructor From(hostPort: string, user: string, password: string, secure: bool)
      ensures Valid() && Fields() == AmqpFields(hostPort, user, password, secure)
      ensures formatted == FormatAmqp(Fields())
    {
      this.hostPort, this.user, this.password, this.secure, formatted := hostPort, user, password, secure, "";
      new;
      UpdateFormat();
    }

    method UpdateFormat()
      modifies this`formatted
      ensures formatted == FormatAmqp(Fields())
    {
      formatted := (if secure then "amqps" else "amqp") + "://" + user + ":" + password + "@" + hostPort + "/";
    }

    method Equals(rhs: AMQPSQLCStr) returns (equal: bool)
      requires Valid() && rhs.Valid()
      ensures formatted != "" && rhs.formatted != "" && (UnambiguousAmqp(Fields()) || UnambiguousAmqp(rhs.Fields())) ==>
                (equal <==> Fields() == rhs.Fields())
      ensures formatted == "" && rhs.formatted == "" ==> equal && Fields() == rhs.Fields()
      ensures (formatted == "") != (rhs.formatted == "") ==> !equal
    {
      equal := formatted == rhs.formatted;
      AmqpIdentifiesIffUnambiguous(Fields());
      AmqpIdentifiesIffUnambiguous(rhs.Fields());
    }

    method SetHostPort(newHostPort: string)
      modifies this
      ensures Valid() && Fields() == old(Fields()).(hostPort := newHostPort) && formatted == FormatAmqp(Fields())
    {
      hostPort := newHostPort;
      UpdateFormat();
    }

    method SetUser(newUser: string)
      modifies this
      ensures Valid() && Fields() == old(Fields()).(user := newUser) && formatted == FormatAmqp(Fields())
    {
      user := newUser;
      UpdateFormat();
    }

    method SetPassword(newPassword: string)
      modifies this
      ensures Valid() && Fields() == old(Fields()).(password := newPassword) && formatted == FormatAmqp(Fields())
    {
      password := newPassword;
      UpdateFormat();
    }

    method SetSecure(newSecure: bool)
      modifies this
      ensures Valid() && Fields() == old(Fields()).(secure := newSecure) && formatted == FormatAmqp(Fields())
    {
      secure := newSecure;
      UpdateFormat();
    }

    method FromString(s: string) returns (scanned: bool)
      requires Valid()
      modifies this
      ensures Valid() && scanned == ParseAmqp(s).Some?
      ensures if scanned then Fields() == ParseAmqp(s).value && formatted == FormatAmqp(Fields())
              else Fields() == old(Fields()) && formatted == old(formatted)
    {
      var parsed := ParseAmqp(s);
      if parsed.None? {
        return false;
      }
      var f := parsed.value;
      hostPort, user, password, secure := f.hostPort, f.user, f.password, f.secure;
      UpdateFormat();
      return true;
    }
  }
}

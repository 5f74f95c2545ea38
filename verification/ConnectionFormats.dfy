/**
 Connection strings as they are formatted, and when a formatted string belongs to one set of
 fields only. Comparing the strings is comparing the fields exactly then.
 */
module ConnectionFormats {
  import opened Streams

  type Port = x: int | 0 <= x < 0x1_0000_0000

  // ----- a user and a password in front of an address

  lemma CredentialsDetermined(u: string, p: string, t: string, u': string, p': string, t': string)
    requires u + ":" + p + "@" + t == u' + ":" + p' + "@" + t'
    requires ':' !in u && ':' !in p && '@' !in p
    ensures |t'| <= |t|
    ensures |t'| == |t| ==> u == u' && p == p' && t == t'
    ensures |t'| < |t| ==> t[|t| - |t'| - 1] == '@'
  {
    var whole := u + ":" + p + "@" + t;
    var at, at' := |u| + 1 + |p|, |u'| + 1 + |p'|;
    assert whole[|u'|] == ':' && whole[at'] == '@';
    assert forall i | 0 <= i < |u| :: whole[i] == u[i];
    assert forall i | |u| < i < at :: whole[i] == p[i - |u| - 1];
    assert forall i | at < i < |whole| :: whole[i] == t[i - at - 1];
    if at' == at {
      assert whole[..|u|] == u && whole[..|u'|] == u';
      assert whole[|u| + 1..at] == p && whole[|u'| + 1..at'] == p';
      assert whole[at + 1..] == t && whole[at' + 1..] == t';
    }
  }

  // ----- PostgreSQL

  datatype PostgresFields = PostgresFields(user: string, password: string, host: string, port: Port, dbname: string)

  const POSTGRES_DEFAULT: PostgresFields := PostgresFields("", "", "", 5432, "")

  function FormatPostgres(f: PostgresFields): string {
    "postgresql://" + f.user + ":" + f.password + "@" + f.host + ":" + Decimal(f.port) + "/" + f.dbname
  }

  /** Everything behind the credentials. */
  function Address(f: PostgresFields): string {
    f.host + ":" + Decimal(f.port) + "/" + f.dbname
  }

  lemma FormatParts(f: PostgresFields)
    ensures FormatPostgres(f) == "postgresql://" + (f.user + ":" + f.password + "@" + Address(f))
  {
  }

  /** The digits behind position k. */
  function PortText(t: string, k: nat): (d: string)
    requires k < |t|
    ensures k + 1 + |d| <= |t| && t[k + 1..k + 1 + |d|] == d && forall i | 0 <= i < |d| :: IsDigit(d[i])
  {
    t[k + 1..][..DigitRun(t[k + 1..])]
  }

  /** A port as it is printed: no leading zero, and not too large. */
  predicate IsPort(d: string)
    requires forall i | 0 <= i < |d| :: IsDigit(d[i])
  {
    d != "" && (|d| > 1 ==> d[0] != '0') && NatOf(d) < 0x1_0000_0000
  }

  /** At k a host could end and a port and a slash follow. */
  predicate SplitsAt(t: string, k: nat) {
    && k < |t| && t[k] == ':'
    && var d := PortText(t, k);
       IsPort(d) && k + 1 + |d| < |t| && t[k + 1 + |d|] == '/'
  }

  lemma SplitsBehindHost(host: string, port: Port, dbname: string)
    ensures var t := host + ":" + Decimal(port) + "/" + dbname;
            SplitsAt(t, |host|) && PortText(t, |host|) == Decimal(port)
  {
    var t, rest := host + ":" + Decimal(port) + "/" + dbname, "/" + dbname;
    assert t == host + ":" + (Decimal(port) + rest);
    assert t[|host| + 1..] == Decimal(port) + rest;
    DigitRunExact(Decimal(port), rest);
    NatOfDecimal(port);
    NoLeadingZero(port);
  }

  lemma SplitIsFields(t: string, k: nat)
    requires SplitsAt(t, k)
    ensures var d := PortText(t, k);
            && NatOf(d) < 0x1_0000_0000
            && t == t[..k] + ":" + Decimal(NatOf(d)) + "/" + t[k + 2 + |d|..]
  {
    var d := PortText(t, k);
    DecimalOfNat(d);
    assert t == t[..k] + [t[k]] + t[k + 1..k + 1 + |d|] + [t[k + 1 + |d|]] + t[k + 2 + |d|..];
  }

  /** No character that ends a field too early, and one place only where the host can end. */
  predicate Unambiguous(f: PostgresFields) {
    && ':' !in f.user && ':' !in f.password && '@' !in f.password && '@' !in f.host
    && forall k | 0 <= k < |Address(f)| && k != |f.host| :: !SplitsAt(Address(f), k)
  }

  /** The formatted string belongs to no other fields. */
  ghost predicate Identifies(f: PostgresFields) {
    forall g: PostgresFields :: FormatPostgres(g) == FormatPostgres(f) ==> g == f
  }

  lemma SameAddress(f: PostgresFields, g: PostgresFields)
    requires Unambiguous(f) && Address(f) == Address(g)
    ensures f.host == g.host && f.port == g.port && f.dbname == g.dbname
  {
    var t := Address(f);
    SplitsBehindHost(f.host, f.port, f.dbname);
    SplitsBehindHost(g.host, g.port, g.dbname);
    assert |g.host| < |t| && |f.host| == |g.host|;
    assert t[..|f.host|] == f.host && t[..|g.host|] == g.host;
    NatOfDecimal(f.port);
    NatOfDecimal(g.port);
    var n := |f.host| + 2 + |Decimal(f.port)|;
    assert t[n..] == f.dbname && t[n..] == g.dbname;
  }

  lemma UnambiguousIdentifies(f: PostgresFields, g: PostgresFields)
    requires Unambiguous(f) && FormatPostgres(g) == FormatPostgres(f)
    ensures g == f
  {
    FormatParts(f);
    FormatParts(g);
    var scheme := "postgresql://";
    var a, b := f.user + ":" + f.password + "@" + Address(f), g.user + ":" + g.password + "@" + Address(g);
    assert (scheme + a)[|scheme|..] == a && (scheme + b)[|scheme|..] == b;
    CredentialsDetermined(f.user, f.password, Address(f), g.user, g.password, Address(g));
    var t, t' := Address(f), Address(g);
    if |t'| < |t| {
      LaterSplit(f, g, a);
    } else {
      SameAddress(f, g);
    }
  }

  lemma SplitsInTail(t: string, shift: nat, k: nat)
    requires shift <= |t| && SplitsAt(t[shift..], k)
    ensures SplitsAt(t, shift + k)
  {
    assert t[shift..][k + 1..] == t[shift + k + 1..];
  }

  /** An '@' behind the host starts another host, which the port behind it shows. */
  lemma LaterSplit(f: PostgresFields, g: PostgresFields, whole: string)
    requires whole == f.user + ":" + f.password + "@" + Address(f) == g.user + ":" + g.password + "@" + Address(g)
    requires '@' !in f.host && |Address(g)| < |Address(f)|
    requires Address(f)[|Address(f)| - |Address(g)| - 1] == '@'
    ensures !Unambiguous(f)
  {
    var t, t' := Address(f), Address(g);
    var shift := |t| - |t'|;
    assert t[shift..] == t' by {
      assert whole[|whole| - |t'|..] == t' && whole[|whole| - |t|..] == t;
      assert whole[|whole| - |t|..][shift..] == whole[|whole| - |t'|..];
    }
    SplitsBehindHost(g.host, g.port, g.dbname);
    var k := shift + |g.host|;
    SplitsInTail(t, shift, |g.host|);
    assert forall i | 0 <= i < |f.host| :: t[i] == f.host[i];
    assert k != |f.host|;
  }

  /** Moving the end of a field to another fitting character gives other fields and the same string. */
  lemma AmbiguousConfuses(f: PostgresFields) returns (g: PostgresFields)
    requires !Unambiguous(f)
    ensures FormatPostgres(g) == FormatPostgres(f) && g != f
  {
    var t := Address(f);
    if ':' in f.user {
      var i :| 0 <= i < |f.user| && f.user[i] == ':';
      g := f.(user := f.user[..i], password := f.user[i + 1..] + ":" + f.password);
      Cut(f.user, i);
      MovedColon(f.user[..i], f.user[i + 1..], f.password, t);
    } else if ':' in f.password {
      var i :| 0 <= i < |f.password| && f.password[i] == ':';
      g := f.(user := f.user + ":" + f.password[..i], password := f.password[i + 1..]);
      Cut(f.password, i);
      MovedColon(f.user, f.password[..i], f.password[i + 1..], t);
    } else if '@' in f.password {
      var i :| 0 <= i < |f.password| && f.password[i] == '@';
      g := f.(password := f.password[..i], host := f.password[i + 1..] + "@" + f.host);
      Cut(f.password, i);
      MovedAt(f.user, f.password[..i], f.password[i + 1..], f.host, Decimal(f.port), f.dbname);
    } else if '@' in f.host {
      var i :| 0 <= i < |f.host| && f.host[i] == '@';
      g := f.(password := f.password + "@" + f.host[..i], host := f.host[i + 1..]);
      Cut(f.host, i);
      MovedAt(f.user, f.password, f.host[..i], f.host[i + 1..], Decimal(f.port), f.dbname);
    } else {
      var k :| 0 <= k < |t| && k != |f.host| && SplitsAt(t, k);
      SplitIsFields(t, k);
      var d := PortText(t, k);
      g := f.(host := t[..k], port := NatOf(d), dbname := t[k + 2 + |d|..]);
    }
    FormatParts(f);
    FormatParts(g);
  }

  lemma Cut(s: string, i: nat)
    requires i < |s|
    ensures s == s[..i] + [s[i]] + s[i + 1..]
  {
  }

  lemma MovedColon(a: string, b: string, c: string, t: string)
    ensures a + ":" + (b + ":" + c) + "@" + t == (a + ":" + b) + ":" + c + "@" + t
  {
  }

  lemma MovedAt(u: string, a: string, b: string, c: string, d: string, n: string)
    ensures u + ":" + a + "@" + ((b + "@" + c) + ":" + d + "/" + n)
            == u + ":" + (a + "@" + b) + "@" + (c + ":" + d + "/" + n)
  {
  }

  /** Exactly the unambiguous fields are the only ones with their string. */
  lemma PostgresIdentifiesIffUnambiguous(f: PostgresFields)
    ensures Identifies(f) <==> Unambiguous(f)
  {
    if Unambiguous(f) {
      forall g: PostgresFields | FormatPostgres(g) == FormatPostgres(f)
        ensures g == f
      {
        UnambiguousIdentifies(f, g);
      }
    } else {
      var g := AmbiguousConfuses(f);
    }
  }

  /** With a colon in the user, say: the same string from different fields. */
  lemma DelimitersConfuseEquality(host: string, port: Port, dbname: string)
    ensures FormatPostgres(PostgresFields("a:b", "c", host, port, dbname))
            == FormatPostgres(PostgresFields("a", "b:c", host, port, dbname))
  {
    var left, right := PostgresFields("a:b", "c", host, port, dbname), PostgresFields("a", "b:c", host, port, dbname);
    assert "postgresql://" + "a:b" + ":" + "c" == "postgresql://" + "a" + ":" + "b:c";
  }

  // ----- AMQP

  datatype AmqpFields = AmqpFields(hostPort: string, user: string, password: string, secure: bool)

  const AMQP_DEFAULT: AmqpFields := AmqpFields("", "", "", false)

  function Scheme(secure: bool): string {
    if secure then "amqps" else "amqp"
  }

  function FormatAmqp(f: AmqpFields): string {
    Scheme(f.secure) + "://" + f.user + ":" + f.password + "@" + f.hostPort + "/"
  }

  lemma SchemeParts(f: AmqpFields)
    ensures FormatAmqp(f) == Scheme(f.secure) + ("://" + (f.user + ":" + f.password + "@" + (f.hostPort + "/")))
  {
  }

  predicate UnambiguousAmqp(f: AmqpFields) {
    ':' !in f.user && ':' !in f.password && '@' !in f.password && '@' !in f.hostPort
  }

  ghost predicate IdentifiesAmqp(f: AmqpFields) {
    forall g: AmqpFields :: FormatAmqp(g) == FormatAmqp(f) ==> g == f
  }

  /** The fifth character tells a secure scheme from a plain one. */
  lemma SchemeDetermined(s: bool, rest: string, s': bool, rest': string)
    requires Scheme(s) + ("://" + rest) == Scheme(s') + ("://" + rest')
    ensures s == s' && rest == rest'
  {
    var a, b := Scheme(s) + ("://" + rest), Scheme(s') + ("://" + rest');
    assert a[4] == (if s then 's' else ':') && b[4] == (if s' then 's' else ':');
    assert a[|Scheme(s)| + 3..] == rest && b[|Scheme(s')| + 3..] == rest';
  }

  lemma UnambiguousIdentifiesAmqp(f: AmqpFields, g: AmqpFields)
    requires UnambiguousAmqp(f) && FormatAmqp(g) == FormatAmqp(f)
    ensures g == f
  {
    SchemeParts(f);
    SchemeParts(g);
    var t, t' := f.hostPort + "/", g.hostPort + "/";
    SchemeDetermined(f.secure, f.user + ":" + f.password + "@" + t, g.secure, g.user + ":" + g.password + "@" + t');
    CredentialsDetermined(f.user, f.password, t, g.user, g.password, t');
    assert forall i | 0 <= i < |f.hostPort| :: t[i] == f.hostPort[i];
    assert |t'| == |t|;
    assert t[..|t| - 1] == f.hostPort && t'[..|t'| - 1] == g.hostPort;
  }

  lemma AmbiguousConfusesAmqp(f: AmqpFields) returns (g: AmqpFields)
    requires !UnambiguousAmqp(f)
    ensures FormatAmqp(g) == FormatAmqp(f) && g != f
  {
    var t := f.hostPort + "/";
    if ':' in f.user {
      var i :| 0 <= i < |f.user| && f.user[i] == ':';
      g := f.(user := f.user[..i], password := f.user[i + 1..] + ":" + f.password);
      Cut(f.user, i);
      MovedColon(f.user[..i], f.user[i + 1..], f.password, t);
    } else if ':' in f.password {
      var i :| 0 <= i < |f.password| && f.password[i] == ':';
      g := f.(user := f.user + ":" + f.password[..i], password := f.password[i + 1..]);
      Cut(f.password, i);
      MovedColon(f.user, f.password[..i], f.password[i + 1..], t);
    } else if '@' in f.password {
      var i :| 0 <= i < |f.password| && f.password[i] == '@';
      g := f.(password := f.password[..i], hostPort := f.password[i + 1..] + "@" + f.hostPort);
      Cut(f.password, i);
      MovedAtAmqp(f.user, f.password[..i], f.password[i + 1..], f.hostPort);
    } else {
      var i :| 0 <= i < |f.hostPort| && f.hostPort[i] == '@';
      g := f.(password := f.password + "@" + f.hostPort[..i], hostPort := f.hostPort[i + 1..]);
      Cut(f.hostPort, i);
      MovedAtAmqp(f.user, f.password, f.hostPort[..i], f.hostPort[i + 1..]);
    }
    SchemeParts(f);
    SchemeParts(g);
  }

  lemma MovedAtAmqp(u: string, a: string, b: string, c: string)
    ensures u + ":" + a + "@" + ((b + "@" + c) + "/") == u + ":" + (a + "@" + b) + "@" + (c + "/")
  {
  }

  lemma AmqpIdentifiesIffUnambiguous(f: AmqpFields)
    ensures IdentifiesAmqp(f) <==> UnambiguousAmqp(f)
  {
    if UnambiguousAmqp(f) {
      forall g: AmqpFields | FormatAmqp(g) == FormatAmqp(f)
        ensures g == f
      {
        UnambiguousIdentifiesAmqp(f, g);
      }
    } else {
      var g := AmbiguousConfusesAmqp(f);
    }
  }

  /** With an '@' in the password: the same queue string from different fields. */
  lemma DelimitersConfuseAmqp(user: string, secure: bool)
    ensures FormatAmqp(AmqpFields("c:1", user, "a@b", secure)) == FormatAmqp(AmqpFields("b@c:1", user, "a", secure))
  {
    SchemeParts(AmqpFields("c:1", user, "a@b", secure));
    SchemeParts(AmqpFields("b@c:1", user, "a", secure));
    MovedAtAmqp(user, "a", "b", "c:1");
    assert "a" + "@" + "b" == "a@b" && "b" + "@" + "c:1" == "b@c:1";
  }

  // ----- printed numbers have one form

  lemma {:induction false} NoLeadingZero(n: nat)
    ensures |Decimal(n)| > 1 ==> Decimal(n)[0] != '0'
    ensures n > 0 ==> Decimal(n)[0] != '0'
  {
    if n >= 10 {
      NoLeadingZero(n / 10);
      assert Decimal(n)[0] == Decimal(n / 10)[0];
    }
  }

  lemma {:induction false} LeadingDigit(d: string)
    requires d != "" && d[0] != '0' && forall i | 0 <= i < |d| :: IsDigit(d[i])
    ensures NatOf(d) > 0
  {
    if |d| > 1 {
      LeadingDigit(d[..|d| - 1]);
    }
  }

  lemma {:induction false} DecimalOfNat(d: string)
    requires d != "" && (|d| > 1 ==> d[0] != '0') && forall i | 0 <= i < |d| :: IsDigit(d[i])
    ensures Decimal(NatOf(d)) == d
  {
    var front, last := d[..|d| - 1], d[|d| - 1];
    assert d == front + [last];
    assert DigitChar(DigitValue(last)) == last;
    if |d| > 1 {
      LeadingDigit(front);
      DecimalOfNat(front);
      var n := NatOf(d);
      assert n / 10 == NatOf(front) && n % 10 == DigitValue(last);
    }
  }
}

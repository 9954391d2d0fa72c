/** Text forms of ports and IP addresses, as the standard library that the program uses reads
    and writes them. Decimal and IPv4 text is concrete; IPv6 text and UTF-8 are parameters
    that have to obey the laws of `Lawful`. */
module IpText {
  import opened Basics

  type Octets4 = o: bytes | |o| == 4 witness [0, 0, 0, 0]
  type Octets16 = o: bytes | |o| == 16 witness [0, 0, 0, 0, 0, 0, 0, 0, 0, 0, 0, 0, 0, 0, 0, 0]

  datatype IpAddr = V4(octets4: Octets4) | V6(octets16: Octets16) {
    function Octets(): bytes {
      if V4? then octets4 else octets16
    }

    predicate IsUnspecified() {
      forall b | b in Octets() :: b == 0
    }
  }

  /** IPv6 socket addresses also hold a flow label and a scope, which take part in equality. */
  datatype SocketAddr =
    | SocketAddrV4(ip4: Octets4, port: u16)
    | SocketAddrV6(ip6: Octets16, port: u16, flow: u32, scope: u32)
  {
    function Ip(): IpAddr {
      if SocketAddrV4? then V4(ip4) else V6(ip6)
    }
  }

  /** `SocketAddr::new`: flow label and scope are zero. */
  function NewSocketAddr(ip: IpAddr, port: u16): (a: SocketAddr)
    ensures a.Ip() == ip && a.port == port
  {
    match ip
    case V4(o) => SocketAddrV4(o, port)
    case V6(o) => SocketAddrV6(o, port, 0, 0)
  }

  // ---------------------------------------------------------------------------
  // Decimal numbers
  // ---------------------------------------------------------------------------

  predicate IsDigit(c: char) {
    '0' <= c <= '9'
  }

  predicate AllDigits(s: string) {
    forall c | c in s :: IsDigit(c)
  }

  function Digit(d: nat): char
    requires d < 10
  {
    (d + '0' as int) as char
  }

  function Decimal(n: nat): (s: string)
    ensures s != "" && AllDigits(s)
    ensures n >= 10 ==> |s| > 1
    ensures n != 0 ==> s[0] != '0'
  {
    if n < 10 then [Digit(n)] else Decimal(n / 10) + [Digit(n % 10)]
  }

  function DigitValue(c: char): (d: nat)
    requires IsDigit(c)
    ensures d < 10 && Digit(d) == c
  {
    c as int - '0' as int
  }

  function DigitsValue(s: string): nat
    requires AllDigits(s)
  {
    if s == "" then 0
    else DigitsValue(s[..|s| - 1]) * 10 + DigitValue(Last(s))
  }

  lemma {:induction false} DecimalValue(n: nat)
    ensures DigitsValue(Decimal(n)) == n
  {
    if n >= 10 {
      DecimalValue(n / 10);
      assert Decimal(n)[..|Decimal(n)| - 1] == Decimal(n / 10);
    }
  }

  lemma DecimalLength(n: nat)
    requires n < 1000
    ensures |Decimal(n)| <= 3
  {
    if n >= 10 {
      var m := n / 10;
      if m >= 10 {
        assert |Decimal(m / 10)| == 1;
      }
    }
  }

  /** Decimal text without a superfluous leading zero. */
  predicate IsCanonicalDecimal(s: string) {
    s != "" && AllDigits(s) && (|s| > 1 ==> s[0] != '0')
  }

  lemma {:induction false} CanonicalDecimalIsUnique(s: string)
    requires IsCanonicalDecimal(s)
    ensures Decimal(DigitsValue(s)) == s
    ensures |s| > 1 ==> DigitsValue(s) >= 10
    ensures s[0] != '0' ==> DigitsValue(s) > 0
  {
    if |s| > 1 {
      var init := s[..|s| - 1];
      CanonicalDecimalIsUnique(init);
      assert init[0] == s[0];
      assert s == init + [Last(s)];
    } else {
      assert DigitsValue(s) == DigitsValue(s[..0]) * 10 + DigitValue(s[0]);
    }
  }

  /** `str::parse::<u16>`: an optional `+`, then at least one digit, and no overflow. */
  function ParseU16(s: string): Option<u16> {
    var digits := if s != "" && s[0] == '+' then s[1..] else s;
    if digits == "" || !AllDigits(digits) then None
    else
      var v := DigitsValue(digits);
      if v < 0x1_0000 then Some(v) else None
  }

  lemma ParseDecimal(n: u16)
    ensures ParseU16(Decimal(n)) == Some(n)
  {
    DecimalValue(n);
    assert Decimal(n)[0] in Decimal(n);
  }

  // ---------------------------------------------------------------------------
  // Fields joined by a separator
  // ---------------------------------------------------------------------------

  function Join(parts: seq<string>, sep: char): (s: string)
    ensures |parts| == 1 ==> s == parts[0]
  {
    if parts == [] then ""
    else if |parts| == 1 then parts[0]
    else parts[0] + [sep] + Join(parts[1..], sep)
  }

  function Fields(s: string, sep: char): (r: seq<string>)
    ensures r != []
  {
    if s == "" then [""]
    else
      var f := Fields(s[..|s| - 1], sep);
      if Last(s) == sep then f + [""] else f[..|f| - 1] + [Last(f) + [Last(s)]]
  }

  lemma {:induction false} JoinSnoc(parts: seq<string>, p: string, sep: char)
    requires parts != []
    ensures Join(parts + [p], sep) == Join(parts, sep) + [sep] + p
  {
    if |parts| > 1 {
      JoinSnoc(parts[1..], p, sep);
      assert (parts + [p])[1..] == parts[1..] + [p];
    } else {
      assert (parts + [p])[1..] == [p];
    }
  }

  lemma {:induction false} FieldsSnoc(s: string, p: string, sep: char)
    requires sep !in p
    ensures Fields(s + [sep] + p, sep) == Fields(s, sep) + [p]
    decreases |p|
  {
    var all := s + [sep] + p;
    if p == "" {
      assert all[..|all| - 1] == s;
    } else {
      assert all[..|all| - 1] == s + [sep] + p[..|p| - 1];
      FieldsSnoc(s, p[..|p| - 1], sep);
      assert Last(all) == Last(p) && Last(p) in p;
      assert p[..|p| - 1] + [Last(p)] == p;
    }
  }

  lemma {:induction false} FieldsOne(p: string, sep: char)
    requires sep !in p
    ensures Fields(p, sep) == [p]
  {
    if p != "" {
      FieldsOne(p[..|p| - 1], sep);
      assert Last(p) in p;
      assert p[..|p| - 1] + [Last(p)] == p;
    }
  }

  lemma {:induction false} FieldsOfJoin(parts: seq<string>, sep: char)
    requires parts != []
    requires forall p | p in parts :: sep !in p
    ensures Fields(Join(parts, sep), sep) == parts
  {
    var init, p := parts[..|parts| - 1], Last(parts);
    assert init + [p] == parts;
    if init == [] {
      FieldsOne(p, sep);
    } else {
      FieldsOfJoin(init, sep);
      JoinSnoc(init, p, sep);
      FieldsSnoc(Join(init, sep), p, sep);
    }
  }

  lemma {:induction false} JoinOfFields(s: string, sep: char)
    ensures Join(Fields(s, sep), sep) == s
  {
    if s != "" {
      var f := Fields(s[..|s| - 1], sep);
      JoinOfFields(s[..|s| - 1], sep);
      assert s == s[..|s| - 1] + [Last(s)];
      if Last(s) == sep {
        JoinSnoc(f, "", sep);
      } else if |f| > 1 {
        var init := f[..|f| - 1];
        JoinSnoc(init, Last(f), sep);
        JoinSnoc(init, Last(f) + [Last(s)], sep);
        assert init + [Last(f)] == f;
      }
    }
  }

  // ---------------------------------------------------------------------------
  // IPv4 text
  // ---------------------------------------------------------------------------

  /** One octet as `Ipv4Addr::from_str` accepts it: one to three digits, no leading zero. */
  function ParseOctet(s: string): Option<byte> {
    if IsCanonicalDecimal(s) && |s| <= 3 && DigitsValue(s) < 0x100
    then Some(DigitsValue(s))
    else None
  }

  lemma OctetText(s: string, b: byte)
    ensures ParseOctet(s) == Some(b) <==> s == Decimal(b)
  {
    if ParseOctet(s) == Some(b) {
      CanonicalDecimalIsUnique(s);
    }
    DecimalValue(b);
    DecimalLength(b);
    assert b == 0 ==> Decimal(b) == "0";
  }

  function OctetTexts(o: Octets4): seq<string> {
    [Decimal(o[0]), Decimal(o[1]), Decimal(o[2]), Decimal(o[3])]
  }

  /** `Ipv4Addr::to_string` */
  function PrintV4(o: Octets4): string {
    Join(OctetTexts(o), '.')
  }

  /** `Ipv4Addr::from_str` */
  function ParseV4(s: string): Option<Octets4> {
    var f := Fields(s, '.');
    if |f| == 4 && (forall p | p in f :: ParseOctet(p).Some?)
    then Some([ParseOctet(f[0]).value, ParseOctet(f[1]).value,
               ParseOctet(f[2]).value, ParseOctet(f[3]).value])
    else None
  }

  predicate IsV4Char(c: char) {
    IsDigit(c) || c == '.'
  }

  lemma {:induction false} JoinChars(parts: seq<string>, sep: char, c: char)
    requires c in Join(parts, sep)
    ensures c == sep || exists p :: p in parts && c in p
  {
    if |parts| > 1 {
      if c !in parts[0] && c != sep {
        JoinChars(parts[1..], sep, c);
        var p :| p in parts[1..] && c in p;
        assert p in parts;
      } else {
        assert parts[0] in parts;
      }
    } else {
      assert parts[0] in parts;
    }
  }

  lemma PrintV4Is(o: Octets4)
    ensures PrintV4(o) ==
            Decimal(o[0]) + "." + Decimal(o[1]) + "." + Decimal(o[2]) + "." + Decimal(o[3])
  {
    var t := OctetTexts(o);
    var cd, bcd := [t[2], t[3]], [t[1], t[2], t[3]];
    assert cd[1..] == [t[3]] && bcd[1..] == cd && t[1..] == bcd;
    assert Join(cd, '.') == t[2] + ['.'] + t[3];
    assert Join(bcd, '.') == t[1] + ['.'] + Join(cd, '.');
  }

  lemma PrintV4Chars(o: Octets4)
    ensures PrintV4(o) != "" && forall c | c in PrintV4(o) :: IsV4Char(c)
    ensures IsDigit(PrintV4(o)[0])
  {
    forall c | c in PrintV4(o) ensures IsV4Char(c) {
      JoinChars(OctetTexts(o), '.', c);
    }
    assert PrintV4(o)[0] == Decimal(o[0])[0];
    assert Decimal(o[0])[0] in Decimal(o[0]);
  }

  lemma V4FieldsAreTexts(s: string, o: Octets4)
    requires ParseV4(s) == Some(o)
    ensures s == PrintV4(o)
  {
    var f, t := Fields(s, '.'), OctetTexts(o);
    forall k | 0 <= k < 4 ensures f[k] == t[k] {
      assert f[k] in f;
      OctetText(f[k], o[k]);
    }
    assert f == t;
    JoinOfFields(s, '.');
  }

  lemma V4TextParses(o: Octets4)
    ensures ParseV4(PrintV4(o)) == Some(o)
  {
    var t := OctetTexts(o);
    forall k | 0 <= k < 4 ensures '.' !in t[k] && ParseOctet(t[k]) == Some(o[k]) {
      OctetText(t[k], o[k]);
    }
    FieldsOfJoin(t, '.');
    assert Fields(PrintV4(o), '.') == t;
    assert [o[0], o[1], o[2], o[3]] == o;
  }

  /** IPv4 text is in bijection with addresses: the parser accepts the printed form only. */
  lemma V4TextIsCanonical(s: string, o: Octets4)
    ensures ParseV4(s) == Some(o) <==> s == PrintV4(o)
  {
    if ParseV4(s) == Some(o) {
      V4FieldsAreTexts(s, o);
    }
    V4TextParses(o);
  }

  // ---------------------------------------------------------------------------
  // IPv6 text and UTF-8
  // ---------------------------------------------------------------------------

  /** The text conversions that stay abstract: `Ipv6Addr`'s two, `str::as_bytes` and
      `String::from_utf8_lossy`. */
  datatype Text = Text(
    print6: Octets16 -> string,
    parse6: string -> Option<Octets16>,
    utf8: string -> bytes,
    lossy: bytes -> string)

  predicate IsV6Char(c: char) {
    IsDigit(c) || 'a' <= c <= 'f' || 'A' <= c <= 'F' || c == ':' || c == '.'
  }

  predicate LooksLikeV6(s: string) {
    ':' in s && forall c | c in s :: IsV6Char(c)
  }

  predicate IsAscii(s: string) {
    forall c | c in s :: c as int < 0x80
  }

  function AsciiByte(s: string, i: nat): byte
    requires i < |s| && IsAscii(s)
  {
    assert s[i] in s;
    s[i] as int
  }

  /** An ASCII string encodes to one byte per character. */
  function AsciiBytes(s: string): bytes
    requires IsAscii(s)
  {
    seq(|s|, i requires 0 <= i < |s| => AsciiByte(s, i))
  }

  ghost predicate LawfulV6(t: Text) {
    && (forall o: Octets16 :: t.parse6(t.print6(o)) == Some(o) && LooksLikeV6(t.print6(o)))
    && (forall s: string :: t.parse6(s).Some? ==> LooksLikeV6(s))
  }

  const REPLACEMENT: char := '\U{FFFD}'
  const REPLACEMENT_BYTES: bytes := [0xEF, 0xBF, 0xBD]

  predicate JoinsAt(t: Text, s: string, u: string) {
    t.utf8(s + u) == t.utf8(s) + t.utf8(u)
  }

  /** The beginning of a character at the end of the input reads as one replacement character. */
  predicate CutAt(t: Text, s: string, c: char, k: nat) {
    0 < k < |t.utf8([c])| ==> t.lossy(t.utf8(s) + t.utf8([c])[..k]) == s + [REPLACEMENT]
  }

  /** Text is encoded character by character, and decoding undoes that. */
  ghost predicate LawfulUtf8(t: Text) {
    && (forall s: string :: t.lossy(t.utf8(s)) == s)
    && (forall s: string :: IsAscii(s) ==> t.utf8(s) == AsciiBytes(s))
    && (forall s: string, u: string :: JoinsAt(t, s, u))
    && (forall s: string, c: char, k: nat :: CutAt(t, s, c, k))
    && t.utf8([REPLACEMENT]) == REPLACEMENT_BYTES
  }

  ghost predicate Lawful(t: Text) {
    LawfulV6(t) && LawfulUtf8(t)
  }

  lemma V6TextIsNotV4(s: string)
    requires LooksLikeV6(s)
    ensures ParseV4(s).None?
  {
    if ParseV4(s).Some? {
      V4TextIsCanonical(s, ParseV4(s).value);
      PrintV4Chars(ParseV4(s).value);
      assert false;
    }
  }

  /** `IpAddr::to_string` */
  function PrintIp(t: Text, ip: IpAddr): string {
    match ip
    case V4(o) => PrintV4(o)
    case V6(o) => t.print6(o)
  }

  /** `IpAddr::from_str` */
  function ParseIpText(t: Text, s: string): Option<IpAddr> {
    match ParseV4(s)
    case Some(o) => Some(V4(o))
    case None =>
      match t.parse6(s)
      case Some(o) => Some(V6(o))
      case None => None
  }

  lemma IpTextRoundTrip(t: Text, ip: IpAddr)
    requires LawfulV6(t)
    ensures ParseIpText(t, PrintIp(t, ip)) == Some(ip)
  {
    match ip
    case V4(o) => V4TextIsCanonical(PrintV4(o), o);
    case V6(o) => V6TextIsNotV4(t.print6(o));
  }
}

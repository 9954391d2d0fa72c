/** The laws that the abstract text conversions have to obey are not contradictory: here are
    conversions that obey them all, the real one for UTF-8 and a simpler one for addresses. They
    also serve to show that the targets which replies do not name exist. */
module TextWitness {
  import opened Basics
  import opened IpText
  import opened Framing
  import opened Remote
  import opened SocksUdp
  import opened SocksRelay

  // ---------------------------------------------------------------------------
  // Addresses: sixteen decimal octets, separated by colons
  // ---------------------------------------------------------------------------

  function Texts(o: bytes): seq<string> {
    seq(|o|, i requires 0 <= i < |o| => Decimal(o[i]))
  }

  function Print6(o: Octets16): string {
    Join(Texts(o), ':')
  }

  /** One superfluous leading zero is accepted. */
  function LooseOctet(s: string): Option<byte> {
    if |s| > 1 && s[0] == '0' then ParseOctet(s[1..]) else ParseOctet(s)
  }

  predicate AllOctets(f: seq<string>) {
    forall i | 0 <= i < |f| :: LooseOctet(f[i]).Some?
  }

  function Octets(f: seq<string>): (o: bytes)
    requires AllOctets(f)
    ensures |o| == |f|
  {
    seq(|f|, i requires 0 <= i < |f| => LooseOctet(f[i]).value)
  }

  function Parse6(s: string): Option<Octets16> {
    var f := Fields(s, ':');
    if |f| == 16 && AllOctets(f) then Some(Octets(f)) else None
  }

  lemma TextsAre(o: bytes)
    ensures AllOctets(Texts(o)) && Octets(Texts(o)) == o
    ensures forall p | p in Texts(o) :: ':' !in p && forall c | c in p :: IsDigit(c)
  {
    forall i | 0 <= i < |o| ensures LooseOctet(Texts(o)[i]) == Some(o[i]) {
      OctetText(Decimal(o[i]), o[i]);
      assert o[i] == 0 ==> Decimal(o[i]) == "0";
    }
  }

  lemma LooseOctetDigits(p: string)
    requires LooseOctet(p).Some?
    ensures forall c | c in p :: IsDigit(c)
  {
    if |p| > 1 && p[0] == '0' {
      OctetText(p[1..], ParseOctet(p[1..]).value);
      assert p == [p[0]] + p[1..];
    } else {
      OctetText(p, ParseOctet(p).value);
    }
  }

  lemma {:induction false} JoinHasSeparator(parts: seq<string>, sep: char)
    requires |parts| > 1
    ensures sep in Join(parts, sep)
  {
  }

  lemma OctetsLookLikeV6(f: seq<string>)
    requires |f| == 16 && AllOctets(f)
    ensures LooksLikeV6(Join(f, ':'))
  {
    JoinHasSeparator(f, ':');
    forall c | c in Join(f, ':') ensures IsV6Char(c) {
      JoinChars(f, ':', c);
      if c != ':' {
        var p :| p in f && c in p;
        var i :| 0 <= i < |f| && f[i] == p;
        LooseOctetDigits(f[i]);
      }
    }
  }

  lemma Print6Parses(o: Octets16)
    ensures Parse6(Print6(o)) == Some(o) && LooksLikeV6(Print6(o))
  {
    TextsAre(o);
    FieldsOfJoin(Texts(o), ':');
    OctetsLookLikeV6(Texts(o));
  }

  lemma ParsedLooksLikeV6(s: string)
    requires Parse6(s).Some?
    ensures LooksLikeV6(s)
  {
    OctetsLookLikeV6(Fields(s, ':'));
    JoinOfFields(s, ':');
  }

  // ---------------------------------------------------------------------------
  // UTF-8 as the standard library encodes it and, with replacement characters, decodes it
  // ---------------------------------------------------------------------------

  function EncodeChar(c: char): bytes {
    var n := c as int;
    if n < 0x80 then [n]
    else if n < 0x800 then [0xC0 + n / 0x40, 0x80 + n % 0x40]
    else if n < 0x1_0000 then [0xE0 + n / 0x1000, 0x80 + n / 0x40 % 0x40, 0x80 + n % 0x40]
    else [0xF0 + n / 0x4_0000, 0x80 + n / 0x1000 % 0x40, 0x80 + n / 0x40 % 0x40, 0x80 + n % 0x40]
  }

  function EncodeAll(enc: char -> bytes, s: string): bytes {
    if s == [] then [] else enc(s[0]) + EncodeAll(enc, s[1..])
  }

  function Encode(s: string): bytes {
    EncodeAll(EncodeChar, s)
  }

  predicate IsTail(b: int) {
    0x80 <= b < 0xC0
  }

  /** The second bytes that may follow the first byte of three or four. */
  predicate IsSecond(x: int, y: int) {
    IsTail(y) && (x == 0xE0 ==> y >= 0xA0) && (x == 0xED ==> y < 0xA0) && (x == 0xF0 ==> y >= 0x90)
    && (x == 0xF4 ==> y < 0x90)
  }

  /** The byte at a position, or zero behind the end. */
  function At(b: bytes, i: nat): int {
    if i < |b| then b[i] else 0
  }

  /** The first character and how many bytes it takes. A sequence that breaks off is replaced as far
      as it was valid. */
  function DecodeFirst(b: bytes): (char, nat) {
    var x, y, z, w := At(b, 0), At(b, 1), At(b, 2), At(b, 3);
    if 0 <= x < 0x80 then (x as char, 1)
    else if 0xC2 <= x < 0xE0 then
      if IsTail(y) then (((x - 0xC0) * 0x40 + (y - 0x80)) as char, 2) else (REPLACEMENT, 1)
    else if 0xE0 <= x < 0xF0 then
      if !IsSecond(x, y) then (REPLACEMENT, 1)
      else if !IsTail(z) then (REPLACEMENT, 2)
      else (((x - 0xE0) * 0x1000 + (y - 0x80) * 0x40 + (z - 0x80)) as char, 3)
    else if 0xF0 <= x < 0xF5 then
      if !IsSecond(x, y) then (REPLACEMENT, 1)
      else if !IsTail(z) then (REPLACEMENT, 2)
      else if !IsTail(w) then (REPLACEMENT, 3)
      else (((x - 0xF0) * 0x4_0000 + (y - 0x80) * 0x1000 + (z - 0x80) * 0x40 + (w - 0x80)) as char, 4)
    else (REPLACEMENT, 1)
  }

  function DecodeAll(dec: bytes -> (char, nat), b: bytes): string
    decreases |b|
  {
    if b == [] then []
    else
      var (c, k) := dec(b);
      if 1 <= k <= |b| then [c] + DecodeAll(dec, b[k..]) else []
  }

  function Decode(b: bytes): string {
    DecodeAll(DecodeFirst, b)
  }

  lemma Digits(n: nat)
    ensures n == n / 0x40 * 0x40 + n % 0x40
    ensures n / 0x40 == n / 0x1000 * 0x40 + n / 0x40 % 0x40
    ensures n / 0x1000 == n / 0x4_0000 * 0x40 + n / 0x1000 % 0x40
  {
    assert n / 0x1000 == n / 0x40 / 0x40 && n / 0x4_0000 == n / 0x1000 / 0x40;
  }

  /** What the bytes of one character look like. */
  predicate IsCharOf(b: bytes, n: int) {
    var x, y, z, w := At(b, 0), At(b, 1), At(b, 2), At(b, 3);
    || (|b| == 1 && n == x < 0x80)
    || (|b| == 2 && 0xC2 <= x < 0xE0 && IsTail(y) && n == (x - 0xC0) * 0x40 + (y - 0x80))
    || (|b| == 3 && 0xE0 <= x < 0xF0 && IsSecond(x, y) && IsTail(z)
        && n == (x - 0xE0) * 0x1000 + (y - 0x80) * 0x40 + (z - 0x80))
    || (|b| == 4 && 0xF0 <= x < 0xF5 && IsSecond(x, y) && IsTail(z) && IsTail(w)
        && n == (x - 0xF0) * 0x4_0000 + (y - 0x80) * 0x1000 + (z - 0x80) * 0x40 + (w - 0x80))
  }

  lemma EncodedChar(c: char)
    ensures IsCharOf(EncodeChar(c), c as int)
  {
    Digits(c as int);
  }

  lemma DecodeChar(c: char, rest: bytes)
    ensures EncodeChar(c) != [] && DecodeFirst(EncodeChar(c) + rest) == (c, |EncodeChar(c)|)
  {
    EncodedChar(c);
    DecodeOne(EncodeChar(c), c, rest);
  }

  lemma DecodeOne(b: bytes, c: char, rest: bytes)
    requires IsCharOf(b, c as int)
    ensures b != [] && DecodeFirst(b + rest) == (c, |b|)
  {
  }

  lemma DecodeCutOne(b: bytes, n: int, k: nat)
    requires IsCharOf(b, n) && 0 < k < |b|
    ensures DecodeFirst(b[..k]) == (REPLACEMENT, k)
  {
  }

  ghost predicate Inverse(enc: char -> bytes, dec: bytes -> (char, nat)) {
    forall c, rest :: InverseAt(enc, dec, c, rest)
  }

  predicate InverseAt(enc: char -> bytes, dec: bytes -> (char, nat), c: char, rest: bytes) {
    enc(c) != [] && dec(enc(c) + rest) == (c, |enc(c)|)
  }

  lemma CodecIsInverse()
    ensures Inverse(EncodeChar, DecodeFirst)
  {
    forall c, rest ensures InverseAt(EncodeChar, DecodeFirst, c, rest) {
      DecodeChar(c, rest);
    }
  }

  lemma {:induction false} DecodeAppend(enc: char -> bytes, dec: bytes -> (char, nat), s: string, tail: bytes)
    requires Inverse(enc, dec)
    ensures DecodeAll(dec, EncodeAll(enc, s) + tail) == s + DecodeAll(dec, tail)
  {
    if s == [] {
      assert EncodeAll(enc, s) + tail == tail;
    } else {
      var rest := EncodeAll(enc, s[1..]);
      DecodeAppend(enc, dec, s[1..], tail);
      assert InverseAt(enc, dec, s[0], rest + tail);
      DecodeCons(dec, enc(s[0]), rest + tail, s[0]);
      Associate(enc(s[0]), rest, tail);
      Associate([s[0]], s[1..], DecodeAll(dec, tail));
      assert [s[0]] + s[1..] == s;
    }
  }

  lemma DecodeCons(dec: bytes -> (char, nat), first: bytes, rest: bytes, c: char)
    requires first != [] && dec(first + rest) == (c, |first|)
    ensures DecodeAll(dec, first + rest) == [c] + DecodeAll(dec, rest)
  {
    assert (first + rest)[|first|..] == rest;
  }

  lemma {:induction false} EncodeAppend(enc: char -> bytes, s: string, u: string)
    ensures EncodeAll(enc, s + u) == EncodeAll(enc, s) + EncodeAll(enc, u)
  {
    if s == [] {
      assert s + u == u;
    } else {
      EncodeAppend(enc, s[1..], u);
      assert (s + u)[1..] == s[1..] + u;
      Associate(enc(s[0]), EncodeAll(enc, s[1..]), EncodeAll(enc, u));
    }
  }

  lemma Associate<T>(a: seq<T>, b: seq<T>, c: seq<T>)
    ensures a + (b + c) == a + b + c
  {
  }

  lemma DecodeOfEncode(s: string)
    ensures Decode(Encode(s)) == s
  {
    CodecIsInverse();
    DecodeAppend(EncodeChar, DecodeFirst, s, []);
    assert Encode(s) + [] == Encode(s);
  }

  lemma DecodeCut(s: string, c: char, k: nat)
    requires 0 < k < |EncodeChar(c)|
    ensures Decode(Encode(s) + EncodeChar(c)[..k]) == s + [REPLACEMENT]
  {
    var cut := EncodeChar(c)[..k];
    CodecIsInverse();
    DecodeAppend(EncodeChar, DecodeFirst, s, cut);
    EncodedChar(c);
    DecodeCutOne(EncodeChar(c), c as int, k);
    DecodeWhole(DecodeFirst, cut, REPLACEMENT);
  }

  lemma DecodeWhole(dec: bytes -> (char, nat), b: bytes, c: char)
    requires b != [] && dec(b) == (c, |b|)
    ensures DecodeAll(dec, b) == [c]
  {
    assert b[|b|..] == [];
  }

  lemma EncodeSingle(c: char)
    ensures Encode([c]) == EncodeChar(c)
  {
    assert [c][1..] == [];
    assert EncodeAll(EncodeChar, [c]) == EncodeChar(c) + EncodeAll(EncodeChar, []);
  }

  lemma {:induction false} EncodeAscii(s: string)
    requires IsAscii(s)
    ensures Encode(s) == AsciiBytes(s)
  {
    if s != [] {
      assert s[0] in s && forall c | c in s[1..] :: c in s;
      EncodeAscii(s[1..]);
      assert AsciiBytes(s) == [s[0] as int] + AsciiBytes(s[1..]);
    }
  }

  const WITNESS: Text := Text(Print6, Parse6, Encode, Decode)

  lemma LawfulTextExists()
    ensures Lawful(WITNESS)
  {
    forall o: Octets16 ensures Parse6(Print6(o)) == Some(o) && LooksLikeV6(Print6(o)) {
      Print6Parses(o);
    }
    forall s | Parse6(s).Some? ensures LooksLikeV6(s) {
      ParsedLooksLikeV6(s);
    }
    forall s ensures Decode(Encode(s)) == s {
      DecodeOfEncode(s);
    }
    forall s | IsAscii(s) ensures Encode(s) == AsciiBytes(s) {
      EncodeAscii(s);
    }
    forall s: string, u: string ensures JoinsAt(WITNESS, s, u) {
      EncodeAppend(EncodeChar, s, u);
    }
    forall s: string, c: char, k: nat ensures CutAt(WITNESS, s, c, k) {
      EncodeSingle(c);
      if 0 < k < |EncodeChar(c)| {
        DecodeCut(s, c, k);
      }
    }
    EncodeSingle(REPLACEMENT);
  }

  // ---------------------------------------------------------------------------
  // An invalid domain that survives
  // ---------------------------------------------------------------------------

  lemma NotUtf8(t: Text, domain: bytes)
    requires LawfulUtf8(t) && t.utf8(t.lossy(domain)) != domain
    ensures !IsUtf8(t, domain)
  {
    forall s ensures t.utf8(s) != domain {
      assert t.lossy(t.utf8(s)) == s;
    }
  }

  /** 254 ASCII characters and the first byte of a longer sequence are not UTF-8. Their text ends
      in a replacement character, which takes three bytes, and cutting that text to 255 bytes
      brings back the very same domain. */
  lemma InvalidDomainIsKept(t: Text, name: string)
    requires LawfulUtf8(t) && IsAscii(name) && |name| == 254
    ensures var domain := AsciiBytes(name) + [0xEF];
      !IsUtf8(t, domain) && EndsCut(t, domain, 1) && NameBytes(t, t.lossy(domain)) == domain
  {
    var domain := AsciiBytes(name) + [0xEF];
    assert domain == t.utf8(name) + t.utf8([REPLACEMENT])[..1];
    assert CutAt(t, name, REPLACEMENT, 1) && JoinsAt(t, name, [REPLACEMENT]);
    NotUtf8(t, domain);
    assert domain[..254] == t.utf8(name) && domain[254..] == REPLACEMENT_BYTES[..1];
    DomainKeptExactly(t, domain);
  }

  // ---------------------------------------------------------------------------
  // Targets that replies do not name
  // ---------------------------------------------------------------------------

  function NameDatagram(domain: bytes, port: u16, payload: bytes): bytes
    requires |domain| <= 255
  {
    [0, 0, 0, ATYP_NAME, |domain|] + domain + U16Be(port) + payload
  }

  lemma NameDatagramParses(t: Text, domain: bytes, port: u16, payload: bytes)
    requires |domain| <= 255
    ensures ParseHeader(t, NameDatagram(domain, port, payload)) == Ok((HostPort(t.lossy(domain), port), payload))
  {
    var buf, n := NameDatagram(domain, port, payload), 5 + |domain|;
    assert buf[3] == ATYP_NAME && buf[4] == |domain| && buf[5..n] == domain;
    assert buf[n] == U16Be(port)[0] && buf[n + 1] == U16Be(port)[1] && buf[n + 2..] == payload;
  }

  function Replacements(n: nat): string {
    seq(n, _ => REPLACEMENT)
  }

  function Invalid(n: nat): bytes {
    seq(n, _ => 0xFF)
  }

  lemma {:induction false} DecodeInvalid(n: nat)
    ensures Decode(Invalid(n)) == Replacements(n)
  {
    if n > 0 {
      DecodeInvalid(n - 1);
      assert Invalid(n) == [0xFF] + Invalid(n - 1);
      DecodeCons(DecodeFirst, [0xFF], Invalid(n - 1), REPLACEMENT);
      assert Replacements(n) == [REPLACEMENT] + Replacements(n - 1);
    }
  }

  lemma {:induction false} ReplacementsLength(n: nat)
    ensures |Encode(Replacements(n))| == 3 * n
  {
    if n > 0 {
      ReplacementsLength(n - 1);
      var s := Replacements(n);
      assert s[1..] == Replacements(n - 1) && |EncodeChar(REPLACEMENT)| == 3;
      assert EncodeAll(EncodeChar, s) == EncodeChar(s[0]) + EncodeAll(EncodeChar, s[1..]);
    }
  }

  lemma NoLiteral(t: Text, host: string, c: char)
    requires LawfulV6(t) && c in host && !IsV6Char(c)
    ensures !IsIpLiteral(t, host)
  {
    if ParseV4(host).Some? {
      V4TextIsCanonical(host, ParseV4(host).value);
      PrintV4Chars(ParseV4(host).value);
    }
  }

  /** A domain of 255 bytes that are never part of UTF-8 becomes a text of 765 bytes, and the replies
      of a run name its first 85 characters only. */
  lemma LostNameInRun(source: SocketAddr, port: u16, payload: bytes, reply: bytes)
    returns (events: seq<Event<(SocketAddr, bytes), Key>>)
    requires FitsDatagram(payload) && FitsDatagram(reply)
    ensures IsLostName(WITNESS, WITNESS.lossy(Invalid(255)))
    ensures IsMisnamed(WITNESS, source, NameDatagram(Invalid(255), port, payload), events)
  {
    var domain, host := Invalid(255), Replacements(255);
    LawfulTextExists();
    DecodeInvalid(255);
    ReplacementsLength(255);
    assert host[0] in host;
    NoLiteral(WITNESS, host, REPLACEMENT);
    NameDatagramParses(WITNESS, domain, port, payload);
    events := MisnamedInRun(WITNESS, source, NameDatagram(domain, port, payload), reply);
  }

  /** A text with a superfluous zero in its first part. */
  function LooseText(o: Octets16): string {
    Join(["0" + Decimal(o[0])] + Texts(o[1..]), ':')
  }

  lemma LooseParses(o: Octets16)
    ensures Parse6(LooseText(o)) == Some(o) && LooseText(o) != Print6(o)
  {
    var f := ["0" + Decimal(o[0])] + Texts(o[1..]);
    TextsAre(o);
    TextsAre(o[1..]);
    OctetText(Decimal(o[0]), o[0]);
    FieldsOfJoin(f, ':');
    FieldsOfJoin(Texts(o), ':');
    assert LooseOctet(f[0]) == Some(o[0]);
    assert Octets(f) == o;
    assert f[0] != Texts(o)[0];
  }

  lemma {:induction false} JoinLength(parts: seq<string>, sep: char)
    requires forall i | 0 <= i < |parts| :: |parts[i]| <= 4
    ensures |Join(parts, sep)| <= 5 * |parts|
  {
    if |parts| > 1 {
      JoinLength(parts[1..], sep);
    }
  }

  lemma LooseIsShort(o: Octets16)
    ensures |LooseText(o)| <= 80 && IsAscii(LooseText(o))
  {
    var f := ["0" + Decimal(o[0])] + Texts(o[1..]);
    forall i | 0 <= i < |f| ensures |f[i]| <= 4 {
      DecimalLength(o[i]);
    }
    JoinLength(f, ':');
    LooseParses(o);
    ParsedLooksLikeV6(LooseText(o));
  }

  /** A domain that is IPv6 text with a superfluous zero is answered under the canonical text. */
  lemma LooseV6InRun(o: Octets16, source: SocketAddr, port: u16, payload: bytes, reply: bytes)
    returns (domain: bytes, events: seq<Event<(SocketAddr, bytes), Key>>)
    requires FitsDatagram(payload) && FitsDatagram(reply)
    ensures |domain| <= 255 && IsLooseV6(WITNESS, WITNESS.lossy(domain))
    ensures IsMisnamed(WITNESS, source, NameDatagram(domain, port, payload), events)
  {
    var host := LooseText(o);
    LawfulTextExists();
    LooseIsShort(o);
    LooseParses(o);
    domain := AsciiBytes(host);
    assert WITNESS.utf8(host) == domain && WITNESS.lossy(WITNESS.utf8(host)) == host;
    NameDatagramParses(WITNESS, domain, port, payload);
    events := MisnamedInRun(WITNESS, source, NameDatagram(domain, port, payload), reply);
  }
}

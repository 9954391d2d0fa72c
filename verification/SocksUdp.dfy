/** The header of SOCKS5 UDP datagrams (section 7 of RFC 1928): the relay's pair of functions on
    host names, the proxy client's pair on socket addresses, and how the two relate. */
module SocksUdp {
  import opened Basics
  import opened IpText
  import opened Remote

  const ATYP_V4: byte := 0x01
  const ATYP_NAME: byte := 0x03
  const ATYP_V6: byte := 0x04

  datatype HeaderError = TooShort | Fragmented | TruncatedV4 | TruncatedV6 | TruncatedName | UnknownAtyp

  // ---------------------------------------------------------------------------
  // The relay's codec
  // ---------------------------------------------------------------------------

  /** `parse_socks_udp_header` */
  function ParseHeader(t: Text, buf: bytes): Result<(HostPort, bytes), HeaderError> {
    if |buf| < 4 then Err(TooShort)
    else if buf[2] != 0 then Err(Fragmented)
    else if buf[3] == ATYP_V4 then
      if |buf| < 10 then Err(TruncatedV4)
      else Ok((HostPort(PrintV4(buf[4..8]), FromU16Be(buf[8], buf[9])), buf[10..]))
    else if buf[3] == ATYP_V6 then
      if |buf| < 22 then Err(TruncatedV6)
      else Ok((HostPort(t.print6(buf[4..20]), FromU16Be(buf[20], buf[21])), buf[22..]))
    else if buf[3] == ATYP_NAME then
      if |buf| < 5 then Err(TruncatedName)
      else
        var len: nat := buf[4];
        if |buf| < 5 + len + 2 then Err(TruncatedName)
        else
          Ok((HostPort(t.lossy(buf[5..5 + len]), FromU16Be(buf[5 + len], buf[5 + len + 1])),
              buf[5 + len + 2..]))
    else Err(UnknownAtyp)
  }

  /** The bytes of a name that the one-byte length can express. */
  function NameBytes(t: Text, host: string): bytes {
    t.utf8(host)[..Min(|t.utf8(host)|, 255)]
  }

  predicate IsIpLiteral(t: Text, host: string) {
    ParseV4(host).Some? || t.parse6(host).Some?
  }

  /** ATYP and DST.ADDR of a host. */
  function AddressField(t: Text, host: string): bytes {
    match ParseV4(host)
    case Some(o) => [ATYP_V4] + o
    case None =>
      match t.parse6(host)
      case Some(o) => [ATYP_V6] + o
      case None => [ATYP_NAME, |NameBytes(t, host)|] + NameBytes(t, host)
  }

  function WrapReply(t: Text, target: HostPort, payload: bytes): bytes {
    [0, 0, 0] + AddressField(t, target.host) + U16Be(target.port) + payload
  }

  /** The scratch buffer that replies are built in. */
  class Scratch {
    var data: bytes

    constructor ()
      ensures data == []
    {
      data := [];
    }

    /** `wrap_socks_udp_reply`: whatever the buffer held before is gone. */
    method WrapInto(t: Text, target: HostPort, payload: bytes)
      modifies this
      ensures data == WrapReply(t, target, payload)
    {
      data := [];
      data := data + [0, 0, 0];
      var v4 := ParseV4(target.host);
      if v4.Some? {
        data := data + [ATYP_V4];
        data := data + v4.value;
      } else {
        var v6 := t.parse6(target.host);
        if v6.Some? {
          data := data + [ATYP_V6];
          data := data + v6.value;
        } else {
          data := data + [ATYP_NAME];
          var name := t.utf8(target.host);
          var len := Min(|name|, 255);
          data := data + [len];
          data := data + name[..len];
          assert data == [0, 0, 0] + ([ATYP_NAME, len] + name[..len]);
        }
      }
      assert data == [0, 0, 0] + AddressField(t, target.host);
      data := data + U16Be(target.port);
      data := data + payload;
    }
  }

  /** The host that the other side reads in a reply for `host`. */
  function SeenHost(t: Text, host: string): string {
    match ParseV4(host)
    case Some(o) => PrintV4(o)
    case None =>
      match t.parse6(host)
      case Some(o) => t.print6(o)
      case None => t.lossy(NameBytes(t, host))
  }

  /** A wrapped reply always parses, with the exact port and payload: cutting a long name never
      shifts the fields behind it. */
  lemma ReplyParses(t: Text, target: HostPort, payload: bytes)
    ensures ParseHeader(t, WrapReply(t, target, payload)) ==
            Ok((HostPort(SeenHost(t, target.host), target.port), payload))
  {
    var field, port := AddressField(t, target.host), U16Be(target.port);
    var buf := WrapReply(t, target, payload);
    var n := 3 + |field|;
    assert buf[3..n] == field;
    assert buf[n] == port[0] && buf[n + 1] == port[1] && buf[n + 2..] == payload;
    if ParseV4(target.host).Some? {
      assert buf[4..8] == field[1..];
    } else if t.parse6(target.host).Some? {
      assert buf[4..20] == field[1..];
    } else {
      assert buf[3] == field[0] && buf[4] == field[1];
      assert buf[5..5 + buf[4]] == field[2..] == NameBytes(t, target.host);
    }
  }

  /** When the host survives as well: always for IPv4 text; for IPv6 text exactly when it is the
      canonical one; for names of at most 255 bytes always, for longer ASCII names never. */
  lemma ReplyHost(t: Text, host: string)
    requires Lawful(t)
    ensures ParseV4(host).Some? ==> SeenHost(t, host) == host
    ensures ParseV4(host).None? && t.parse6(host).Some? ==>
              (SeenHost(t, host) == host <==> exists o :: host == t.print6(o))
    ensures !IsIpLiteral(t, host) && |t.utf8(host)| <= 255 ==> SeenHost(t, host) == host
    ensures !IsIpLiteral(t, host) && IsAscii(host) && |host| > 255 ==>
              SeenHost(t, host) == host[..255] != host
  {
    if ParseV4(host).Some? {
      V4TextIsCanonical(host, ParseV4(host).value);
    } else if !IsIpLiteral(t, host) {
      if |t.utf8(host)| <= 255 {
        assert NameBytes(t, host) == t.utf8(host);
      }
      if IsAscii(host) && |host| > 255 {
        AsciiCut(t, host, 255);
      }
    }
  }

  lemma AsciiCut(t: Text, host: string, n: nat)
    requires LawfulUtf8(t) && IsAscii(host) && n <= |host|
    ensures t.lossy(t.utf8(host)[..n]) == host[..n]
  {
    var cut := host[..n];
    forall c | c in cut ensures c as int < 0x80 {
      assert c in host;
    }
    assert AsciiBytes(host)[..n] == AsciiBytes(cut);
    assert t.lossy(t.utf8(cut)) == cut;
  }

  // ---------------------------------------------------------------------------
  // Names that are cut
  // ---------------------------------------------------------------------------

  /** Where a cut through the encoding of a text falls: behind `m` characters, and `n` bytes from
      the start of the whole. */
  lemma {:induction false} CutPoint(t: Text, s: string, n: nat) returns (m: nat)
    requires LawfulUtf8(t) && n < |t.utf8(s)|
    ensures m < |s| && |t.utf8(s[..m])| <= n < |t.utf8(s[..m])| + |t.utf8([s[m]])|
    ensures t.utf8(s)[..n] == t.utf8(s[..m]) + t.utf8([s[m]])[..n - |t.utf8(s[..m])|]
    ensures t.utf8(s[..m]) + t.utf8([s[m]]) == t.utf8(s[..m + 1])
  {
    assert IsAscii([]) && t.utf8([]) == AsciiBytes([]) == [];
    var init, last := s[..|s| - 1], [Last(s)];
    assert s == init + last && JoinsAt(t, init, last);
    if n < |t.utf8(init)| {
      m := CutPoint(t, init, n);
      assert init[..m] == s[..m] && init[..m + 1] == s[..m + 1];
    } else {
      m := |s| - 1;
      assert s[..m + 1] == s;
    }
  }

  lemma EncodedLength(t: Text, s: string, m: nat)
    requires LawfulUtf8(t) && m <= |s|
    ensures |t.utf8(s[..m])| <= |t.utf8(s)|
  {
    assert s == s[..m] + s[m..] && JoinsAt(t, s[..m], s[m..]);
  }

  /** What is read of a text that was cut: the whole characters, and one replacement character for
      one that was cut apart. */
  lemma ReadAfterCut(t: Text, s: string, n: nat) returns (m: nat)
    requires LawfulUtf8(t) && n < |t.utf8(s)|
    ensures m < |s| && |t.utf8(s[..m])| <= n < |t.utf8(s[..m + 1])| == |t.utf8(s[..m])| + |t.utf8([s[m]])|
    ensures t.utf8(s)[..n] == t.utf8(s[..m]) + t.utf8([s[m]])[..n - |t.utf8(s[..m])|]
    ensures t.lossy(t.utf8(s)[..n]) == if n == |t.utf8(s[..m])| then s[..m] else s[..m] + [REPLACEMENT]
  {
    m := CutPoint(t, s, n);
    var k := n - |t.utf8(s[..m])|;
    assert CutAt(t, s[..m], s[m], k);
    if k == 0 {
      assert t.utf8(s)[..n] == t.utf8(s[..m]);
    }
  }

  /** A text of 256 or 257 bytes that ends in a replacement character. */
  predicate OutlivesCut(t: Text, host: string) {
    256 <= |t.utf8(host)| <= 257 && host != [] && Last(host) == REPLACEMENT
  }

  /** A text that is too long for a length byte is read back exactly when the cut goes through a
      replacement character at its very end. */
  lemma CutName(t: Text, host: string)
    requires LawfulUtf8(t) && |t.utf8(host)| > 255
    ensures t.lossy(t.utf8(host)[..255]) == host <==> OutlivesCut(t, host)
  {
    var m := ReadAfterCut(t, host, 255);
    var init := host[..|host| - 1];
    assert host == init + [Last(host)] && JoinsAt(t, init, [Last(host)]);
    if OutlivesCut(t, host) {
      if m + 1 <= |init| {
        assert init[..m + 1] == host[..m + 1];
        EncodedLength(t, init, m + 1);
      }
      assert m == |init|;
    }
    assert t.lossy(t.utf8(host)[..255]) == host ==> m + 1 == |host| && host[m] == REPLACEMENT;
  }

  ghost predicate IsUtf8(t: Text, b: bytes) {
    exists s :: t.utf8(s) == b
  }

  /** 255 bytes that are valid up to the first `k` bytes of a replacement character. */
  ghost predicate EndsCut(t: Text, b: bytes, k: nat) {
    |b| == 255 && k < 3 && b[255 - k..] == REPLACEMENT_BYTES[..k] && IsUtf8(t, b[..255 - k])
  }

  lemma EndsCutIsKept(t: Text, domain: bytes, k: nat)
    requires LawfulUtf8(t) && EndsCut(t, domain, k) && k > 0
    ensures NameBytes(t, t.lossy(domain)) == domain
  {
    var s :| t.utf8(s) == domain[..255 - k];
    assert domain == t.utf8(s) + t.utf8([REPLACEMENT])[..k];
    assert CutAt(t, s, REPLACEMENT, k) && JoinsAt(t, s, [REPLACEMENT]);
    assert t.utf8(t.lossy(domain)) == t.utf8(s) + REPLACEMENT_BYTES;
  }

  lemma KeptEndsCut(t: Text, domain: bytes)
    requires LawfulUtf8(t) && |t.utf8(t.lossy(domain))| > 255 && t.utf8(t.lossy(domain))[..255] == domain
    ensures IsUtf8(t, domain) || EndsCut(t, domain, 1) || EndsCut(t, domain, 2)
  {
    var text := t.lossy(domain);
    var m := ReadAfterCut(t, text, 255);
    var k := 255 - |t.utf8(text[..m])|;
    if k > 0 {
      assert text[m] == (text[..m] + [REPLACEMENT])[m] == REPLACEMENT;
      assert domain == t.utf8(text[..m]) + REPLACEMENT_BYTES[..k];
      assert domain[..255 - k] == t.utf8(text[..m]) && domain[255 - k..] == REPLACEMENT_BYTES[..k];
    }
  }

  /** A domain survives the conversion to text and back exactly when it is valid UTF-8, or valid up
      to the first or the first two bytes of a replacement character at the end of 255. */
  lemma DomainKeptExactly(t: Text, domain: bytes)
    requires LawfulUtf8(t) && |domain| <= 255
    ensures NameBytes(t, t.lossy(domain)) == domain <==>
            IsUtf8(t, domain) || EndsCut(t, domain, 1) || EndsCut(t, domain, 2)
    ensures |t.utf8(t.lossy(domain))| <= 255 ==>
              (NameBytes(t, t.lossy(domain)) == domain <==> IsUtf8(t, domain))
  {
    var back := t.utf8(t.lossy(domain));
    if IsUtf8(t, domain) {
      var s :| t.utf8(s) == domain;
      assert t.lossy(t.utf8(s)) == s;
      assert back == domain && back[..|back|] == back;
    } else if EndsCut(t, domain, 1) {
      EndsCutIsKept(t, domain, 1);
    } else if EndsCut(t, domain, 2) {
      EndsCutIsKept(t, domain, 2);
    } else if |back| <= 255 {
      assert back[..|back|] == back;
    } else if back[..255] == domain {
      KeptEndsCut(t, domain);
    }
  }

  /** Re-wrapping a parsed datagram restores its bytes exactly when RSV is zero and a domain is no
      IP literal and either valid UTF-8 or valid up to a replacement character that is cut at byte
      255. */
  lemma RewrapRestores(t: Text, buf: bytes)
    requires Lawful(t) && ParseHeader(t, buf).Ok?
    ensures var (target, payload) := ParseHeader(t, buf).value;
      WrapReply(t, target, payload) == buf <==>
        && buf[0] == 0 && buf[1] == 0
        && (buf[3] == ATYP_NAME ==>
              var domain := buf[5..5 + buf[4]];
              && !IsIpLiteral(t, target.host)
              && (IsUtf8(t, domain) || EndsCut(t, domain, 1) || EndsCut(t, domain, 2)))
  {
    if buf[3] == ATYP_NAME {
      RewrapName(t, buf);
      DomainKeptExactly(t, buf[5..5 + buf[4]]);
    } else {
      RewrapIp(t, buf);
    }
  }

  /** IPv6 text other than the canonical one for its address. */
  predicate IsLooseV6(t: Text, host: string) {
    t.parse6(host).Some? && host != t.print6(t.parse6(host).value)
  }

  /** A name whose text takes more than 255 bytes, except where the cut does no harm. */
  predicate IsLostName(t: Text, host: string) {
    !IsIpLiteral(t, host) && |t.utf8(host)| > 255 && !OutlivesCut(t, host)
  }

  /** A reply names the very target that it is for, unless that is IPv6 text other than the canonical
      one, or a name that is too long. */
  lemma ReplyNamesTarget(t: Text, target: HostPort, payload: bytes)
    requires Lawful(t)
    ensures ParseHeader(t, WrapReply(t, target, payload)) == Ok((target, payload)) <==>
            !IsLooseV6(t, target.host) && !IsLostName(t, target.host)
  {
    ReplyParses(t, target, payload);
    SeenExactly(t, target.host);
  }

  lemma SeenExactly(t: Text, host: string)
    requires Lawful(t)
    ensures SeenHost(t, host) == host <==> !IsLooseV6(t, host) && !IsLostName(t, host)
  {
    ReplyHost(t, host);
    if t.parse6(host).Some? {
      V6TextIsNotV4(host);
    } else if |t.utf8(host)| > 255 {
      CutName(t, host);
    }
  }

  predicate HasName(buf: bytes) {
    |buf| > 4 && buf[3] == ATYP_NAME && |buf| - 5 >= buf[4]
  }

  /** The target of a datagram is never such a name, unless the datagram has one that is not valid
      UTF-8. */
  lemma ValidNameIsNotLost(t: Text, buf: bytes)
    requires Lawful(t) && ParseHeader(t, buf).Ok?
    requires HasName(buf) ==> IsUtf8(t, buf[5..5 + buf[4]])
    ensures !IsLostName(t, ParseHeader(t, buf).value.0.host)
  {
    var host := ParseHeader(t, buf).value.0.host;
    if buf[3] == ATYP_V4 {
      V4TextIsCanonical(host, buf[4..8]);
    } else if buf[3] == ATYP_V6 {
      V6TextIsNotV4(host);
    } else {
      var s :| t.utf8(s) == buf[5..5 + buf[4]];
      assert t.lossy(t.utf8(s)) == s;
    }
  }

  lemma RewrapIp(t: Text, buf: bytes)
    requires LawfulV6(t) && ParseHeader(t, buf).Ok? && buf[3] != ATYP_NAME
    ensures var (target, payload) := ParseHeader(t, buf).value;
      WrapReply(t, target, payload) == buf <==> buf[0] == 0 && buf[1] == 0
  {
    var (target, payload) := ParseHeader(t, buf).value;
    var out := WrapReply(t, target, payload);
    assert out[..3] == [0, 0, 0];
    if buf[3] == ATYP_V4 {
      V4TextIsCanonical(target.host, buf[4..8]);
      Reassemble(buf, 8);
    } else {
      V6TextIsNotV4(target.host);
      Reassemble(buf, 20);
    }
  }

  /** Where the name stands in a wrapped reply. */
  lemma NameStands(t: Text, target: HostPort, payload: bytes)
    requires !IsIpLiteral(t, target.host)
    ensures var out, name := WrapReply(t, target, payload), NameBytes(t, target.host);
      && 5 + |name| <= |out| && out[..3] == [0, 0, 0] && out[3] == ATYP_NAME
      && out[4] == |name| && out[5..5 + |name|] == name
  {
    var name := NameBytes(t, target.host);
    var tail := U16Be(target.port) + payload;
    assert WrapReply(t, target, payload) == [0, 0, 0, ATYP_NAME, |name|] + (name + tail);
    assert (name + tail)[..|name|] == name;
  }

  lemma RewrapSame(t: Text, buf: bytes)
    requires ParseHeader(t, buf).Ok? && buf[3] == ATYP_NAME && buf[0] == 0 && buf[1] == 0
    requires var host := ParseHeader(t, buf).value.0.host;
      !IsIpLiteral(t, host) && NameBytes(t, host) == buf[5..5 + buf[4]]
    ensures var (target, payload) := ParseHeader(t, buf).value; WrapReply(t, target, payload) == buf
  {
    var len: nat := buf[4];
    Reassemble(buf, 5 + len);
    assert [buf[3], buf[4]] + buf[5..5 + len] == buf[3..5 + len];
  }

  lemma LiteralHasNoName(t: Text, target: HostPort, payload: bytes)
    requires IsIpLiteral(t, target.host)
    ensures |WrapReply(t, target, payload)| > 3 && WrapReply(t, target, payload)[3] != ATYP_NAME
  {
    assert WrapReply(t, target, payload)[3] == AddressField(t, target.host)[0];
  }

  lemma RewrapName(t: Text, buf: bytes)
    requires ParseHeader(t, buf).Ok? && buf[3] == ATYP_NAME
    ensures var (target, payload) := ParseHeader(t, buf).value;
      WrapReply(t, target, payload) == buf <==>
        && buf[0] == 0 && buf[1] == 0
        && !IsIpLiteral(t, target.host) && NameBytes(t, target.host) == buf[5..5 + buf[4]]
  {
    var (target, payload) := ParseHeader(t, buf).value;
    if IsIpLiteral(t, target.host) {
      LiteralHasNoName(t, target, payload);
    } else {
      NameStands(t, target, payload);
      if buf[0] == 0 && buf[1] == 0 && NameBytes(t, target.host) == buf[5..5 + buf[4]] {
        RewrapSame(t, buf);
      }
    }
  }

  lemma Reassemble(buf: bytes, n: nat)
    requires 4 <= n && n + 2 <= |buf|
    ensures buf == buf[..3] + buf[3..n] + U16Be(FromU16Be(buf[n], buf[n + 1])) + buf[n + 2..]
    ensures buf[3..n] == [buf[3]] + buf[4..n]
    ensures buf[..3] == [buf[0], buf[1], buf[2]]
  {
    assert buf == buf[..3] + buf[3..n] + [buf[n], buf[n + 1]] + buf[n + 2..];
  }

  // ---------------------------------------------------------------------------
  // The proxy client's codec
  // ---------------------------------------------------------------------------

  /** `wrap_socks5_udp` */
  function WrapDatagram(target: SocketAddr, payload: bytes): bytes {
    [0, 0, 0]
    + (if target.SocketAddrV4? then [ATYP_V4] + target.ip4 else [ATYP_V6] + target.ip6)
    + U16Be(target.port) + payload
  }

  /** What the in-place unwrapping finds: the inner source and the payload. */
  function UnwrapDatagram(buf: bytes): Option<(SocketAddr, bytes)> {
    if |buf| < 4 || buf[0] != 0 || buf[1] != 0 || buf[2] != 0 then None
    else if buf[3] == ATYP_V4 && |buf| >= 10 then
      Some((NewSocketAddr(V4(buf[4..8]), FromU16Be(buf[8], buf[9])), buf[10..]))
    else if buf[3] == ATYP_V6 && |buf| >= 22 then
      Some((NewSocketAddr(V6(buf[4..20]), FromU16Be(buf[20], buf[21])), buf[22..]))
    else None
  }

  /** `unwrap_socks5_udp_in_place`: the payload moves to the front of the same buffer, the bytes
      behind it stay, and a refused datagram leaves the buffer alone. */
  method UnwrapInPlace(buf: array<byte>) returns (r: Option<(SocketAddr, nat)>)
    modifies buf
    ensures match UnwrapDatagram(old(buf[..]))
            case None => r.None? && buf[..] == old(buf[..])
            case Some((src, payload)) =>
              && r == Some((src, |payload|)) && |payload| < buf.Length
              && buf[..|payload|] == payload
              && buf[|payload|..] == old(buf[..])[|payload|..]
  {
    ghost var was := buf[..];
    if buf.Length < 4 {
      return None;
    }
    if buf[0] != 0 || buf[1] != 0 {
      return None;
    }
    if buf[2] != 0 {
      return None;
    }
    var src: SocketAddr, headerLen: nat;
    if buf[3] == ATYP_V4 {
      if buf.Length < 10 {
        return None;
      }
      src := NewSocketAddr(V4(buf[4..8]), FromU16Be(buf[8], buf[9]));
      headerLen := 10;
    } else if buf[3] == ATYP_V6 {
      if buf.Length < 22 {
        return None;
      }
      src := NewSocketAddr(V6(buf[4..20]), FromU16Be(buf[20], buf[21]));
      headerLen := 22;
    } else {
      return None;
    }
    assert UnwrapDatagram(was) == Some((src, was[headerLen..]));
    ShiftLeft(buf, headerLen);
    r := Some((src, buf.Length - headerLen));
  }

  /** `buf.copy_within(n.., 0)` */
  method ShiftLeft(buf: array<byte>, n: nat)
    requires n <= buf.Length
    modifies buf
    ensures buf[..buf.Length - n] == old(buf[..])[n..]
    ensures buf[buf.Length - n..] == old(buf[..])[buf.Length - n..]
  {
    var i := 0;
    while i < buf.Length - n
      invariant 0 <= i <= buf.Length - n
      invariant forall k | 0 <= k < i :: buf[k] == old(buf[..])[k + n]
      invariant forall k | i <= k < buf.Length :: buf[k] == old(buf[..])[k]
    {
      buf[i] := buf[i + n];
      i := i + 1;
    }
  }

  /** On datagrams with a zero RSV and an IP address both decoders accept the same inputs and
      read the same address, port and payload. */
  lemma UnwrapRefinesParse(t: Text, buf: bytes)
    requires |buf| >= 4 && buf[0] == 0 && buf[1] == 0
    requires buf[3] == ATYP_V4 || buf[3] == ATYP_V6
    ensures UnwrapDatagram(buf).Some? <==> ParseHeader(t, buf).Ok?
    ensures UnwrapDatagram(buf).Some? ==>
              var (src, payload) := UnwrapDatagram(buf).value;
              ParseHeader(t, buf).value == (HostPort(PrintIp(t, src.Ip()), src.port), payload)
  {
  }

  /** Where the two decoders differ: unwrapping refuses a non-zero RSV and every domain. */
  lemma UnwrapIsStricter(t: Text, buf: bytes)
    ensures UnwrapDatagram(buf).Some? <==>
              && ParseHeader(t, buf).Ok?
              && buf[0] == 0 && buf[1] == 0 && buf[3] != ATYP_NAME
  {
    if |buf| >= 4 && buf[0] == 0 && buf[1] == 0 && (buf[3] == ATYP_V4 || buf[3] == ATYP_V6) {
      UnwrapRefinesParse(t, buf);
    }
  }

  /** Both encoders write the same bytes for an IP address. */
  lemma EncodersAgree(t: Text, target: SocketAddr, payload: bytes)
    requires LawfulV6(t)
    ensures WrapDatagram(target, payload) ==
            WrapReply(t, HostPort(PrintIp(t, target.Ip()), target.port), payload)
  {
    if target.SocketAddrV4? {
      V4TextIsCanonical(PrintV4(target.ip4), target.ip4);
    } else {
      V6TextIsNotV4(t.print6(target.ip6));
    }
  }

  predicate IsPlain(a: SocketAddr) {
    a.SocketAddrV6? ==> a.flow == 0 && a.scope == 0
  }

  /** Unwrapping gives back the payload and the address without flow label and scope, which is
      the address itself exactly when both are zero. */
  lemma UnwrapOfWrap(target: SocketAddr, payload: bytes)
    ensures UnwrapDatagram(WrapDatagram(target, payload)) ==
            Some((NewSocketAddr(target.Ip(), target.port), payload))
    ensures NewSocketAddr(target.Ip(), target.port) == target <==> IsPlain(target)
  {
    var buf := WrapDatagram(target, payload);
    var port := U16Be(target.port);
    if target.SocketAddrV4? {
      assert buf[3] == ATYP_V4 && buf[4..8] == target.ip4 && buf[10..] == payload;
      assert buf[8] == port[0] && buf[9] == port[1];
    } else {
      assert buf[3] == ATYP_V6 && buf[4..20] == target.ip6 && buf[22..] == payload;
      assert buf[20] == port[0] && buf[21] == port[1];
    }
  }

  // ---------------------------------------------------------------------------
  // The proxied socket
  // ---------------------------------------------------------------------------

  datatype Packet = Packet(addr: SocketAddr, data: bytes)

  /** The payload of an inbound packet that counts as coming from the QUIC server. */
  function Accepted(relay: SocketAddr, target: SocketAddr, p: Packet): Option<bytes> {
    if p.addr != relay then None
    else
      match UnwrapDatagram(p.data)
      case None => None
      case Some((src, payload)) => if src == target then Some(payload) else None
  }

  /** Everything that quinn is handed from a run of inbound packets. */
  function Delivered(relay: SocketAddr, target: SocketAddr, ps: seq<Packet>): seq<bytes> {
    if ps == [] then []
    else
      (match Accepted(relay, target, ps[0]) { case None => [] case Some(p) => [p] })
      + Delivered(relay, target, ps[1..])
  }

  datatype SendResult = Forwarded | WrongDestination | NotTaken

  /** `Socks5UdpSocket`: packets waiting in the local socket and packets sent to the network. */
  class ProxiedSocket {
    const relay: SocketAddr
    const target: SocketAddr
    var inbound: seq<Packet>
    var outbound: seq<Packet>

    constructor (relay: SocketAddr, target: SocketAddr, inbound: seq<Packet>)
      ensures this.relay == relay && this.target == target
      ensures this.inbound == inbound && outbound == []
    {
      this.relay := relay;
      this.target := target;
      this.inbound := inbound;
      this.outbound := [];
    }

    /** `try_send`: `taken` is what the socket answers, if it is asked. */
    method TrySend(destination: SocketAddr, contents: bytes, taken: bool) returns (r: SendResult)
      modifies this`outbound
      ensures r == if destination != target then WrongDestination else if taken then Forwarded else NotTaken
      ensures outbound == old(outbound)
              + if r.Forwarded? then [Packet(relay, WrapDatagram(target, contents))] else []
    {
      if destination != target {
        return WrongDestination;
      }
      if !taken {
        return NotTaken;
      }
      outbound := outbound + [Packet(relay, WrapDatagram(target, contents))];
      r := Forwarded;
    }

    /** `poll_recv`: the next packet that passes the filters, or pending if none is left. */
    method PollRecv() returns (r: Option<bytes>)
      modifies this`inbound
      ensures r.None? ==> inbound == [] && Delivered(relay, target, old(inbound)) == []
      ensures r.Some? ==>
                Delivered(relay, target, old(inbound)) ==
                [r.value] + Delivered(relay, target, inbound)
    {
      while inbound != []
        invariant Delivered(relay, target, old(inbound)) == Delivered(relay, target, inbound)
        decreases |inbound|
      {
        var p := inbound[0];
        inbound := inbound[1..];
        if p.addr != relay {
          continue;
        }
        var buf := new byte[|p.data|](i requires 0 <= i < |p.data| => p.data[i]);
        assert buf[..] == p.data;
        var inner := UnwrapInPlace(buf);
        if inner.None? {
          continue;
        }
        if inner.value.0 != target {
          continue;
        }
        return Some(buf[..inner.value.1]);
      }
      r := None;
    }
  }

  /** The packets of a relay that answers in the proxy client's own format. */
  function Answers(relay: SocketAddr, target: SocketAddr, payloads: seq<bytes>): seq<Packet> {
    if payloads == [] then []
    else [Packet(relay, WrapDatagram(target, payloads[0]))] + Answers(relay, target, payloads[1..])
  }

  lemma AnswerAccepted(relay: SocketAddr, target: SocketAddr, payload: bytes)
    ensures Accepted(relay, target, Packet(relay, WrapDatagram(target, payload))) ==
            if IsPlain(target) then Some(payload) else None
  {
    UnwrapOfWrap(target, payload);
  }

  /** Such answers are heard exactly when the server address has no flow label and no scope;
      otherwise every one of them is dropped. */
  lemma {:induction false} AnswersAreHeard(relay: SocketAddr, target: SocketAddr, payloads: seq<bytes>)
    ensures Delivered(relay, target, Answers(relay, target, payloads)) ==
            if IsPlain(target) then payloads else []
  {
    if payloads != [] {
      AnswerAccepted(relay, target, payloads[0]);
      AnswersAreHeard(relay, target, payloads[1..]);
      assert Answers(relay, target, payloads)[1..] == Answers(relay, target, payloads[1..]);
    }
  }
}

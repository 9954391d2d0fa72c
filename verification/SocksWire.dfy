/** SOCKS5 in bytes (RFC 1928 and RFC 1929): what stands where in every message, written out, and
    what each side makes of it. */
module SocksWire {
  import opened Basics
  import opened IpText
  import opened Remote
  import opened SocksUdp
  import opened SocksHandshake

  /** ATYP and the address behind it. */
  function Field(d: Destination): bytes
    requires Expressible(d)
  {
    match d
    case ToV4(o) => [1] + o
    case ToV6(o) => [4] + o
    case ToName(b) => [3, |b|] + b
  }

  /** A port, high byte first. */
  function PortBytes(port: u16): bytes {
    [port / 256, port % 256]
  }

  // ---------------------------------------------------------------------------
  // Hosts
  // ---------------------------------------------------------------------------

  /** The host that is dialled is the text of the address on the wire, octet by octet for IPv4, and
      nothing that reads as another address. */
  lemma HostIsExact(t: Text, d: Destination)
    requires LawfulV6(t)
    ensures var h := DestinationHost(t, d);
      match d
      case ToV4(o) =>
        && ParseV4(h) == Some(o)
        && h == Decimal(o[0]) + "." + Decimal(o[1]) + "." + Decimal(o[2]) + "." + Decimal(o[3])
      case ToV6(o) => ParseV4(h).None? && t.parse6(h) == Some(o)
      case ToName(b) => h == t.lossy(b)
  {
    match d {
      case ToV4(o) =>
        V4TextIsCanonical(PrintV4(o), o);
        PrintV4Is(o);
      case ToV6(o) => V6TextIsNotV4(t.print6(o));
      case ToName(_) =>
    }
  }

  /** A request and a datagram with the same address and port name the same target, whatever the
      reserved bytes of the datagram are. */
  lemma SameTarget(t: Text, r0: byte, r1: byte, d: Destination, port: u16, payload: bytes)
    requires Expressible(d)
    ensures ParseHeader(t, [r0, r1, 0] + Field(d) + PortBytes(port) + payload) ==
            Ok((HostPort(DestinationHost(t, d), port), payload))
  {
    var field, buf := Field(d), [r0, r1, 0] + Field(d) + PortBytes(port) + payload;
    var n := 3 + |field|;
    assert buf[3..n] == field;
    assert buf[n] == port / 256 && buf[n + 1] == port % 256 && buf[n + 2..] == payload;
    match d {
      case ToV4(o) => assert buf[4..8] == field[1..] == o;
      case ToV6(o) => assert buf[4..20] == field[1..] == o;
      case ToName(b) => assert buf[3] == field[0] && buf[4] == field[1] && buf[5..5 + buf[4]] == field[2..] == b;
    }
  }

  /** A datagram with its reserved bytes, the address `d`, and what follows. */
  ghost predicate IsDatagram(t: Text, buf: bytes, d: Destination, target: HostPort, payload: bytes) {
    && |buf| >= 3 && Expressible(d) && target.host == DestinationHost(t, d)
    && buf == [buf[0], buf[1], 0] + Field(d) + PortBytes(target.port) + payload
  }

  lemma AddressRead(t: Text, buf: bytes, d: Destination, n: nat)
    requires 3 <= n <= |buf| - 2 && buf[2] == 0 && Expressible(d) && buf[3..n] == Field(d)
    ensures IsDatagram(t, buf, d, HostPort(DestinationHost(t, d), FromU16Be(buf[n], buf[n + 1])), buf[n + 2..])
  {
    var port := FromU16Be(buf[n], buf[n + 1]);
    assert PortBytes(port) == [buf[n], buf[n + 1]];
    assert buf == buf[..3] + buf[3..n] + [buf[n], buf[n + 1]] + buf[n + 2..];
    assert buf[..3] == [buf[0], buf[1], 0];
  }

  ghost predicate IsSome(t: Text, buf: bytes, target: HostPort, payload: bytes) {
    exists d :: IsDatagram(t, buf, d, target, payload)
  }

  lemma V4Parsed(t: Text, buf: bytes, target: HostPort, payload: bytes)
    requires |buf| >= 4 && buf[3] == 1 && ParseHeader(t, buf) == Ok((target, payload))
    ensures IsSome(t, buf, target, payload)
  {
    assert buf[3..8] == [1] + buf[4..8];
    AddressRead(t, buf, ToV4(buf[4..8]), 8);
  }

  lemma V6Parsed(t: Text, buf: bytes, target: HostPort, payload: bytes)
    requires |buf| >= 4 && buf[3] == 4 && ParseHeader(t, buf) == Ok((target, payload))
    ensures IsSome(t, buf, target, payload)
  {
    assert buf[3..20] == [4] + buf[4..20];
    AddressRead(t, buf, ToV6(buf[4..20]), 20);
  }

  lemma NameParsed(t: Text, buf: bytes, target: HostPort, payload: bytes)
    requires |buf| >= 4 && buf[3] == 3 && ParseHeader(t, buf) == Ok((target, payload))
    ensures IsSome(t, buf, target, payload)
  {
    var len: nat := buf[4];
    var n := 5 + len;
    assert buf[3..n] == [3, buf[4]] + buf[5..n];
    AddressRead(t, buf, ToName(buf[5..n]), n);
  }

  /** The relay takes a datagram if and only if it is one: unfragmented, with an address of one of the
      three types and a port, all of which are read exactly. */
  lemma ParsesExactly(t: Text, buf: bytes, target: HostPort, payload: bytes)
    ensures ParseHeader(t, buf) == Ok((target, payload)) <==> IsSome(t, buf, target, payload)
  {
    if ParseHeader(t, buf) == Ok((target, payload)) {
      if buf[3] == 1 {
        V4Parsed(t, buf, target, payload);
      } else if buf[3] == 4 {
        V6Parsed(t, buf, target, payload);
      } else {
        NameParsed(t, buf, target, payload);
      }
    } else if IsSome(t, buf, target, payload) {
      var d :| IsDatagram(t, buf, d, target, payload);
      SameTarget(t, buf[0], buf[1], d, target.port, payload);
    }
  }

  // ---------------------------------------------------------------------------
  // Requests to the server
  // ---------------------------------------------------------------------------

  /** A greeting that offers `methods`, a request with command `cmd`, and `rest` behind it. */
  function Dialogue(methods: bytes, cmd: byte, d: Destination, port: u16, rest: bytes): bytes
    requires |methods| <= 255 && Expressible(d)
  {
    [5, |methods|] + methods + [5, cmd, 0] + Field(d) + PortBytes(port) + rest
  }

  lemma Regroup(a: bytes, b: bytes, c: bytes, d: bytes, e: bytes)
    ensures a + b + c + d + e == a + (b + c + d + e)
  {
  }

  lemma DialogueIs(methods: bytes, cmd: byte, d: Destination, port: u16, rest: bytes)
    requires |methods| <= 255 && Expressible(d)
    ensures Dialogue(methods, cmd, d, port, rest) ==
            ClientHello(methods) + (RequestBytes(5, cmd, 0, d, port) + rest)
  {
    assert Field(d) == DestinationBytes(d) && PortBytes(port) == U16Be(port);
    Regroup([5, |methods|] + methods, [5, cmd, 0], Field(d), PortBytes(port), rest);
  }

  /** The relay socket's address in the reply to UDP ASSOCIATE. */
  function BoundField(bound: SocketAddr): bytes {
    (if bound.SocketAddrV4? then [1] + bound.ip4 else [4] + bound.ip6) + PortBytes(bound.port)
  }

  lemma DialogueRun(t: Text, bound: SocketAddr, methods: bytes, cmd: byte, d: Destination, port: u16, rest: bytes)
    requires |methods| <= 255 && Expressible(d)
    ensures var r, after := ServerRun(t, bound, Greeting, Dialogue(methods, cmd, d, port, rest)),
                            Outcome(t, bound, cmd, d, port, rest);
      r == after.(written := [5, 0] + after.written)
  {
    DialogueIs(methods, cmd, d, port, rest);
    ServerDecodes(t, bound, methods, 5, cmd, 0, d, port, rest);
  }

  /** The host is the address that stands on the wire. */
  ghost predicate Names(t: Text, h: string, d: Destination) {
    match d
    case ToV4(o) => ParseV4(h) == Some(o)
    case ToV6(o) => ParseV4(h).None? && t.parse6(h) == Some(o)
    case ToName(b) => h == t.lossy(b)
  }

  /** CONNECT (1) is accepted for the address and port in the request, with nothing written but the
      method reply, and what stands behind the request is left alone. */
  lemma ConnectOnTheWire(t: Text, bound: SocketAddr, methods: bytes, d: Destination, port: u16, rest: bytes)
    requires LawfulV6(t) && |methods| <= 255 && Expressible(d)
    ensures var r := ServerRun(t, bound, Greeting, Dialogue(methods, 1, d, port, rest));
      && r.rest == rest && r.written == [5, 0] && r.state.Accepted? && r.state.request.Connect?
      && r.state.request.target.port == port && Names(t, r.state.request.target.host, d)
  {
    DialogueRun(t, bound, methods, 1, d, port, rest);
    HostIsExact(t, d);
  }

  lemma BoundIs(bound: SocketAddr)
    ensures AssociateReply(bound) == [5, 0, 0] + BoundField(bound)
  {
  }

  /** UDP ASSOCIATE (3) is answered with the relay's address, and every other command is refused with
      reply 7. */
  lemma OtherOnTheWire(
      t: Text, bound: SocketAddr, methods: bytes, cmd: byte, d: Destination, port: u16, rest: bytes)
    requires |methods| <= 255 && Expressible(d) && cmd != 1
    ensures var r := ServerRun(t, bound, Greeting, Dialogue(methods, cmd, d, port, rest));
      && r.rest == rest
      && r.written == [5, 0] + (if cmd == 3 then [5, 0, 0] + BoundField(bound) else [5, 7])
      && r.state == if cmd == 3 then Associated else Refused(BadCommand)
  {
    DialogueRun(t, bound, methods, cmd, d, port, rest);
    BoundIs(bound);
  }

  /** A greeting with another version is refused without a word. */
  lemma BadVersionOnTheWire(t: Text, bound: SocketAddr, ver: byte, count: byte, rest: bytes)
    requires ver != 5
    ensures ServerRun(t, bound, Greeting, [ver, count] + rest) == Run(Refused(BadVersion), [], rest)
  {
    ServerRunStep(t, bound, Greeting, [ver, count], rest);
  }

  lemma BadAtypRun(t: Text, bound: SocketAddr, cmd: byte, atyp: byte, rest: bytes)
    requires atyp != 1 && atyp != 3 && atyp != 4
    ensures ServerRun(t, bound, Address(cmd, atyp), rest) == Run(Refused(BadAtyp), [5, 8], rest)
  {
    ServerRunStep(t, bound, Address(cmd, atyp), [], rest);
    assert [] + rest == rest;
  }

  /** An address type that does not exist is refused with reply 8. */
  lemma BadAtypOnTheWire(t: Text, bound: SocketAddr, methods: bytes, cmd: byte, atyp: byte, rest: bytes)
    requires |methods| <= 255 && atyp != 1 && atyp != 3 && atyp != 4
    ensures ServerRun(t, bound, Greeting, [5, |methods|] + methods + ([5, cmd, 0, atyp] + rest)) ==
            Run(Refused(BadAtyp), [5, 0] + [5, 8], rest)
  {
    BadAtypRun(t, bound, cmd, atyp, rest);
    OpeningDecodes(t, bound, methods, [5, cmd, 0, atyp], rest);
  }

  // ---------------------------------------------------------------------------
  // The proxy client against a scripted proxy
  // ---------------------------------------------------------------------------

  function ClientRank(c: Client): nat {
    match c
    case Start => 9
    case MethodReply => 8
    case AuthReply => 7
    case SendRequest => 6
    case ReplyHead => 5
    case BoundAddress(_) => 4
    case BoundName(_) => 3
    case BoundPort(_) => 2
    case Established(_) => 1
    case Failed(_) => 0
  }

  datatype Told = Told(state: Client, written: bytes, rest: bytes)

  /** The client as far as the bytes of `input` take it. */
  function ClientRun(p: Proxy, c: Client, input: bytes): Told
    decreases ClientRank(c)
  {
    match ClientNeeds(c)
    case None => Told(c, [], input)
    case Some(n) =>
      if |input| < n then Told(c, [], input)
      else
        var (c', out) := ClientStep(p, c, input[..n]);
        var r := ClientRun(p, c', input[n..]);
        r.(written := out + r.written)
  }

  lemma ClientRunStep(p: Proxy, c: Client, b: bytes, rest: bytes)
    requires ClientNeeds(c) == Some(|b|)
    ensures var (c', out) := ClientStep(p, c, b);
      var r := ClientRun(p, c', rest);
      ClientRun(p, c, b + rest) == r.(written := out + r.written)
  {
    assert (b + rest)[..|b|] == b && (b + rest)[|b|..] == rest;
  }

  /** The sub-negotiation for user name and password (section 2 of RFC 1929). */
  function Login(user: bytes, pass: bytes): bytes
    requires |user| <= 255 && |pass| <= 255
  {
    [1, |user|] + user + [|pass|] + pass
  }

  /** The relay that a proxy at `peer` means by an address: its own IP for a name and for an
      unspecified address. */
  function RelayOf(peer: IpAddr, d: Destination, port: u16): SocketAddr {
    var ip :=
      match d
      case ToV4(o) => if o == [0, 0, 0, 0] then peer else V4(o)
      case ToV6(o) => if o == [0, 0, 0, 0, 0, 0, 0, 0, 0, 0, 0, 0, 0, 0, 0, 0] then peer else V6(o)
      case ToName(_) => peer;
    NewSocketAddr(ip, port)
  }

  lemma AllZero(o: bytes, zero: bytes)
    requires |o| == |zero| && forall i | 0 <= i < |zero| :: zero[i] == 0
    ensures (forall b | b in o :: b == 0) <==> o == zero
  {
    assert forall i | 0 <= i < |o| :: o[i] in o;
  }

  lemma Unspecified(ip: IpAddr, zero: bytes)
    requires |ip.Octets()| == |zero| && forall i | 0 <= i < |zero| :: zero[i] == 0
    ensures ip.IsUnspecified() <==> ip.Octets() == zero
  {
    AllZero(ip.Octets(), zero);
  }

  lemma RelayIs(p: Proxy, d: Destination, port: u16)
    ensures d.ToV4? ==> RelayAt(p, V4(d.octets4), port) == RelayOf(p.peer, d, port)
    ensures d.ToV6? ==> RelayAt(p, V6(d.octets16), port) == RelayOf(p.peer, d, port)
    ensures d.ToName? ==> RelayAt(p, p.peer, port) == RelayOf(p.peer, d, port)
  {
    match d {
      case ToV4(o) => Unspecified(V4(o), [0, 0, 0, 0]);
      case ToV6(o) => Unspecified(V6(o), [0, 0, 0, 0, 0, 0, 0, 0, 0, 0, 0, 0, 0, 0, 0, 0]);
      case ToName(_) =>
    }
  }

  lemma PortTold(p: Proxy, ip: IpAddr, port: u16, rest: bytes)
    ensures ClientRun(p, BoundPort(ip), PortBytes(port) + rest) == Told(Established(RelayAt(p, ip, port)), [], rest)
  {
    ClientRunStep(p, BoundPort(ip), PortBytes(port), rest);
  }

  lemma AddressTold(p: Proxy, d: Destination, port: u16, rest: bytes)
    requires Expressible(d)
    ensures ClientRun(p, BoundAddress(Field(d)[0]), Field(d)[1..] + (PortBytes(port) + rest)) ==
            Told(Established(RelayOf(p.peer, d, port)), [], rest)
  {
    var tail := PortBytes(port) + rest;
    RelayIs(p, d, port);
    match d {
      case ToV4(o) =>
        assert Field(d)[1..] == o;
        ClientRunStep(p, BoundAddress(1), o, tail);
        PortTold(p, V4(o), port, rest);
      case ToV6(o) =>
        assert Field(d)[1..] == o;
        ClientRunStep(p, BoundAddress(4), o, tail);
        PortTold(p, V6(o), port, rest);
      case ToName(b) =>
        assert Field(d)[1..] + tail == [|b|] + (b + tail);
        ClientRunStep(p, BoundAddress(3), [|b|], b + tail);
        ClientRunStep(p, BoundName(|b|), b, tail);
        PortTold(p, p.peer, port, rest);
    }
  }

  /** The reply to UDP ASSOCIATE. */
  function Reply(rsv: byte, d: Destination, port: u16): bytes
    requires Expressible(d)
  {
    [5, 0, rsv] + Field(d) + PortBytes(port)
  }

  lemma HeadSplit(start: bytes, field: bytes, port: bytes, rest: bytes)
    requires field != []
    ensures start + field + port + rest == (start + [field[0]]) + (field[1..] + (port + rest))
  {
    assert field == [field[0]] + field[1..];
  }

  lemma HeadStep(p: Proxy, rsv: byte, atyp: byte, tail: bytes)
    ensures ClientRun(p, ReplyHead, ([5, 0, rsv] + [atyp]) + tail) == ClientRun(p, BoundAddress(atyp), tail)
  {
    ClientRunStep(p, ReplyHead, [5, 0, rsv] + [atyp], tail);
    var r := ClientRun(p, BoundAddress(atyp), tail);
    assert [] + r.written == r.written;
  }

  lemma HeadTold(p: Proxy, rsv: byte, d: Destination, port: u16, rest: bytes)
    requires Expressible(d)
    ensures ClientRun(p, ReplyHead, Reply(rsv, d, port) + rest) ==
            Told(Established(RelayOf(p.peer, d, port)), [], rest)
  {
    var atyp, tail := Field(d)[0], Field(d)[1..] + (PortBytes(port) + rest);
    HeadSplit([5, 0, rsv], Field(d), PortBytes(port), rest);
    AddressTold(p, d, port, rest);
    HeadStep(p, rsv, atyp, tail);
  }

  /** A step that reads nothing. */
  lemma Speaks(p: Proxy, c: Client, input: bytes)
    requires ClientNeeds(c) == Some(0)
    ensures var (c', out) := ClientStep(p, c, []);
      var r := ClientRun(p, c', input);
      ClientRun(p, c, input) == r.(written := out + r.written)
  {
    assert input[..0] == [] && input[0..] == input;
  }

  const ASSOCIATE: bytes := [5, 3, 0, 1, 0, 0, 0, 0, 0, 0]

  lemma ReplyTold(p: Proxy, rsv: byte, d: Destination, port: u16, rest: bytes)
    requires Expressible(d)
    ensures ClientRun(p, SendRequest, Reply(rsv, d, port) + rest) ==
            Told(Established(RelayOf(p.peer, d, port)), ASSOCIATE, rest)
  {
    HeadTold(p, rsv, d, port, rest);
    Speaks(p, SendRequest, Reply(rsv, d, port) + rest);
    assert ASSOCIATE + [] == ASSOCIATE == ASSOCIATE_REQUEST;
  }

  /** The methods that the client offers. */
  function Offered(p: Proxy): bytes {
    if p.auth.Some? then [5, 2, 0, 2] else [5, 1, 0]
  }

  lemma Starts(p: Proxy, input: bytes)
    ensures var r := ClientRun(p, MethodReply, input);
      ClientRun(p, Start, input) == r.(written := Offered(p) + r.written)
  {
    Speaks(p, Start, input);
  }

  lemma NoneTold(p: Proxy, tail: bytes)
    ensures ClientRun(p, MethodReply, [5, 0] + tail) == ClientRun(p, SendRequest, tail)
  {
    ClientRunStep(p, MethodReply, [5, 0], tail);
    var r := ClientRun(p, SendRequest, tail);
    assert [] + r.written == r.written;
  }

  /** A proxy that asks for no authentication: the client offers its methods, asks for an association
      and uses the relay that the reply names. */
  lemma PlainProxy(p: Proxy, rsv: byte, d: Destination, port: u16, rest: bytes)
    requires Expressible(d)
    ensures ClientRun(p, Start, [5, 0] + (Reply(rsv, d, port) + rest)) ==
            Told(Established(RelayOf(p.peer, d, port)), Offered(p) + ASSOCIATE, rest)
  {
    ReplyTold(p, rsv, d, port, rest);
    NoneTold(p, Reply(rsv, d, port) + rest);
    Starts(p, [5, 0] + (Reply(rsv, d, port) + rest));
  }

  lemma StatusTold(p: Proxy, status: byte, tail: bytes)
    ensures ClientRun(p, AuthReply, [1, status] + tail) ==
            if status == 0 then ClientRun(p, SendRequest, tail) else Told(Failed(AuthRejected), [], tail)
  {
    ClientRunStep(p, AuthReply, [1, status], tail);
    var r := ClientRun(p, SendRequest, tail);
    assert [] + r.written == r.written;
  }

  lemma LoginTold(p: Proxy, tail: bytes)
    requires p.auth.Some? && |p.auth.value.0| <= 255 && |p.auth.value.1| <= 255
    ensures var r := ClientRun(p, AuthReply, tail);
      ClientRun(p, MethodReply, [5, 2] + tail) ==
      r.(written := Login(p.auth.value.0, p.auth.value.1) + r.written)
  {
    ClientRunStep(p, MethodReply, [5, 2], tail);
  }

  lemma Joined(a: bytes, b: bytes, c: bytes)
    ensures a + (b + c) == a + b + c
  {
  }

  /** A proxy that asks for user name and password: the client sends both, each behind its length,
      goes on if and only if the proxy's status is zero, and then does the same as before. */
  lemma PasswordProxy(p: Proxy, status: byte, rsv: byte, d: Destination, port: u16, rest: bytes)
    requires Expressible(d) && p.auth.Some? && |p.auth.value.0| <= 255 && |p.auth.value.1| <= 255
    ensures var r := ClientRun(p, Start, [5, 2] + ([1, status] + (Reply(rsv, d, port) + rest)));
      var sent := Offered(p) + Login(p.auth.value.0, p.auth.value.1);
      if status == 0 then r == Told(Established(RelayOf(p.peer, d, port)), sent + ASSOCIATE, rest)
      else r == Told(Failed(AuthRejected), sent, Reply(rsv, d, port) + rest)
  {
    var tail, login := Reply(rsv, d, port) + rest, Login(p.auth.value.0, p.auth.value.1);
    ReplyTold(p, rsv, d, port, rest);
    StatusTold(p, status, tail);
    LoginTold(p, [1, status] + tail);
    Starts(p, [5, 2] + ([1, status] + tail));
    Joined(Offered(p), login, ASSOCIATE);
    Joined(Offered(p), login, []);
    assert Offered(p) + login + [] == Offered(p) + login;
  }

  /** A reply with a code other than zero, or of another version, ends the attempt with that code. */
  lemma ReplyRefused(p: Proxy, ver: byte, rep: byte, rsv: byte, atyp: byte, rest: bytes)
    requires ver != 5 || rep != 0
    ensures ClientRun(p, ReplyHead, [ver, rep, rsv, atyp] + rest) ==
            Told(Failed(if ver != 5 then BadReplyVersion else ReplyFailed(rep)), [], rest)
  {
    ClientRunStep(p, ReplyHead, [ver, rep, rsv, atyp], rest);
  }

  /** It gives up on any other method, and on this one without credentials or with ones that do not
      fit, before it sends anything of them. */
  lemma NoLogin(p: Proxy, choice: byte, rest: bytes)
    requires choice != 0
    requires choice == 2 ==> p.auth.None? || |p.auth.value.0| > 255 || |p.auth.value.1| > 255
    ensures var r := ClientRun(p, Start, [5, choice] + rest);
      r.state.Failed? && r.rest == rest && r.written == Offered(p)
  {
    ClientRunStep(p, MethodReply, [5, choice], rest);
    Starts(p, [5, choice] + rest);
    assert Offered(p) + [] == Offered(p);
  }

  // ---------------------------------------------------------------------------
  // Datagrams
  // ---------------------------------------------------------------------------

  /** A datagram from the relay names its host as an address if it reads as one and else as a name
      of at most 255 bytes, behind two reserved bytes and fragment number zero. */
  lemma ReplyOnTheWire(t: Text, target: HostPort, payload: bytes)
    ensures WrapReply(t, target, payload) ==
            [0, 0, 0]
            + Field(if ParseV4(target.host).Some? then ToV4(ParseV4(target.host).value)
                    else if t.parse6(target.host).Some? then ToV6(t.parse6(target.host).value)
                    else ToName(NameBytes(t, target.host)))
            + PortBytes(target.port) + payload
  {
  }

  /** A datagram to the relay names the target's IP and port. */
  lemma DatagramOnTheWire(target: SocketAddr, payload: bytes)
    ensures WrapDatagram(target, payload) ==
            [0, 0, 0] + Field(if target.SocketAddrV4? then ToV4(target.ip4) else ToV6(target.ip6))
            + PortBytes(target.port) + payload
  {
  }

  lemma Reassembled(data: bytes, n: nat)
    requires |data| >= n + 2 && n >= 4 && data[0] == 0 && data[1] == 0 && data[2] == 0
    ensures data == [0, 0, 0] + ([data[3]] + data[4..n]) + [data[n], data[n + 1]] + data[n + 2..]
  {
  }

  /** A packet is taken for one of the server's if and only if the relay sent it and it is, byte by
      byte, the datagram that names the server's address. */
  lemma AcceptedExactly(relay: SocketAddr, target: SocketAddr, p: Packet, payload: bytes)
    ensures SocksUdp.Accepted(relay, target, p) == Some(payload) <==>
            IsPlain(target) && p == Packet(relay, WrapDatagram(target, payload))
  {
    UnwrapOfWrap(target, payload);
    if SocksUdp.Accepted(relay, target, p) == Some(payload) {
      var n := if p.data[3] == 1 then 8 else 20;
      Reassembled(p.data, n);
    }
  }

  /** Whatever arrives, quinn is handed exactly the payloads that the relay passed on for the server. */
  lemma {:induction false} DeliveredExactly(relay: SocketAddr, target: SocketAddr, ps: seq<Packet>, payload: bytes)
    ensures payload in Delivered(relay, target, ps) <==>
            IsPlain(target) && Packet(relay, WrapDatagram(target, payload)) in ps
  {
    if ps != [] {
      DeliveredExactly(relay, target, ps[1..], payload);
      AcceptedExactly(relay, target, ps[0], payload);
      assert ps == [ps[0]] + ps[1..];
    }
  }
}

/** The SOCKS5 handshake over TCP (sections 3, 4 and 6 of RFC 1928): the server that accepts
    SOCKS clients, the client that asks a proxy for a UDP association, and the two talking to
    each other. Each side is a state machine whose every step is one `read_exact` together
    with the writes that follow it. */
module SocksHandshake {
  import opened Basics
  import opened ByteStream
  import opened IpText
  import opened Remote
  import opened SocksUdp

  // ---------------------------------------------------------------------------
  // The server
  // ---------------------------------------------------------------------------

  datatype SocksRequest = Connect(target: HostPort) | UdpAssociate

  /** DST.ADDR as it stands on the wire. */
  datatype Destination = ToV4(octets4: Octets4) | ToV6(octets16: Octets16) | ToName(name: bytes)

  /** The host that the handler is given for it. */
  function DestinationHost(t: Text, d: Destination): string {
    match d
    case ToV4(o) => PrintV4(o)
    case ToV6(o) => t.print6(o)
    case ToName(b) => t.lossy(b)
  }

  datatype ServerError = BadVersion | BadAtyp | BadCommand

  datatype Server =
    | Greeting
    | Methods(count: byte)
    | Request
    | Address(cmd: byte, atyp: byte)
    | Name(cmd: byte, len: byte)
    | Port(cmd: byte, destination: Destination)
    | Accepted(request: SocksRequest)
    | Associated
    | Refused(error: ServerError)

  /** How many bytes the next step reads; `None` if the server has nothing more to do. */
  function ServerNeeds(s: Server): Option<nat> {
    match s
    case Greeting => Some(2)
    case Methods(n) => Some(n)
    case Request => Some(4)
    case Address(_, atyp) =>
      Some(if atyp == ATYP_V4 then 4 else if atyp == ATYP_V6 then 16 else if atyp == ATYP_NAME then 1 else 0)
    case Name(_, n) => Some(n)
    case Port(_, _) => Some(2)
    case Accepted(r) => if r.UdpAssociate? then Some(0) else None
    case Associated => None
    case Refused(_) => None
  }

  /** The reply to UDP ASSOCIATE, which names the bound relay socket. */
  function AssociateReply(bound: SocketAddr): bytes {
    [5, 0, 0] + (if bound.SocketAddrV4? then [ATYP_V4] + bound.ip4 else [ATYP_V6] + bound.ip6)
    + U16Be(bound.port)
  }

  function Decide(t: Text, cmd: byte, d: Destination, port: u16): (Server, bytes) {
    if cmd == 0x01 then (Accepted(Connect(HostPort(DestinationHost(t, d), port))), [])
    else if cmd == 0x03 then (Accepted(UdpAssociate), [])
    else (Refused(BadCommand), [5, 7])
  }

  /** One step: the state after reading `b`, and what is written back. */
  function ServerStep(t: Text, bound: SocketAddr, s: Server, b: bytes): (Server, bytes)
    requires ServerNeeds(s) == Some(|b|)
  {
    match s
    case Greeting => if b[0] != 5 then (Refused(BadVersion), []) else (Methods(b[1]), [])
    case Methods(_) => (Request, [5, 0])
    case Request => (Address(b[1], b[3]), [])
    case Address(cmd, atyp) =>
      if atyp == ATYP_V4 then (Port(cmd, ToV4(b)), [])
      else if atyp == ATYP_V6 then (Port(cmd, ToV6(b)), [])
      else if atyp == ATYP_NAME then (Name(cmd, b[0]), [])
      else (Refused(BadAtyp), [5, 8])
    case Name(cmd, _) => (Port(cmd, ToName(b)), [])
    case Port(cmd, d) => Decide(t, cmd, d, FromU16Be(b[0], b[1]))
    case Accepted(_) => (Associated, AssociateReply(bound))
  }

  function ServerRank(s: Server): nat {
    match s
    case Greeting => 8
    case Methods(_) => 7
    case Request => 6
    case Address(_, _) => 5
    case Name(_, _) => 4
    case Port(_, _) => 3
    case Accepted(_) => 2
    case Associated => 1
    case Refused(_) => 0
  }

  datatype Run = Run(state: Server, written: bytes, rest: bytes)

  /** The server as far as the bytes of `input` take it. */
  function ServerRun(t: Text, bound: SocketAddr, s: Server, input: bytes): Run
    decreases ServerRank(s)
  {
    match ServerNeeds(s)
    case None => Run(s, [], input)
    case Some(n) =>
      if |input| < n then Run(s, [], input)
      else
        var (s', out) := ServerStep(t, bound, s, input[..n]);
        var r := ServerRun(t, bound, s', input[n..]);
        r.(written := out + r.written)
  }

  lemma ServerRunStep(t: Text, bound: SocketAddr, s: Server, b: bytes, rest: bytes)
    requires ServerNeeds(s) == Some(|b|)
    ensures var (s', out) := ServerStep(t, bound, s, b);
      var r := ServerRun(t, bound, s', rest);
      ServerRun(t, bound, s, b + rest) == r.(written := out + r.written)
  {
    assert (b + rest)[..|b|] == b && (b + rest)[|b|..] == rest;
  }

  // What a SOCKS client may send.

  predicate Expressible(d: Destination) {
    d.ToName? ==> |d.name| <= 255
  }

  /** ATYP and DST.ADDR */
  function DestinationBytes(d: Destination): bytes
    requires Expressible(d)
  {
    match d
    case ToV4(o) => [ATYP_V4] + o
    case ToV6(o) => [ATYP_V6] + o
    case ToName(b) => [ATYP_NAME, |b|] + b
  }

  function ClientHello(methods: bytes): bytes
    requires |methods| <= 255
  {
    [5, |methods|] + methods
  }

  function RequestBytes(ver: byte, cmd: byte, rsv: byte, d: Destination, port: u16): bytes
    requires Expressible(d)
  {
    [ver, cmd, rsv] + DestinationBytes(d) + U16Be(port)
  }

  /** What remains to be done once the address is read. */
  function AfterAddress(t: Text, bound: SocketAddr, cmd: byte, d: Destination, port: u16, rest: bytes): Run {
    var (s, out) := Decide(t, cmd, d, port);
    var r := ServerRun(t, bound, s, rest);
    r.(written := out + r.written)
  }

  lemma PortDecodes(t: Text, bound: SocketAddr, cmd: byte, d: Destination, port: u16, rest: bytes)
    ensures ServerRun(t, bound, Port(cmd, d), U16Be(port) + rest) ==
            AfterAddress(t, bound, cmd, d, port, rest)
  {
    ServerRunStep(t, bound, Port(cmd, d), U16Be(port), rest);
  }

  lemma IpDecodes(t: Text, bound: SocketAddr, cmd: byte, d: Destination, rest: bytes)
    requires !d.ToName?
    ensures ServerRun(t, bound, Address(cmd, DestinationBytes(d)[0]), DestinationBytes(d)[1..] + rest) ==
            ServerRun(t, bound, Port(cmd, d), rest)
  {
    var o := if d.ToV4? then d.octets4 else d.octets16;
    var atyp := DestinationBytes(d)[0];
    assert DestinationBytes(d)[1..] == o;
    ServerRunStep(t, bound, Address(cmd, atyp), o, rest);
    NothingWritten(ServerRun(t, bound, Port(cmd, d), rest));
  }

  lemma NameDecodes(t: Text, bound: SocketAddr, cmd: byte, b: bytes, rest: bytes)
    requires |b| <= 255
    ensures ServerRun(t, bound, Address(cmd, ATYP_NAME), [|b|] + (b + rest)) ==
            ServerRun(t, bound, Port(cmd, ToName(b)), rest)
  {
    var r := ServerRun(t, bound, Port(cmd, ToName(b)), rest);
    NothingWritten(r);
    assert ServerRun(t, bound, Name(cmd, |b|), b + rest) == r by {
      ServerRunStep(t, bound, Name(cmd, |b|), b, rest);
    }
    ServerRunStep(t, bound, Address(cmd, ATYP_NAME), [|b|], b + rest);
  }

  lemma NothingWritten(r: Run)
    ensures r.(written := [] + r.written) == r
  {
    assert [] + r.written == r.written;
  }

  lemma AddressDecodes(t: Text, bound: SocketAddr, cmd: byte, d: Destination, rest: bytes)
    requires Expressible(d)
    ensures ServerRun(t, bound, Address(cmd, DestinationBytes(d)[0]), DestinationBytes(d)[1..] + rest) ==
            ServerRun(t, bound, Port(cmd, d), rest)
  {
    if d.ToName? {
      assert DestinationBytes(d)[1..] + rest == [|d.name|] + (d.name + rest);
      NameDecodes(t, bound, cmd, d.name, rest);
    } else {
      IpDecodes(t, bound, cmd, d, rest);
    }
  }

  lemma OpeningDecodes(t: Text, bound: SocketAddr, methods: bytes, head: bytes, tail: bytes)
    requires |methods| <= 255 && |head| == 4
    ensures var r := ServerRun(t, bound, Address(head[1], head[3]), tail);
      ServerRun(t, bound, Greeting, ClientHello(methods) + (head + tail)) ==
      r.(written := [5, 0] + r.written)
  {
    var r := ServerRun(t, bound, Address(head[1], head[3]), tail);
    var r1 := ServerRun(t, bound, Request, head + tail);
    assert r1 == r by {
      ServerRunStep(t, bound, Request, head, tail);
      NothingWritten(r);
    }
    var r2 := ServerRun(t, bound, Methods(|methods|), methods + (head + tail));
    assert r2 == r.(written := [5, 0] + r.written) by {
      ServerRunStep(t, bound, Methods(|methods|), methods, head + tail);
    }
    ServerRunStep(t, bound, Greeting, [5, |methods|], methods + (head + tail));
    NothingWritten(r2);
    assert ClientHello(methods) + (head + tail) == [5, |methods|] + (methods + (head + tail));
  }

  lemma RequestSplit(ver: byte, cmd: byte, rsv: byte, d: Destination, port: u16, rest: bytes)
    requires Expressible(d)
    ensures var field := DestinationBytes(d);
      RequestBytes(ver, cmd, rsv, d, port) + rest ==
      [ver, cmd, rsv, field[0]] + (field[1..] + (U16Be(port) + rest))
  {
    var field := DestinationBytes(d);
    assert field == [field[0]] + field[1..];
  }

  lemma RequestDecodes(t: Text, bound: SocketAddr, cmd: byte, d: Destination, port: u16, rest: bytes)
    requires Expressible(d)
    ensures ServerRun(t, bound, Address(cmd, DestinationBytes(d)[0]),
                      DestinationBytes(d)[1..] + (U16Be(port) + rest)) ==
            Outcome(t, bound, cmd, d, port, rest)
  {
    AddressDecodes(t, bound, cmd, d, U16Be(port) + rest);
    PortDecodes(t, bound, cmd, d, port, rest);
    Decided(t, bound, cmd, d, port, rest);
  }

  /** Where a request with command `cmd` takes the server: to the exact target. */
  function Outcome(t: Text, bound: SocketAddr, cmd: byte, d: Destination, port: u16, rest: bytes): Run {
    if cmd == 0x01 then Run(Accepted(Connect(HostPort(DestinationHost(t, d), port))), [], rest)
    else if cmd == 0x03 then Run(Associated, AssociateReply(bound), rest)
    else Run(Refused(BadCommand), [5, 7], rest)
  }

  lemma Decided(t: Text, bound: SocketAddr, cmd: byte, d: Destination, port: u16, rest: bytes)
    ensures AfterAddress(t, bound, cmd, d, port, rest) == Outcome(t, bound, cmd, d, port, rest)
  {
    if cmd == 0x03 {
      ServerRunStep(t, bound, Accepted(UdpAssociate), [], rest);
      assert [] + rest == rest;
    }
  }

  /** For every method list and every well-formed request the server decodes the exact target
      and leaves the bytes behind the request unread. The request's version and RSV bytes are
      not looked at, and the offered methods do not matter. */
  lemma ServerDecodes(
      t: Text, bound: SocketAddr, methods: bytes, ver: byte, cmd: byte, rsv: byte,
      d: Destination, port: u16, rest: bytes)
    requires |methods| <= 255 && Expressible(d)
    ensures var input := ClientHello(methods) + (RequestBytes(ver, cmd, rsv, d, port) + rest);
      var after := Outcome(t, bound, cmd, d, port, rest);
      ServerRun(t, bound, Greeting, input) == after.(written := [5, 0] + after.written)
  {
    var field := DestinationBytes(d);
    var head, tail := [ver, cmd, rsv, field[0]], field[1..] + (U16Be(port) + rest);
    RequestSplit(ver, cmd, rsv, d, port, rest);
    OpeningDecodes(t, bound, methods, head, tail);
    RequestDecodes(t, bound, cmd, d, port, rest);
  }

  /** A name that was sent as UTF-8, ASCII names included, is the name that is dialled. */
  lemma NameIsExact(t: Text, name: string)
    requires LawfulUtf8(t)
    ensures DestinationHost(t, ToName(t.utf8(name))) == name
    ensures IsAscii(name) ==> DestinationHost(t, ToName(AsciiBytes(name))) == name
  {
    assert t.lossy(t.utf8(name)) == name;
  }

  // The same server as it runs on a connection.

  datatype HandshakeError = Disconnected | WriteFailed | Protocol(error: ServerError)

  /** Whether a whole DST.ADDR of the given type has arrived. */
  predicate AddressArrived(atyp: byte, s: bytes) {
    if atyp == ATYP_V4 then |s| >= 4
    else if atyp == ATYP_V6 then |s| >= 16
    else atyp == ATYP_NAME && |s| >= 1 && |s| - 1 >= s[0]
  }

  predicate KnownAtyp(atyp: byte) {
    atyp == ATYP_V4 || atyp == ATYP_V6 || atyp == ATYP_NAME
  }

  /** A domain name behind its length byte. */
  method ReadName(recv: RecvStream) returns (r: Option<bytes>)
    modifies recv
    ensures r.Some? <==> AddressArrived(ATYP_NAME, old(recv.Unread()))
    ensures r.Some? ==>
              |r.value| <= 255 && old(recv.Unread()) == [|r.value|] + r.value + recv.Unread()
  {
    ghost var s := recv.Unread();
    var len := recv.ReadExact(1);
    if len.None? {
      return None;
    }
    assert s == len.value + recv.Unread() && len.value[0] == s[0];
    r := recv.ReadExact(len.value[0]);
  }

  /** The address half of `read_socks_addr`, with the ATYP byte already consumed. */
  method ReadAddress(recv: RecvStream, send: SendStream, atyp: byte)
    returns (r: Result<Destination, HandshakeError>)
    modifies recv, send
    ensures r.Ok? <==> AddressArrived(atyp, old(recv.Unread()))
    ensures r.Ok? ==>
              && Expressible(r.value) && atyp == DestinationBytes(r.value)[0]
              && old(recv.Unread()) == DestinationBytes(r.value)[1..] + recv.Unread()
    ensures KnownAtyp(atyp) ==>
              && send.written == old(send.written) && send.budget == old(send.budget)
              && (r.Err? ==> r.error == Disconnected)
    ensures !KnownAtyp(atyp) ==>
              && send.written == old(send.written) + [5, 8][..Min(2, old(send.budget))]
              && r == Err(if old(send.budget) >= 2 then Protocol(BadAtyp) else WriteFailed)
  {
    if atyp == ATYP_V4 {
      var addr := recv.ReadExact(4);
      if addr.None? {
        return Err(Disconnected);
      }
      r := Ok(ToV4(addr.value));
      assert DestinationBytes(r.value)[1..] == addr.value;
    } else if atyp == ATYP_V6 {
      var addr := recv.ReadExact(16);
      if addr.None? {
        return Err(Disconnected);
      }
      r := Ok(ToV6(addr.value));
      assert DestinationBytes(r.value)[1..] == addr.value;
    } else if atyp == ATYP_NAME {
      var name := ReadName(recv);
      if name.None? {
        return Err(Disconnected);
      }
      r := Ok(ToName(name.value));
      assert DestinationBytes(r.value)[1..] == [|name.value|] + name.value;
    } else {
      var ok := send.WriteAll([5, 8]);
      return Err(if ok then Protocol(BadAtyp) else WriteFailed);
    }
  }

  /** What arrived on the connection: as much of a handshake as there was, and what is behind it. */
  datatype Heard =
    | NoGreeting(rest: bytes)
    | WrongVersion(hello: bytes, rest: bytes)
    | NoMethods(count: byte, rest: bytes)
    | Unanswered(methods: bytes, rest: bytes)
    | NoRequest(methods: bytes, rest: bytes)
    | NoAddress(methods: bytes, head: bytes, rest: bytes)
    | StrangeAtyp(methods: bytes, head: bytes, rest: bytes)
    | NoPort(methods: bytes, head: bytes, d: Destination, rest: bytes)
    | Whole(methods: bytes, head: bytes, d: Destination, port: u16, rest: bytes)

  /** A request head and the destination that it announces. */
  predicate Announces(head: bytes, d: Destination) {
    |head| == 4 && Expressible(d) && head[3] == DestinationBytes(d)[0]
  }

  predicate HeardOk(h: Heard) {
    match h
    case NoGreeting(rest) => |rest| < 2
    case WrongVersion(hello, _) => |hello| == 2 && hello[0] != 5
    case NoMethods(n, rest) => |rest| < n
    case Unanswered(m, _) => |m| <= 255
    case NoRequest(m, rest) => |m| <= 255 && |rest| < 4
    case NoAddress(m, head, rest) =>
      |m| <= 255 && |head| == 4 && KnownAtyp(head[3]) && !AddressArrived(head[3], rest)
    case StrangeAtyp(m, head, _) => |m| <= 255 && |head| == 4 && !KnownAtyp(head[3])
    case NoPort(m, head, d, rest) => |m| <= 255 && Announces(head, d) && |rest| < 2
    case Whole(m, head, d, _, _) => |m| <= 255 && Announces(head, d)
  }

  function HeardBytes(h: Heard): bytes
    requires HeardOk(h)
  {
    match h
    case NoGreeting(rest) => rest
    case WrongVersion(hello, rest) => hello + rest
    case NoMethods(n, rest) => [5, n] + rest
    case Unanswered(m, rest) => ClientHello(m) + rest
    case NoRequest(m, rest) => ClientHello(m) + rest
    case NoAddress(m, head, rest) => ClientHello(m) + (head + rest)
    case StrangeAtyp(m, head, rest) => ClientHello(m) + (head + rest)
    case NoPort(m, head, d, rest) => ClientHello(m) + (head + (DestinationBytes(d)[1..] + rest))
    case Whole(m, head, d, port, rest) =>
      ClientHello(m) + (head + (DestinationBytes(d)[1..] + (U16Be(port) + rest)))
  }

  /** What the handler has to write for it. */
  function HeardReply(h: Heard): bytes
    requires HeardOk(h)
  {
    match h
    case NoGreeting(_) => []
    case WrongVersion(_, _) => []
    case NoMethods(_, _) => []
    case StrangeAtyp(_, _, _) => [5, 0, 5, 8]
    case Whole(_, head, _, _, _) => if head[1] == 0x01 || head[1] == 0x03 then [5, 0] else [5, 0, 5, 7]
    case _ => [5, 0]
  }

  /** What the handler makes of it. */
  function Verdict(t: Text, h: Heard): Result<SocksRequest, HandshakeError>
    requires HeardOk(h)
  {
    match h
    case WrongVersion(_, _) => Err(Protocol(BadVersion))
    case Unanswered(_, _) => Err(WriteFailed)
    case StrangeAtyp(_, _, _) => Err(Protocol(BadAtyp))
    case Whole(_, head, d, port, _) =>
      if head[1] == 0x01 then Ok(Connect(HostPort(DestinationHost(t, d), port)))
      else if head[1] == 0x03 then Ok(UdpAssociate)
      else Err(Protocol(BadCommand))
    case _ => Err(Disconnected)
  }

  method ReadPort(recv: RecvStream) returns (r: Option<u16>)
    modifies recv
    ensures r.None? <==> |old(recv.Unread())| < 2
    ensures r.Some? ==> old(recv.Unread()) == U16Be(r.value) + recv.Unread()
  {
    ghost var s := recv.Unread();
    var port := recv.ReadExact(2);
    if port.None? {
      return None;
    }
    assert s == port.value + recv.Unread();
    r := Some(FromU16Be(port.value[0], port.value[1]));
    assert U16Be(r.value) == port.value;
  }

  /** `read_socks_addr`: the address, then the port. `m` and `head` are what came before. */
  method ReadTarget(recv: RecvStream, send: SendStream, ghost m: bytes, head: bytes)
    returns (r: Result<(Destination, u16), HandshakeError>, ghost h: Heard)
    requires |m| <= 255 && |head| == 4
    modifies recv, send
    ensures r.Ok? ==>
              && send.written == old(send.written) && send.budget == old(send.budget)
              && Announces(head, r.value.0)
              && old(recv.Unread()) == DestinationBytes(r.value.0)[1..] + (U16Be(r.value.1) + recv.Unread())
    ensures r.Err? ==>
              && (h.NoAddress? || h.StrangeAtyp? || h.NoPort?) && HeardOk(h)
              && HeardBytes(h) == ClientHello(m) + (head + old(recv.Unread()))
    ensures r.Err? && !h.StrangeAtyp? ==> r.error == Disconnected && send.written == old(send.written)
    ensures r.Err? && h.StrangeAtyp? ==>
              && r.error == (if old(send.budget) >= 2 then Protocol(BadAtyp) else WriteFailed)
              && send.written == old(send.written) + [5, 8][..Min(2, old(send.budget))]
  {
    ghost var s := recv.Unread();
    var address := ReadAddress(recv, send, head[3]);
    if address.Err? {
      h := if KnownAtyp(head[3]) then NoAddress(m, head, s) else StrangeAtyp(m, head, s);
      return Err(address.error), h;
    }
    h := NoPort(m, head, address.value, recv.Unread());
    var port := ReadPort(recv);
    r := if port.None? then Err(Disconnected) else Ok((address.value, port.value));
  }

  /** The greeting and the method list, answered. */
  method ReadGreeting(recv: RecvStream, send: SendStream)
    returns (r: Result<bytes, HandshakeError>, ghost h: Heard)
    modifies recv, send
    ensures r.Ok? ==>
              && |r.value| <= 255 && old(recv.Unread()) == ClientHello(r.value) + recv.Unread()
              && send.written == old(send.written) + [5, 0] && send.budget == old(send.budget) - 2
    ensures r.Err? ==>
              && (h.NoGreeting? || h.WrongVersion? || h.NoMethods? || h.Unanswered?) && HeardOk(h)
              && HeardBytes(h) == old(recv.Unread())
    ensures r.Err? && !h.Unanswered? ==>
              && r.error == (if h.WrongVersion? then Protocol(BadVersion) else Disconnected)
              && send.written == old(send.written)
    ensures r.Err? && h.Unanswered? ==>
              && r.error == WriteFailed && old(send.budget) < 2
              && send.written == old(send.written) + [5, 0][..old(send.budget)]
  {
    h := NoGreeting(recv.Unread());
    var hello := ReadPair(recv);
    if hello.None? {
      return Err(Disconnected), h;
    }
    var (ver, count) := hello.value;
    ghost var rest := recv.Unread();
    if ver != 5 {
      h := WrongVersion([ver, count], rest);
      return Err(Protocol(BadVersion)), h;
    }
    h := NoMethods(count, rest);
    var methods := recv.ReadExact(count);
    if methods.None? {
      return Err(Disconnected), h;
    }
    HelloWhole(count, methods.value, rest, recv.Unread());
    h := Unanswered(methods.value, recv.Unread());
    var ok := send.WriteAll([5, 0]);
    assert [5, 0][..2] == [5, 0];
    r := if ok then Ok(methods.value) else Err(WriteFailed);
  }

  method ReadPair(recv: RecvStream) returns (r: Option<(byte, byte)>)
    modifies recv
    ensures r.None? <==> |old(recv.Unread())| < 2
    ensures r.Some? ==> old(recv.Unread()) == [r.value.0, r.value.1] + recv.Unread()
  {
    ghost var s := recv.Unread();
    var pair := recv.ReadExact(2);
    if pair.None? {
      return None;
    }
    assert s == pair.value + recv.Unread();
    r := Some((pair.value[0], pair.value[1]));
    assert pair.value == [pair.value[0], pair.value[1]];
  }

  lemma HelloWhole(count: byte, methods: bytes, rest: bytes, rest': bytes)
    requires count <= |rest| && methods == rest[..count] && rest' == rest[count..]
    ensures [5, count] + rest == ClientHello(methods) + rest'
  {
    assert rest == methods + rest';
  }

  /** The command, once its target is known. */
  method Answer(t: Text, send: SendStream, cmd: byte, d: Destination, port: u16)
    returns (r: Result<SocksRequest, HandshakeError>)
    modifies send
    ensures cmd == 0x01 ==> r == Ok(Connect(HostPort(DestinationHost(t, d), port)))
    ensures cmd == 0x03 ==> r == Ok(UdpAssociate)
    ensures r.Ok? ==> send.written == old(send.written)
    ensures cmd != 0x01 && cmd != 0x03 ==>
              && r == Err(if old(send.budget) >= 2 then Protocol(BadCommand) else WriteFailed)
              && send.written == old(send.written) + [5, 7][..Min(2, old(send.budget))]
  {
    if cmd == 0x01 {
      r := Ok(Connect(HostPort(DestinationHost(t, d), port)));
    } else if cmd == 0x03 {
      r := Ok(UdpAssociate);
    } else {
      var ok := send.WriteAll([5, 7]);
      r := Err(if ok then Protocol(BadCommand) else WriteFailed);
    }
  }

  lemma TwoReplies(written: bytes, second: bytes, budget: nat)
    requires |second| == 2 && budget >= 2
    ensures written + [5, 0] + second[..Min(2, budget - 2)] == written + ([5, 0] + second)[..Min(4, budget)]
  {
  }

  /** The request behind an answered greeting. */
  method ReadRequest(t: Text, recv: RecvStream, send: SendStream, ghost m: bytes)
    returns (r: Result<SocksRequest, HandshakeError>, ghost h: Heard)
    requires |m| <= 255
    modifies recv, send
    ensures (h.NoRequest? || h.NoAddress? || h.StrangeAtyp? || h.NoPort? || h.Whole?) && HeardOk(h)
    ensures HeardBytes(h) == ClientHello(m) + old(recv.Unread())
    ensures var second := HeardReply(h)[2..];
      && r == (if old(send.budget) < |second| then Err(WriteFailed) else Verdict(t, h))
      && send.written == old(send.written) + second[..Min(|second|, old(send.budget))]
    ensures r.Ok? ==> recv.Unread() == h.rest
  {
    ghost var input := recv.Unread();
    var head := recv.ReadExact(4);
    if head.None? {
      h := NoRequest(m, input);
      return Err(Disconnected), h;
    }
    assert input == head.value + recv.Unread();
    var target;
    target, h := ReadTarget(recv, send, m, head.value);
    if target.Err? {
      return Err(target.error), h;
    }
    var (d, port) := target.value;
    h := Whole(m, head.value, d, port, recv.Unread());
    r := Answer(t, send, head.value[1], d, port);
  }

  /** `socks_handshake`: it returns the verdict on exactly what arrived, with everything behind the
      request unread, unless the connection takes less than it has to write. */
  method Handshake(t: Text, recv: RecvStream, send: SendStream)
    returns (r: Result<SocksRequest, HandshakeError>, ghost h: Heard)
    modifies recv, send
    ensures HeardOk(h) && HeardBytes(h) == old(recv.Unread())
    ensures var reply := HeardReply(h);
      && r == (if old(send.budget) < |reply| then Err(WriteFailed) else Verdict(t, h))
      && send.written == old(send.written) + reply[..Min(|reply|, old(send.budget))]
    ensures h.Unanswered? ==> old(send.budget) < 2
    ensures r.Ok? ==> recv.Unread() == h.rest
  {
    ghost var written, budget := send.written, send.budget;
    var methods;
    methods, h := ReadGreeting(recv, send);
    if methods.Err? {
      return Err(methods.error), h;
    }
    r, h := ReadRequest(t, recv, send, methods.value);
    if |HeardReply(h)| == 4 {
      assert HeardReply(h) == [5, 0] + HeardReply(h)[2..];
      TwoReplies(written, HeardReply(h)[2..], budget);
    }
  }

  // The handler and the machine agree.

  /** How the machine's last state reads to the handler's caller. */
  function StateVerdict(s: Server): Result<SocksRequest, HandshakeError> {
    match s
    case Accepted(request) => Ok(request)
    case Associated => Ok(UdpAssociate)
    case Refused(e) => Err(Protocol(e))
    case _ => Err(Disconnected)
  }

  lemma GreetingHeard(t: Text, bound: SocketAddr, h: Heard)
    requires HeardOk(h) && (h.NoGreeting? || h.WrongVersion? || h.NoMethods?)
    ensures StateVerdict(ServerRun(t, bound, Greeting, HeardBytes(h)).state) == Verdict(t, h)
  {
    if h.WrongVersion? {
      ServerRunStep(t, bound, Greeting, h.hello, h.rest);
    } else if h.NoMethods? {
      ServerRunStep(t, bound, Greeting, [5, h.count], h.rest);
    }
  }

  lemma MethodsRead(t: Text, bound: SocketAddr, m: bytes, rest: bytes)
    requires |m| <= 255
    ensures ServerRun(t, bound, Methods(|m|), m + rest).state == ServerRun(t, bound, Request, rest).state
  {
    ServerRunStep(t, bound, Methods(|m|), m, rest);
  }

  lemma GreetingRead(t: Text, bound: SocketAddr, n: byte, input: bytes)
    ensures ServerRun(t, bound, Greeting, [5, n] + input).state == ServerRun(t, bound, Methods(n), input).state
  {
    ServerRunStep(t, bound, Greeting, [5, n], input);
  }

  lemma NoRequestHeard(t: Text, bound: SocketAddr, m: bytes, rest: bytes)
    requires |m| <= 255 && |rest| < 4
    ensures ServerRun(t, bound, Greeting, ClientHello(m) + rest).state == Request
  {
    MethodsRead(t, bound, m, rest);
    GreetingRead(t, bound, |m|, m + rest);
    assert ClientHello(m) + rest == [5, |m|] + (m + rest);
  }

  lemma AddressHeard(t: Text, bound: SocketAddr, cmd: byte, atyp: byte, s: bytes)
    requires KnownAtyp(atyp) ==> !AddressArrived(atyp, s)
    ensures StateVerdict(ServerRun(t, bound, Address(cmd, atyp), s).state) ==
            Err(if KnownAtyp(atyp) then Disconnected else Protocol(BadAtyp))
  {
    if !KnownAtyp(atyp) {
      assert s == [] + s;
      ServerRunStep(t, bound, Address(cmd, atyp), [], s);
    } else if atyp == ATYP_NAME && |s| >= 1 {
      assert s == s[..1] + s[1..];
      ServerRunStep(t, bound, Address(cmd, atyp), s[..1], s[1..]);
    }
  }

  lemma PortHeard(t: Text, bound: SocketAddr, cmd: byte, d: Destination, rest: bytes)
    requires Expressible(d) && |rest| < 2
    ensures ServerRun(t, bound, Address(cmd, DestinationBytes(d)[0]), DestinationBytes(d)[1..] + rest).state ==
            Port(cmd, d)
  {
    AddressDecodes(t, bound, cmd, d, rest);
  }

  lemma OpeningState(t: Text, bound: SocketAddr, m: bytes, head: bytes, tail: bytes)
    requires |m| <= 255 && |head| == 4
    ensures ServerRun(t, bound, Greeting, ClientHello(m) + (head + tail)).state ==
            ServerRun(t, bound, Address(head[1], head[3]), tail).state
  {
    OpeningDecodes(t, bound, m, head, tail);
  }

  lemma OutcomeVerdict(t: Text, bound: SocketAddr, cmd: byte, d: Destination, port: u16, rest: bytes)
    ensures StateVerdict(Outcome(t, bound, cmd, d, port, rest).state) ==
            if cmd == 0x01 then Ok(Connect(HostPort(DestinationHost(t, d), port)))
            else if cmd == 0x03 then Ok(UdpAssociate)
            else Err(Protocol(BadCommand))
  {
  }

  lemma AddressCase(t: Text, bound: SocketAddr, h: Heard)
    requires HeardOk(h) && (h.NoAddress? || h.StrangeAtyp?)
    ensures StateVerdict(ServerRun(t, bound, Greeting, HeardBytes(h)).state) == Verdict(t, h)
  {
    OpeningState(t, bound, h.methods, h.head, h.rest);
    AddressHeard(t, bound, h.head[1], h.head[3], h.rest);
  }

  lemma PortCase(t: Text, bound: SocketAddr, h: Heard)
    requires HeardOk(h) && h.NoPort?
    ensures StateVerdict(ServerRun(t, bound, Greeting, HeardBytes(h)).state) == Verdict(t, h)
  {
    OpeningState(t, bound, h.methods, h.head, DestinationBytes(h.d)[1..] + h.rest);
    PortHeard(t, bound, h.head[1], h.d, h.rest);
  }

  lemma WholeCase(t: Text, bound: SocketAddr, h: Heard)
    requires HeardOk(h) && h.Whole?
    ensures StateVerdict(ServerRun(t, bound, Greeting, HeardBytes(h)).state) == Verdict(t, h)
  {
    OpeningState(t, bound, h.methods, h.head, DestinationBytes(h.d)[1..] + (U16Be(h.port) + h.rest));
    RequestDecodes(t, bound, h.head[1], h.d, h.port, h.rest);
    OutcomeVerdict(t, bound, h.head[1], h.d, h.port, h.rest);
  }

  /** Whatever arrives, the handler's verdict is the one on the machine's last state. */
  lemma HandlerMatchesMachine(t: Text, bound: SocketAddr, h: Heard)
    requires HeardOk(h) && !h.Unanswered?
    ensures StateVerdict(ServerRun(t, bound, Greeting, HeardBytes(h)).state) == Verdict(t, h)
  {
    if h.NoRequest? {
      NoRequestHeard(t, bound, h.methods, h.rest);
    } else if h.NoAddress? || h.StrangeAtyp? {
      AddressCase(t, bound, h);
    } else if h.NoPort? {
      PortCase(t, bound, h);
    } else if h.Whole? {
      WholeCase(t, bound, h);
    } else {
      GreetingHeard(t, bound, h);
    }
  }

  // ---------------------------------------------------------------------------
  // The proxy client
  // ---------------------------------------------------------------------------

  datatype ClientError =
    | BadMethodVersion | AuthNotConfigured | MethodRefused | CredentialsTooLong | AuthVersion
    | AuthRejected | BadReplyVersion | ReplyFailed(rep: byte) | BadReplyAtyp

  datatype Client =
    | Start
    | MethodReply
    | AuthReply
    | SendRequest
    | ReplyHead
    | BoundAddress(atyp: byte)
    | BoundName(len: byte)
    | BoundPort(ip: IpAddr)
    | Established(relay: SocketAddr)
    | Failed(error: ClientError)

  /** Where the proxy is, as the TCP connection sees it, and the configured credentials. */
  datatype Proxy = Proxy(peer: IpAddr, auth: Option<(bytes, bytes)>)

  const ASSOCIATE_REQUEST: bytes := [5, 3, 0, 1, 0, 0, 0, 0, 0, 0]

  function Offer(p: Proxy): bytes {
    if p.auth.Some? then [5, 2, 0, 2] else [5, 1, 0]
  }

  function ClientNeeds(c: Client): Option<nat> {
    match c
    case Start => Some(0)
    case MethodReply => Some(2)
    case AuthReply => Some(2)
    case SendRequest => Some(0)
    case ReplyHead => Some(4)
    case BoundAddress(atyp) =>
      Some(if atyp == ATYP_V4 then 4 else if atyp == ATYP_V6 then 16 else if atyp == ATYP_NAME then 1 else 0)
    case BoundName(n) => Some(n)
    case BoundPort(_) => Some(2)
    case Established(_) => None
    case Failed(_) => None
  }

  function Credentials(user: bytes, pass: bytes): bytes
    requires |user| <= 255 && |pass| <= 255
  {
    [1, |user|] + user + [|pass|] + pass
  }

  function AnswerMethod(p: Proxy, b: bytes): (Client, bytes)
    requires |b| == 2
  {
    if b[0] != 5 then (Failed(BadMethodVersion), [])
    else if b[1] == 0 then (SendRequest, [])
    else if b[1] == 2 then
      if p.auth.None? then (Failed(AuthNotConfigured), [])
      else if |p.auth.value.0| > 255 || |p.auth.value.1| > 255 then (Failed(CredentialsTooLong), [])
      else (AuthReply, Credentials(p.auth.value.0, p.auth.value.1))
    else (Failed(MethodRefused), [])
  }

  /** The relay to use: an unspecified address means the host that the proxy was reached at. */
  function RelayAt(p: Proxy, ip: IpAddr, port: u16): SocketAddr {
    NewSocketAddr(if ip.IsUnspecified() then p.peer else ip, port)
  }

  function ClientStep(p: Proxy, c: Client, b: bytes): (Client, bytes)
    requires ClientNeeds(c) == Some(|b|)
  {
    match c
    case Start => (MethodReply, Offer(p))
    case MethodReply => AnswerMethod(p, b)
    case AuthReply =>
      if b[0] != 1 then (Failed(AuthVersion), [])
      else if b[1] != 0 then (Failed(AuthRejected), [])
      else (SendRequest, [])
    case SendRequest => (ReplyHead, ASSOCIATE_REQUEST)
    case ReplyHead =>
      if b[0] != 5 then (Failed(BadReplyVersion), [])
      else if b[1] != 0 then (Failed(ReplyFailed(b[1])), [])
      else (BoundAddress(b[3]), [])
    case BoundAddress(atyp) =>
      if atyp == ATYP_V4 then (BoundPort(V4(b)), [])
      else if atyp == ATYP_V6 then (BoundPort(V6(b)), [])
      else if atyp == ATYP_NAME then (BoundName(b[0]), [])
      else (Failed(BadReplyAtyp), [])
    case BoundName(_) => (BoundPort(p.peer), [])
    case BoundPort(ip) => (Established(RelayAt(p, ip, FromU16Be(b[0], b[1]))), [])
  }

  // ---------------------------------------------------------------------------
  // Both together
  // ---------------------------------------------------------------------------

  /** The two machines and the bytes in flight in either direction. */
  datatype Talk = Talk(client: Client, server: Server, toServer: bytes, toClient: bytes)

  datatype World = World(text: Text, bound: SocketAddr, proxy: Proxy)

  predicate ClientCanMove(a: Talk) {
    ClientNeeds(a.client).Some? && ClientNeeds(a.client).value <= |a.toClient|
  }

  function ClientNext(w: World, a: Talk): Talk
    requires ClientCanMove(a)
  {
    var n := ClientNeeds(a.client).value;
    var (c, out) := ClientStep(w.proxy, a.client, a.toClient[..n]);
    Talk(c, a.server, a.toServer + out, a.toClient[n..])
  }

  predicate ServerCanMove(a: Talk) {
    ServerNeeds(a.server).Some? && ServerNeeds(a.server).value <= |a.toServer|
  }

  function ServerNext(w: World, a: Talk): Talk
    requires ServerCanMove(a)
  {
    var n := ServerNeeds(a.server).value;
    var (s, out) := ServerStep(w.text, w.bound, a.server, a.toServer[..n]);
    Talk(a.client, s, a.toServer[n..], a.toClient + out)
  }

  /** Either side moves whenever enough bytes have arrived for its next read. */
  predicate Moves(w: World, a: Talk, b: Talk) {
    || (ClientCanMove(a) && b == ClientNext(w, a))
    || (ServerCanMove(a) && b == ServerNext(w, a))
  }

  const LAST_STAGE: nat := 12

  function ReplyAddress(bound: SocketAddr): bytes {
    if bound.SocketAddrV4? then bound.ip4 else bound.ip6
  }

  const ANY_DESTINATION := ToV4([0, 0, 0, 0])

  /** The stages of a handshake. */
  function Stage(w: World, k: nat): Talk
    requires k <= LAST_STAGE
  {
    if k <= 4 then OpeningStage(w, k)
    else if k <= 8 then RequestStage(k)
    else ReplyStage(w, k)
  }

  function OpeningStage(w: World, k: nat): Talk
    requires k <= 4
  {
    var offer := Offer(w.proxy);
    if k == 0 then Talk(Start, Greeting, [], [])
    else if k == 1 then Talk(MethodReply, Greeting, offer, [])
    else if k == 2 then Talk(MethodReply, Methods(offer[1]), offer[2..], [])
    else if k == 3 then Talk(MethodReply, Request, [], [5, 0])
    else Talk(SendRequest, Request, [], [])
  }

  function RequestStage(k: nat): Talk
    requires 5 <= k <= 8
  {
    if k == 5 then Talk(ReplyHead, Request, ASSOCIATE_REQUEST, [])
    else if k == 6 then Talk(ReplyHead, Address(3, 1), [0, 0, 0, 0, 0, 0], [])
    else if k == 7 then Talk(ReplyHead, Port(3, ANY_DESTINATION), [0, 0], [])
    else Talk(ReplyHead, Accepted(UdpAssociate), [], [])
  }

  function ReplyStage(w: World, k: nat): Talk
    requires 9 <= k <= LAST_STAGE
  {
    var ip, port := ReplyAddress(w.bound), U16Be(w.bound.port);
    if k == 9 then Talk(ReplyHead, Associated, [], AssociateReply(w.bound))
    else if k == 10 then Talk(BoundAddress(AssociateReply(w.bound)[3]), Associated, [], ip + port)
    else if k == 11 then Talk(BoundPort(w.bound.Ip()), Associated, [], port)
    else Talk(Established(RelayAt(w.proxy, w.bound.Ip(), w.bound.port)), Associated, [], [])
  }

  /** There is never a choice: from each stage the only possible step leads to the next one. */
  lemma StageStep(w: World, k: nat, next: Talk)
    requires k <= LAST_STAGE && Moves(w, Stage(w, k), next)
    ensures k < LAST_STAGE && next == Stage(w, k + 1)
  {
    if k <= 3 {
      OpeningStep(w, k, next);
    } else if k == 4 {
      assert [] + ASSOCIATE_REQUEST == ASSOCIATE_REQUEST;
    } else if k <= 7 {
      RequestStep(w, k, next);
    } else if k == 8 {
      WritesReply(w, next);
    } else if k == 9 {
      ReadsHead(w, next);
    } else if k == 10 {
      ReplyBytes(w.bound);
      assert AssociateReply(w.bound)[3] == AssociateReply(w.bound)[..4][3];
      if w.bound.SocketAddrV4? {
        ReadsV4(w, w.bound.ip4, U16Be(w.bound.port), next);
      } else {
        ReadsV6(w, w.bound.ip6, U16Be(w.bound.port), next);
      }
    } else if k == 11 {
      ReadsPort(w, next);
    }
  }

  lemma OpeningStep(w: World, k: nat, next: Talk)
    requires k <= 3 && Moves(w, OpeningStage(w, k), next)
    ensures next == OpeningStage(w, k + 1)
  {
    var a, offer := OpeningStage(w, k), Offer(w.proxy);
    assert k == 1 ==> a.toServer[..2] == offer[..2] && a.toServer[2..] == offer[2..];
    assert k == 2 ==> a.toServer[offer[1]..] == [];
    assert k == 3 ==> a.toClient[..2] == [5, 0];
  }

  lemma RequestStep(w: World, k: nat, next: Talk)
    requires 5 <= k <= 7 && Moves(w, RequestStage(k), next)
    ensures next == RequestStage(k + 1)
  {
    if k == 5 {
      ServerReadsRequest(w, next);
    } else if k == 6 {
      ServerReadsAddress(w, next);
    } else {
      var a := RequestStage(k);
      assert a.toServer[..2] == [0, 0] && a.toServer[2..] == [];
    }
  }

  lemma ServerReadsRequest(w: World, next: Talk)
    requires Moves(w, RequestStage(5), next)
    ensures next == RequestStage(6)
  {
    var a := RequestStage(5);
    assert a.toServer[..4] == [5, 3, 0, 1] && a.toServer[4..] == [0, 0, 0, 0, 0, 0];
  }

  lemma ServerReadsAddress(w: World, next: Talk)
    requires Moves(w, RequestStage(6), next)
    ensures next == RequestStage(7)
  {
    var a := RequestStage(6);
    assert a.toServer[..4] == [0, 0, 0, 0] && a.toServer[4..] == [0, 0];
  }

  lemma ReplyBytes(bound: SocketAddr)
    ensures AssociateReply(bound)[..4] == [5, 0, 0, if bound.SocketAddrV4? then ATYP_V4 else ATYP_V6]
    ensures AssociateReply(bound)[4..] == ReplyAddress(bound) + U16Be(bound.port)
  {
    var ip, port := ReplyAddress(bound), U16Be(bound.port);
    if bound.SocketAddrV4? {
      assert AssociateReply(bound) == [5, 0, 0, ATYP_V4] + (ip + port);
    } else {
      assert AssociateReply(bound) == [5, 0, 0, ATYP_V6] + (ip + port);
    }
  }

  lemma WritesReply(w: World, next: Talk)
    requires Moves(w, Talk(ReplyHead, Accepted(UdpAssociate), [], []), next)
    ensures next == Talk(ReplyHead, Associated, [], AssociateReply(w.bound))
  {
    assert [] + AssociateReply(w.bound) == AssociateReply(w.bound);
  }

  lemma ReadsHead(w: World, next: Talk)
    requires Moves(w, Talk(ReplyHead, Associated, [], AssociateReply(w.bound)), next)
    ensures next == Talk(BoundAddress(AssociateReply(w.bound)[3]), Associated, [],
                         ReplyAddress(w.bound) + U16Be(w.bound.port))
  {
    var reply := AssociateReply(w.bound);
    ReplyBytes(w.bound);
    HeadRead(w, reply, next);
  }

  lemma HeadRead(w: World, reply: bytes, next: Talk)
    requires |reply| >= 4 && reply[0] == 5 && reply[1] == 0
    requires Moves(w, Talk(ReplyHead, Associated, [], reply), next)
    ensures next == Talk(BoundAddress(reply[3]), Associated, [], reply[4..])
  {
    assert !ServerCanMove(Talk(ReplyHead, Associated, [], reply));
    assert reply[..4][0] == reply[0] && reply[..4][1] == reply[1] && reply[..4][3] == reply[3];
  }

  lemma ReadsV4(w: World, o: Octets4, port: bytes, next: Talk)
    requires Moves(w, Talk(BoundAddress(ATYP_V4), Associated, [], o + port), next)
    ensures next == Talk(BoundPort(V4(o)), Associated, [], port)
  {
    assert !ServerCanMove(Talk(BoundAddress(ATYP_V4), Associated, [], o + port));
    assert (o + port)[..4] == o && (o + port)[4..] == port;
  }

  lemma ReadsV6(w: World, o: Octets16, port: bytes, next: Talk)
    requires Moves(w, Talk(BoundAddress(ATYP_V6), Associated, [], o + port), next)
    ensures next == Talk(BoundPort(V6(o)), Associated, [], port)
  {
    assert !ServerCanMove(Talk(BoundAddress(ATYP_V6), Associated, [], o + port));
    assert (o + port)[..16] == o && (o + port)[16..] == port;
  }

  lemma ReadsPort(w: World, next: Talk)
    requires Moves(w, Talk(BoundPort(w.bound.Ip()), Associated, [], U16Be(w.bound.port)), next)
    ensures next == Talk(Established(RelayAt(w.proxy, w.bound.Ip(), w.bound.port)), Associated, [], [])
  {
    var port := U16Be(w.bound.port);
    var a := Talk(BoundPort(w.bound.Ip()), Associated, [], port);
    assert port[..2] == port && port[2..] == [];
    assert FromU16Be(port[0], port[1]) == w.bound.port;
    assert !ServerCanMove(a);
  }

  /** Until the last stage one of the two can always move. */
  lemma StageMoves(w: World, k: nat)
    requires k < LAST_STAGE
    ensures Moves(w, Stage(w, k), Stage(w, k + 1))
  {
    var a := Stage(w, k);
    var next := if ClientCanMove(a) then ClientNext(w, a) else ServerNext(w, a);
    StageStep(w, k, next);
  }

  ghost predicate IsRun(w: World, run: seq<Talk>) {
    && run != [] && run[0] == Talk(Start, Greeting, [], [])
    && forall i | 0 <= i < |run| - 1 :: Moves(w, run[i], run[i + 1])
  }

  lemma {:induction false} RunStages(w: World, run: seq<Talk>, i: nat)
    requires IsRun(w, run) && i < |run|
    ensures i <= LAST_STAGE && run[i] == Stage(w, i)
  {
    if i > 0 {
      RunStages(w, run, i - 1);
      assert Moves(w, run[i - 1], run[i - 1 + 1]);
      StageStep(w, i - 1, run[i]);
    }
  }

  /** Every run of the two machines against each other has at most twelve steps, and one that
      cannot go on has established the association: the relay is the address that the server
      bound, or its port on the proxy's own IP if that address is unspecified, the server is
      serving it, and no byte is left over in either direction. */
  lemma HandshakeComposes(w: World, run: seq<Talk>)
    requires IsRun(w, run)
    ensures |run| <= LAST_STAGE + 1
    ensures (forall next :: !Moves(w, Last(run), next)) <==> |run| == LAST_STAGE + 1
    ensures |run| == LAST_STAGE + 1 ==>
              Last(run) == Talk(Established(
                                  NewSocketAddr(
                                    if w.bound.Ip().IsUnspecified() then w.proxy.peer else w.bound.Ip(),
                                    w.bound.port)),
                                Associated, [], [])
  {
    var k := |run| - 1;
    RunStages(w, run, k);
    if k < LAST_STAGE {
      StageMoves(w, k);
      assert Moves(w, Last(run), Stage(w, k + 1));
    } else {
      forall next ensures !Moves(w, Last(run), next) {
        if Moves(w, Last(run), next) {
          StageStep(w, k, next);
        }
      }
    }
  }
}

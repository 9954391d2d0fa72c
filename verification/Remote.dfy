/** Tunnel declarations and the control messages that carry them. */
module Remote {
  import opened Basics
  import opened IpText

  datatype Protocol = Tcp | Udp

  datatype Direction = Forward | Reverse

  datatype HostPort = HostPort(host: string, port: u16)

  datatype RemoteKind =
    | TcpRemote(local: SocketAddr, remote: HostPort)
    | UdpRemote(local: SocketAddr, remote: HostPort)
    | Socks5Remote(local: SocketAddr)

  datatype RemoteRequest = RemoteRequest(direction: Direction, kind: RemoteKind, stdio: bool)

  /** What the binary form of a declaration keeps: of the local address, IP and port only. */
  function Plain(r: RemoteRequest): RemoteRequest {
    r.(kind := PlainKind(r.kind))
  }

  function PlainKind(kind: RemoteKind): RemoteKind {
    kind.(local := NewSocketAddr(kind.local.Ip(), kind.local.port))
  }

  function PlainAll(rs: seq<RemoteRequest>): seq<RemoteRequest> {
    seq(|rs|, i requires 0 <= i < |rs| => Plain(rs[i]))
  }

  /** SOCKS5 only: the target of one CONNECT or of one UDP relay. */
  datatype DynamicTarget = DynamicTcp(target: HostPort) | DynamicUdp(target: HostPort)

  datatype OpenConn = OpenConn(tunnelId: nat, dynamic: Option<DynamicTarget>)
}

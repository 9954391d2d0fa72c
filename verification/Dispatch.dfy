/** Who accepts which conn: the server's policy on declarations, the opener frames that the
    handlers of both sides send, and the two resolvers that decide what an opener means. */
module Dispatch {
  import opened Basics
  import opened Remote

  datatype Policy = Policy(allowReverse: bool, allowSocks: bool)

  predicate Allowed(p: Policy, r: RemoteRequest) {
    (r.direction.Reverse? ==> p.allowReverse) && (r.kind.Socks5Remote? ==> p.allowSocks)
  }

  predicate AllAllowed(p: Policy, rs: seq<RemoteRequest>) {
    forall i | 0 <= i < |rs| :: Allowed(p, rs[i])
  }

  /** The policy in terms of what a hello holds: reverse declarations only if these are allowed, and
      SOCKS declarations only if those are. */
  ghost predicate Permits(p: Policy, rs: seq<RemoteRequest>) {
    && (p.allowReverse || forall i | 0 <= i < |rs| :: rs[i].direction == Forward)
    && (p.allowSocks || forall i | 0 <= i < |rs| :: rs[i].kind.TcpRemote? || rs[i].kind.UdpRemote?)
  }

  lemma AllowedIsPermitted(p: Policy, rs: seq<RemoteRequest>)
    ensures AllAllowed(p, rs) <==> Permits(p, rs)
  {
    if AllAllowed(p, rs) {
      forall i | 0 <= i < |rs|
        ensures p.allowReverse || rs[i].direction == Forward
        ensures p.allowSocks || rs[i].kind.TcpRemote? || rs[i].kind.UdpRemote?
      {
        assert Allowed(p, rs[i]);
      }
    }
  }

  datatype Offence = ReverseNotAllowed(index: nat) | SocksNotAllowed(index: nat)

  /** `validate_remotes`: the first declaration that the policy forbids, and why; a reverse SOCKS
      declaration is reported as reverse first. */
  method ValidateRemotes(p: Policy, rs: seq<RemoteRequest>) returns (r: Option<Offence>)
    ensures r.None? <==> AllAllowed(p, rs)
    ensures r.None? <==> Permits(p, rs)
    ensures r.Some? ==>
              var i := r.value.index;
              && i < |rs| && Permits(p, rs[..i])
              && (r.value.ReverseNotAllowed? ==> rs[i].direction == Reverse && !p.allowReverse)
              && (r.value.SocksNotAllowed? ==>
                    && rs[i].kind.Socks5Remote? && !p.allowSocks
                    && (rs[i].direction == Forward || p.allowReverse))
  {
    AllowedIsPermitted(p, rs);
    for i := 0 to |rs|
      invariant AllAllowed(p, rs[..i])
    {
      AllowedIsPermitted(p, rs[..i]);
      if rs[i].direction.Reverse? && !p.allowReverse {
        return Some(ReverseNotAllowed(i));
      }
      if rs[i].kind.Socks5Remote? && !p.allowSocks {
        return Some(SocksNotAllowed(i));
      }
      assert rs[..i + 1] == rs[..i] + [rs[i]];
    }
    assert rs[..|rs|] == rs;
    return None;
  }

  // ---------------------------------------------------------------------------
  // Openers
  // ---------------------------------------------------------------------------

  /** An opener that a listener for `kind` sends: with the target of a CONNECT or of a UDP
      datagram on a SOCKS listener, without one on the others. */
  predicate ListenerOpens(kind: RemoteKind, id: nat, o: OpenConn) {
    o.tunnelId == id && (o.dynamic.Some? <==> kind.Socks5Remote?)
  }

  /** An opener that the client sends for a forward declaration. Standard input and output make
      one conn without a target. */
  predicate ClientOpens(r: RemoteRequest, id: nat, o: OpenConn) {
    && r.direction.Forward?
    && if r.stdio then o == OpenConn(id, None) else ListenerOpens(r.kind, id, o)
  }

  // ---------------------------------------------------------------------------
  // Resolvers
  // ---------------------------------------------------------------------------

  datatype Dispatch = Dispatch(protocol: Protocol, request: RemoteRequest)

  datatype DispatchError = WrongDirection | MissingTarget | UnexpectedTarget

  /** The match that both sides make, each for its own direction. */
  function ResolveKind(d: Direction, kind: RemoteKind, dynamic: Option<DynamicTarget>)
    : Result<Dispatch, DispatchError>
  {
    match (kind, dynamic)
    case (TcpRemote(l, r), None) => Ok(Dispatch(Tcp, RemoteRequest(d, TcpRemote(l, r), false)))
    case (UdpRemote(l, r), None) => Ok(Dispatch(Udp, RemoteRequest(d, UdpRemote(l, r), false)))
    case (Socks5Remote(l), Some(DynamicTcp(t))) => Ok(Dispatch(Tcp, RemoteRequest(d, TcpRemote(l, t), false)))
    case (Socks5Remote(l), Some(DynamicUdp(t))) => Ok(Dispatch(Udp, RemoteRequest(d, UdpRemote(l, t), false)))
    case (Socks5Remote(_), None) => Err(MissingTarget)
    case (_, Some(_)) => Err(UnexpectedTarget)
  }

  /** `resolve_dispatch`, on what the server registered. */
  function ResolveDispatch(direction: Direction, kind: RemoteKind, dynamic: Option<DynamicTarget>)
    : Result<Dispatch, DispatchError>
  {
    if !direction.Forward? then Err(WrongDirection) else ResolveKind(Forward, kind, dynamic)
  }

  /** `resolve_reverse_dispatch`, on what the client declared. */
  function ResolveReverse(parent: RemoteRequest, dynamic: Option<DynamicTarget>): Result<Dispatch, DispatchError> {
    if !parent.direction.Reverse? then Err(WrongDirection) else ResolveKind(Reverse, parent.kind, dynamic)
  }

  /** Where a conn should go: to the carried target if there is one, else to the declared one. */
  function Destination(kind: RemoteKind, dynamic: Option<DynamicTarget>): Option<(Protocol, HostPort)> {
    match dynamic
    case Some(DynamicTcp(t)) => Some((Tcp, t))
    case Some(DynamicUdp(t)) => Some((Udp, t))
    case None =>
      match kind
      case TcpRemote(_, r) => Some((Tcp, r))
      case UdpRemote(_, r) => Some((Udp, r))
      case Socks5Remote(_) => None
  }

  /** The conn is handed to the right data plane with the right target. */
  predicate GoesTo(d: Dispatch, kind: RemoteKind, dynamic: Option<DynamicTarget>) {
    && (d.protocol.Tcp? <==> d.request.kind.TcpRemote?) && (d.protocol.Udp? <==> d.request.kind.UdpRemote?)
    && !d.request.kind.Socks5Remote? && !d.request.stdio
    && d.request.kind.local == kind.local
    && Destination(kind, dynamic) == Some((d.protocol, d.request.kind.remote))
  }

  /** The server takes exactly the forward conns that carry a target if and only if their tunnel
      is a SOCKS one, and sends them to the right place. */
  lemma ServerResolves(direction: Direction, kind: RemoteKind, dynamic: Option<DynamicTarget>)
    ensures ResolveDispatch(direction, kind, dynamic).Ok? <==>
            direction.Forward? && (dynamic.Some? <==> kind.Socks5Remote?)
    ensures ResolveDispatch(direction, kind, dynamic).Ok? ==>
              GoesTo(ResolveDispatch(direction, kind, dynamic).value, kind, dynamic)
    ensures ResolveDispatch(direction, kind, dynamic).Err? ==>
              ResolveDispatch(direction, kind, dynamic).error ==
              if direction.Reverse? then WrongDirection else if dynamic.None? then MissingTarget else UnexpectedTarget
  {
    match dynamic {
      case None =>
      case Some(DynamicTcp(_)) =>
      case Some(DynamicUdp(_)) =>
    }
  }

  lemma ClientResolves(parent: RemoteRequest, dynamic: Option<DynamicTarget>)
    ensures ResolveReverse(parent, dynamic).Ok? <==>
            parent.direction.Reverse? && (dynamic.Some? <==> parent.kind.Socks5Remote?)
    ensures ResolveReverse(parent, dynamic).Ok? ==>
              GoesTo(ResolveReverse(parent, dynamic).value, parent.kind, dynamic)
    ensures ResolveReverse(parent, dynamic).Err? ==>
              ResolveReverse(parent, dynamic).error ==
              if parent.direction.Forward? then WrongDirection
              else if dynamic.None? then MissingTarget else UnexpectedTarget
  {
    match dynamic {
      case None =>
      case Some(DynamicTcp(_)) =>
      case Some(DynamicUdp(_)) =>
    }
  }

  /** The server accepts every opener that the client sends for a declaration, except those of a
      stdio SOCKS declaration, of which it accepts none. */
  lemma ForwardOpenAccepted(r: RemoteRequest, id: nat, o: OpenConn)
    requires ClientOpens(r, id, o)
    ensures ResolveDispatch(r.direction, r.kind, o.dynamic).Ok? <==> !(r.stdio && r.kind.Socks5Remote?)
    ensures ResolveDispatch(r.direction, r.kind, o.dynamic).Ok? ==>
              GoesTo(ResolveDispatch(r.direction, r.kind, o.dynamic).value, r.kind, o.dynamic)
  {
    ServerResolves(r.direction, r.kind, o.dynamic);
  }

  // ---------------------------------------------------------------------------
  // The client's id map
  // ---------------------------------------------------------------------------

  /** Pairs collected into a map: the last one for an id wins. */
  function IdMap(ids: seq<nat>, rs: seq<RemoteRequest>): map<nat, RemoteRequest>
    requires |ids| == |rs|
  {
    if ids == [] then map[] else IdMap(ids[..|ids| - 1], rs[..|rs| - 1])[Last(ids) := Last(rs)]
  }

  method BuildIdMap(ids: seq<nat>, rs: seq<RemoteRequest>) returns (m: map<nat, RemoteRequest>)
    requires |ids| == |rs|
    ensures m == IdMap(ids, rs)
  {
    m := map[];
    for i := 0 to |ids|
      invariant m == IdMap(ids[..i], rs[..i])
    {
      m := m[ids[i] := rs[i]];
      assert ids[..i + 1][..i] == ids[..i] && rs[..i + 1][..i] == rs[..i];
    }
    assert ids[..|ids|] == ids && rs[..|rs|] == rs;
  }

  predicate Distinct(ids: seq<nat>) {
    forall i, j | 0 <= i < j < |ids| :: ids[i] != ids[j]
  }

  /** With distinct ids the map leads each of them to the declaration at its position, and knows
      no other id. */
  lemma {:induction false} IdMapAgrees(ids: seq<nat>, rs: seq<RemoteRequest>)
    requires |ids| == |rs| && Distinct(ids)
    ensures forall i | 0 <= i < |ids| :: ids[i] in IdMap(ids, rs) && IdMap(ids, rs)[ids[i]] == rs[i]
    ensures forall id | id in IdMap(ids, rs) :: id in ids
  {
    if ids != [] {
      IdMapAgrees(ids[..|ids| - 1], rs[..|rs| - 1]);
    }
  }
}

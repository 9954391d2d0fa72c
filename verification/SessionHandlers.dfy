/** The server's handlers as they run against the shared registry, and the session theorems for
    declarations that come from the command line. */
module SessionHandlers {
  import opened Basics
  import opened IpText
  import opened Remote
  import opened Dispatch
  import opened ServerStates
  import R = Registry
  import RemoteParser
  import S = Session
  import W = SessionWire

  /** `perform_session_hello`: all or nothing, and a refused batch changes nothing. `sent` says
      whether the reply goes out. */
  method PerformSessionHello(state: ServerState, p: Policy, client: nat, remotes: seq<RemoteRequest>, sent: bool)
    returns (r: Option<seq<nat>>)
    requires state.Valid() && client in state.clients
    modifies state
    ensures state.Valid() && client in state.clients
    ensures state.Abs() ==
      if AllAllowed(p, remotes) then R.RegisterTunnels(old(state.Abs()), client, remotes) else old(state.Abs())
    ensures r == if AllAllowed(p, remotes) && sent then Some(S.AssignedIds(old(state.Abs()), remotes)) else None
  {
    ghost var before := state.Abs();
    var offence := ValidateRemotes(p, remotes);
    if offence.Some? {
      return None;
    }
    var ids := state.RegisterTunnels(client, remotes);
    S.AreAssigned(before, remotes, ids);
    if sent {
      return Some(ids);
    } else {
      return None;
    }
  }

  /** The start of `handle_client_connection`: a hello that is refused or whose reply fails ends
      in deregistration, and the ids of an accepted one mean the declarations in their order. */
  method AcceptHello(state: ServerState, p: Policy, client: nat, remotes: seq<RemoteRequest>, sent: bool)
    returns (r: Option<seq<nat>>)
    requires state.Valid() && client in state.clients
    modifies state
    ensures state.Valid()
    ensures r.Some? <==> AllAllowed(p, remotes) && sent
    ensures r.Some? ==> client in state.clients && S.HelloOk(p, state.tunnelArena, client, remotes, r.value)
    ensures r.None? ==>
      && client !in state.clients
      && forall t | t in state.tunnels && t in state.tunnelArena :: state.tunnelArena[t].clientId != client
  {
    ghost var before := state.Abs();
    r := PerformSessionHello(state, p, client, remotes, sent);
    if r.None? {
      state.DeregisterClient(client, "hello rejected");
    } else {
      S.DeclaredHello(p, before, client, remotes);
    }
  }

  /** `handle_open_conn`: a conn is registered exactly when the opener resolves and the reply
      goes out, and the result says where it goes. */
  method HandleOpenConn(state: ServerState, open: OpenConn, sent: bool) returns (r: Option<(nat, Dispatch)>)
    requires state.Valid()
    modifies state
    ensures state.Valid()
    ensures r.None? ==> state.Abs() == old(state.Abs())
    ensures r.Some? <==>
      && sent && open.tunnelId in old(state.tunnels)
      && ResolveDispatch(old(state.tunnelArena[open.tunnelId].direction),
                         old(state.tunnelArena[open.tunnelId].kind), open.dynamic).Ok?
    ensures r.Some? ==>
      && state.Abs() == R.RegisterConn(old(state.Abs()), open.tunnelId)
      && r.value.0 !in old(state.connArena) && state.Abs().Guarded(r.value.0)
      && GoesTo(r.value.1, state.tunnelArena[open.tunnelId].kind, open.dynamic)
  {
    var found := state.Tunnel(open.tunnelId);
    if found.None? {
      return None;
    }
    var t := found.value;
    var dispatch := ResolveDispatch(t.direction, t.kind, open.dynamic);
    if dispatch.Err? || !sent {
      return None;
    }
    ServerResolves(t.direction, t.kind, open.dynamic);
    var id := state.RegisterConn(open.tunnelId);
    r := Some((id, dispatch.value));
  }

  /** A declaration that the command line's parser made. */
  ghost predicate FromCommandLine(t: Text, r: RemoteRequest) {
    exists spec :: RemoteParser.Parse(t, spec) == Ok(r)
  }

  /** For parsed declarations there is no exception: every opener that the client sends while its
      session is established is accepted and goes to the right place. */
  lemma ParsedConnsAccepted(t: Text, p: Policy, events: seq<S.Event>, c: nat, i: nat, o: OpenConn)
    requires S.Possible(p, events) && c in S.After(p, events).phases && S.After(p, events).phases[c].Established?
    requires var g := S.After(p, events).phases[c];
      && i < |g.ids| && i < |g.remotes| && ClientOpens(g.remotes[i], g.ids[i], o)
      && FromCommandLine(t, g.remotes[i])
    ensures var s, r := S.After(p, events), S.After(p, events).phases[c].remotes[i];
      |S.OpenRequest(s, o)| == 1 && GoesTo(S.OpenRequest(s, o)[0].dispatch, r.kind, o.dynamic)
  {
    var r := S.After(p, events).phases[c].remotes[i];
    var spec :| RemoteParser.Parse(t, spec) == Ok(r);
    RemoteParser.ParsedIsCanonical(t, spec);
    S.ForwardConnsAccepted(p, events, c, i, o);
  }

  /** For parsed declarations nothing is lost on the way: the tunnels of a client that has its map are
      the very declarations of its command line, position by position. */
  lemma ParsedAgreement(t: Text, p: Policy, k: W.Codecs, steps: seq<W.Step>, c: nat)
    requires W.LawfulCodecs(k) && W.Possible(p, k, steps)
    requires c in W.After(p, k, steps).links && W.After(p, k, steps).links[c].client.Mapped?
    requires forall r | r in W.After(p, k, steps).links[c].client.remotes :: FromCommandLine(t, r)
    ensures var w := W.After(p, k, steps);
      var client := w.links[c].client;
      && |client.ids| == |client.remotes| && W.SameSession(w.server, c, client)
      && PlainAll(client.remotes) == client.remotes
      && forall i | 0 <= i < |client.ids| ::
           S.IsTunnelFor(w.server.registry.tunnelArena, client.ids[i], c, client.remotes[i])
  {
    var rs := W.After(p, k, steps).links[c].client.remotes;
    forall i | 0 <= i < |rs| ensures W.HasPlainLocal(rs[i]) && Plain(rs[i]) == rs[i] {
      assert rs[i] in rs;
      ParsedIsPlain(t, rs[i]);
    }
    W.SameWhenPlain(rs);
    W.ExactAgreement(p, k, steps, c);
    W.WireAgreement(p, k, steps, c);
  }

  lemma ParsedIsPlain(t: Text, r: RemoteRequest)
    requires FromCommandLine(t, r)
    ensures W.HasPlainLocal(r) && Plain(r) == r
  {
    var spec :| RemoteParser.Parse(t, spec) == Ok(r);
    RemoteParser.ParsedIsCanonical(t, spec);
  }
}

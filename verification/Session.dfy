/** The session protocol on the server, over all clients: hello, validation, id assignment and
    the dispatch of openers, with the registry that they change. What happens between two waits
    is one step, and the steps of all clients interleave in any order. */
module Session {
  import opened Basics
  import opened Counters
  import opened Remote
  import opened Dispatch
  import R = Registry

  /** Where a client's connection is. */
  datatype Phase =
    | Connected
    | Refusing
    | Replying(remotes: seq<RemoteRequest>, ids: seq<nat>)
    | Established(remotes: seq<RemoteRequest>, ids: seq<nat>)
    | Closing(remotes: seq<RemoteRequest>, ids: seq<nat>)
    | Closed
  {
    predicate Declared() {
      Replying? || Established? || Closing?
    }
  }

  /** An opener that was accepted, and what it was resolved to. */
  datatype Opened = Opened(open: OpenConn, dispatch: Dispatch)

  /** `listeners` holds, as client and position in its hello, the reverse declarations for which
      the server listens. `pending` openers are accepted but not yet started. `detached` holds the
      tunnels on whose listeners a connection was accepted: the task that serves it is on its own
      and may open conns at any later time, even when the session is over. */
  datatype Server = Server(
    clientCounter: nat, registry: R.State, phases: map<nat, Phase>, listeners: set<(nat, nat)>,
    detached: set<nat>, pending: seq<Opened>, dispatched: seq<Opened>)

  const INITIAL := Server(0, R.EMPTY, map[], {}, {}, [], [])

  datatype Event =
    | Incoming
    | Accept(client: nat)
    | HelloLost(client: nat, reason: string)
    | HelloRead(client: nat, remotes: seq<RemoteRequest>)
    | Reply(client: nat, ok: bool)
    | OpenRead(client: nat, open: OpenConn)
    | Start(index: nat)
    | ReverseAccept(client: nat, index: nat)
    | ReverseConn(tunnel: nat)
    | Transfer(conn: nat, bytes: Traffic)
    | Drop(conn: nat)
    | Shutdown(client: nat)
    | Close(client: nat, reason: string)

  // ---------------------------------------------------------------------------
  // Steps
  // ---------------------------------------------------------------------------

  /** What a step does to the registry. */
  function RegistryEvent(p: Policy, s: Server, e: Event): Option<R.Event> {
    match e
    case Incoming => None
    case Accept(c) => Some(R.Accept(c))
    case HelloLost(c, reason) => Some(R.Disconnect(c, reason))
    case HelloRead(c, rs) => if AllAllowed(p, rs) then Some(R.Declare(c, rs)) else None
    case Reply(c, ok) =>
      if ok && c in s.phases && s.phases[c].Replying? then None else Some(R.Disconnect(c, "hello rejected"))
    case OpenRead(_, _) => None
    case Start(i) => if i < |s.pending| then Some(R.Open(s.pending[i].open.tunnelId)) else None
    case ReverseAccept(_, _) => None
    case ReverseConn(t) => Some(R.Open(t))
    case Transfer(c, b) => Some(R.Transfer(c, b))
    case Drop(c) => Some(R.Drop(c))
    case Shutdown(_) => None
    case Close(c, reason) => Some(R.Disconnect(c, reason))
  }

  predicate Enabled(p: Policy, s: Server, e: Event) {
    && (var r := RegistryEvent(p, s, e); r.Some? ==> R.Enabled(s.registry, r.value))
    && match e
       case Accept(c) => 1 <= c <= s.clientCounter
       case HelloLost(c, _) => c in s.phases && s.phases[c].Connected?
       case HelloRead(c, _) => c in s.phases && s.phases[c].Connected?
       case Reply(c, _) => c in s.phases && (s.phases[c].Replying? || s.phases[c].Refusing?)
       case OpenRead(c, _) => c in s.phases && s.phases[c].Established?
       case Start(i) => i < |s.pending|
       case ReverseAccept(c, i) => (c, i) in s.listeners && c in s.phases && s.phases[c].Established?
                                   && i < |s.phases[c].ids|
       case ReverseConn(t) => t in s.detached
       case Shutdown(c) => c in s.phases && s.phases[c].Established?
       case Close(c, _) => c in s.phases && s.phases[c].Closing?
       case _ => true
  }

  function Registered(p: Policy, s: Server, e: Event): R.State
    requires Enabled(p, s, e)
  {
    match RegistryEvent(p, s, e)
    case Some(r) => R.Apply(s.registry, r)
    case None => s.registry
  }

  /** The ids that a batch of declarations gets. */
  function AssignedIds(r: R.State, rs: seq<RemoteRequest>): seq<nat> {
    seq(|rs|, (i: nat) => r.nextTunnelId + 1 + i)
  }

  lemma AreAssigned(r: R.State, rs: seq<RemoteRequest>, ids: seq<nat>)
    requires |ids| == |rs| && forall i | 0 <= i < |ids| :: ids[i] == r.nextTunnelId + 1 + i
    ensures ids == AssignedIds(r, rs)
  {
  }

  /** One listener for every reverse declaration of an accepted hello. */
  function ReverseListeners(c: nat, rs: seq<RemoteRequest>): set<(nat, nat)> {
    set i | 0 <= i < |rs| && rs[i].direction.Reverse? :: (c, i)
  }

  /** The look-up is by global id; a failed one is answered with a refusal. */
  function OpenRequest(s: Server, open: OpenConn): seq<Opened> {
    if open.tunnelId in s.registry.tunnels && open.tunnelId in s.registry.tunnelArena then
      var e := s.registry.tunnelArena[open.tunnelId];
      match ResolveDispatch(e.direction, e.kind, open.dynamic)
      case Ok(d) => [Opened(open, d)]
      case Err(_) => []
    else []
  }

  function Do(p: Policy, s: Server, e: Event): Server
    requires Enabled(p, s, e)
  {
    var s' := s.(registry := Registered(p, s, e));
    match e
    case Incoming => s'.(clientCounter := s.clientCounter + 1)
    case Accept(c) => s'.(phases := s.phases[c := Connected])
    case HelloLost(c, _) => s'.(phases := s.phases[c := Closed])
    case HelloRead(c, rs) =>
      s'.(phases := s.phases[c := if AllAllowed(p, rs) then Replying(rs, AssignedIds(s.registry, rs)) else Refusing])
    case Reply(c, ok) =>
      if !ok || s.phases[c].Refusing? then s'.(phases := s.phases[c := Closed])
      else
        var rs := s.phases[c].remotes;
        s'.(phases := s.phases[c := Established(rs, s.phases[c].ids)],
            listeners := s.listeners + ReverseListeners(c, rs))
    case OpenRead(_, open) => s'.(pending := s.pending + OpenRequest(s, open))
    case Start(i) =>
      s'.(pending := s.pending[..i] + s.pending[i + 1..], dispatched := s.dispatched + [s.pending[i]])
    case ReverseAccept(c, i) => s'.(detached := s.detached + {s.phases[c].ids[i]})
    case Shutdown(c) =>
      s'.(phases := s.phases[c := Closing(s.phases[c].remotes, s.phases[c].ids)],
          listeners := set l | l in s.listeners && l.0 != c)
    case Close(c, _) => s'.(phases := s.phases[c := Closed])
    case _ => s'
  }

  predicate Possible(p: Policy, events: seq<Event>)
    decreases |events|, 0
  {
    events == [] ||
    (Possible(p, events[..|events| - 1]) && Enabled(p, After(p, events[..|events| - 1]), Last(events)))
  }

  function After(p: Policy, events: seq<Event>): Server
    requires Possible(p, events)
    decreases |events|, 1
  {
    if events == [] then INITIAL else Do(p, After(p, events[..|events| - 1]), Last(events))
  }

  // ---------------------------------------------------------------------------
  // The invariant
  // ---------------------------------------------------------------------------

  predicate IsTunnelFor(ta: R.Tunnels, id: nat, c: nat, r: RemoteRequest) {
    id in ta && ta[id].clientId == c && ta[id].direction == r.direction && ta[id].kind == r.kind
  }

  /** What the ids of a hello mean, position by position. */
  ghost predicate HelloOk(p: Policy, ta: R.Tunnels, c: nat, rs: seq<RemoteRequest>, ids: seq<nat>) {
    && |ids| == |rs| && Distinct(ids) && AllAllowed(p, rs)
    && forall i | 0 <= i < |ids| :: IsTunnelFor(ta, ids[i], c, rs[i])
  }

  ghost predicate PhaseOk(p: Policy, ta: R.Tunnels, c: nat, g: Phase) {
    g.Declared() ==> HelloOk(p, ta, c, g.remotes, g.ids)
  }

  ghost predicate PhasesOk(p: Policy, ta: R.Tunnels, phases: map<nat, Phase>) {
    forall c | c in phases :: PhaseOk(p, ta, c, phases[c])
  }

  /** A client is registered from its connection to its end. */
  ghost predicate ClientsOk(clients: map<nat, set<nat>>, joined: set<nat>, phases: map<nat, Phase>) {
    && (forall c :: c in phases <==> c in joined)
    && (forall c | c in phases :: c in clients <==> !phases[c].Closed?)
  }

  /** The tunnels of a registered client are exactly those of its hello. */
  ghost predicate OwnOk(clients: map<nat, set<nat>>, phases: map<nat, Phase>) {
    forall c | c in phases && c in clients :: Owns(clients[c], phases[c])
  }

  ghost predicate Owns(tunnels: set<nat>, g: Phase) {
    forall t :: t in tunnels <==> g.Declared() && t in g.ids
  }

  ghost predicate TunnelsAllowed(p: Policy, ta: R.Tunnels) {
    forall t | t in ta :: Allowed(p, RemoteRequest(ta[t].direction, ta[t].kind, false))
  }

  /** The server listens for exactly the reverse declarations of the established sessions. */
  ghost predicate ListenersOk(phases: map<nat, Phase>, listeners: set<(nat, nat)>) {
    forall c: nat, i: nat :: (c, i) in listeners <==> ListenerOk(phases, c, i)
  }

  predicate ListenerOk(phases: map<nat, Phase>, c: nat, i: nat) {
    c in phases && phases[c].Established? && i < |phases[c].remotes| && phases[c].remotes[i].direction.Reverse?
  }

  predicate OpenedOk(ta: R.Tunnels, o: Opened) {
    && o.open.tunnelId in ta
    && ResolveDispatch(ta[o.open.tunnelId].direction, ta[o.open.tunnelId].kind, o.open.dynamic) == Ok(o.dispatch)
  }

  ghost predicate AllOpenedOk(ta: R.Tunnels, os: seq<Opened>) {
    forall i | 0 <= i < |os| :: OpenedOk(ta, os[i])
  }

  /** Detached tasks serve reverse tunnels. */
  ghost predicate DetachedOk(ta: R.Tunnels, detached: set<nat>) {
    forall t | t in detached :: t in ta && ta[t].direction.Reverse?
  }

  ghost predicate Inv(p: Policy, s: Server) {
    && R.Inv(s.registry)
    && PhasesOk(p, s.registry.tunnelArena, s.phases)
    && ClientsOk(s.registry.clients, s.registry.joined, s.phases)
    && OwnOk(s.registry.clients, s.phases)
    && TunnelsAllowed(p, s.registry.tunnelArena)
    && ListenersOk(s.phases, s.listeners)
    && DetachedOk(s.registry.tunnelArena, s.detached)
    && AllOpenedOk(s.registry.tunnelArena, s.pending) && AllOpenedOk(s.registry.tunnelArena, s.dispatched)
  }

  // ---------------------------------------------------------------------------
  // Every step keeps it
  // ---------------------------------------------------------------------------

  lemma RegistryKeeps(p: Policy, s: Server, e: Event)
    requires R.Inv(s.registry) && Enabled(p, s, e)
    ensures R.Inv(Registered(p, s, e)) && R.Extends(s.registry, Registered(p, s, e))
  {
    var r := RegistryEvent(p, s, e);
    if r.Some? {
      R.ApplyKeeps(s.registry, r.value);
      R.StepExtends(s.registry, r.value);
    }
  }

  /** What is known about tunnels that exist stays true. */
  lemma HelloStays(p: Policy, ta: R.Tunnels, tn: nat, ta': R.Tunnels, c: nat, rs: seq<RemoteRequest>, ids: seq<nat>)
    requires HelloOk(p, ta, c, rs, ids) && R.TunnelsExtend(ta, tn, ta')
    ensures HelloOk(p, ta', c, rs, ids)
  {
    forall i | 0 <= i < |ids| ensures IsTunnelFor(ta', ids[i], c, rs[i]) {
      assert IsTunnelFor(ta, ids[i], c, rs[i]);
    }
  }

  lemma PhasesStay(p: Policy, ta: R.Tunnels, tn: nat, ta': R.Tunnels, phases: map<nat, Phase>)
    requires PhasesOk(p, ta, phases) && R.TunnelsExtend(ta, tn, ta')
    ensures PhasesOk(p, ta', phases)
  {
    forall c | c in phases ensures PhaseOk(p, ta', c, phases[c]) {
      assert PhaseOk(p, ta, c, phases[c]);
      if phases[c].Declared() {
        HelloStays(p, ta, tn, ta', c, phases[c].remotes, phases[c].ids);
      }
    }
  }

  lemma OpenedStay(ta: R.Tunnels, tn: nat, ta': R.Tunnels, os: seq<Opened>)
    requires AllOpenedOk(ta, os) && R.TunnelsExtend(ta, tn, ta')
    ensures AllOpenedOk(ta', os)
  {
    forall i | 0 <= i < |os| ensures OpenedOk(ta', os[i]) {
      assert OpenedOk(ta, os[i]);
    }
  }

  /** A batch that the policy allows gets ids that mean its declarations. */
  lemma DeclaredHello(p: Policy, r: R.State, c: nat, rs: seq<RemoteRequest>)
    requires c in r.clients && AllAllowed(p, rs)
    ensures HelloOk(p, R.RegisterTunnels(r, c, rs).tunnelArena, c, rs, AssignedIds(r, rs))
  {
    R.RegisteredInOrder(r, c, rs);
    FreshMeans(R.RegisterTunnels(r, c, rs).tunnelArena, r.nextTunnelId, c, rs, AssignedIds(r, rs));
  }

  lemma FreshMeans(ta: R.Tunnels, n: nat, c: nat, rs: seq<RemoteRequest>, ids: seq<nat>)
    requires forall i | 0 <= i < |rs| :: R.IsFresh(ta, n + 1 + i, c, rs[i])
    requires |ids| == |rs| && forall i | 0 <= i < |ids| :: ids[i] == n + 1 + i
    ensures Distinct(ids) && forall i | 0 <= i < |ids| :: IsTunnelFor(ta, ids[i], c, rs[i])
  {
    forall i | 0 <= i < |ids| ensures IsTunnelFor(ta, ids[i], c, rs[i]) {
      assert R.IsFresh(ta, n + 1 + i, c, rs[i]);
    }
  }

  lemma {:induction false} DeclaredAllowed(p: Policy, r: R.State, c: nat, rs: seq<RemoteRequest>)
    requires c in r.clients && AllAllowed(p, rs) && TunnelsAllowed(p, r.tunnelArena)
    ensures TunnelsAllowed(p, R.RegisterTunnels(r, c, rs).tunnelArena)
  {
    if rs != [] {
      DeclaredAllowed(p, r, c, rs[..|rs| - 1]);
      assert Allowed(p, Last(rs));
    }
  }

  lemma TunnelsStayAllowed(p: Policy, s: Server, e: Event)
    requires Enabled(p, s, e) && TunnelsAllowed(p, s.registry.tunnelArena)
    ensures TunnelsAllowed(p, Registered(p, s, e).tunnelArena)
  {
    if e.HelloRead? && AllAllowed(p, e.remotes) {
      DeclaredAllowed(p, s.registry, e.client, e.remotes);
    }
  }

  lemma PhasesKeep(p: Policy, s: Server, e: Event)
    requires Enabled(p, s, e) && PhasesOk(p, s.registry.tunnelArena, s.phases)
    requires R.TunnelsExtend(s.registry.tunnelArena, s.registry.nextTunnelId, Registered(p, s, e).tunnelArena)
    ensures PhasesOk(p, Registered(p, s, e).tunnelArena, Do(p, s, e).phases)
  {
    PhasesStay(p, s.registry.tunnelArena, s.registry.nextTunnelId, Registered(p, s, e).tunnelArena, s.phases);
    if e.HelloRead? && AllAllowed(p, e.remotes) {
      DeclaredHello(p, s.registry, e.client, e.remotes);
    } else if e.Reply? {
      assert PhaseOk(p, s.registry.tunnelArena, e.client, s.phases[e.client]);
    }
  }

  lemma ClientsKeep(p: Policy, s: Server, e: Event)
    requires Enabled(p, s, e) && ClientsOk(s.registry.clients, s.registry.joined, s.phases)
    ensures var s' := Do(p, s, e); ClientsOk(s'.registry.clients, s'.registry.joined, s'.phases)
  {
    if e.HelloRead? && AllAllowed(p, e.remotes) {
      SameClients(s.registry, e.client, e.remotes);
    }
  }

  lemma DeclaredOwns(r: R.State, c: nat, rs: seq<RemoteRequest>)
    requires c in r.clients && r.clients[c] == {}
    ensures Owns(R.RegisterTunnels(r, c, rs).clients[c], Replying(rs, AssignedIds(r, rs)))
  {
    var ids := AssignedIds(r, rs);
    R.RegisteredInOrder(r, c, rs);
    forall t: nat ensures t in R.RegisterTunnels(r, c, rs).clients[c] <==> t in ids {
      if r.nextTunnelId < t <= r.nextTunnelId + |rs| {
        assert ids[t - r.nextTunnelId - 1] == t;
      }
    }
  }

  lemma {:induction false} OtherClientsSame(r: R.State, c: nat, rs: seq<RemoteRequest>, d: nat)
    requires c in r.clients && d != c
    ensures var r' := R.RegisterTunnels(r, c, rs);
      (d in r'.clients <==> d in r.clients) && (d in r.clients ==> r'.clients[d] == r.clients[d])
  {
    if rs != [] {
      OtherClientsSame(r, c, rs[..|rs| - 1], d);
    }
  }

  lemma OwnKeep(p: Policy, s: Server, e: Event)
    requires Enabled(p, s, e) && OwnOk(s.registry.clients, s.phases)
    requires ClientsOk(s.registry.clients, s.registry.joined, s.phases)
    ensures OwnOk(Registered(p, s, e).clients, Do(p, s, e).phases)
  {
    if e.HelloRead? && AllAllowed(p, e.remotes) {
      OwnDeclared(p, s, e.client, e.remotes);
    }
  }

  lemma OwnDeclared(p: Policy, s: Server, c: nat, rs: seq<RemoteRequest>)
    requires Enabled(p, s, HelloRead(c, rs)) && AllAllowed(p, rs) && OwnOk(s.registry.clients, s.phases)
    ensures OwnOk(Registered(p, s, HelloRead(c, rs)).clients, Do(p, s, HelloRead(c, rs)).phases)
  {
    var r', phases' := Registered(p, s, HelloRead(c, rs)), Do(p, s, HelloRead(c, rs)).phases;
    assert Owns(s.registry.clients[c], s.phases[c]);
    DeclaredOwns(s.registry, c, rs);
    forall d | d in phases' && d in r'.clients ensures Owns(r'.clients[d], phases'[d]) {
      if d != c {
        OtherClientsSame(s.registry, c, rs, d);
      }
    }
  }

  lemma {:induction false} SameClients(r: R.State, c: nat, rs: seq<RemoteRequest>)
    requires c in r.clients
    ensures var r' := R.RegisterTunnels(r, c, rs);
      r'.joined == r.joined && r'.clients.Keys == r.clients.Keys
  {
    if rs != [] {
      SameClients(r, c, rs[..|rs| - 1]);
    }
  }

  lemma ListenersKeep(p: Policy, s: Server, e: Event)
    requires Enabled(p, s, e) && ListenersOk(s.phases, s.listeners)
    requires ClientsOk(s.registry.clients, s.registry.joined, s.phases)
    ensures ListenersOk(Do(p, s, e).phases, Do(p, s, e).listeners)
  {
    var s' := Do(p, s, e);
    forall c: nat, i: nat ensures (c, i) in s'.listeners <==> ListenerOk(s'.phases, c, i) {
      assert (c, i) in s.listeners <==> ListenerOk(s.phases, c, i);
    }
  }

  lemma DetachedKeep(p: Policy, s: Server, e: Event)
    requires Enabled(p, s, e) && DetachedOk(s.registry.tunnelArena, s.detached)
    requires ListenersOk(s.phases, s.listeners) && PhasesOk(p, s.registry.tunnelArena, s.phases)
    requires R.TunnelsExtend(s.registry.tunnelArena, s.registry.nextTunnelId, Registered(p, s, e).tunnelArena)
    ensures DetachedOk(Registered(p, s, e).tunnelArena, Do(p, s, e).detached)
  {
    if e.ReverseAccept? {
      var g := s.phases[e.client];
      assert ListenerOk(s.phases, e.client, e.index) && PhaseOk(p, s.registry.tunnelArena, e.client, g);
      assert IsTunnelFor(s.registry.tunnelArena, g.ids[e.index], e.client, g.remotes[e.index]);
    }
  }

  lemma OpenedKeep(p: Policy, s: Server, e: Event)
    requires Enabled(p, s, e)
    requires AllOpenedOk(s.registry.tunnelArena, s.pending) && AllOpenedOk(s.registry.tunnelArena, s.dispatched)
    requires R.TunnelsExtend(s.registry.tunnelArena, s.registry.nextTunnelId, Registered(p, s, e).tunnelArena)
    ensures var s' := Do(p, s, e);
      AllOpenedOk(s'.registry.tunnelArena, s'.pending) && AllOpenedOk(s'.registry.tunnelArena, s'.dispatched)
  {
    var ta, tn, ta' := s.registry.tunnelArena, s.registry.nextTunnelId, Registered(p, s, e).tunnelArena;
    OpenedStay(ta, tn, ta', s.pending);
    OpenedStay(ta, tn, ta', s.dispatched);
  }

  lemma DoKeeps(p: Policy, s: Server, e: Event)
    requires Inv(p, s) && Enabled(p, s, e)
    ensures Inv(p, Do(p, s, e))
  {
    RegistryKeeps(p, s, e);
    PhasesKeep(p, s, e);
    ClientsKeep(p, s, e);
    OwnKeep(p, s, e);
    TunnelsStayAllowed(p, s, e);
    ListenersKeep(p, s, e);
    DetachedKeep(p, s, e);
    OpenedKeep(p, s, e);
  }

  lemma {:induction false} ReachableInv(p: Policy, events: seq<Event>)
    requires Possible(p, events)
    ensures Inv(p, After(p, events))
  {
    if events != [] {
      ReachableInv(p, events[..|events| - 1]);
      DoKeeps(p, After(p, events[..|events| - 1]), Last(events));
    }
  }

  // ---------------------------------------------------------------------------
  // Policy
  // ---------------------------------------------------------------------------

  /** Over every run: without `allowSocks` there is no SOCKS tunnel and no conn ever goes to a
      target that an opener carried; without `allowReverse` the server listens for nobody. */
  lemma PolicySafety(p: Policy, events: seq<Event>)
    requires Possible(p, events)
    ensures var s := After(p, events);
      && (!p.allowSocks ==>
            && (forall t | t in s.registry.tunnelArena :: !s.registry.tunnelArena[t].kind.Socks5Remote?)
            && (forall i | 0 <= i < |s.dispatched| :: s.dispatched[i].open.dynamic.None?))
      && (!p.allowReverse ==> s.listeners == {})
  {
    var s := After(p, events);
    ReachableInv(p, events);
    forall i | 0 <= i < |s.dispatched| && !p.allowSocks ensures s.dispatched[i].open.dynamic.None? {
      var o := s.dispatched[i];
      assert OpenedOk(s.registry.tunnelArena, o);
      var e := s.registry.tunnelArena[o.open.tunnelId];
      ServerResolves(e.direction, e.kind, o.open.dynamic);
    }
    forall l | l in s.listeners ensures p.allowReverse {
      assert (l.0, l.1) in s.listeners && ListenerOk(s.phases, l.0, l.1);
      assert PhaseOk(p, s.registry.tunnelArena, l.0, s.phases[l.0]);
      assert Allowed(p, s.phases[l.0].remotes[l.1]);
    }
  }

  /** Nothing in the registry or among the listeners belongs to the client. */
  ghost predicate NothingLeft(s: Server, c: nat) {
    && c !in s.registry.clients
    && (forall t | t in s.registry.tunnels && t in s.registry.tunnelArena :: s.registry.tunnelArena[t].clientId != c)
    && (forall l | l in s.listeners :: l.0 != c)
  }

  lemma ClosedLeavesNothing(p: Policy, s: Server, c: nat)
    requires Inv(p, s) && c in s.phases && s.phases[c].Closed?
    ensures NothingLeft(s, c)
  {
    forall l | l in s.listeners ensures l.0 != c {
      assert (l.0, l.1) in s.listeners && ListenerOk(s.phases, l.0, l.1);
    }
  }

  lemma ClosedStays(p: Policy, s: Server, e: Event, c: nat)
    requires Inv(p, s) && Enabled(p, s, e) && c in s.phases && s.phases[c].Closed?
    ensures var s' := Do(p, s, e); c in s'.phases && s'.phases[c].Closed?
  {
  }

  lemma {:induction false} ClosedForEver(p: Policy, events: seq<Event>, n: nat, c: nat)
    requires Possible(p, events) && n <= |events| && Possible(p, events[..n])
    requires c in After(p, events[..n]).phases && After(p, events[..n]).phases[c].Closed?
    ensures c in After(p, events).phases && After(p, events).phases[c].Closed?
  {
    if n == |events| {
      assert events[..n] == events;
    } else {
      var init := events[..|events| - 1];
      assert init[..n] == events[..n];
      ClosedForEver(p, init, n, c);
      ReachableInv(p, init);
      ClosedStays(p, After(p, init), Last(events), c);
    }
  }

  /** The step ends a session that was not established: its hello was lost or refused, or the
      reply to it failed. */
  predicate EndsHello(s: Server, e: Event, c: nat) {
    match e
    case HelloLost(d, _) => d == c
    case Reply(d, ok) => d == c && (!ok || (c in s.phases && s.phases[c].Refusing?))
    case _ => false
  }

  lemma EndsHelloCloses(p: Policy, events: seq<Event>, n: nat, c: nat)
    requires Possible(p, events) && n < |events| && Possible(p, events[..n])
    requires EndsHello(After(p, events[..n]), events[n], c) && Enabled(p, After(p, events[..n]), events[n])
    ensures Possible(p, events[..n + 1])
    ensures c in After(p, events[..n + 1]).phases && After(p, events[..n + 1]).phases[c].Closed?
  {
    assert events[..n + 1][..n] == events[..n] && Last(events[..n + 1]) == events[n];
  }

  /** A hello that is rejected or whose reply fails leaves nothing of its client behind, then
      and at every later time. */
  lemma RejectedLeavesNothing(p: Policy, events: seq<Event>, n: nat, c: nat)
    requires Possible(p, events) && n < |events| && Possible(p, events[..n])
    requires EndsHello(After(p, events[..n]), events[n], c) && Enabled(p, After(p, events[..n]), events[n])
    ensures NothingLeft(After(p, events), c)
  {
    EndsHelloCloses(p, events, n, c);
    ClosedForEver(p, events, n + 1, c);
    ReachableInv(p, events);
    ClosedLeavesNothing(p, After(p, events), c);
  }

  /** Until its hello is accepted a client has no tunnel; a refused one never gets any. */
  lemma NoTunnelBeforeAcceptance(p: Policy, events: seq<Event>, c: nat)
    requires Possible(p, events) && c in After(p, events).phases
    requires After(p, events).phases[c].Connected? || After(p, events).phases[c].Refusing?
    ensures var r := After(p, events).registry; c in r.clients && r.clients[c] == {}
  {
    var s := After(p, events);
    ReachableInv(p, events);
    assert Owns(s.registry.clients[c], s.phases[c]);
  }

  // ---------------------------------------------------------------------------
  // Conns that outlive their session
  // ---------------------------------------------------------------------------

  lemma Then(p: Policy, events: seq<Event>, e: Event)
    requires Possible(p, events) && Enabled(p, After(p, events), e)
    ensures Possible(p, events + [e]) && After(p, events + [e]) == Do(p, After(p, events), e)
  {
    assert (events + [e])[..|events|] == events;
  }

  /** A task that serves a reverse tunnel can open a conn whatever has become of the session. That is
      on a reverse tunnel, which the policy allows; the conn is listed until its guard drops; and
      it brings nothing else of a departed client back. */
  lemma LateReverseConn(p: Policy, events: seq<Event>, t: nat)
    requires Possible(p, events) && t in After(p, events).detached
    ensures Possible(p, events + [ReverseConn(t)]) && p.allowReverse
    ensures var s := After(p, events + [ReverseConn(t)]);
      && t in s.registry.tunnelArena && s.registry.tunnelArena[t].direction.Reverse?
      && s.registry.nextConnId in s.registry.conns && s.registry.Guarded(s.registry.nextConnId)
      && s.registry.connArena[s.registry.nextConnId].tunnelId == t
      && forall c | c in s.phases && s.phases[c].Closed? :: NothingLeft(s, c)
  {
    var s := After(p, events);
    ReachableInv(p, events);
    Then(p, events, ReverseConn(t));
    R.LateConn(s.registry, t);
    assert Allowed(p, RemoteRequest(s.registry.tunnelArena[t].direction, s.registry.tunnelArena[t].kind, false));
    var s' := After(p, events + [ReverseConn(t)]);
    ReachableInv(p, events + [ReverseConn(t)]);
    forall c | c in s'.phases && s'.phases[c].Closed? ensures NothingLeft(s', c) {
      ClosedLeavesNothing(p, s', c);
    }
  }

  // ---------------------------------------------------------------------------
  // Agreement
  // ---------------------------------------------------------------------------

  /** The id map of a reply with these ids to these declarations and the server's registry mean the
      same by every id, and neither knows another id of this client. */
  ghost predicate Agree(s: Server, c: nat, rs: seq<RemoteRequest>, ids: seq<nat>)
    requires |ids| == |rs|
  {
    && (forall i | 0 <= i < |ids| ::
          && ids[i] in IdMap(ids, rs) && IdMap(ids, rs)[ids[i]] == rs[i]
          && ids[i] in s.registry.tunnels && IsTunnelFor(s.registry.tunnelArena, ids[i], c, rs[i]))
    && (forall t | t in IdMap(ids, rs) :: t in ids)
    && (c in s.registry.clients && forall t :: t in s.registry.clients[c] <==> t in ids)
  }

  /** Whenever a client's session is established, the registry holds what the server read and
      replied. */
  lemma SessionAgreement(p: Policy, events: seq<Event>, c: nat)
    requires Possible(p, events) && c in After(p, events).phases && After(p, events).phases[c].Established?
    ensures var s, g := After(p, events), After(p, events).phases[c];
      |g.ids| == |g.remotes| && Agree(s, c, g.remotes, g.ids)
  {
    var s := After(p, events);
    var g := s.phases[c];
    ReachableInv(p, events);
    assert PhaseOk(p, s.registry.tunnelArena, c, g) && Owns(s.registry.clients[c], g);
    IdMapAgrees(g.ids, g.remotes);
    forall i | 0 <= i < |g.ids|
      ensures g.ids[i] in s.registry.tunnels && IsTunnelFor(s.registry.tunnelArena, g.ids[i], c, g.remotes[i])
    {
      assert IsTunnelFor(s.registry.tunnelArena, g.ids[i], c, g.remotes[i]);
    }
  }

  /** While the session is established, the server accepts every opener that the client sends for
      its declaration `i`, and sends the conn where the declaration or the opener says. The one
      exception is a stdio SOCKS declaration, whose opener is always refused. */
  lemma ForwardConnsAccepted(p: Policy, events: seq<Event>, c: nat, i: nat, o: OpenConn)
    requires Possible(p, events) && c in After(p, events).phases && After(p, events).phases[c].Established?
    requires var g := After(p, events).phases[c];
      i < |g.ids| && i < |g.remotes| && ClientOpens(g.remotes[i], g.ids[i], o)
    ensures var s, r := After(p, events), After(p, events).phases[c].remotes[i];
      && (OpenRequest(s, o) == [] <==> r.stdio && r.kind.Socks5Remote?)
      && (OpenRequest(s, o) != [] ==>
            OpenRequest(s, o)[0].open == o && GoesTo(OpenRequest(s, o)[0].dispatch, r.kind, o.dynamic))
  {
    var g := After(p, events).phases[c];
    SessionAgreement(p, events, c);
    ForwardOpenAccepted(g.remotes[i], g.ids[i], o);
  }

  /** While the server listens for a reverse declaration, every opener that the listener sends is
      accepted under the ids and declarations of the session, and the conn goes where the
      declaration or the opener says. */
  lemma ReverseConnsAccepted(p: Policy, events: seq<Event>, c: nat, i: nat, o: OpenConn)
    requires Possible(p, events) && (c, i) in After(p, events).listeners
    requires var s := After(p, events);
      && c in s.phases && s.phases[c].Established? && i < |s.phases[c].ids|
      && s.phases[c].ids[i] in s.registry.tunnelArena
      && ListenerOpens(s.registry.tunnelArena[s.phases[c].ids[i]].kind, s.phases[c].ids[i], o)
    ensures var g := After(p, events).phases[c];
      && |g.ids| == |g.remotes| && o.tunnelId in IdMap(g.ids, g.remotes)
      && var d := ResolveReverse(IdMap(g.ids, g.remotes)[o.tunnelId], o.dynamic);
         d.Ok? && GoesTo(d.value, g.remotes[i].kind, o.dynamic)
  {
    var s := After(p, events);
    ReachableInv(p, events);
    assert ListenerOk(s.phases, c, i);
    SessionAgreement(p, events, c);
    ClientResolves(s.phases[c].remotes[i], o.dynamic);
  }

  // ---------------------------------------------------------------------------
  // Whose tunnel an opener gets
  // ---------------------------------------------------------------------------

  /** The look-up does not ask who sent the opener. What a client gets is its own tunnel if and only
      if it names one of the ids that were assigned to it. */
  lemma OpensOwnTunnel(p: Policy, events: seq<Event>, c: nat, o: OpenConn)
    requires Possible(p, events) && c in After(p, events).phases && After(p, events).phases[c].Established?
    requires OpenRequest(After(p, events), o) != []
    ensures var s := After(p, events);
      s.registry.tunnelArena[o.tunnelId].clientId == c <==> o.tunnelId in s.phases[c].ids
  {
    var s := After(p, events);
    ReachableInv(p, events);
    assert Owns(s.registry.clients[c], s.phases[c]);
  }

  /** Two clients: the first has one tunnel, the second none. */
  predicate TwoSessions(s: Server, r: RemoteRequest) {
    && s.registry.nextTunnelId == 1 && s.pending == [] && s.registry.nextConnId == 0
    && 1 in s.registry.tunnels && IsTunnelFor(s.registry.tunnelArena, 1, 1, r)
    && s.phases == map[1 := Established([r], [1]), 2 := Established([], [])]
  }

  /** Two connections have come in, and the first is registered as a client. */
  predicate FirstJoined(s: Server) {
    && s.clientCounter == 2 && s.pending == [] && s.phases == map[1 := Connected]
    && s.registry == R.AcceptClient(R.EMPTY, 1)
  }

  lemma FirstJoins(p: Policy) returns (events: seq<Event>)
    ensures Possible(p, events) && FirstJoined(After(p, events))
  {
    events := [];
    Then(p, events, Incoming);
    events := events + [Incoming];
    Then(p, events, Incoming);
    events := events + [Incoming];
    Then(p, events, Accept(1));
    events := events + [Accept(1)];
  }

  lemma FirstSession(p: Policy, r: RemoteRequest) returns (events: seq<Event>)
    requires Allowed(p, r)
    ensures Possible(p, events)
    ensures var s := After(p, events);
      && s.clientCounter == 2 && s.pending == [] && s.phases == map[1 := Established([r], [1])]
      && s.registry == R.RegisterTunnel(R.AcceptClient(R.EMPTY, 1), 1, r)
  {
    events := FirstJoins(p);
    var before := After(p, events).registry;
    OneTunnel(before, 1, r);
    assert AssignedIds(before, [r]) == [1];
    Then(p, events, HelloRead(1, [r]));
    events := events + [HelloRead(1, [r])];
    Then(p, events, Reply(1, true));
    events := events + [Reply(1, true)];
  }

  lemma OneTunnel(s: R.State, c: nat, r: RemoteRequest)
    requires c in s.clients
    ensures R.RegisterTunnels(s, c, [r]) == R.RegisterTunnel(s, c, r)
  {
    assert [r][..0] == [];
    assert R.RegisterTunnels(s, c, []) == s;
  }

  lemma SecondJoins(p: Policy, r: RemoteRequest) returns (events: seq<Event>)
    requires Allowed(p, r)
    ensures Possible(p, events)
    ensures var s := After(p, events);
      && s.pending == [] && s.phases == map[1 := Established([r], [1]), 2 := Connected]
      && s.registry == R.AcceptClient(R.RegisterTunnel(R.AcceptClient(R.EMPTY, 1), 1, r), 2)
  {
    events := FirstSession(p, r);
    Then(p, events, Accept(2));
    events := events + [Accept(2)];
  }

  lemma BothSessions(p: Policy, r: RemoteRequest) returns (events: seq<Event>)
    requires Allowed(p, r)
    ensures Possible(p, events) && TwoSessions(After(p, events), r)
  {
    events := SecondJoins(p, r);
    var before := After(p, events).registry;
    assert R.RegisterTunnels(before, 2, []) == before && AssignedIds(before, []) == [];
    Then(p, events, HelloRead(2, []));
    events := events + [HelloRead(2, [])];
    Then(p, events, Reply(2, true));
    events := events + [Reply(2, true)];
  }

  lemma OtherOpens(p: Policy, s: Server, r: RemoteRequest, o: OpenConn)
    requires TwoSessions(s, r) && r.direction.Forward? && ListenerOpens(r.kind, 1, o)
    ensures Enabled(p, s, OpenRead(2, o))
    ensures var s' := Do(p, s, OpenRead(2, o));
      && s'.registry == s.registry && s'.phases == s.phases && |s'.pending| == 1 && s'.pending[0].open == o
  {
    ServerResolves(r.direction, r.kind, o.dynamic);
  }

  /** It can be another client's: for every forward declaration that the policy allows there is a run
      in which a client without any tunnel opens a conn on the one that another client declared. */
  lemma OpensOtherTunnel(p: Policy, r: RemoteRequest, o: OpenConn) returns (events: seq<Event>)
    requires Allowed(p, r) && r.direction.Forward? && ListenerOpens(r.kind, 1, o)
    ensures Possible(p, events) && OpenRead(2, o) in events
    ensures var s := After(p, events);
      && s.phases == map[1 := Established([r], [1]), 2 := Established([], [])]
      && 1 in s.registry.connArena && s.registry.connArena[1].tunnelId == 1
      && 1 in s.registry.tunnelArena && s.registry.tunnelArena[1].clientId == 1
  {
    events := BothSessions(p, r);
    OtherOpens(p, After(p, events), r, o);
    Then(p, events, OpenRead(2, o));
    events := events + [OpenRead(2, o)];
    Then(p, events, Start(0));
    events := events + [Start(0)];
  }
}

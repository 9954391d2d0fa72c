/** The server's registry of clients, tunnels and conns, on values: what each operation does to
    it, the invariant that every run keeps, and the conservation of byte counts.

    Entries that the program shares by reference counting live in two arenas, where an entry
    stays as long as anyone may hold it; the maps of the program are sets of ids into them. */
module Registry {
  import opened Basics
  import opened Remote
  import opened Sums
  import opened Counters

  const HISTORY_CAPACITY: nat := 256

  datatype TunnelEntry = TunnelEntry(
    id: nat, clientId: nat, direction: Direction, kind: RemoteKind,
    conns: set<nat>, cumulative: Traffic, totalConns: nat)

  /** `guarded` says that the conn's drop-guard is alive. */
  datatype ConnEntry = ConnEntry(id: nat, tunnelId: nat, counters: Traffic, guarded: bool)

  datatype HistoryEntry = HistoryEntry(clientId: nat, reason: string, traffic: Traffic, totalConns: nat)

  /** `joined` holds every client id that was ever registered, `disconnects` every history entry
      that was ever made. */
  datatype State = State(
    joined: set<nat>,
    nextTunnelId: nat,
    nextConnId: nat,
    clients: map<nat, set<nat>>,
    tunnels: set<nat>,
    conns: set<nat>,
    tunnelArena: map<nat, TunnelEntry>,
    connArena: map<nat, ConnEntry>,
    history: seq<HistoryEntry>,
    disconnects: seq<HistoryEntry>)
  {
    predicate Guarded(c: nat) {
      c in connArena && connArena[c].guarded
    }
  }

  const EMPTY := State({}, 0, 0, map[], {}, {}, map[], map[], [], [])

  // ---------------------------------------------------------------------------
  // Totals
  // ---------------------------------------------------------------------------

  function AllWeight(t: nat, f: Flow): ConnEntry -> nat {
    (c: ConnEntry) => if c.tunnelId == t then c.counters.Of(f) else 0
  }

  function LiveWeight(t: nat, f: Flow): ConnEntry -> nat {
    (c: ConnEntry) => if c.tunnelId == t && c.guarded then c.counters.Of(f) else 0
  }

  function ClosedWeight(t: nat, f: Flow): ConnEntry -> nat {
    (c: ConnEntry) => if c.tunnelId == t && !c.guarded then c.counters.Of(f) else 0
  }

  function CountWeight(t: nat): ConnEntry -> nat {
    (c: ConnEntry) => if c.tunnelId == t then 1 else 0
  }

  function ListedWeight(ids: set<nat>, f: Flow): ConnEntry -> nat {
    (c: ConnEntry) => if c.id in ids then c.counters.Of(f) else 0
  }

  /** All bytes ever counted on the conns of a tunnel, closed ones included. */
  function EverCounted(s: State, t: nat, f: Flow): nat {
    MapSum(s.connArena, s.nextConnId, AllWeight(t, f))
  }

  /** What `TunnelEntry::totals` adds up as active: the counters of the conns listed. */
  function ActiveIn(s: State, ids: set<nat>): Traffic {
    Traffic(MapSum(s.connArena, s.nextConnId, ListedWeight(ids, In)),
            MapSum(s.connArena, s.nextConnId, ListedWeight(ids, Out)))
  }

  datatype Totals = Totals(active: Traffic, cumulative: Traffic, activeConns: nat, totalConns: nat) {
    function Plus(t: Totals): Totals {
      Totals(active.Plus(t.active), cumulative.Plus(t.cumulative),
             activeConns + t.activeConns, totalConns + t.totalConns)
    }

    function Traffic(): Traffic {
      active.Plus(cumulative)
    }
  }

  const NO_TOTALS := Totals(NOTHING, NOTHING, 0, 0)

  /** `TunnelEntry::totals` */
  function TunnelTotals(s: State, e: TunnelEntry): Totals {
    Totals(ActiveIn(s, e.conns), e.cumulative, |e.conns|, e.totalConns)
  }

  /** `ClientEntry::totals`: the totals of the first `n` tunnels that are in `ids`, added up. */
  function ClientTotalsUpTo(s: State, ids: set<nat>, n: nat): Totals {
    if n == 0 then NO_TOTALS
    else
      var rest := ClientTotalsUpTo(s, ids, n - 1);
      if n in ids && n in s.tunnelArena then rest.Plus(TunnelTotals(s, s.tunnelArena[n])) else rest
  }

  function ClientTotals(s: State, ids: set<nat>): Totals {
    ClientTotalsUpTo(s, ids, s.nextTunnelId)
  }

  // ---------------------------------------------------------------------------
  // Operations
  // ---------------------------------------------------------------------------

  /** `register_client`: a client with no tunnels yet. */
  function AcceptClient(s: State, id: nat): State {
    s.(joined := s.joined + {id}, clients := s.clients[id := {}])
  }

  function RegisterTunnel(s: State, client: nat, r: RemoteRequest): State
    requires client in s.clients
  {
    var id := s.nextTunnelId + 1;
    s.(nextTunnelId := id,
       tunnelArena := s.tunnelArena[id := TunnelEntry(id, client, r.direction, r.kind, {}, NOTHING, 0)],
       clients := s.clients[client := s.clients[client] + {id}],
       tunnels := s.tunnels + {id})
  }

  /** `register_tunnels`: one fresh tunnel per declaration, in order. */
  function RegisterTunnels(s: State, client: nat, requests: seq<RemoteRequest>): (s': State)
    requires client in s.clients
    ensures client in s'.clients
  {
    if requests == [] then s
    else RegisterTunnel(RegisterTunnels(s, client, requests[..|requests| - 1]), client, Last(requests))
  }

  /** `register_conn`: the tunnel may have been deregistered already. */
  function RegisterConn(s: State, t: nat): State
    requires t in s.tunnelArena
  {
    var id := s.nextConnId + 1;
    var e := s.tunnelArena[t];
    s.(nextConnId := id,
       connArena := s.connArena[id := ConnEntry(id, t, NOTHING, true)],
       tunnelArena := s.tunnelArena[t := e.(conns := e.conns + {id}, totalConns := e.totalConns + 1)],
       conns := s.conns + {id})
  }

  /** Bytes counted on a conn by its data-plane handler. */
  function Count(s: State, c: nat, bytes: Traffic): State
    requires s.Guarded(c)
  {
    var e := s.connArena[c];
    s.(connArena := s.connArena[c := e.(counters := e.counters.Plus(bytes))])
  }

  /** The guard is dropped: `close_conn`. */
  function CloseConn(s: State, c: nat): State
    requires s.Guarded(c) && s.connArena[c].tunnelId in s.tunnelArena
  {
    var e := s.connArena[c];
    var t := s.tunnelArena[e.tunnelId];
    s.(connArena := s.connArena[c := e.(guarded := false)],
       tunnelArena := s.tunnelArena[e.tunnelId :=
         t.(conns := t.conns - {c}, cumulative := t.cumulative.Plus(e.counters))],
       conns := s.conns - {c})
  }

  /** The last entries of a log, at most as many as the ring holds. */
  function Ring(log: seq<HistoryEntry>): seq<HistoryEntry> {
    if |log| <= HISTORY_CAPACITY then log else log[|log| - HISTORY_CAPACITY..]
  }

  /** The ring after one more disconnect: drop the oldest if full, then append. */
  function Push(ring: seq<HistoryEntry>, h: HistoryEntry): seq<HistoryEntry> {
    (if |ring| == HISTORY_CAPACITY then ring[1..] else ring) + [h]
  }

  /** The conns that the tunnels `ids` of the global index list. */
  function ConnsListedBy(s: State, ids: set<nat>): set<nat> {
    set c, t | t in ids && t in s.tunnels && t in s.tunnelArena && c in s.tunnelArena[t].conns :: c
  }

  function DisconnectEntry(s: State, client: nat, reason: string): HistoryEntry
    requires client in s.clients
  {
    var totals := ClientTotals(s, s.clients[client]);
    HistoryEntry(client, reason, totals.Traffic(), totals.totalConns)
  }

  /** `deregister_client`: an unknown id is ignored. */
  function Deregister(s: State, client: nat, reason: string): State {
    if client !in s.clients then s
    else
      var ids, h := s.clients[client], DisconnectEntry(s, client, reason);
      s.(clients := s.clients - {client},
         tunnels := s.tunnels - ids,
         conns := s.conns - ConnsListedBy(s, ids),
         history := Push(s.history, h),
         disconnects := s.disconnects + [h])
  }

  /** `history_snapshot`: the newest entries first. */
  function HistorySnapshot(s: State, limit: nat): seq<HistoryEntry> {
    var n := |s.history|;
    seq(Min(limit, n), i requires 0 <= i < Min(limit, n) => s.history[n - 1 - i])
  }

  // ---------------------------------------------------------------------------
  // Runs
  // ---------------------------------------------------------------------------

  datatype Event =
    | Accept(client: nat)
    | Declare(client: nat, requests: seq<RemoteRequest>)
    | Open(tunnel: nat)
    | Transfer(conn: nat, bytes: Traffic)
    | Drop(conn: nat)
    | Disconnect(client: nat, reason: string)

  /** What the callers guarantee: no client id is registered twice, only a registered client
      declares tunnels, a conn is opened on an existing tunnel entry, and bytes are counted and a
      guard is dropped only while the guard is alive. */
  predicate Enabled(s: State, e: Event) {
    match e
    case Accept(c) => c !in s.joined
    case Declare(c, _) => c in s.clients
    case Open(t) => t in s.tunnelArena
    case Transfer(c, _) => s.Guarded(c)
    case Drop(c) => s.Guarded(c) && s.connArena[c].tunnelId in s.tunnelArena
    case Disconnect(_, _) => true
  }

  function Apply(s: State, e: Event): State
    requires Enabled(s, e)
  {
    match e
    case Accept(c) => AcceptClient(s, c)
    case Declare(c, rs) => RegisterTunnels(s, c, rs)
    case Open(t) => RegisterConn(s, t)
    case Transfer(c, b) => Count(s, c, b)
    case Drop(c) => CloseConn(s, c)
    case Disconnect(c, reason) => Deregister(s, c, reason)
  }

  predicate Possible(events: seq<Event>)
    decreases |events|, 0
  {
    events == [] ||
    (Possible(events[..|events| - 1]) && Enabled(After(events[..|events| - 1]), Last(events)))
  }

  /** The registry after a run of events, from an empty one. */
  function After(events: seq<Event>): State
    requires Possible(events)
    decreases |events|, 1
  {
    if events == [] then EMPTY else Apply(After(events[..|events| - 1]), Last(events))
  }

  // ---------------------------------------------------------------------------
  // The invariant
  // ---------------------------------------------------------------------------

  type Tunnels = map<nat, TunnelEntry>
  type Conns = map<nat, ConnEntry>

  /** Entries sit where their id says, under the ids handed out so far. */
  ghost predicate ArenasOk(ta: Tunnels, tn: nat, ca: Conns, cn: nat) {
    && (forall t :: t in ta <==> 1 <= t <= tn)
    && (forall c :: c in ca <==> 1 <= c <= cn)
    && (forall t | t in ta :: ta[t].id == t)
    && (forall c | c in ca :: ca[c].id == c && ca[c].tunnelId in ta)
  }

  /** The global tunnel index is the disjoint union of the live clients' tunnel maps, each of
      which holds exactly the tunnels that the client declared. Client ids are not reused. */
  ghost predicate TunnelIndexOk(clients: map<nat, set<nat>>, joined: set<nat>, tunnels: set<nat>, ta: Tunnels) {
    && (forall c | c in clients :: c in joined)
    && (forall t | t in ta :: ta[t].clientId in joined)
    && (forall c, t | c in clients :: t in clients[c] <==> t in ta && ta[t].clientId == c)
    && (forall t :: t in tunnels <==> t in ta && ta[t].clientId in clients)
  }

  /** A tunnel lists exactly its guarded conns. */
  ghost predicate ConnMapsOk(ta: Tunnels, ca: Conns) {
    forall t, c | t in ta :: c in ta[t].conns <==> c in ca && ca[c].guarded && ca[c].tunnelId == t
  }

  /** The global conn index lists guarded conns only, and all of those whose tunnel is still
      registered. */
  ghost predicate ConnIndexOk(conns: set<nat>, ca: Conns, tunnels: set<nat>) {
    && (forall c | c in conns :: c in ca && ca[c].guarded)
    && (forall c | c in ca && ca[c].guarded && ca[c].tunnelId in tunnels :: c in conns)
  }

  /** The rolling totals of a tunnel are the bytes of its closed conns and the number of all. */
  ghost predicate CountersOk(e: TunnelEntry, ca: Conns, cn: nat) {
    && (forall f :: e.cumulative.Of(f) == MapSum(ca, cn, ClosedWeight(e.id, f)))
    && e.totalConns == MapSum(ca, cn, CountWeight(e.id))
  }

  ghost predicate AllCountersOk(ta: Tunnels, ca: Conns, cn: nat) {
    forall t | t in ta :: CountersOk(ta[t], ca, cn)
  }

  ghost predicate Inv(s: State) {
    && ArenasOk(s.tunnelArena, s.nextTunnelId, s.connArena, s.nextConnId)
    && TunnelIndexOk(s.clients, s.joined, s.tunnels, s.tunnelArena)
    && ConnMapsOk(s.tunnelArena, s.connArena)
    && ConnIndexOk(s.conns, s.connArena, s.tunnels)
    && AllCountersOk(s.tunnelArena, s.connArena, s.nextConnId)
    && s.history == Ring(s.disconnects)
  }

  // Each operation keeps it.

  lemma AcceptKeeps(s: State, id: nat)
    requires Inv(s) && id !in s.joined
    ensures Inv(AcceptClient(s, id))
  {
  }

  lemma NewTunnelCounters(e: TunnelEntry, ta: Tunnels, ca: Conns, cn: nat)
    requires forall c | c in ca :: ca[c].tunnelId in ta
    requires e.id !in ta && e.cumulative == NOTHING && e.totalConns == 0
    ensures CountersOk(e, ca, cn)
  {
    forall f ensures e.cumulative.Of(f) == MapSum(ca, cn, ClosedWeight(e.id, f)) {
      MapSumZero(ca, cn, ClosedWeight(e.id, f));
    }
    MapSumZero(ca, cn, CountWeight(e.id));
  }

  lemma NewTunnelIndex(
      clients: map<nat, set<nat>>, joined: set<nat>, tunnels: set<nat>, ta: Tunnels, e: TunnelEntry)
    requires TunnelIndexOk(clients, joined, tunnels, ta)
    requires e.id !in ta && e.clientId in clients
    ensures TunnelIndexOk(clients[e.clientId := clients[e.clientId] + {e.id}], joined,
                          tunnels + {e.id}, ta[e.id := e])
  {
  }

  lemma NewTunnelConns(conns: set<nat>, ca: Conns, ta: Tunnels, tunnels: set<nat>, id: nat)
    requires ConnIndexOk(conns, ca, tunnels) && id !in ta
    requires forall c | c in ca :: ca[c].tunnelId in ta
    ensures ConnIndexOk(conns, ca, tunnels + {id})
  {
  }

  lemma NewTunnelAllCounters(ta: Tunnels, ca: Conns, cn: nat, e: TunnelEntry)
    requires AllCountersOk(ta, ca, cn) && (forall c | c in ca :: ca[c].tunnelId in ta)
    requires e.id !in ta && e.cumulative == NOTHING && e.totalConns == 0
    ensures AllCountersOk(ta[e.id := e], ca, cn)
  {
    NewTunnelCounters(e, ta, ca, cn);
  }

  lemma NewTunnelMaps(ta: Tunnels, ca: Conns, e: TunnelEntry)
    requires ConnMapsOk(ta, ca) && (forall c | c in ca :: ca[c].tunnelId in ta)
    requires e.id !in ta && e.conns == {}
    ensures ConnMapsOk(ta[e.id := e], ca)
  {
  }

  /** The parts of the invariant that are about conns. */
  lemma RegisterTunnelConns(s: State, client: nat, r: RemoteRequest)
    requires ConnMapsOk(s.tunnelArena, s.connArena) && ConnIndexOk(s.conns, s.connArena, s.tunnels)
    requires client in s.clients && s.nextTunnelId + 1 !in s.tunnelArena
    requires forall c | c in s.connArena :: s.connArena[c].tunnelId in s.tunnelArena
    ensures var s' := RegisterTunnel(s, client, r);
      ConnMapsOk(s'.tunnelArena, s'.connArena) && ConnIndexOk(s'.conns, s'.connArena, s'.tunnels)
  {
    var e := TunnelEntry(s.nextTunnelId + 1, client, r.direction, r.kind, {}, NOTHING, 0);
    NewTunnelMaps(s.tunnelArena, s.connArena, e);
    NewTunnelConns(s.conns, s.connArena, s.tunnelArena, s.tunnels, e.id);
  }

  lemma RegisterTunnelCounters(s: State, client: nat, r: RemoteRequest)
    requires AllCountersOk(s.tunnelArena, s.connArena, s.nextConnId)
    requires client in s.clients && s.nextTunnelId + 1 !in s.tunnelArena
    requires forall c | c in s.connArena :: s.connArena[c].tunnelId in s.tunnelArena
    ensures var s' := RegisterTunnel(s, client, r); AllCountersOk(s'.tunnelArena, s'.connArena, s'.nextConnId)
  {
    var e := TunnelEntry(s.nextTunnelId + 1, client, r.direction, r.kind, {}, NOTHING, 0);
    NewTunnelAllCounters(s.tunnelArena, s.connArena, s.nextConnId, e);
  }

  lemma RegisterTunnelIndex(s: State, client: nat, r: RemoteRequest)
    requires TunnelIndexOk(s.clients, s.joined, s.tunnels, s.tunnelArena)
    requires client in s.clients && s.nextTunnelId + 1 !in s.tunnelArena
    ensures var s' := RegisterTunnel(s, client, r);
      TunnelIndexOk(s'.clients, s'.joined, s'.tunnels, s'.tunnelArena)
  {
    var e := TunnelEntry(s.nextTunnelId + 1, client, r.direction, r.kind, {}, NOTHING, 0);
    NewTunnelIndex(s.clients, s.joined, s.tunnels, s.tunnelArena, e);
  }

  lemma RegisterTunnelArenas(s: State, client: nat, r: RemoteRequest)
    requires ArenasOk(s.tunnelArena, s.nextTunnelId, s.connArena, s.nextConnId) && client in s.clients
    ensures var s' := RegisterTunnel(s, client, r);
      ArenasOk(s'.tunnelArena, s'.nextTunnelId, s'.connArena, s'.nextConnId)
  {
  }

  lemma RegisterTunnelKeeps(s: State, client: nat, r: RemoteRequest)
    requires Inv(s) && client in s.clients
    ensures Inv(RegisterTunnel(s, client, r))
  {
    RegisterTunnelArenas(s, client, r);
    RegisterTunnelIndex(s, client, r);
    RegisterTunnelConns(s, client, r);
    RegisterTunnelCounters(s, client, r);
  }

  lemma {:induction false} RegisterTunnelsKeeps(s: State, client: nat, rs: seq<RemoteRequest>)
    requires Inv(s) && client in s.clients
    ensures Inv(RegisterTunnels(s, client, rs))
  {
    if rs != [] {
      RegisterTunnelsKeeps(s, client, rs[..|rs| - 1]);
      RegisterTunnelKeeps(RegisterTunnels(s, client, rs[..|rs| - 1]), client, Last(rs));
    }
  }

  /** Changing a tunnel entry's conns and counters does not touch the tunnel index. */
  lemma SameTunnelIndex(
      clients: map<nat, set<nat>>, joined: set<nat>, tunnels: set<nat>, ta: Tunnels, t: nat, e: TunnelEntry)
    requires TunnelIndexOk(clients, joined, tunnels, ta)
    requires t in ta && e.clientId == ta[t].clientId
    ensures TunnelIndexOk(clients, joined, tunnels, ta[t := e])
  {
  }

  lemma NewConnMaps(ta: Tunnels, ca: Conns, t: nat, e: TunnelEntry, c: ConnEntry)
    requires ConnMapsOk(ta, ca) && t in ta && c.id !in ca
    requires c.tunnelId == t && c.guarded && e.conns == ta[t].conns + {c.id}
    ensures ConnMapsOk(ta[t := e], ca[c.id := c])
  {
  }

  lemma NewConnIndex(conns: set<nat>, ca: Conns, tunnels: set<nat>, c: ConnEntry)
    requires ConnIndexOk(conns, ca, tunnels) && c.id !in ca && c.guarded
    ensures ConnIndexOk(conns + {c.id}, ca[c.id := c], tunnels)
  {
  }

  lemma NewConnCounters(e: TunnelEntry, ca: Conns, cn: nat, c: ConnEntry, e': TunnelEntry)
    requires CountersOk(e, ca, cn) && c.counters == NOTHING && c.guarded
    requires e'.id == e.id && e'.cumulative == e.cumulative
    requires e'.totalConns == e.totalConns + if c.tunnelId == e.id then 1 else 0
    ensures CountersOk(e', ca[cn + 1 := c], cn + 1)
  {
    forall f ensures e'.cumulative.Of(f) == MapSum(ca[cn + 1 := c], cn + 1, ClosedWeight(e'.id, f)) {
      MapSumInsert(ca, cn, c, ClosedWeight(e'.id, f));
    }
    MapSumInsert(ca, cn, c, CountWeight(e'.id));
  }

  lemma NewConnAllCounters(ta: Tunnels, ca: Conns, cn: nat, c: ConnEntry, e: TunnelEntry)
    requires AllCountersOk(ta, ca, cn) && (forall t | t in ta :: ta[t].id == t)
    requires c.tunnelId in ta && c.counters == NOTHING && c.guarded
    requires e.id == c.tunnelId && e.cumulative == ta[e.id].cumulative
    requires e.totalConns == ta[e.id].totalConns + 1
    ensures AllCountersOk(ta[e.id := e], ca[cn + 1 := c], cn + 1)
  {
    var ta' := ta[e.id := e];
    forall t | t in ta' ensures CountersOk(ta'[t], ca[cn + 1 := c], cn + 1) {
      NewConnCounters(ta[t], ca, cn, c, ta'[t]);
    }
  }

  lemma RegisterConnArenas(s: State, t: nat)
    requires ArenasOk(s.tunnelArena, s.nextTunnelId, s.connArena, s.nextConnId) && t in s.tunnelArena
    ensures var s' := RegisterConn(s, t);
      ArenasOk(s'.tunnelArena, s'.nextTunnelId, s'.connArena, s'.nextConnId)
  {
  }

  lemma RegisterConnMaps(s: State, t: nat)
    requires ConnMapsOk(s.tunnelArena, s.connArena) && ConnIndexOk(s.conns, s.connArena, s.tunnels)
    requires t in s.tunnelArena && s.nextConnId + 1 !in s.connArena
    ensures var s' := RegisterConn(s, t);
      ConnMapsOk(s'.tunnelArena, s'.connArena) && ConnIndexOk(s'.conns, s'.connArena, s'.tunnels)
  {
    var s' := RegisterConn(s, t);
    var c := s'.connArena[s'.nextConnId];
    NewConnMaps(s.tunnelArena, s.connArena, t, s'.tunnelArena[t], c);
    NewConnIndex(s.conns, s.connArena, s.tunnels, c);
  }

  lemma RegisterConnCounters(s: State, t: nat)
    requires AllCountersOk(s.tunnelArena, s.connArena, s.nextConnId) && t in s.tunnelArena
    requires forall k | k in s.tunnelArena :: s.tunnelArena[k].id == k
    ensures var s' := RegisterConn(s, t); AllCountersOk(s'.tunnelArena, s'.connArena, s'.nextConnId)
  {
    var s' := RegisterConn(s, t);
    NewConnAllCounters(s.tunnelArena, s.connArena, s.nextConnId, s'.connArena[s'.nextConnId], s'.tunnelArena[t]);
  }

  lemma RegisterConnKeeps(s: State, t: nat)
    requires Inv(s) && t in s.tunnelArena
    ensures Inv(RegisterConn(s, t))
  {
    RegisterConnArenas(s, t);
    RegisterConnMaps(s, t);
    RegisterConnCounters(s, t);
    SameTunnelIndex(s.clients, s.joined, s.tunnels, s.tunnelArena, t, RegisterConn(s, t).tunnelArena[t]);
  }

  lemma ChangedConnCounters(e: TunnelEntry, ca: Conns, cn: nat, c: nat, x: ConnEntry, e': TunnelEntry)
    requires CountersOk(e, ca, cn) && c in ca && 1 <= c <= cn && x.tunnelId == ca[c].tunnelId
    requires ca[c].guarded && e'.id == e.id && e'.totalConns == e.totalConns
    requires e'.cumulative == if x.tunnelId == e.id && !x.guarded then e.cumulative.Plus(x.counters) else e.cumulative
    ensures CountersOk(e', ca[c := x], cn)
  {
    forall f ensures e'.cumulative.Of(f) == MapSum(ca[c := x], cn, ClosedWeight(e'.id, f)) {
      MapSumUpdate(ca, cn, c, x, ClosedWeight(e'.id, f));
    }
    MapSumUpdate(ca, cn, c, x, CountWeight(e'.id));
  }

  lemma CountKeeps(s: State, c: nat, b: Traffic)
    requires Inv(s) && s.Guarded(c)
    ensures Inv(Count(s, c, b))
  {
    var x := s.connArena[c].(counters := s.connArena[c].counters.Plus(b));
    forall t | t in s.tunnelArena ensures CountersOk(s.tunnelArena[t], s.connArena[c := x], s.nextConnId) {
      ChangedConnCounters(s.tunnelArena[t], s.connArena, s.nextConnId, c, x, s.tunnelArena[t]);
    }
    assert ConnMapsOk(s.tunnelArena, s.connArena[c := x]);
    assert ConnIndexOk(s.conns, s.connArena[c := x], s.tunnels);
  }

  lemma ClosedConnMaps(ta: Tunnels, ca: Conns, t: nat, e: TunnelEntry, c: nat, x: ConnEntry)
    requires ConnMapsOk(ta, ca) && t in ta && c in ca && ca[c].tunnelId == t
    requires !x.guarded && e.conns == ta[t].conns - {c}
    ensures ConnMapsOk(ta[t := e], ca[c := x])
  {
  }

  lemma ClosedConnCounters(ta: Tunnels, ca: Conns, cn: nat, c: nat, x: ConnEntry, e: TunnelEntry)
    requires AllCountersOk(ta, ca, cn) && (forall t | t in ta :: ta[t].id == t)
    requires c in ca && 1 <= c <= cn && ca[c].guarded && !x.guarded && x.tunnelId == ca[c].tunnelId
    requires x.tunnelId in ta && e.id == x.tunnelId && e.totalConns == ta[e.id].totalConns
    requires e.cumulative == ta[e.id].cumulative.Plus(x.counters)
    ensures AllCountersOk(ta[e.id := e], ca[c := x], cn)
  {
    var ta' := ta[e.id := e];
    forall t | t in ta' ensures CountersOk(ta'[t], ca[c := x], cn) {
      ChangedConnCounters(ta[t], ca, cn, c, x, ta'[t]);
    }
  }

  lemma CloseArenas(s: State, c: nat)
    requires ArenasOk(s.tunnelArena, s.nextTunnelId, s.connArena, s.nextConnId) && s.Guarded(c)
    ensures var s' := CloseConn(s, c); ArenasOk(s'.tunnelArena, s'.nextTunnelId, s'.connArena, s'.nextConnId)
  {
  }

  lemma CloseMaps(s: State, c: nat)
    requires ConnMapsOk(s.tunnelArena, s.connArena) && ConnIndexOk(s.conns, s.connArena, s.tunnels)
    requires s.Guarded(c) && s.connArena[c].tunnelId in s.tunnelArena
    ensures var s' := CloseConn(s, c);
      ConnMapsOk(s'.tunnelArena, s'.connArena) && ConnIndexOk(s'.conns, s'.connArena, s'.tunnels)
  {
    var s', t := CloseConn(s, c), s.connArena[c].tunnelId;
    ClosedConnMaps(s.tunnelArena, s.connArena, t, s'.tunnelArena[t], c, s'.connArena[c]);
  }

  lemma CloseCounters(s: State, c: nat)
    requires AllCountersOk(s.tunnelArena, s.connArena, s.nextConnId) && s.Guarded(c)
    requires 1 <= c <= s.nextConnId && s.connArena[c].tunnelId in s.tunnelArena
    requires forall k | k in s.tunnelArena :: s.tunnelArena[k].id == k
    ensures var s' := CloseConn(s, c); AllCountersOk(s'.tunnelArena, s'.connArena, s'.nextConnId)
  {
    var s', t := CloseConn(s, c), s.connArena[c].tunnelId;
    ClosedConnCounters(s.tunnelArena, s.connArena, s.nextConnId, c, s'.connArena[c], s'.tunnelArena[t]);
  }

  lemma CloseKeeps(s: State, c: nat)
    requires Inv(s) && s.Guarded(c)
    ensures Inv(CloseConn(s, c))
  {
    var t := s.connArena[c].tunnelId;
    CloseArenas(s, c);
    CloseMaps(s, c);
    CloseCounters(s, c);
    SameTunnelIndex(s.clients, s.joined, s.tunnels, s.tunnelArena, t, CloseConn(s, c).tunnelArena[t]);
  }

  lemma RingPush(log: seq<HistoryEntry>, h: HistoryEntry)
    ensures Push(Ring(log), h) == Ring(log + [h])
  {
  }

  lemma RemovedClientIndex(clients: map<nat, set<nat>>, joined: set<nat>, tunnels: set<nat>, ta: Tunnels, c: nat)
    requires TunnelIndexOk(clients, joined, tunnels, ta) && c in clients
    ensures TunnelIndexOk(clients - {c}, joined, tunnels - clients[c], ta)
  {
  }

  lemma RemovedClientConns(s: State, client: nat)
    requires Inv(s) && client in s.clients
    ensures var ids := s.clients[client];
      ConnIndexOk(s.conns - ConnsListedBy(s, ids), s.connArena, s.tunnels - ids)
  {
    var ids := s.clients[client];
    forall c | c in s.connArena && s.connArena[c].guarded && s.connArena[c].tunnelId in s.tunnels - ids
      ensures c in s.conns - ConnsListedBy(s, ids)
    {
      assert c in s.conns;
      assert c !in ConnsListedBy(s, ids);
    }
  }

  lemma DeregisterKeeps(s: State, client: nat, reason: string)
    requires Inv(s)
    ensures Inv(Deregister(s, client, reason))
  {
    if client in s.clients {
      RemovedClientIndex(s.clients, s.joined, s.tunnels, s.tunnelArena, client);
      RemovedClientConns(s, client);
      RingPush(s.disconnects, DisconnectEntry(s, client, reason));
    }
  }

  lemma ApplyKeeps(s: State, e: Event)
    requires Inv(s) && Enabled(s, e)
    ensures Inv(Apply(s, e))
  {
    match e {
      case Accept(c) => AcceptKeeps(s, c);
      case Declare(c, rs) => RegisterTunnelsKeeps(s, c, rs);
      case Open(t) => RegisterConnKeeps(s, t);
      case Transfer(c, b) => CountKeeps(s, c, b);
      case Drop(c) => CloseKeeps(s, c);
      case Disconnect(c, reason) => DeregisterKeeps(s, c, reason);
    }
  }

  /** In every reachable state, for every order of registrations, transfers, drops and
      disconnects, the indices agree with each other and with the counters. */
  lemma {:induction false} ReachableInv(events: seq<Event>)
    requires Possible(events)
    ensures Inv(After(events))
  {
    if events != [] {
      ReachableInv(events[..|events| - 1]);
      ApplyKeeps(After(events[..|events| - 1]), Last(events));
    }
  }

  // ---------------------------------------------------------------------------
  // Conservation
  // ---------------------------------------------------------------------------

  lemma ListedIsLive(s: State, t: nat, f: Flow)
    requires Inv(s) && t in s.tunnelArena
    ensures MapSum(s.connArena, s.nextConnId, ListedWeight(s.tunnelArena[t].conns, f)) ==
            MapSum(s.connArena, s.nextConnId, LiveWeight(t, f))
  {
    MapSumSame(s.connArena, s.nextConnId, ListedWeight(s.tunnelArena[t].conns, f), LiveWeight(t, f));
  }

  /** For every tunnel ever created, registered or not, what was rolled into the cumulative
      counters plus what the live conns hold is all that was ever counted on its conns. */
  lemma Conservation(s: State, t: nat, f: Flow)
    requires Inv(s) && t in s.tunnelArena
    ensures var totals := TunnelTotals(s, s.tunnelArena[t]);
      totals.active.Of(f) + totals.cumulative.Of(f) == EverCounted(s, t, f)
  {
    ListedIsLive(s, t, f);
    assert CountersOk(s.tunnelArena[t], s.connArena, s.nextConnId);
    MapSumPlus(s.connArena, s.nextConnId, LiveWeight(t, f), ClosedWeight(t, f), AllWeight(t, f));
  }

  // The same against the run itself.

  /** The bytes of a flow that a run transferred on the conns of a tunnel. */
  function Transferred(events: seq<Event>, t: nat, f: Flow): nat
    requires Possible(events)
  {
    if events == [] then 0
    else
      var init, e := events[..|events| - 1], Last(events);
      Transferred(init, t, f) +
        if e.Transfer? && After(init).connArena[e.conn].tunnelId == t then e.bytes.Of(f) else 0
  }

  /** How many conns a run opened on a tunnel. */
  function OpenedOn(events: seq<Event>, t: nat): nat {
    if events == [] then 0
    else OpenedOn(events[..|events| - 1], t) + if Last(events) == Open(t) then 1 else 0
  }

  lemma {:induction false} SameConns(s: State, client: nat, rs: seq<RemoteRequest>)
    requires client in s.clients
    ensures var s' := RegisterTunnels(s, client, rs); s'.connArena == s.connArena && s'.nextConnId == s.nextConnId
  {
    if rs != [] {
      SameConns(s, client, rs[..|rs| - 1]);
    }
  }

  /** A step adds to the sum of a weight what it changes on its conn. */
  lemma StepSum(s: State, e: Event, w: ConnEntry -> nat)
    requires ArenasOk(s.tunnelArena, s.nextTunnelId, s.connArena, s.nextConnId) && Enabled(s, e)
    ensures var s' := Apply(s, e);
      var before, after := MapSum(s.connArena, s.nextConnId, w), MapSum(s'.connArena, s'.nextConnId, w);
      match e
      case Open(t) => after == before + w(ConnEntry(s.nextConnId + 1, t, NOTHING, true))
      case Transfer(c, b) =>
        var x := s.connArena[c];
        after + w(x) == before + w(x.(counters := x.counters.Plus(b)))
      case Drop(c) => after + w(s.connArena[c]) == before + w(s.connArena[c].(guarded := false))
      case _ => after == before
  {
    match e {
      case Declare(c, rs) => SameConns(s, c, rs);
      case Open(t) => MapSumInsert(s.connArena, s.nextConnId, ConnEntry(s.nextConnId + 1, t, NOTHING, true), w);
      case Transfer(c, b) =>
        MapSumUpdate(s.connArena, s.nextConnId, c, s.connArena[c].(counters := s.connArena[c].counters.Plus(b)), w);
      case Drop(c) => MapSumUpdate(s.connArena, s.nextConnId, c, s.connArena[c].(guarded := false), w);
      case _ =>
    }
  }

  lemma StepCounts(s: State, e: Event, t: nat, f: Flow)
    requires ArenasOk(s.tunnelArena, s.nextTunnelId, s.connArena, s.nextConnId) && Enabled(s, e)
    ensures EverCounted(Apply(s, e), t, f) == EverCounted(s, t, f) +
            if e.Transfer? && s.connArena[e.conn].tunnelId == t then e.bytes.Of(f) else 0
  {
    StepSum(s, e, AllWeight(t, f));
  }

  lemma StepOpens(s: State, e: Event, t: nat)
    requires ArenasOk(s.tunnelArena, s.nextTunnelId, s.connArena, s.nextConnId) && Enabled(s, e)
    ensures var s' := Apply(s, e);
      MapSum(s'.connArena, s'.nextConnId, CountWeight(t)) ==
      MapSum(s.connArena, s.nextConnId, CountWeight(t)) + if e == Open(t) then 1 else 0
  {
    StepSum(s, e, CountWeight(t));
  }

  lemma {:induction false} EverCountedIsTransferred(events: seq<Event>, t: nat, f: Flow)
    requires Possible(events)
    ensures EverCounted(After(events), t, f) == Transferred(events, t, f)
  {
    if events != [] {
      var init := events[..|events| - 1];
      EverCountedIsTransferred(init, t, f);
      ReachableInv(init);
      StepCounts(After(init), Last(events), t, f);
    }
  }

  lemma {:induction false} CountIsOpened(events: seq<Event>, t: nat)
    requires Possible(events)
    ensures MapSum(After(events).connArena, After(events).nextConnId, CountWeight(t)) == OpenedOn(events, t)
  {
    if events != [] {
      var init := events[..|events| - 1];
      CountIsOpened(init, t);
      ReachableInv(init);
      StepOpens(After(init), Last(events), t);
    }
  }

  /** What the totals of a tunnel report is what the run transferred on its conns, and its conn
      count is the number of conns the run opened on it, whatever closed or left in between. */
  lemma TotalsAreTransferred(events: seq<Event>, t: nat, f: Flow)
    requires Possible(events) && t in After(events).tunnelArena
    ensures var totals := TunnelTotals(After(events), After(events).tunnelArena[t]);
      && totals.active.Of(f) + totals.cumulative.Of(f) == Transferred(events, t, f)
      && totals.totalConns == OpenedOn(events, t)
  {
    var s := After(events);
    ReachableInv(events);
    Conservation(s, t, f);
    EverCountedIsTransferred(events, t, f);
    CountIsOpened(events, t);
    assert CountersOk(s.tunnelArena[t], s.connArena, s.nextConnId);
  }

  function LiveCountWeight(t: nat): ConnEntry -> nat {
    (c: ConnEntry) => if c.tunnelId == t && c.guarded then 1 else 0
  }

  function ClosedCountWeight(t: nat): ConnEntry -> nat {
    (c: ConnEntry) => if c.tunnelId == t && !c.guarded then 1 else 0
  }

  lemma {:induction false} CardinalityIsCount(ca: Conns, n: nat, t: nat, ids: set<nat>)
    requires forall c: nat :: c in ids <==> 1 <= c <= n && c in ca && ca[c].guarded && ca[c].tunnelId == t
    ensures |ids| == MapSum(ca, n, LiveCountWeight(t))
  {
    if n == 0 {
      assert ids == {};
    } else {
      CardinalityIsCount(ca, n - 1, t, ids - {n});
      assert n in ids ==> ids == (ids - {n}) + {n};
      assert n !in ids ==> ids == ids - {n};
    }
  }

  /** The lifetime conn count is the number of live conns plus the number of closed ones. */
  lemma ConnCount(s: State, t: nat)
    requires Inv(s) && t in s.tunnelArena
    ensures s.tunnelArena[t].totalConns ==
            |s.tunnelArena[t].conns| + MapSum(s.connArena, s.nextConnId, ClosedCountWeight(t))
  {
    var n := s.nextConnId;
    assert CountersOk(s.tunnelArena[t], s.connArena, n);
    var ids := s.tunnelArena[t].conns;
    forall c: nat
      ensures c in ids <==> 1 <= c <= n && c in s.connArena && s.connArena[c].guarded && s.connArena[c].tunnelId == t
    {
      assert c in ids <==> c in s.connArena && s.connArena[c].guarded && s.connArena[c].tunnelId == t;
    }
    CardinalityIsCount(s.connArena, n, t, ids);
    MapSumPlus(s.connArena, n, LiveCountWeight(t), ClosedCountWeight(t), CountWeight(t));
  }

  function ClientWeight(ids: set<nat>, n: nat, f: Flow): ConnEntry -> nat {
    (c: ConnEntry) => if c.tunnelId in ids && c.tunnelId <= n then c.counters.Of(f) else 0
  }

  function ClientCountWeight(ids: set<nat>, n: nat): ConnEntry -> nat {
    (c: ConnEntry) => if c.tunnelId in ids && c.tunnelId <= n then 1 else 0
  }

  lemma ClientWeightStep(ca: Conns, cn: nat, ids: set<nat>, n: nat, f: Flow)
    requires n > 0
    ensures MapSum(ca, cn, ClientWeight(ids, n, f)) ==
            MapSum(ca, cn, ClientWeight(ids, n - 1, f)) + if n in ids then MapSum(ca, cn, AllWeight(n, f)) else 0
  {
    if n in ids {
      MapSumPlus(ca, cn, ClientWeight(ids, n - 1, f), AllWeight(n, f), ClientWeight(ids, n, f));
    } else {
      MapSumSame(ca, cn, ClientWeight(ids, n - 1, f), ClientWeight(ids, n, f));
    }
  }

  lemma ClientCountStep(ca: Conns, cn: nat, ids: set<nat>, n: nat)
    requires n > 0
    ensures MapSum(ca, cn, ClientCountWeight(ids, n)) ==
            MapSum(ca, cn, ClientCountWeight(ids, n - 1)) + if n in ids then MapSum(ca, cn, CountWeight(n)) else 0
  {
    if n in ids {
      MapSumPlus(ca, cn, ClientCountWeight(ids, n - 1), CountWeight(n), ClientCountWeight(ids, n));
    } else {
      MapSumSame(ca, cn, ClientCountWeight(ids, n - 1), ClientCountWeight(ids, n));
    }
  }

  lemma TrafficPlus(a: Totals, b: Totals, f: Flow)
    ensures a.Plus(b).Traffic().Of(f) == a.Traffic().Of(f) + b.Traffic().Of(f)
  {
  }

  /** The totals of every tunnel account for all bytes ever counted on it. */
  ghost predicate Accounted(s: State, f: Flow) {
    forall t | t in s.tunnelArena :: TunnelTotals(s, s.tunnelArena[t]).Traffic().Of(f) == EverCounted(s, t, f)
  }

  lemma {:induction false} ClientTrafficUpTo(s: State, ids: set<nat>, n: nat, f: Flow)
    requires Accounted(s, f) && (forall t | 1 <= t <= n :: t in s.tunnelArena)
    requires forall c | c in s.connArena :: s.connArena[c].tunnelId != 0
    ensures ClientTotalsUpTo(s, ids, n).Traffic().Of(f) ==
            MapSum(s.connArena, s.nextConnId, ClientWeight(ids, n, f))
  {
    if n == 0 {
      MapSumZero(s.connArena, s.nextConnId, ClientWeight(ids, 0, f));
    } else {
      ClientTrafficUpTo(s, ids, n - 1, f);
      ClientWeightStep(s.connArena, s.nextConnId, ids, n, f);
      TrafficPlus(ClientTotalsUpTo(s, ids, n - 1), TunnelTotals(s, s.tunnelArena[n]), f);
      assert TunnelTotals(s, s.tunnelArena[n]).Traffic().Of(f) == EverCounted(s, n, f);
    }
  }

  lemma {:induction false} ClientCountUpTo(s: State, ids: set<nat>, n: nat)
    requires Inv(s) && n <= s.nextTunnelId
    ensures ClientTotalsUpTo(s, ids, n).totalConns ==
            MapSum(s.connArena, s.nextConnId, ClientCountWeight(ids, n))
  {
    var cn := s.nextConnId;
    if n == 0 {
      MapSumZero(s.connArena, cn, ClientCountWeight(ids, 0));
    } else {
      ClientCountUpTo(s, ids, n - 1);
      ClientCountStep(s.connArena, cn, ids, n);
      assert CountersOk(s.tunnelArena[n], s.connArena, cn);
    }
  }

  /** All bytes ever counted on the conns of a client's tunnels. */
  function ClientWeightOf(ta: Tunnels, client: nat, f: Flow): ConnEntry -> nat {
    (c: ConnEntry) => if c.tunnelId in ta && ta[c.tunnelId].clientId == client then c.counters.Of(f) else 0
  }

  function ClientCountOf(ta: Tunnels, client: nat): ConnEntry -> nat {
    (c: ConnEntry) => if c.tunnelId in ta && ta[c.tunnelId].clientId == client then 1 else 0
  }

  /** A history entry records everything that was ever counted on the client's conns, whether
      closed or not, and every conn that it ever had. */
  lemma DisconnectRecordsAll(s: State, client: nat, reason: string)
    requires Inv(s) && client in s.clients
    ensures var h := DisconnectEntry(s, client, reason);
      && h.clientId == client && h.reason == reason
      && (forall f :: h.traffic.Of(f) ==
                      MapSum(s.connArena, s.nextConnId, ClientWeightOf(s.tunnelArena, client, f)))
      && h.totalConns == MapSum(s.connArena, s.nextConnId, ClientCountOf(s.tunnelArena, client))
  {
    var ids, tn, cn := s.clients[client], s.nextTunnelId, s.nextConnId;
    forall f
      ensures DisconnectEntry(s, client, reason).traffic.Of(f) ==
              MapSum(s.connArena, cn, ClientWeightOf(s.tunnelArena, client, f))
    {
      AllAccounted(s, f);
      ClientTrafficUpTo(s, ids, tn, f);
      ClientWeightsSame(s, client, f);
    }
    ClientCountUpTo(s, ids, tn);
    ClientWeightsSame(s, client, In);
  }

  lemma AllAccounted(s: State, f: Flow)
    requires Inv(s)
    ensures Accounted(s, f)
  {
    forall t | t in s.tunnelArena
      ensures TunnelTotals(s, s.tunnelArena[t]).Traffic().Of(f) == EverCounted(s, t, f)
    {
      Conservation(s, t, f);
    }
  }

  /** A client's tunnel map holds the tunnels with its id. */
  lemma ClientWeightsSame(s: State, client: nat, f: Flow)
    requires Inv(s) && client in s.clients
    ensures var ids, tn, cn := s.clients[client], s.nextTunnelId, s.nextConnId;
      && MapSum(s.connArena, cn, ClientWeight(ids, tn, f)) ==
         MapSum(s.connArena, cn, ClientWeightOf(s.tunnelArena, client, f))
      && MapSum(s.connArena, cn, ClientCountWeight(ids, tn)) ==
         MapSum(s.connArena, cn, ClientCountOf(s.tunnelArena, client))
  {
    var ids, tn, cn := s.clients[client], s.nextTunnelId, s.nextConnId;
    MapSumSame(s.connArena, cn, ClientWeight(ids, tn, f), ClientWeightOf(s.tunnelArena, client, f));
    MapSumSame(s.connArena, cn, ClientCountWeight(ids, tn), ClientCountOf(s.tunnelArena, client));
  }

  // ---------------------------------------------------------------------------
  // Totals, one entry at a time
  // ---------------------------------------------------------------------------

  lemma ListedWeightAdd(s: State, ids: set<nat>, c: nat, f: Flow)
    requires forall k | k in s.connArena :: s.connArena[k].id == k
    requires c in s.connArena && 1 <= c <= s.nextConnId && c !in ids
    ensures MapSum(s.connArena, s.nextConnId, ListedWeight(ids + {c}, f)) ==
            MapSum(s.connArena, s.nextConnId, ListedWeight(ids, f)) + s.connArena[c].counters.Of(f)
  {
    MapSumSingle(s.connArena, s.nextConnId, c, ListedWeight({c}, f));
    MapSumPlus(s.connArena, s.nextConnId, ListedWeight(ids, f), ListedWeight({c}, f), ListedWeight(ids + {c}, f));
  }

  lemma ActiveInNone(s: State)
    ensures ActiveIn(s, {}) == NOTHING
  {
    MapSumZero(s.connArena, s.nextConnId, ListedWeight({}, In));
    MapSumZero(s.connArena, s.nextConnId, ListedWeight({}, Out));
  }

  lemma ActiveInAdd(s: State, ids: set<nat>, c: nat)
    requires forall k | k in s.connArena :: s.connArena[k].id == k
    requires c in s.connArena && 1 <= c <= s.nextConnId && c !in ids
    ensures ActiveIn(s, ids + {c}) == ActiveIn(s, ids).Plus(s.connArena[c].counters)
  {
    ListedWeightAdd(s, ids, c, In);
    ListedWeightAdd(s, ids, c, Out);
  }

  lemma ListedConnsKnown(s: State, t: nat)
    requires Inv(s) && t in s.tunnelArena
    ensures forall c | c in s.tunnelArena[t].conns :: c in s.connArena && 1 <= c <= s.nextConnId
  {
    forall c | c in s.tunnelArena[t].conns ensures c in s.connArena && 1 <= c <= s.nextConnId {
      assert ConnMapsOk(s.tunnelArena, s.connArena);
    }
  }

  lemma {:induction false} ClientTotalsNone(s: State, n: nat)
    ensures ClientTotalsUpTo(s, {}, n) == NO_TOTALS
  {
    if n > 0 {
      ClientTotalsNone(s, n - 1);
    }
  }

  lemma {:induction false} ClientTotalsSame(s: State, ids: set<nat>, ids': set<nat>, n: nat)
    requires forall t | 1 <= t <= n :: t in ids <==> t in ids'
    ensures ClientTotalsUpTo(s, ids, n) == ClientTotalsUpTo(s, ids', n)
  {
    if n > 0 {
      ClientTotalsSame(s, ids, ids', n - 1);
    }
  }

  lemma {:induction false} ClientTotalsAdd(s: State, ids: set<nat>, t: nat, n: nat)
    requires 1 <= t <= n && t in s.tunnelArena && t !in ids
    ensures ClientTotalsUpTo(s, ids + {t}, n) == ClientTotalsUpTo(s, ids, n).Plus(TunnelTotals(s, s.tunnelArena[t]))
  {
    if t == n {
      ClientTotalsSame(s, ids, ids + {t}, n - 1);
    } else {
      ClientTotalsAdd(s, ids, t, n - 1);
    }
  }

  // ---------------------------------------------------------------------------
  // Registration
  // ---------------------------------------------------------------------------

  predicate IsFresh(ta: Tunnels, id: nat, client: nat, r: RemoteRequest) {
    id in ta && ta[id] == TunnelEntry(id, client, r.direction, r.kind, {}, NOTHING, 0)
  }

  /** A hello's declarations get consecutive fresh ids in their own order, one each, equal
      declarations included, and nothing else becomes a tunnel. */
  ghost predicate InOrder(s: State, client: nat, rs: seq<RemoteRequest>, s': State)
    requires client in s.clients && client in s'.clients
  {
    && s'.nextTunnelId == s.nextTunnelId + |rs|
    && (forall i | 0 <= i < |rs| :: IsFresh(s'.tunnelArena, s.nextTunnelId + 1 + i, client, rs[i]))
    && (forall t :: t in s'.clients[client] <==>
          t in s.clients[client] || s.nextTunnelId < t <= s.nextTunnelId + |rs|)
    && (forall t :: t in s'.tunnels <==> t in s.tunnels || s.nextTunnelId < t <= s.nextTunnelId + |rs|)
    && s'.clients.Keys == s.clients.Keys
  }

  lemma InOrderStep(s: State, client: nat, rs: seq<RemoteRequest>, s': State, r: RemoteRequest)
    requires client in s.clients && client in s'.clients
    requires InOrder(s, client, rs, s')
    ensures InOrder(s, client, rs + [r], RegisterTunnel(s', client, r))
  {
    var s'' := RegisterTunnel(s', client, r);
    forall i | 0 <= i < |rs + [r]|
      ensures IsFresh(s''.tunnelArena, s.nextTunnelId + 1 + i, client, (rs + [r])[i])
    {
      assert i < |rs| ==> IsFresh(s'.tunnelArena, s.nextTunnelId + 1 + i, client, rs[i]);
    }
  }

  lemma {:induction false} RegisteredInOrder(s: State, client: nat, rs: seq<RemoteRequest>)
    requires client in s.clients
    ensures InOrder(s, client, rs, RegisterTunnels(s, client, rs))
  {
    if rs != [] {
      var init := rs[..|rs| - 1];
      RegisteredInOrder(s, client, init);
      InOrderStep(s, client, init, RegisterTunnels(s, client, init), Last(rs));
      assert init + [Last(rs)] == rs;
    }
  }

  predicate SameDeclaration(e: TunnelEntry, f: TunnelEntry) {
    e.direction == f.direction && e.kind == f.kind
  }

  /** No two tunnels of a client have the same declaration. */
  ghost predicate Deduplicated(ta: Tunnels, ids: set<nat>) {
    forall t, u | t in ids && u in ids && t in ta && u in ta && t != u :: !SameDeclaration(ta[t], ta[u])
  }

  predicate AllDifferent(rs: seq<RemoteRequest>) {
    forall i, j | 0 <= i < j < |rs| :: rs[i].direction != rs[j].direction || rs[i].kind != rs[j].kind
  }

  lemma FreshSame(ta: Tunnels, n: nat, client: nat, rs: seq<RemoteRequest>, i: nat, j: nat)
    requires i < |rs| && j < |rs| && (forall k | 0 <= k < |rs| :: IsFresh(ta, n + 1 + k, client, rs[k]))
    ensures n + 1 + i in ta && n + 1 + j in ta
    ensures SameDeclaration(ta[n + 1 + i], ta[n + 1 + j]) <==>
            rs[i].direction == rs[j].direction && rs[i].kind == rs[j].kind
  {
    assert IsFresh(ta, n + 1 + i, client, rs[i]) && IsFresh(ta, n + 1 + j, client, rs[j]);
  }

  lemma FreshDeduplicated(ta: Tunnels, ids: set<nat>, n: nat, client: nat, rs: seq<RemoteRequest>)
    requires forall k | 0 <= k < |rs| :: IsFresh(ta, n + 1 + k, client, rs[k])
    requires forall t :: t in ids <==> n < t <= n + |rs|
    ensures Deduplicated(ta, ids) <==> AllDifferent(rs)
  {
    if AllDifferent(rs) {
      forall t, u | t in ids && u in ids && t in ta && u in ta && t != u ensures !SameDeclaration(ta[t], ta[u]) {
        FreshSame(ta, n, client, rs, t - n - 1, u - n - 1);
      }
    } else {
      var i, j :| 0 <= i < j < |rs| && rs[i].direction == rs[j].direction && rs[i].kind == rs[j].kind;
      FreshSame(ta, n, client, rs, i, j);
      assert n + 1 + i in ids && n + 1 + j in ids;
    }
  }

  /** The tunnels of a client are deduplicated by declaration if and only if its hello was: the
      registry itself never merges equal declarations. */
  lemma DeduplicatedExactly(s: State, client: nat, rs: seq<RemoteRequest>)
    requires client in s.clients && s.clients[client] == {}
    ensures var s' := RegisterTunnels(s, client, rs);
      Deduplicated(s'.tunnelArena, s'.clients[client]) <==> AllDifferent(rs)
  {
    var s' := RegisterTunnels(s, client, rs);
    RegisteredInOrder(s, client, rs);
    FreshDeduplicated(s'.tunnelArena, s'.clients[client], s.nextTunnelId, client, rs);
  }

  lemma TwoFreshIds(s: State, client: nat, rs: seq<RemoteRequest>)
    requires client in s.clients && s.clients[client] == {} && |rs| == 2
    ensures RegisterTunnels(s, client, rs).clients[client] == {s.nextTunnelId + 1, s.nextTunnelId + 2}
  {
    RegisteredInOrder(s, client, rs);
  }

  /** A hello that says the same thing twice gets two tunnels. */
  lemma EqualDeclarationsAreKept(s: State, client: nat, rs: seq<RemoteRequest>)
    requires client in s.clients && s.clients[client] == {} && |rs| == 2 && rs[0] == rs[1]
    ensures var s' := RegisterTunnels(s, client, rs);
      && s'.clients[client] == {s.nextTunnelId + 1, s.nextTunnelId + 2}
      && !Deduplicated(s'.tunnelArena, s'.clients[client])
  {
    assert !AllDifferent(rs);
    DeduplicatedExactly(s, client, rs);
    TwoFreshIds(s, client, rs);
  }

  // ---------------------------------------------------------------------------
  // No leak, no reuse
  // ---------------------------------------------------------------------------

  /** Once every guard is dropped no conn is left in any index. */
  lemma NoLeak(s: State)
    requires Inv(s) && forall c | c in s.connArena :: !s.connArena[c].guarded
    ensures s.conns == {}
    ensures forall t | t in s.tunnelArena :: s.tunnelArena[t].conns == {}
  {
  }

  /** Deregistering a client takes exactly its conns and tunnels out of the global indices, and
      leaves every entry and counter as it was. */
  lemma DeregisterClears(s: State, client: nat, reason: string)
    requires Inv(s) && client in s.clients
    ensures var s' := Deregister(s, client, reason);
      && s'.tunnelArena == s.tunnelArena && s'.connArena == s.connArena
      && s'.clients == s.clients - {client}
      && (forall t | t in s.tunnelArena ::
            t in s'.tunnels <==> t in s.tunnels && s.tunnelArena[t].clientId != client)
      && (forall c | c in s.connArena ::
            c in s'.conns <==> c in s.conns && s.tunnelArena[s.connArena[c].tunnelId].clientId != client)
  {
    var ids := s.clients[client];
    forall c | c in s.connArena
      ensures c in s.conns - ConnsListedBy(s, ids) <==>
              c in s.conns && s.tunnelArena[s.connArena[c].tunnelId].clientId != client
    {
      if c in s.conns {
        ListedByClient(s, client, c);
      }
    }
  }

  lemma ListedByClient(s: State, client: nat, c: nat)
    requires Inv(s) && client in s.clients && c in s.connArena && c in s.conns
    ensures c in ConnsListedBy(s, s.clients[client]) <==>
            s.tunnelArena[s.connArena[c].tunnelId].clientId == client
  {
    var t := s.connArena[c].tunnelId;
    assert c in s.tunnelArena[t].conns;
  }

  /** A conn may be opened on a tunnel whose client is gone. It is listed until its guard drops,
      and then no index remembers it. */
  lemma LateConn(s: State, t: nat)
    requires ArenasOk(s.tunnelArena, s.nextTunnelId, s.connArena, s.nextConnId) && t in s.tunnelArena
    requires ConnMapsOk(s.tunnelArena, s.connArena) && ConnIndexOk(s.conns, s.connArena, s.tunnels)
    ensures var s' := RegisterConn(s, t);
      s'.nextConnId in s'.conns && s'.nextConnId in s'.tunnelArena[t].conns && s'.Guarded(s'.nextConnId)
    ensures var s'' := CloseConn(RegisterConn(s, t), s.nextConnId + 1);
      s''.conns == s.conns && s''.tunnelArena[t].conns == s.tunnelArena[t].conns && s''.tunnels == s.tunnels
  {
    var id := s.nextConnId + 1;
    assert id !in s.connArena;
    assert s.conns + {id} - {id} == s.conns;
    assert s.tunnelArena[t].conns + {id} - {id} == s.tunnelArena[t].conns;
  }

  /** What the rest of a run can do to the tunnels that exist: an id keeps its meaning for
      ever, and a new tunnel gets an id that was never used. */
  ghost predicate TunnelsExtend(ta: Tunnels, tn: nat, ta': Tunnels) {
    && (forall t | t in ta ::
          && t in ta' && ta'[t].clientId == ta[t].clientId
          && ta'[t].direction == ta[t].direction && ta'[t].kind == ta[t].kind)
    && (forall t | t in ta' && t !in ta :: t > tn)
  }

  /** The same for conns: a closed conn stays closed with its final count, and a count never
      goes down. */
  ghost predicate ConnsExtend(ca: Conns, cn: nat, ca': Conns) {
    && (forall c | c in ca ::
          && c in ca' && ca'[c].tunnelId == ca[c].tunnelId
          && (!ca[c].guarded ==> ca'[c] == ca[c])
          && ca[c].counters.bytesIn <= ca'[c].counters.bytesIn
          && ca[c].counters.bytesOut <= ca'[c].counters.bytesOut)
    && (forall c | c in ca' && c !in ca :: c > cn)
  }

  ghost predicate Extends(s: State, s': State) {
    && s.joined <= s'.joined && s.nextTunnelId <= s'.nextTunnelId
    && s.nextConnId <= s'.nextConnId
    && (forall c | c in s'.clients && c !in s.clients :: c !in s.joined)
    && TunnelsExtend(s.tunnelArena, s.nextTunnelId, s'.tunnelArena)
    && ConnsExtend(s.connArena, s.nextConnId, s'.connArena)
    && s.disconnects <= s'.disconnects
  }

  lemma ExtendsTransitive(s: State, s': State, s'': State)
    requires Extends(s, s') && Extends(s', s'')
    ensures Extends(s, s'')
  {
  }

  lemma {:induction false} DeclareExtends(s: State, client: nat, rs: seq<RemoteRequest>)
    requires Inv(s) && client in s.clients
    ensures Extends(s, RegisterTunnels(s, client, rs))
  {
    if rs != [] {
      var s1 := RegisterTunnels(s, client, rs[..|rs| - 1]);
      DeclareExtends(s, client, rs[..|rs| - 1]);
      RegisterTunnelsKeeps(s, client, rs[..|rs| - 1]);
      TunnelExtends(s1, client, Last(rs));
      ExtendsTransitive(s, s1, RegisterTunnel(s1, client, Last(rs)));
    }
  }

  lemma TunnelExtends(s: State, client: nat, r: RemoteRequest)
    requires ArenasOk(s.tunnelArena, s.nextTunnelId, s.connArena, s.nextConnId) && client in s.clients
    ensures Extends(s, RegisterTunnel(s, client, r))
  {
    assert s.nextTunnelId + 1 !in s.tunnelArena;
  }

  lemma OpenExtends(s: State, t: nat)
    requires ArenasOk(s.tunnelArena, s.nextTunnelId, s.connArena, s.nextConnId) && t in s.tunnelArena
    ensures Extends(s, RegisterConn(s, t))
  {
    assert s.nextConnId + 1 !in s.connArena;
  }

  lemma TransferExtends(s: State, c: nat, b: Traffic)
    requires s.Guarded(c)
    ensures Extends(s, Count(s, c, b))
  {
  }

  lemma DropExtends(s: State, c: nat)
    requires s.Guarded(c) && s.connArena[c].tunnelId in s.tunnelArena
    ensures Extends(s, CloseConn(s, c))
  {
  }

  lemma StepExtends(s: State, e: Event)
    requires Inv(s) && Enabled(s, e)
    ensures Extends(s, Apply(s, e))
  {
    match e {
      case Declare(c, rs) => DeclareExtends(s, c, rs);
      case Open(t) => OpenExtends(s, t);
      case Transfer(c, b) => TransferExtends(s, c, b);
      case Drop(c) => DropExtends(s, c);
      case _ =>
    }
  }

  lemma {:induction false} RunExtends(events: seq<Event>, n: nat)
    requires Possible(events) && n <= |events|
    ensures Possible(events[..n]) && Extends(After(events[..n]), After(events))
  {
    if n == |events| {
      assert events[..n] == events;
    } else {
      var init := events[..|events| - 1];
      RunExtends(init, n);
      assert init[..n] == events[..n];
      ReachableInv(init);
      StepExtends(After(init), Last(events));
      ExtendsTransitive(After(events[..n]), After(init), After(events));
    }
  }

  // ---------------------------------------------------------------------------
  // History
  // ---------------------------------------------------------------------------

  /** Snapshots return the newest disconnects first, at most as many as asked for and as the
      ring holds. */
  lemma SnapshotIsNewestFirst(s: State, limit: nat)
    requires Inv(s)
    ensures |HistorySnapshot(s, limit)| == Min(limit, Min(256, |s.disconnects|))
    ensures forall i | 0 <= i < |HistorySnapshot(s, limit)| ::
              HistorySnapshot(s, limit)[i] == s.disconnects[|s.disconnects| - 1 - i]
  {
  }

  /** The entry that event `k` of a run adds to the history, if it adds one. */
  ghost predicate Recorded(events: seq<Event>, k: nat, h: HistoryEntry)
    requires Possible(events) && k < |events|
  {
    && Possible(events[..k])
    && events[k].Disconnect?
    && events[k].client in After(events[..k]).clients
    && h == DisconnectEntry(After(events[..k]), events[k].client, events[k].reason)
  }

  /** Every entry of the history was recorded by a disconnect of the run, from the state that
      it happened in. */
  lemma {:induction false} HistoryIsFaithful(events: seq<Event>, i: nat)
    requires Possible(events) && i < |After(events).disconnects|
    ensures exists k | 0 <= k < |events| :: Recorded(events, k, After(events).disconnects[i])
  {
    var init := events[..|events| - 1];
    if i < |After(init).disconnects| {
      HistoryIsFaithful(init, i);
      var k :| 0 <= k < |init| && Recorded(init, k, After(init).disconnects[i]);
      assert init[..k] == events[..k] && init[k] == events[k];
      ReachableInv(init);
      StepExtends(After(init), Last(events));
      assert Recorded(events, k, After(events).disconnects[i]);
    } else {
      LastStepRecords(events);
      assert Recorded(events, |events| - 1, After(events).disconnects[i]);
    }
  }

  lemma {:induction false} SameDisconnects(s: State, client: nat, rs: seq<RemoteRequest>)
    requires client in s.clients
    ensures RegisterTunnels(s, client, rs).disconnects == s.disconnects
  {
    if rs != [] {
      SameDisconnects(s, client, rs[..|rs| - 1]);
    }
  }

  lemma LastStepRecords(events: seq<Event>)
    requires Possible(events) && events != []
    requires |After(events[..|events| - 1]).disconnects| < |After(events).disconnects|
    ensures Recorded(events, |events| - 1, Last(After(events).disconnects))
    ensures |After(events).disconnects| == |After(events[..|events| - 1]).disconnects| + 1
  {
    var s, e := After(events[..|events| - 1]), Last(events);
    if e.Declare? {
      SameDisconnects(s, e.client, e.requests);
    }
  }

  // ---------------------------------------------------------------------------
  // 64-bit counters
  // ---------------------------------------------------------------------------

  const U64_LIMIT: nat := 0x1_0000_0000_0000_0000

  /** The program keeps its counters in 64 bits. None of them can wrap around as long as the
      bytes that were counted on the tunnel's conns do not reach 2^64. */
  lemma CountersDoNotWrap(s: State, t: nat, f: Flow)
    requires Inv(s) && t in s.tunnelArena && EverCounted(s, t, f) < U64_LIMIT
    ensures var totals := TunnelTotals(s, s.tunnelArena[t]);
      && totals.active.Of(f) < U64_LIMIT && totals.cumulative.Of(f) < U64_LIMIT
      && totals.active.Of(f) + totals.cumulative.Of(f) < U64_LIMIT
  {
    Conservation(s, t, f);
  }

  /** Nor can the sums over a client's tunnels, or its history entry, as long as the bytes that were
      counted on all its conns do not reach 2^64. */
  lemma ClientCountersDoNotWrap(s: State, client: nat, reason: string, f: Flow)
    requires Inv(s) && client in s.clients
    requires MapSum(s.connArena, s.nextConnId, ClientWeightOf(s.tunnelArena, client, f)) < U64_LIMIT
    ensures var totals := ClientTotals(s, s.clients[client]);
      && totals.active.Of(f) + totals.cumulative.Of(f) < U64_LIMIT
      && DisconnectEntry(s, client, reason).traffic.Of(f) < U64_LIMIT
    ensures forall n: nat | n <= s.nextTunnelId ::
      var sum := ClientTotalsUpTo(s, s.clients[client], n);
      sum.active.Of(f) < U64_LIMIT && sum.cumulative.Of(f) < U64_LIMIT
  {
    DisconnectRecordsAll(s, client, reason);
    forall n: nat | n <= s.nextTunnelId
      ensures var sum := ClientTotalsUpTo(s, s.clients[client], n);
        sum.active.Of(f) < U64_LIMIT && sum.cumulative.Of(f) < U64_LIMIT
    {
      PartialSums(s, s.clients[client], n, s.nextTunnelId, f);
    }
  }

  /** What the loop over a client's tunnels has added up never goes down. */
  lemma {:induction false} PartialSums(s: State, ids: set<nat>, n: nat, m: nat, f: Flow)
    requires n <= m
    ensures var a, b := ClientTotalsUpTo(s, ids, n), ClientTotalsUpTo(s, ids, m);
      a.active.Of(f) <= b.active.Of(f) && a.cumulative.Of(f) <= b.cumulative.Of(f)
  {
    if n < m {
      PartialSums(s, ids, n, m - 1, f);
    }
  }
}

/** The registry against the run itself: which conns and tunnels there are, what they hold and what
    the totals report is determined by the events alone, with no look at the registry's state. */
module RegistryRuns {
  import opened Basics
  import opened Remote
  import opened Sums
  import opened Counters
  import opened Registry

  // ---------------------------------------------------------------------------
  // What the events say
  // ---------------------------------------------------------------------------

  /** The tunnels on which conns were opened, in order; conn `c` is the `c`-th. */
  function Opened(events: seq<Event>): seq<nat> {
    if events == [] then []
    else Opened(events[..|events| - 1]) + if Last(events).Open? then [Last(events).tunnel] else []
  }

  /** The declarations and who made them, in order; tunnel `t` is the `t`-th. */
  function Declared(events: seq<Event>): seq<(nat, RemoteRequest)> {
    if events == [] then []
    else
      var e := Last(events);
      Declared(events[..|events| - 1]) + if e.Declare? then By(e.client, e.requests) else []
  }

  function By(client: nat, rs: seq<RemoteRequest>): seq<(nat, RemoteRequest)> {
    seq(|rs|, i requires 0 <= i < |rs| => (client, rs[i]))
  }

  /** The bytes of a flow that were counted on a conn. */
  function CountedOn(events: seq<Event>, c: nat, f: Flow): nat {
    if events == [] then 0
    else
      var e := Last(events);
      CountedOn(events[..|events| - 1], c, f) + if e.Transfer? && e.conn == c then e.bytes.Of(f) else 0
  }

  /** The clients that came and have not gone. */
  function Present(events: seq<Event>): set<nat> {
    if events == [] then {}
    else
      var init := Present(events[..|events| - 1]);
      match Last(events)
      case Accept(c) => init + {c}
      case Disconnect(c, _) => init - {c}
      case _ => init
  }

  /** How often a client that was there went. */
  function Departures(events: seq<Event>): nat {
    if events == [] then 0
    else
      var init, e := events[..|events| - 1], Last(events);
      Departures(init) + if e.Disconnect? && e.client in Present(init) then 1 else 0
  }

  // ---------------------------------------------------------------------------
  // Conns
  // ---------------------------------------------------------------------------

  /** What the run says about conn `c`. */
  ghost predicate IsConn(events: seq<Event>, c: nat, x: ConnEntry) {
    && 1 <= c <= |Opened(events)| && x.id == c && x.tunnelId == Opened(events)[c - 1]
    && (x.guarded <==> Drop(c) !in events)
    && (forall f :: x.counters.Of(f) == CountedOn(events, c, f))
  }

  ghost predicate ConnsFit(events: seq<Event>, s: State) {
    && s.nextConnId == |Opened(events)|
    && (forall c: nat :: c in s.connArena <==> 1 <= c <= |Opened(events)|)
    && (forall c | c in s.connArena :: IsConn(events, c, s.connArena[c]))
  }

  lemma {:induction false} NotYetOpened(events: seq<Event>, c: nat)
    requires Possible(events) && c > After(events).nextConnId
    ensures Drop(c) !in events && forall f :: CountedOn(events, c, f) == 0
  {
    if events != [] {
      var init, e := events[..|events| - 1], Last(events);
      ReachableInv(init);
      StepExtends(After(init), e);
      NotYetOpened(init, c);
      assert events == init + [e];
    }
  }

  lemma ConnStays(init: seq<Event>, e: Event, c: nat, x: ConnEntry)
    requires IsConn(init, c, x) && e != Drop(c) && !(e.Transfer? && e.conn == c)
    ensures IsConn(init + [e], c, x)
  {
    assert (init + [e])[..|init|] == init;
  }

  lemma ConnCounts(init: seq<Event>, c: nat, x: ConnEntry, b: Traffic)
    requires IsConn(init, c, x)
    ensures IsConn(init + [Transfer(c, b)], c, x.(counters := x.counters.Plus(b)))
  {
    assert (init + [Transfer(c, b)])[..|init|] == init;
  }

  lemma ConnCloses(init: seq<Event>, c: nat, x: ConnEntry)
    requires IsConn(init, c, x)
    ensures IsConn(init + [Drop(c)], c, x.(guarded := false))
  {
    assert (init + [Drop(c)])[..|init|] == init;
  }

  lemma ConnOpens(init: seq<Event>, t: nat)
    requires var c := |Opened(init)| + 1; Drop(c) !in init && forall f :: CountedOn(init, c, f) == 0
    ensures IsConn(init + [Open(t)], |Opened(init)| + 1, ConnEntry(|Opened(init)| + 1, t, NOTHING, true))
  {
    var events, c := init + [Open(t)], |Opened(init)| + 1;
    assert events[..|init|] == init && Opened(events) == Opened(init) + [t];
    forall f ensures CountedOn(events, c, f) == 0 {
      assert CountedOn(init, c, f) == 0;
    }
  }

  /** Each conn's entry after one more event. */
  lemma StepConn(init: seq<Event>, e: Event, s: State, c: nat)
    requires ConnsFit(init, s) && Enabled(s, e) && c in Apply(s, e).connArena
    requires var n := |Opened(init)| + 1; Drop(n) !in init && forall f :: CountedOn(init, n, f) == 0
    ensures IsConn(init + [e], c, Apply(s, e).connArena[c])
  {
    match e {
      case Declare(d, rs) => SameConns(s, d, rs);
      case Open(t) => ConnOpens(init, t);
      case Transfer(d, b) => ConnCounts(init, d, s.connArena[d], b);
      case Drop(d) => ConnCloses(init, d, s.connArena[d]);
      case _ =>
    }
    if c in s.connArena && e != Drop(c) && !(e.Transfer? && e.conn == c) {
      ConnStays(init, e, c, s.connArena[c]);
    }
  }

  lemma StepConnIds(s: State, e: Event)
    requires Enabled(s, e)
    ensures var s' := Apply(s, e);
      && s'.nextConnId == s.nextConnId + (if e.Open? then 1 else 0)
      && s'.connArena.Keys == s.connArena.Keys + if e.Open? then {s.nextConnId + 1} else {}
  {
    if e.Declare? {
      SameConns(s, e.client, e.requests);
    }
  }

  /** In every run the conns are those that were opened, in order, each on its tunnel, with exactly
      the bytes that were counted on it, and guarded exactly until its guard was dropped. */
  lemma {:induction false} ConnsAreTheRun(events: seq<Event>)
    requires Possible(events)
    ensures ConnsFit(events, After(events))
  {
    if events != [] {
      var init, e := events[..|events| - 1], Last(events);
      var s, s' := After(init), After(events);
      ConnsAreTheRun(init);
      StepConnIds(s, e);
      NotYetOpened(init, |Opened(init)| + 1);
      assert events == init + [e];
      forall c: nat ensures c in s'.connArena <==> 1 <= c <= |Opened(events)| {
        assert c in s'.connArena.Keys <==> c in s.connArena.Keys || (e.Open? && c == s.nextConnId + 1);
      }
      forall c | c in s'.connArena ensures IsConn(events, c, s'.connArena[c]) {
        StepConn(init, e, s, c);
      }
    }
  }

  // ---------------------------------------------------------------------------
  // Tunnels
  // ---------------------------------------------------------------------------

  predicate IsDeclared(ta: Tunnels, t: nat, d: (nat, RemoteRequest)) {
    && t in ta && ta[t].id == t && ta[t].clientId == d.0
    && ta[t].direction == d.1.direction && ta[t].kind == d.1.kind
  }

  ghost predicate TunnelsFit(declared: seq<(nat, RemoteRequest)>, s: State) {
    && s.nextTunnelId == |declared|
    && (forall t: nat :: t in s.tunnelArena <==> 1 <= t <= |declared|)
    && (forall t | t in s.tunnelArena :: IsDeclared(s.tunnelArena, t, declared[t - 1]))
  }

  lemma {:induction false} DeclareFits(
      declared: seq<(nat, RemoteRequest)>, s: State, client: nat, rs: seq<RemoteRequest>)
    requires TunnelsFit(declared, s) && client in s.clients
    ensures TunnelsFit(declared + By(client, rs), RegisterTunnels(s, client, rs))
  {
    if rs == [] {
      assert declared + By(client, rs) == declared;
    } else {
      var init, r := rs[..|rs| - 1], Last(rs);
      DeclareFits(declared, s, client, init);
      assert declared + By(client, rs) == declared + By(client, init) + [(client, r)];
      OneMoreFits(declared + By(client, init), RegisterTunnels(s, client, init), client, r);
    }
  }

  lemma OneMoreFits(declared: seq<(nat, RemoteRequest)>, s: State, client: nat, r: RemoteRequest)
    requires TunnelsFit(declared, s) && client in s.clients
    ensures TunnelsFit(declared + [(client, r)], RegisterTunnel(s, client, r))
  {
    var s' := RegisterTunnel(s, client, r);
    forall t | t in s'.tunnelArena
      ensures IsDeclared(s'.tunnelArena, t, (declared + [(client, r)])[t - 1])
    {
      assert t in s.tunnelArena ==> IsDeclared(s.tunnelArena, t, declared[t - 1]);
    }
  }

  lemma OtherStepFits(declared: seq<(nat, RemoteRequest)>, s: State, e: Event)
    requires TunnelsFit(declared, s) && Enabled(s, e) && !e.Declare?
    ensures TunnelsFit(declared, Apply(s, e))
  {
    var s' := Apply(s, e);
    forall t | t in s'.tunnelArena ensures IsDeclared(s'.tunnelArena, t, declared[t - 1]) {
      assert IsDeclared(s.tunnelArena, t, declared[t - 1]);
    }
  }

  /** In every run the tunnels are the declarations, in order, each with its client, direction and
      kind, whatever became of the client. */
  lemma {:induction false} TunnelsAreTheRun(events: seq<Event>)
    requires Possible(events)
    ensures TunnelsFit(Declared(events), After(events))
  {
    if events != [] {
      var init, e := events[..|events| - 1], Last(events);
      TunnelsAreTheRun(init);
      if e.Declare? {
        DeclareFits(Declared(init), After(init), e.client, e.requests);
      } else {
        OtherStepFits(Declared(init), After(init), e);
        assert Declared(events) == Declared(init);
      }
    }
  }

  // ---------------------------------------------------------------------------
  // Clients and their departures
  // ---------------------------------------------------------------------------

  lemma {:induction false} SameClientIds(s: State, client: nat, rs: seq<RemoteRequest>)
    requires client in s.clients
    ensures RegisterTunnels(s, client, rs).clients.Keys == s.clients.Keys
  {
    if rs != [] {
      SameClientIds(s, client, rs[..|rs| - 1]);
    }
  }

  lemma {:induction false} ClientsAreTheRun(events: seq<Event>)
    requires Possible(events)
    ensures After(events).clients.Keys == Present(events)
  {
    if events != [] {
      var init, e := events[..|events| - 1], Last(events);
      ClientsAreTheRun(init);
      if e.Declare? {
        SameClientIds(After(init), e.client, e.requests);
      }
    }
  }

  /** Every departure of a client that was there adds one entry to the history's log, and nothing else
      adds any. */
  lemma {:induction false} EveryDepartureIsRecorded(events: seq<Event>)
    requires Possible(events)
    ensures |After(events).disconnects| == Departures(events)
  {
    if events != [] {
      var init, e := events[..|events| - 1], Last(events);
      EveryDepartureIsRecorded(init);
      ClientsAreTheRun(init);
      assert e.Disconnect? ==> (e.client in After(init).clients.Keys <==> e.client in After(init).clients);
      if e.Declare? {
        SameDisconnects(After(init), e.client, e.requests);
      }
    }
  }

  // ---------------------------------------------------------------------------
  // Totals
  // ---------------------------------------------------------------------------

  /** A weight on the conns of a tunnel only. */
  function On(t: nat, w: ConnEntry -> nat): ConnEntry -> nat {
    (x: ConnEntry) => if x.tunnelId == t then w(x) else 0
  }

  function OpenBytes(f: Flow): ConnEntry -> nat {
    (x: ConnEntry) => if x.guarded then x.counters.Of(f) else 0
  }

  function ClosedBytes(f: Flow): ConnEntry -> nat {
    (x: ConnEntry) => if x.guarded then 0 else x.counters.Of(f)
  }

  const IS_OPEN: ConnEntry -> nat := (x: ConnEntry) => if x.guarded then 1 else 0
  const ANY: ConnEntry -> nat := (x: ConnEntry) => 1

  function SumOn(s: State, w: ConnEntry -> nat): nat {
    MapSum(s.connArena, s.nextConnId, w)
  }

  /** What the totals of a tunnel report, field by field: active is what is counted on its guarded
      conns, cumulative what was counted on its closed ones. */
  lemma TotalsByField(s: State, t: nat, f: Flow)
    requires Inv(s) && t in s.tunnelArena
    ensures var totals := TunnelTotals(s, s.tunnelArena[t]);
      && totals.active.Of(f) == SumOn(s, On(t, OpenBytes(f)))
      && totals.cumulative.Of(f) == SumOn(s, On(t, ClosedBytes(f)))
      && totals.activeConns == SumOn(s, On(t, IS_OPEN)) && totals.totalConns == SumOn(s, On(t, ANY))
  {
    var ca, n, e := s.connArena, s.nextConnId, s.tunnelArena[t];
    ListedIsLive(s, t, f);
    assert CountersOk(e, ca, n);
    MapSumSame(ca, n, LiveWeight(t, f), On(t, OpenBytes(f)));
    MapSumSame(ca, n, ClosedWeight(t, f), On(t, ClosedBytes(f)));
    MapSumSame(ca, n, CountWeight(t), On(t, ANY));
    ListedIsCounted(s, t);
    MapSumSame(ca, n, LiveCountWeight(t), On(t, IS_OPEN));
  }

  lemma ListedIsCounted(s: State, t: nat)
    requires Inv(s) && t in s.tunnelArena
    ensures |s.tunnelArena[t].conns| == MapSum(s.connArena, s.nextConnId, LiveCountWeight(t))
  {
    var ids := s.tunnelArena[t].conns;
    forall c: nat
      ensures c in ids <==>
        1 <= c <= s.nextConnId && c in s.connArena && s.connArena[c].guarded && s.connArena[c].tunnelId == t
    {
      assert c in ids <==> c in s.connArena && s.connArena[c].guarded && s.connArena[c].tunnelId == t;
    }
    CardinalityIsCount(s.connArena, s.nextConnId, t, ids);
  }

  // A client's totals add up any field.

  /** A weight on the conns of the tunnels in `ids` with numbers up to `n`. */
  function Within(ids: set<nat>, n: nat, w: ConnEntry -> nat): ConnEntry -> nat {
    (x: ConnEntry) => if x.tunnelId in ids && x.tunnelId <= n then w(x) else 0
  }

  ghost predicate Additive(g: Totals -> nat) {
    g(NO_TOTALS) == 0 && forall a: Totals, b: Totals :: g(a.Plus(b)) == g(a) + g(b)
  }

  /** Field `g` of the totals of every tunnel is the sum of `w` over its conns. */
  ghost predicate IsField(s: State, g: Totals -> nat, w: ConnEntry -> nat) {
    forall t | t in s.tunnelArena :: g(TunnelTotals(s, s.tunnelArena[t])) == SumOn(s, On(t, w))
  }

  lemma WithinStep(s: State, ids: set<nat>, n: nat, w: ConnEntry -> nat)
    requires n > 0
    ensures SumOn(s, Within(ids, n, w)) ==
            SumOn(s, Within(ids, n - 1, w)) + if n in ids then SumOn(s, On(n, w)) else 0
  {
    if n in ids {
      MapSumPlus(s.connArena, s.nextConnId, Within(ids, n - 1, w), On(n, w), Within(ids, n, w));
    } else {
      MapSumSame(s.connArena, s.nextConnId, Within(ids, n - 1, w), Within(ids, n, w));
    }
  }

  lemma {:induction false} FieldUpTo(s: State, ids: set<nat>, n: nat, g: Totals -> nat, w: ConnEntry -> nat)
    requires Additive(g) && IsField(s, g, w) && (forall t | 1 <= t <= n :: t in s.tunnelArena)
    requires forall c | c in s.connArena :: s.connArena[c].tunnelId != 0
    ensures g(ClientTotalsUpTo(s, ids, n)) == SumOn(s, Within(ids, n, w))
  {
    if n == 0 {
      MapSumZero(s.connArena, s.nextConnId, Within(ids, 0, w));
    } else {
      FieldUpTo(s, ids, n - 1, g, w);
      WithinStep(s, ids, n, w);
    }
  }

  /** A weight on the conns of a client's tunnels. */
  function Of(ta: Tunnels, client: nat, w: ConnEntry -> nat): ConnEntry -> nat {
    (x: ConnEntry) => if x.tunnelId in ta && ta[x.tunnelId].clientId == client then w(x) else 0
  }

  lemma ClientField(s: State, client: nat, g: Totals -> nat, w: ConnEntry -> nat)
    requires Inv(s) && client in s.clients && Additive(g) && IsField(s, g, w)
    ensures g(ClientTotals(s, s.clients[client])) == SumOn(s, Of(s.tunnelArena, client, w))
  {
    var ids, n := s.clients[client], s.nextTunnelId;
    FieldUpTo(s, ids, n, g, w);
    MapSumSame(s.connArena, s.nextConnId, Within(ids, n, w), Of(s.tunnelArena, client, w));
  }

  lemma FieldsAre(s: State, f: Flow)
    requires Inv(s)
    ensures IsField(s, (x: Totals) => x.active.Of(f), OpenBytes(f))
    ensures IsField(s, (x: Totals) => x.cumulative.Of(f), ClosedBytes(f))
    ensures IsField(s, (x: Totals) => x.activeConns, IS_OPEN) && IsField(s, (x: Totals) => x.totalConns, ANY)
  {
    forall t | t in s.tunnelArena
      ensures var totals := TunnelTotals(s, s.tunnelArena[t]);
        && totals.active.Of(f) == SumOn(s, On(t, OpenBytes(f)))
        && totals.cumulative.Of(f) == SumOn(s, On(t, ClosedBytes(f)))
        && totals.activeConns == SumOn(s, On(t, IS_OPEN)) && totals.totalConns == SumOn(s, On(t, ANY))
    {
      TotalsByField(s, t, f);
    }
  }

  /** The same for a client, over the conns of all its tunnels. */
  lemma ClientTotalsByField(s: State, client: nat, f: Flow)
    requires Inv(s) && client in s.clients
    ensures var totals, ta := ClientTotals(s, s.clients[client]), s.tunnelArena;
      && totals.active.Of(f) == SumOn(s, Of(ta, client, OpenBytes(f)))
      && totals.cumulative.Of(f) == SumOn(s, Of(ta, client, ClosedBytes(f)))
      && totals.activeConns == SumOn(s, Of(ta, client, IS_OPEN))
      && totals.totalConns == SumOn(s, Of(ta, client, ANY))
  {
    FieldsAre(s, f);
    ClientField(s, client, (x: Totals) => x.active.Of(f), OpenBytes(f));
    ClientField(s, client, (x: Totals) => x.cumulative.Of(f), ClosedBytes(f));
    ClientField(s, client, (x: Totals) => x.activeConns, IS_OPEN);
    ClientField(s, client, (x: Totals) => x.totalConns, ANY);
  }

  // ---------------------------------------------------------------------------
  // Totals against the run
  // ---------------------------------------------------------------------------

  /** The sum of `v` over the conns that were opened on the chosen tunnels. */
  function RunSum(order: seq<nat>, chosen: nat -> bool, v: nat -> nat): nat {
    IndexSum(|order|, ChosenValue(order, chosen, v))
  }

  function ChosenValue(order: seq<nat>, chosen: nat -> bool, v: nat -> nat): nat -> nat {
    (i: nat) => if i >= |order| then 0 else if chosen(order[i]) then v(i + 1) else 0
  }

  function Tunnel(t: nat): nat -> bool {
    (x: nat) => x == t
  }

  /** The tunnels that a client declared. */
  function DeclaredBy(events: seq<Event>, client: nat): nat -> bool {
    (x: nat) => 1 <= x <= |Declared(events)| && Declared(events)[x - 1].0 == client
  }

  function StillOpen(events: seq<Event>): nat -> nat {
    (c: nat) => if Drop(c) in events then 0 else 1
  }

  function CountedWhileOpen(events: seq<Event>, f: Flow): nat -> nat {
    (c: nat) => if Drop(c) in events then 0 else CountedOn(events, c, f)
  }

  function CountedAndClosed(events: seq<Event>, f: Flow): nat -> nat {
    (c: nat) => if Drop(c) in events then CountedOn(events, c, f) else 0
  }

  const ONE: nat -> nat := (c: nat) => 1

  lemma {:induction false} MapSumIsIndexSum<T>(m: map<nat, T>, n: nat, w: T -> nat, g: nat -> nat)
    requires forall k: nat | 1 <= k <= n :: k in m && w(m[k]) == g(k - 1)
    ensures MapSum(m, n, w) == IndexSum(n, g)
  {
    if n > 0 {
      MapSumIsIndexSum(m, n - 1, w, g);
    }
  }

  /** What totals there are, in terms of the run. */
  predicate AreTotals(events: seq<Event>, chosen: nat -> bool, totals: Totals, f: Flow) {
    && totals.active.Of(f) == RunSum(Opened(events), chosen, CountedWhileOpen(events, f))
    && totals.cumulative.Of(f) == RunSum(Opened(events), chosen, CountedAndClosed(events, f))
    && totals.activeConns == RunSum(Opened(events), chosen, StillOpen(events))
    && totals.totalConns == RunSum(Opened(events), chosen, ONE)
  }

  /** Two ways to say the same about each conn: by its entry, and by the run. */
  ghost predicate SameValue(s: State, w: ConnEntry -> nat, v: nat -> nat) {
    forall c | c in s.connArena :: w(s.connArena[c]) == v(c)
  }

  lemma ValuesAreTheRun(events: seq<Event>, s: State, f: Flow)
    requires ConnsFit(events, s)
    ensures SameValue(s, OpenBytes(f), CountedWhileOpen(events, f))
    ensures SameValue(s, ClosedBytes(f), CountedAndClosed(events, f))
    ensures SameValue(s, IS_OPEN, StillOpen(events)) && SameValue(s, ANY, ONE)
  {
    forall c | c in s.connArena
      ensures OpenBytes(f)(s.connArena[c]) == CountedWhileOpen(events, f)(c)
      ensures ClosedBytes(f)(s.connArena[c]) == CountedAndClosed(events, f)(c)
      ensures IS_OPEN(s.connArena[c]) == StillOpen(events)(c)
    {
      assert IsConn(events, c, s.connArena[c]);
    }
  }

  ghost predicate OpenedAs(s: State, order: seq<nat>) {
    s.nextConnId == |order| &&
    forall c: nat | 1 <= c <= |order| :: c in s.connArena && s.connArena[c].tunnelId == order[c - 1]
  }

  /** `u` is `w` on the conns of the chosen tunnels, and nothing on others. */
  ghost predicate Chooses(s: State, chosen: nat -> bool, u: ConnEntry -> nat, w: ConnEntry -> nat) {
    forall c | c in s.connArena ::
      u(s.connArena[c]) == if chosen(s.connArena[c].tunnelId) then w(s.connArena[c]) else 0
  }

  lemma ChosenSum(
      s: State, order: seq<nat>, chosen: nat -> bool, u: ConnEntry -> nat, w: ConnEntry -> nat, v: nat -> nat)
    requires OpenedAs(s, order) && SameValue(s, w, v) && Chooses(s, chosen, u, w)
    ensures SumOn(s, u) == RunSum(order, chosen, v)
  {
    MapSumIsIndexSum(s.connArena, s.nextConnId, u, ChosenValue(order, chosen, v));
  }

  lemma FitsOpened(events: seq<Event>, s: State)
    requires ConnsFit(events, s)
    ensures OpenedAs(s, Opened(events))
  {
    forall c: nat | 1 <= c <= |Opened(events)|
      ensures c in s.connArena && s.connArena[c].tunnelId == Opened(events)[c - 1]
    {
      assert IsConn(events, c, s.connArena[c]);
    }
  }

  lemma TunnelSum(s: State, order: seq<nat>, t: nat, w: ConnEntry -> nat, v: nat -> nat)
    requires OpenedAs(s, order) && SameValue(s, w, v)
    ensures SumOn(s, On(t, w)) == RunSum(order, Tunnel(t), v)
  {
    ChosenSum(s, order, Tunnel(t), On(t, w), w, v);
  }

  /** After every run the totals of a tunnel report as active what was counted on its conns that are
      still open, as cumulative what was counted on those whose guard was dropped, and how many
      there are of the former and of both. */
  lemma TotalsAreTheRun(events: seq<Event>, t: nat, f: Flow)
    requires Possible(events) && t in After(events).tunnelArena
    ensures AreTotals(events, Tunnel(t), TunnelTotals(After(events), After(events).tunnelArena[t]), f)
  {
    var s := After(events);
    ReachableInv(events);
    ConnsAreTheRun(events);
    TotalsByField(s, t, f);
    ValuesAreTheRun(events, s, f);
    FitsOpened(events, s);
    TunnelSum(s, Opened(events), t, OpenBytes(f), CountedWhileOpen(events, f));
    TunnelSum(s, Opened(events), t, ClosedBytes(f), CountedAndClosed(events, f));
    TunnelSum(s, Opened(events), t, IS_OPEN, StillOpen(events));
    TunnelSum(s, Opened(events), t, ANY, ONE);
  }

  lemma ClientSum(
      s: State, events: seq<Event>, client: nat, w: ConnEntry -> nat, v: nat -> nat)
    requires OpenedAs(s, Opened(events)) && TunnelsFit(Declared(events), s) && SameValue(s, w, v)
    ensures SumOn(s, Of(s.tunnelArena, client, w)) == RunSum(Opened(events), DeclaredBy(events, client), v)
  {
    var chosen := DeclaredBy(events, client);
    forall t: nat ensures t in s.tunnelArena && s.tunnelArena[t].clientId == client <==> chosen(t) {
      assert t in s.tunnelArena ==> IsDeclared(s.tunnelArena, t, Declared(events)[t - 1]);
    }
    ChosenSum(s, Opened(events), chosen, Of(s.tunnelArena, client, w), w, v);
  }

  /** The same for a client that is there, over the conns of the tunnels that it declared. */
  lemma ClientTotalsAreTheRun(events: seq<Event>, client: nat, f: Flow)
    requires Possible(events) && client in After(events).clients
    ensures AreTotals(events, DeclaredBy(events, client), ClientTotals(After(events), After(events).clients[client]), f)
  {
    var s := After(events);
    ReachableInv(events);
    ConnsAreTheRun(events);
    TunnelsAreTheRun(events);
    ClientTotalsByField(s, client, f);
    ValuesAreTheRun(events, s, f);
    FitsOpened(events, s);
    ClientSum(s, events, client, OpenBytes(f), CountedWhileOpen(events, f));
    ClientSum(s, events, client, ClosedBytes(f), CountedAndClosed(events, f));
    ClientSum(s, events, client, IS_OPEN, StillOpen(events));
    ClientSum(s, events, client, ANY, ONE);
  }
}

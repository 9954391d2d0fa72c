/** The server's registry as the object that the handlers share and update. Every method is one
    step of the `Registry` model. */
module ServerStates {
  import opened Basics
  import opened Remote
  import opened Counters
  import opened Registry

  class ServerState {
    ghost var joined: set<nat>
    var nextTunnelId: nat
    var nextConnId: nat
    /** The per-client tunnel maps. */
    var clients: map<nat, set<nat>>
    /** The two flat indices. */
    var tunnels: set<nat>
    var conns: set<nat>
    /** Every entry that was ever created and may still be shared. */
    var tunnelArena: map<nat, TunnelEntry>
    var connArena: map<nat, ConnEntry>
    var history: seq<HistoryEntry>
    ghost var disconnects: seq<HistoryEntry>

    ghost function Abs(): State
      reads this
    {
      State(joined, nextTunnelId, nextConnId, clients, tunnels, conns,
            tunnelArena, connArena, history, disconnects)
    }

    ghost predicate Valid()
      reads this
    {
      Inv(Abs())
    }

    constructor ()
      ensures Valid() && Abs() == EMPTY
    {
      joined, nextTunnelId, nextConnId := {}, 0, 0;
      clients, tunnels, conns := map[], {}, {};
      tunnelArena, connArena := map[], map[];
      history, disconnects := [], [];
    }

    method RegisterClient(id: nat)
      requires Valid() && id !in joined
      modifies this
      ensures Valid() && Abs() == AcceptClient(old(Abs()), id)
    {
      ghost var s := Abs();
      joined := joined + {id};
      clients := clients[id := {}];
      AcceptKeeps(s, id);
    }

    method RegisterTunnels(client: nat, requests: seq<RemoteRequest>) returns (ids: seq<nat>)
      requires Valid() && client in clients
      modifies this
      ensures Valid() && Abs() == Registry.RegisterTunnels(old(Abs()), client, requests)
      ensures |ids| == |requests|
      ensures forall i | 0 <= i < |ids| :: ids[i] == old(nextTunnelId) + 1 + i
    {
      ghost var s := Abs();
      ids := InsertTunnels(client, requests);
      RegisterTunnelsKeeps(s, client, requests);
    }

    method InsertTunnel(client: nat, r: RemoteRequest) returns (id: nat)
      requires client in clients
      modifies this
      ensures Abs() == RegisterTunnel(old(Abs()), client, r) && id == nextTunnelId
    {
      nextTunnelId := nextTunnelId + 1;
      id := nextTunnelId;
      tunnelArena := tunnelArena[id := TunnelEntry(id, client, r.direction, r.kind, {}, NOTHING, 0)];
      clients := clients[client := clients[client] + {id}];
      tunnels := tunnels + {id};
    }

    method InsertTunnels(client: nat, requests: seq<RemoteRequest>) returns (ids: seq<nat>)
      requires client in clients
      modifies this
      ensures Abs() == Registry.RegisterTunnels(old(Abs()), client, requests)
      ensures |ids| == |requests|
      ensures forall i | 0 <= i < |ids| :: ids[i] == old(nextTunnelId) + 1 + i
    {
      ids := [];
      ghost var s := Abs();
      for n := 0 to |requests|
        invariant Abs() == Registry.RegisterTunnels(s, client, requests[..n])
        invariant nextTunnelId == s.nextTunnelId + n && |ids| == n
        invariant forall i | 0 <= i < n :: ids[i] == s.nextTunnelId + 1 + i
      {
        assert requests[..n + 1][..n] == requests[..n];
        var id := InsertTunnel(client, requests[n]);
        ids := ids + [id];
      }
      assert requests[..|requests|] == requests;
    }

    /** The look-up by global id. */
    method Tunnel(id: nat) returns (r: Option<TunnelEntry>)
      requires Valid()
      ensures r.Some? <==> exists c :: c in clients && id in clients[c]
      ensures r.Some? ==> id in tunnelArena && r.value == tunnelArena[id] && r.value.id == id
    {
      if id in tunnels {
        assert tunnelArena[id].clientId in clients && id in clients[tunnelArena[id].clientId];
        r := Some(tunnelArena[id]);
      } else {
        r := None;
      }
    }

    method RegisterConn(t: nat) returns (id: nat)
      requires Valid() && t in tunnelArena
      modifies this
      ensures Valid() && Abs() == Registry.RegisterConn(old(Abs()), t)
      ensures id !in old(connArena) && Abs().Guarded(id)
    {
      ghost var s := Abs();
      id := InsertConn(t);
      RegisterConnKeeps(s, t);
    }

    method InsertConn(t: nat) returns (id: nat)
      requires t in tunnelArena
      modifies this
      ensures Abs() == Registry.RegisterConn(old(Abs()), t) && id == nextConnId
    {
      nextConnId := nextConnId + 1;
      id := nextConnId;
      var e := tunnelArena[t];
      connArena := connArena[id := ConnEntry(id, t, NOTHING, true)];
      tunnelArena := tunnelArena[t := e.(conns := e.conns + {id}, totalConns := e.totalConns + 1)];
      conns := conns + {id};
    }

    /** A handler adds to a conn's shared counters. */
    method AddIn(c: nat, n: nat)
      requires Valid() && Abs().Guarded(c)
      modifies this`connArena
      ensures Valid() && Abs() == Count(old(Abs()), c, Traffic(n, 0))
    {
      ghost var s := Abs();
      AddBytes(c, Traffic(n, 0));
      CountKeeps(s, c, Traffic(n, 0));
    }

    method AddOut(c: nat, n: nat)
      requires Valid() && Abs().Guarded(c)
      modifies this`connArena
      ensures Valid() && Abs() == Count(old(Abs()), c, Traffic(0, n))
    {
      ghost var s := Abs();
      AddBytes(c, Traffic(0, n));
      CountKeeps(s, c, Traffic(0, n));
    }

    method AddBytes(c: nat, bytes: Traffic)
      requires Abs().Guarded(c)
      modifies this`connArena
      ensures Abs() == Count(old(Abs()), c, bytes)
    {
      var e := connArena[c];
      connArena := connArena[c := e.(counters := e.counters.Plus(bytes))];
    }

    /** The guard of a conn is dropped. */
    method CloseConn(c: nat)
      requires Valid() && Abs().Guarded(c)
      modifies this
      ensures Valid() && Abs() == Registry.CloseConn(old(Abs()), c)
    {
      ghost var s := Abs();
      RemoveConn(c);
      CloseKeeps(s, c);
    }

    method RemoveConn(c: nat)
      requires Abs().Guarded(c) && connArena[c].tunnelId in tunnelArena
      modifies this
      ensures Abs() == Registry.CloseConn(old(Abs()), c)
    {
      var e := connArena[c];
      connArena := connArena[c := e.(guarded := false)];
      var t := tunnelArena[e.tunnelId];
      t := t.(cumulative := t.cumulative.Plus(e.counters));
      t := t.(conns := t.conns - {c});
      tunnelArena := tunnelArena[e.tunnelId := t];
      conns := conns - {c};
    }

    method TunnelTotals(t: nat) returns (r: Totals)
      requires Valid() && t in tunnelArena
      ensures r == Registry.TunnelTotals(Abs(), tunnelArena[t])
    {
      var e := tunnelArena[t];
      ListedConnsKnown(Abs(), t);
      var active := AddUp(e.conns);
      r := Totals(active, e.cumulative, |e.conns|, e.totalConns);
    }

    /** The loop over a tunnel's conns. */
    method AddUp(ids: set<nat>) returns (active: Traffic)
      requires forall c | c in ids :: c in connArena && 1 <= c <= nextConnId
      requires forall c | c in connArena :: connArena[c].id == c
      ensures active == ActiveIn(Abs(), ids)
    {
      var rest := ids;
      active := NOTHING;
      ActiveInNone(Abs());
      assert ids - rest == {};
      while rest != {}
        invariant rest <= ids
        invariant active == ActiveIn(Abs(), ids - rest)
        decreases |rest|
      {
        var c :| c in rest;
        ActiveInAdd(Abs(), ids - rest, c);
        assert ids - (rest - {c}) == (ids - rest) + {c};
        active := active.Plus(connArena[c].counters);
        rest := rest - {c};
      }
      assert ids - rest == ids;
    }

    method ClientTotals(ids: set<nat>) returns (r: Totals)
      requires Valid() && forall t | t in ids :: t in tunnelArena
      ensures r == Registry.ClientTotals(Abs(), ids)
    {
      var rest := ids;
      r := NO_TOTALS;
      ClientTotalsNone(Abs(), nextTunnelId);
      assert ids - rest == {};
      while rest != {}
        invariant rest <= ids
        invariant r == ClientTotalsUpTo(Abs(), ids - rest, nextTunnelId)
        decreases |rest|
      {
        var t :| t in rest;
        var one := TunnelTotals(t);
        ClientTotalsAdd(Abs(), ids - rest, t, nextTunnelId);
        assert ids - (rest - {t}) == (ids - rest) + {t};
        r := r.Plus(one);
        rest := rest - {t};
      }
      assert ids - rest == ids;
    }

    /** Takes the conns that a tunnel lists out of the global index. */
    method ForgetConns(t: nat)
      requires t in tunnelArena
      modifies this`conns
      ensures conns == old(conns) - tunnelArena[t].conns
    {
      var all := tunnelArena[t].conns;
      var rest := all;
      while rest != {}
        invariant rest <= all && conns == old(conns) - (all - rest)
        decreases |rest|
      {
        var c :| c in rest;
        conns := conns - {c};
        rest := rest - {c};
      }
    }

    method ForgetTunnels(ids: set<nat>)
      requires forall t | t in ids :: t in tunnelArena
      modifies this`tunnels, this`conns
      ensures tunnels == old(tunnels) - ids
      ensures conns == old(conns) - ConnsListedBy(old(Abs()), ids)
    {
      var rest := ids;
      ghost var s := Abs();
      while rest != {}
        invariant rest <= ids && tunnels == s.tunnels - (ids - rest)
        invariant conns == s.conns - ConnsListedBy(s, ids - rest)
        decreases |rest|
      {
        var t :| t in rest;
        if t in tunnels {
          tunnels := tunnels - {t};
          ForgetConns(t);
        }
        assert ids - (rest - {t}) == (ids - rest) + {t};
        rest := rest - {t};
      }
      assert ids - rest == ids;
    }

    method Remember(h: HistoryEntry)
      modifies this`history, this`disconnects
      ensures history == Push(old(history), h) && disconnects == old(disconnects) + [h]
    {
      if |history| == HISTORY_CAPACITY {
        history := history[1..];
      }
      history := history + [h];
      disconnects := disconnects + [h];
    }

    method RemoveClient(client: nat, reason: string, totals: Totals)
      requires client in clients && (forall t | t in clients[client] :: t in tunnelArena)
      requires totals == Registry.ClientTotals(Abs(), clients[client])
      modifies this
      ensures Abs() == Deregister(old(Abs()), client, reason)
    {
      var ids := clients[client];
      ForgetTunnels(ids);
      clients := clients - {client};
      Remember(HistoryEntry(client, reason, totals.active.Plus(totals.cumulative), totals.totalConns));
    }

    method DeregisterClient(client: nat, reason: string)
      requires Valid()
      modifies this
      ensures Valid() && Abs() == Deregister(old(Abs()), client, reason)
    {
      if client in clients {
        ghost var s := Abs();
        var totals := ClientTotals(clients[client]);
        RemoveClient(client, reason, totals);
        DeregisterKeeps(s, client, reason);
      }
    }

    method HistorySnapshot(limit: nat) returns (r: seq<HistoryEntry>)
      requires Valid()
      ensures |r| == Min(limit, Min(256, |disconnects|))
      ensures forall i | 0 <= i < |r| :: r[i] == disconnects[|disconnects| - 1 - i]
    {
      var take := Min(limit, |history|);
      r := [];
      while |r| < take
        invariant |r| <= take
        invariant r == Registry.HistorySnapshot(Abs(), limit)[..|r|]
      {
        r := r + [history[|history| - 1 - |r|]];
      }
      SnapshotIsNewestFirst(Abs(), limit);
    }
  }
}

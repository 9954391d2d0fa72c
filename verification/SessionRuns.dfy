/** Sessions against the run itself: the server's registry goes through a run of its own, in which
    conns are counted and dropped as the session's events say, and no accepted opener is lost or
    started twice. */
module SessionRuns {
  import opened Basics
  import opened Counters
  import opened Remote
  import opened Dispatch
  import opened Session
  import R = Registry
  import RR = RegistryRuns

  // ---------------------------------------------------------------------------
  // The registry's part of a run
  // ---------------------------------------------------------------------------

  function Part(e: Option<R.Event>): seq<R.Event> {
    match e
    case Some(r) => [r]
    case None => []
  }

  function RegistryEvents(p: Policy, events: seq<Event>): seq<R.Event>
    requires Possible(p, events)
  {
    if events == [] then []
    else
      var init := events[..|events| - 1];
      RegistryEvents(p, init) + Part(RegistryEvent(p, After(p, init), Last(events)))
  }

  lemma PartRuns(before: seq<R.Event>, e: Option<R.Event>)
    requires R.Possible(before) && (e.Some? ==> R.Enabled(R.After(before), e.value))
    ensures R.Possible(before + Part(e))
    ensures R.After(before + Part(e)) == if e.Some? then R.Apply(R.After(before), e.value) else R.After(before)
  {
    if e.Some? {
      assert (before + [e.value])[..|before|] == before;
    } else {
      assert before + [] == before;
    }
  }

  lemma {:induction false} RegistryRuns(p: Policy, events: seq<Event>)
    requires Possible(p, events)
    ensures R.Possible(RegistryEvents(p, events))
    ensures R.After(RegistryEvents(p, events)) == After(p, events).registry
  {
    if events != [] {
      var init := events[..|events| - 1];
      RegistryRuns(p, init);
      PartRuns(RegistryEvents(p, init), RegistryEvent(p, After(p, init), Last(events)));
      StepRegistry(p, After(p, init), Last(events));
    }
  }

  lemma StepRegistry(p: Policy, s: Server, e: Event)
    requires Enabled(p, s, e)
    ensures var r := RegistryEvent(p, s, e);
      && (r.Some? ==> R.Enabled(s.registry, r.value))
      && Do(p, s, e).registry == if r.Some? then R.Apply(s.registry, r.value) else s.registry
  {
  }

  /** The bytes of a flow that a run counted on a conn. */
  function CountedOn(events: seq<Event>, c: nat, f: Flow): nat {
    if events == [] then 0
    else
      var e := Last(events);
      CountedOn(events[..|events| - 1], c, f) + if e.Transfer? && e.conn == c then e.bytes.Of(f) else 0
  }

  /** How many conns a run opened: for openers that were started, and for reverse listeners. */
  function ConnsOpened(events: seq<Event>): nat {
    if events == [] then 0
    else ConnsOpened(events[..|events| - 1]) + if Last(events).Start? || Last(events).ReverseConn? then 1 else 0
  }

  lemma AppendEvent(before: seq<R.Event>, e: R.Event, c: nat, f: Flow)
    ensures RR.CountedOn(before + [e], c, f) ==
            RR.CountedOn(before, c, f) + if e.Transfer? && e.conn == c then e.bytes.Of(f) else 0
    ensures |RR.Opened(before + [e])| == |RR.Opened(before)| + if e.Open? then 1 else 0
    ensures R.Drop(c) in before + [e] <==> R.Drop(c) in before || e == R.Drop(c)
  {
    assert (before + [e])[..|before|] == before;
  }

  /** Which events reach the conns of the registry, and how. */
  lemma EventReaches(p: Policy, s: Server, e: Event, c: nat)
    requires Enabled(p, s, e)
    ensures var r := RegistryEvent(p, s, e);
      && (e.Transfer? ==> r == Some(R.Transfer(e.conn, e.bytes)))
      && (r.Some? && r.value.Transfer? ==> e.Transfer?)
      && (r.Some? && r.value.Open? <==> e.Start? || e.ReverseConn?)
      && (r == Some(R.Drop(c)) <==> e == Drop(c))
  {
  }

  lemma SameCountsStep(before: seq<R.Event>, all: seq<R.Event>, r: Option<R.Event>, c: nat, f: Flow)
    requires all == before + Part(r)
    ensures RR.CountedOn(all, c, f) ==
            RR.CountedOn(before, c, f)
            + if r.Some? && r.value.Transfer? && r.value.conn == c then r.value.bytes.Of(f) else 0
    ensures |RR.Opened(all)| == |RR.Opened(before)| + if r.Some? && r.value.Open? then 1 else 0
    ensures R.Drop(c) in all <==> R.Drop(c) in before || r == Some(R.Drop(c))
  {
    if r.Some? {
      AppendEvent(before, r.value, c, f);
    } else {
      assert all == before;
    }
  }

  lemma OwnCountsStep(init: seq<Event>, e: Event, events: seq<Event>, c: nat, f: Flow)
    requires events != [] && init == events[..|events| - 1] && e == Last(events)
    ensures CountedOn(events, c, f) ==
            CountedOn(init, c, f) + if e.Transfer? && e.conn == c then e.bytes.Of(f) else 0
    ensures ConnsOpened(events) == ConnsOpened(init) + if e.Start? || e.ReverseConn? then 1 else 0
    ensures Drop(c) in events <==> Drop(c) in init || e == Drop(c)
  {
    assert events == init + [e];
  }

  lemma {:induction false} SameCounts(p: Policy, events: seq<Event>, c: nat, f: Flow)
    requires Possible(p, events)
    ensures RR.CountedOn(RegistryEvents(p, events), c, f) == CountedOn(events, c, f)
    ensures |RR.Opened(RegistryEvents(p, events))| == ConnsOpened(events)
    ensures R.Drop(c) in RegistryEvents(p, events) <==> Drop(c) in events
  {
    if events != [] {
      var init, e := events[..|events| - 1], Last(events);
      var r := RegistryEvent(p, After(p, init), e);
      SameCounts(p, init, c, f);
      SameCountsStep(RegistryEvents(p, init), RegistryEvents(p, events), r, c, f);
      EventReaches(p, After(p, init), e, c);
      OwnCountsStep(init, e, events, c, f);
    }
  }

  /** In every run the server has one conn for each opener that was started and each reverse conn, and
      a conn holds exactly the bytes that were counted on it, until its guard drops and after. */
  lemma ConnsAreTheRun(p: Policy, events: seq<Event>, c: nat, f: Flow)
    requires Possible(p, events)
    ensures var r := After(p, events).registry;
      && (c in r.connArena <==> 1 <= c <= ConnsOpened(events))
      && (c in r.connArena ==>
            && r.connArena[c].counters.Of(f) == CountedOn(events, c, f)
            && (r.connArena[c].guarded <==> Drop(c) !in events))
  {
    RegistryRuns(p, events);
    SameCounts(p, events, c, f);
    RR.ConnsAreTheRun(RegistryEvents(p, events));
    var r := After(p, events).registry;
    assert c in r.connArena ==> RR.IsConn(RegistryEvents(p, events), c, r.connArena[c]);
  }

  // ---------------------------------------------------------------------------
  // Openers
  // ---------------------------------------------------------------------------

  /** The openers that were accepted, in the order in which they were read. */
  function AcceptedOpeners(p: Policy, events: seq<Event>): seq<Opened>
    requires Possible(p, events)
  {
    if events == [] then []
    else
      var init, e := events[..|events| - 1], Last(events);
      AcceptedOpeners(p, init) + if e.OpenRead? then OpenRequest(After(p, init), e.open) else []
  }

  lemma Removed<T>(s: seq<T>, i: nat)
    requires i < |s|
    ensures multiset(s[..i] + s[i + 1..]) + multiset{s[i]} == multiset(s)
  {
    assert s == s[..i] + [s[i]] + s[i + 1..];
  }

  lemma StepOpeners(p: Policy, s: Server, e: Event)
    requires Enabled(p, s, e)
    ensures var s' := Do(p, s, e);
      multiset(s'.pending) + multiset(s'.dispatched) ==
      multiset(s.pending) + multiset(s.dispatched)
      + multiset(if e.OpenRead? then OpenRequest(s, e.open) else [])
  {
    if e.Start? {
      Removed(s.pending, e.index);
    }
  }

  /** In every run each opener that was accepted is pending or was started, and none is both or was
      started twice. */
  lemma {:induction false} OpenersAreTheRun(p: Policy, events: seq<Event>)
    requires Possible(p, events)
    ensures var s := After(p, events);
      multiset(s.pending) + multiset(s.dispatched) == multiset(AcceptedOpeners(p, events))
  {
    if events != [] {
      var init, e := events[..|events| - 1], Last(events);
      OpenersAreTheRun(p, init);
      StepOpeners(p, After(p, init), e);
    }
  }

  // ---------------------------------------------------------------------------
  // The end of a session
  // ---------------------------------------------------------------------------

  /** The session of a client is over. */
  predicate IsOver(s: Server, c: nat) {
    c in s.phases && (s.phases[c].Closing? || s.phases[c].Closed?)
  }

  lemma StepOver(p: Policy, s: Server, e: Event, c: nat)
    requires Inv(p, s) && Enabled(p, s, e) && (IsOver(s, c) || e == Shutdown(c))
    ensures IsOver(Do(p, s, e), c)
  {
  }

  lemma {:induction false} StaysOver(p: Policy, events: seq<Event>, c: nat)
    requires Possible(p, events) && Shutdown(c) in events
    ensures IsOver(After(p, events), c)
  {
    var init, e := events[..|events| - 1], Last(events);
    assert events == init + [e];
    ReachableInv(p, init);
    if e != Shutdown(c) {
      StaysOver(p, init, c);
    }
    StepOver(p, After(p, init), e, c);
  }

  lemma OverIsDeaf(p: Policy, s: Server, c: nat, o: OpenConn)
    requires ListenersOk(s.phases, s.listeners) && IsOver(s, c)
    ensures (forall l | l in s.listeners :: l.0 != c) && !Enabled(p, s, OpenRead(c, o))
  {
    forall l | l in s.listeners ensures l.0 != c {
      assert (l.0, l.1) in s.listeners && ListenerOk(s.phases, l.0, l.1);
    }
  }

  /** Once the server has shut a session down it listens for none of the client's declarations, and
      takes no opener of the client, ever again. */
  lemma ShutdownIsFinal(p: Policy, events: seq<Event>, c: nat, o: OpenConn)
    requires Possible(p, events) && Shutdown(c) in events
    ensures IsOver(After(p, events), c)
    ensures (forall l | l in After(p, events).listeners :: l.0 != c) && !Enabled(p, After(p, events), OpenRead(c, o))
  {
    StaysOver(p, events, c);
    ReachableInv(p, events);
    OverIsDeaf(p, After(p, events), c, o);
  }
}

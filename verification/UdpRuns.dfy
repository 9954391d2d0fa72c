/** The multiplexer against the run itself: what arrived, what was answered and why a datagram was
    dropped is what the steps say; and everything that a source sends can get through. */
module UdpRuns {
  import opened Basics
  import opened Framing
  import opened UdpMux

  // ---------------------------------------------------------------------------
  // Arrivals and answers
  // ---------------------------------------------------------------------------

  /** The datagrams that arrived, in order. */
  function Arrivals<K>(steps: seq<Step<K>>): seq<Datagram<K>> {
    if steps == [] then []
    else
      var e := Last(steps);
      Arrivals(steps[..|steps| - 1]) + if e.Arrive? then [Datagram(e.key, e.payload)] else []
  }

  /** What conn `c` was answered with, in order. */
  function Answers<K>(steps: seq<Step<K>>, c: nat): seq<bytes> {
    if steps == [] then []
    else
      var e := Last(steps);
      Answers(steps[..|steps| - 1], c) + if e.Answer? && e.conn == c then [e.reply] else []
  }

  lemma StepRecords<K>(s: State<K>, e: Step<K>, c: nat)
    requires Enabled(s, e)
    ensures var s' := Do(s, e);
      && s'.log == s.log + (if e.Arrive? then [Datagram(e.key, e.payload)] else [])
      && |s.tasks| <= |s'.tasks|
      && (c < |s.tasks| ==>
            s'.tasks[c].replies == s.tasks[c].replies + if e.Answer? && e.conn == c then [e.reply] else [])
      && (|s.tasks| <= c < |s'.tasks| ==> s'.tasks[c].replies == [])
  {
  }

  lemma {:induction false} NotYetAnswered<K>(steps: seq<Step<K>>, c: nat)
    requires Possible(steps) && c >= |After(steps).tasks|
    ensures Answers(steps, c) == [] && End(c) !in steps
  {
    if steps != [] {
      var init, e := steps[..|steps| - 1], Last(steps);
      StepRecords(After(init), e, c);
      NotYetAnswered(init, c);
      assert steps == init + [e];
    }
  }

  /** In every run the log is what arrived, and a conn's replies are what it was answered with. */
  lemma {:induction false} RecordsTheRun<K>(steps: seq<Step<K>>, c: nat)
    requires Possible(steps)
    ensures After(steps).log == Arrivals(steps)
    ensures c < |After(steps).tasks| ==> After(steps).tasks[c].replies == Answers(steps, c)
  {
    if steps != [] {
      var init, e := steps[..|steps| - 1], Last(steps);
      RecordsTheRun(init, c);
      StepRecords(After(init), e, c);
      if c >= |After(init).tasks| {
        NotYetAnswered(init, c);
      }
    }
  }

  /** In every run the replies that go out over a conn are, in order, what the conn was answered
      with, and all of them go to the conn's key, under which some datagram arrived. */
  lemma RepliesTheRun<K(!new)>(steps: seq<Step<K>>, c: nat)
    requires Possible(steps) && c < |After(steps).tasks|
    ensures var s := After(steps);
      && Via(s.replies, c) == Answers(steps, c)
      && (forall r | r in s.replies && r.conn == c :: r.to == s.tasks[c].key)
      && exists i :: 0 <= i < |Arrivals(steps)| && Arrivals(steps)[i].key == s.tasks[c].key
  {
    Isolation(steps, c);
    RecordsTheRun(steps, c);
    KeyArrived(steps, c);
  }

  // ---------------------------------------------------------------------------
  // Why datagrams are dropped
  // ---------------------------------------------------------------------------

  lemma StepCloses<K>(s: State<K>, e: Step<K>, c: nat)
    requires Enabled(s, e) && c < |Do(s, e).tasks|
    ensures Do(s, e).tasks[c].Closed() <==> (c < |s.tasks| && s.tasks[c].Closed()) || e == End(c)
  {
  }

  /** A conn's queue is closed exactly when its task has ended. */
  lemma {:induction false} ClosedIsEnded<K>(steps: seq<Step<K>>, c: nat)
    requires Possible(steps) && c < |After(steps).tasks|
    ensures After(steps).tasks[c].Closed() <==> End(c) in steps
  {
    var init, e := steps[..|steps| - 1], Last(steps);
    StepCloses(After(init), e, c);
    assert steps == init + [e];
    if c < |After(init).tasks| {
      ClosedIsEnded(init, c);
    } else {
      NotYetAnswered(init, c);
    }
  }

  /** Step `i` drops arrival `x`: the loop finds that the task of the conn has ended or that 4096
      datagrams are queued, or the task ends while the datagram waits. */
  ghost predicate DropsAt<K>(steps: seq<Step<K>>, i: nat, x: nat) {
    && i < |steps| && Possible(steps[..i])
    && var s := After(steps[..i]);
       match steps[i]
       case TrySend =>
         && s.loop.Sending? && s.loop.conn < |s.tasks| && x == |Arrivals(steps[..i])| - 1
         && (End(s.loop.conn) in steps[..i] || |s.tasks[s.loop.conn].queue| == 4096)
       case End(c) => c < |s.tasks| && x in s.tasks[c].Waiting()
       case _ => false
  }

  ghost predicate IsDropped<K>(steps: seq<Step<K>>, x: nat) {
    exists i: nat :: DropsAt(steps, i, x)
  }

  lemma DropsLater<K>(init: seq<Step<K>>, e: Step<K>, i: nat, x: nat)
    requires i < |init|
    ensures DropsAt(init + [e], i, x) <==> DropsAt(init, i, x)
  {
    assert (init + [e])[..i] == init[..i];
  }

  /** What the last step drops. */
  lemma StepDrops<K(!new)>(init: seq<Step<K>>, e: Step<K>, x: nat)
    requires Possible(init) && Enabled(After(init), e)
    ensures x in Do(After(init), e).dropped <==> x in After(init).dropped || DropsAt(init + [e], |init|, x)
  {
    var s := After(init);
    assert (init + [e])[..|init|] == init;
    RecordsTheRun(init, 0);
    if e.TrySend? {
      ReachableInv(init);
      ClosedIsEnded(init, s.loop.conn);
      assert TaskOk(s.log, Routed(s), s.tasks[s.loop.conn]);
    }
  }

  /** In every run an arrival is dropped if and only if, at some step, its conn's task had ended or
      had 4096 datagrams queued when the loop tried to queue it, or the task ended while it
      waited. */
  lemma {:induction false} DroppedForCause<K(!new)>(steps: seq<Step<K>>, x: nat)
    requires Possible(steps)
    ensures x in After(steps).dropped <==> IsDropped(steps, x)
  {
    if steps != [] {
      var init, e := steps[..|steps| - 1], Last(steps);
      assert steps == init + [e];
      DroppedForCause(init, x);
      StepDrops(init, e, x);
      if IsDropped(init, x) {
        var i: nat :| DropsAt(init, i, x);
        DropsLater(init, e, i, x);
      }
      if IsDropped(steps, x) {
        var i: nat :| DropsAt(steps, i, x);
        if i < |init| {
          DropsLater(init, e, i, x);
        }
      }
    }
  }

  /** So what is neither is with a conn. */
  lemma KeptUnlessCause<K(!new)>(steps: seq<Step<K>>, x: nat)
    requires Possible(steps) && x < Routed(After(steps))
    ensures HeldBySome(After(steps).tasks, x) <==> !IsDropped(steps, x)
  {
    NothingDisappears(steps);
    DroppedForCause(steps, x);
  }

  // ---------------------------------------------------------------------------
  // Everything can get through
  // ---------------------------------------------------------------------------

  /** The source's conn is open and idle, and has written all that arrived. */
  ghost predicate AllWritten<K>(s: State<K>, k: K, ps: seq<bytes>) {
    && s.loop.Receiving? && |s.tasks| == 1 && k in s.conns && s.conns[k] == 0
    && s.tasks[0].key == k && s.tasks[0].stage.Running? && s.tasks[0].queue == [] && s.tasks[0].inFlight.None?
    && |s.log| == |ps| == |s.tasks[0].sent|
    && forall i | 0 <= i < |ps| :: s.log[i].payload == ps[i] && s.tasks[0].sent[i] == i
  }

  /** The datagram that just arrived is queued on the only conn, which has nothing else to do. */
  ghost predicate OneQueued<K>(s: State<K>, k: K, ps: seq<bytes>) {
    && s.loop.Receiving? && |s.tasks| == 1 && k in s.conns && s.conns[k] == 0
    && s.tasks[0].key == k && s.tasks[0].queue == [|ps| - 1] && s.tasks[0].inFlight.None?
    && ps != [] && |s.log| == |ps| == |s.tasks[0].sent| + 1
    && (forall i | 0 <= i < |ps| :: s.log[i].payload == ps[i])
    && forall i | 0 <= i < |ps| - 1 :: s.tasks[0].sent[i] == i
  }

  lemma FirstQueued<K(!new)>(k: K, p: bytes) returns (steps: seq<Step<K>>)
    requires FitsDatagram(p)
    ensures Possible(steps) && OneQueued(After(steps), k, [p]) && After(steps).tasks[0].stage.Opening?
  {
    steps := [];
    Then(steps, Arrive(k, p));
    steps := steps + [Arrive(k, p)];
    Then(steps, LookUp);
    steps := steps + [LookUp];
    Then(steps, Create);
    steps := steps + [Create];
    Then(steps, TrySend);
    steps := steps + [TrySend];
  }

  lemma FirstRunning<K(!new)>(k: K, p: bytes) returns (steps: seq<Step<K>>)
    requires FitsDatagram(p)
    ensures Possible(steps) && OneQueued(After(steps), k, [p]) && After(steps).tasks[0].stage.Running?
  {
    steps := FirstQueued(k, p);
    Then(steps, Connect(0));
    steps := steps + [Connect(0)];
  }

  lemma NextQueued<K(!new)>(before: seq<Step<K>>, k: K, ps: seq<bytes>, p: bytes) returns (steps: seq<Step<K>>)
    requires Possible(before) && AllWritten(After(before), k, ps) && FitsDatagram(p)
    ensures Possible(steps) && OneQueued(After(steps), k, ps + [p]) && After(steps).tasks[0].stage.Running?
  {
    steps := before;
    Then(steps, Arrive(k, p));
    steps := steps + [Arrive(k, p)];
    Then(steps, LookUp);
    steps := steps + [LookUp];
    Then(steps, CheckClosed);
    steps := steps + [CheckClosed];
    Then(steps, TrySend);
    steps := steps + [TrySend];
  }

  lemma Flushed<K(!new)>(before: seq<Step<K>>, k: K, ps: seq<bytes>) returns (steps: seq<Step<K>>)
    requires Possible(before) && OneQueued(After(before), k, ps) && After(before).tasks[0].stage.Running?
    ensures Possible(steps) && AllWritten(After(steps), k, ps)
  {
    steps := before;
    Then(steps, Take(0));
    steps := steps + [Take(0)];
    Then(steps, Written(0));
    steps := steps + [Written(0)];
  }

  lemma {:induction false} WritesAll<K(!new)>(k: K, ps: seq<bytes>) returns (steps: seq<Step<K>>)
    requires ps != [] && forall p | p in ps :: FitsDatagram(p)
    ensures Possible(steps) && AllWritten(After(steps), k, ps)
    decreases |ps|
  {
    var init, p := ps[..|ps| - 1], Last(ps);
    if init == [] {
      steps := FirstRunning(k, p);
      assert ps == [p];
    } else {
      var before := WritesAll(k, init);
      steps := NextQueued(before, k, init, p);
      assert init + [p] == ps;
    }
    steps := Flushed(steps, k, ps);
  }

  /** For every key and every list of datagrams there is a run in which the key's conn writes exactly
      that list to its stream, and nothing is dropped. */
  lemma EverythingGetsThrough<K(!new)>(k: K, ps: seq<bytes>) returns (steps: seq<Step<K>>)
    requires ps != [] && forall p | p in ps :: FitsDatagram(p)
    ensures Possible(steps) && |After(steps).tasks| == 1 && After(steps).tasks[0].key == k
    ensures Sent(steps, 0) == ps && forall x: nat :: !IsDropped(steps, x)
  {
    steps := WritesAll(k, ps);
    var s := After(steps);
    forall x: nat ensures !IsDropped(steps, x) {
      NothingDisappears(steps);
      DroppedForCause(steps, x);
      if x < |ps| {
        assert s.tasks[0].sent[x] == x && s.tasks[0].Held()[x] == x;
        assert x in s.tasks[0].Held();
      }
    }
  }
}

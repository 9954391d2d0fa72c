/** A client's totals, read tunnel by tunnel while the conns of all its tunnels open, count and
    close. */
module ClientReads {
  import opened Basics
  import opened Sums
  import opened Counters
  import opened ConcurrentTotals
  import opened ReadRuns

  // ---------------------------------------------------------------------------
  // One tunnel, over a longer time than its own read
  // ---------------------------------------------------------------------------

  lemma StepLater(s: State, e: Step)
    requires Inv(s) && Enabled(s, e)
    ensures AllLater(s.conns, Do(s, e).conns)
  {
    if IsConnStep(e) {
      ConnStepGrows(s, e);
    }
  }

  /** What holds ever since the conns were `was` and no read had begun. */
  ghost predicate Since(was: seq<Conn>, s: State) {
    && AllLater(was, s.conns)
    && (!s.reader.Idle? ==> AllLater(was, s.start))
    && (s.reader.Finished? ==> AllLater(s.atOut, s.conns))
  }

  lemma StepSince(was: seq<Conn>, s: State, e: Step)
    requires Since(was, s) && Inv(s) && Enabled(s, e)
    ensures Since(was, Do(s, e))
  {
    StepLater(s, e);
    AllLaterTransitive(was, s.conns, Do(s, e).conns);
    if s.reader.Finished? {
      AllLaterTransitive(s.atOut, s.conns, Do(s, e).conns);
    }
    if e.LoadOut? {
      assert AllLater(s.conns, s.conns);
    }
  }

  lemma {:induction false} RunSince(steps: seq<Step>, b: nat)
    requires Possible(steps) && b <= |steps| && Possible(steps[..b]) && After(steps[..b]).reader.Idle?
    ensures Since(After(steps[..b]).conns, After(steps))
  {
    if b == |steps| {
      assert steps[..b] == steps;
      assert AllLater(After(steps).conns, After(steps).conns);
    } else {
      var init := steps[..|steps| - 1];
      assert init[..b] == steps[..b];
      RunSince(init, b);
      ReachableInv(init);
      StepSince(After(steps[..b]).conns, After(init), Last(steps));
    }
  }

  lemma CountedLater(a: seq<Conn>, b: seq<Conn>, f: Flow)
    requires AllLater(a, b)
    ensures Counted(a, f) <= Counted(b, f)
  {
    forall i: nat | i < |b| ensures At(a, BytesWeight(f))(i) <= At(b, BytesWeight(f))(i) {
      assert i < |a| ==> Later(a[i], b[i]);
    }
    IndexSumAtMost(|b|, At(a, BytesWeight(f)), At(b, BytesWeight(f)));
    SumIsIndexSum(a, BytesWeight(f), |b|);
    SumIsIndexSum(b, BytesWeight(f), |b|);
  }

  /** Closes that overlap a read overlap any longer time around it. */
  lemma OverlapLonger(was: seq<Conn>, start: seq<Conn>, end: seq<Conn>, now: seq<Conn>, f: Flow)
    requires AllLater(was, start) && AllLater(end, now)
    ensures Overlap(start, end, f) <= Overlap(was, now, f)
  {
    forall i: nat | i < |end| ensures OverlapWeight(start, end, f)(i) <= OverlapWeight(was, now, f)(i) {
      assert Later(end[i], now[i]);
      assert i < |was| ==> Later(was[i], start[i]);
    }
    IndexSumAtMost(|end|, OverlapWeight(start, end, f), OverlapWeight(was, now, f));
    IndexSumLonger(|end|, |now|, OverlapWeight(was, now, f));
  }

  /** The bound for a read that lies anywhere within a longer time. */
  lemma ReadWithin(steps: seq<Step>, b: nat, f: Flow)
    requires Possible(steps) && After(steps).reader.Finished?
    requires b <= |steps| && Possible(steps[..b]) && After(steps[..b]).reader.Idle?
    ensures Transferred(steps[..b], f) <= Reported(After(steps), f)
              <= Transferred(steps, f) + Overlapping(steps[..b], steps, f)
  {
    var was, s := After(steps[..b]).conns, After(steps);
    TotalsBound(steps, f);
    RunSince(steps, b);
    CountedLater(was, s.start, f);
    CountedLater(s.atOut, s.conns, f);
    OverlapLonger(was, s.start, s.atOut, s.conns, f);
    CountedIsTransferred(steps[..b], f);
    CountedIsTransferred(steps, f);
    OverlapIsOverlapping(steps[..b], steps, f);
  }

  // ---------------------------------------------------------------------------
  // All tunnels of a client
  // ---------------------------------------------------------------------------

  /** A step of one of the client's tunnels. */
  datatype TunnelStep = On(tunnel: nat, step: Step)

  /** The steps of one tunnel in a run of all of them. */
  function Of(run: seq<TunnelStep>, t: nat): seq<Step> {
    if run == [] then []
    else Of(run[..|run| - 1], t) + if Last(run).tunnel == t then [Last(run).step] else []
  }

  lemma {:induction false} OfPrefix(run: seq<TunnelStep>, b: nat, t: nat)
    requires b <= |run|
    ensures Of(run[..b], t) <= Of(run, t)
  {
    if b == |run| {
      assert run[..b] == run;
    } else {
      OfPrefix(run[..|run| - 1], b, t);
      assert run[..|run| - 1][..b] == run[..b];
    }
  }

  /** A run of tunnels 0 to n - 1 in which the client's totals are read between position `b`, when
      no tunnel's read has begun, and the end, when all of them are finished. */
  ghost predicate IsClientRead(run: seq<TunnelStep>, b: nat, n: nat) {
    b <= |run| && forall t: nat | t < n :: IsRead(Of(run, t), Of(run[..b], t))
  }

  predicate IsRead(steps: seq<Step>, before: seq<Step>) {
    && Possible(steps) && After(steps).reader.Finished?
    && Possible(before) && After(before).reader.Idle?
  }

  function TransferredOn(run: seq<TunnelStep>, f: Flow): nat -> nat {
    (t: nat) => Transferred(Of(run, t), f)
  }

  function ReportedOn(run: seq<TunnelStep>, f: Flow): nat -> nat {
    (t: nat) => if Possible(Of(run, t)) then Reported(After(Of(run, t)), f) else 0
  }

  function OverlapOn(before: seq<TunnelStep>, run: seq<TunnelStep>, f: Flow): nat -> nat {
    (t: nat) => Overlapping(Of(before, t), Of(run, t), f)
  }

  lemma TunnelBound(run: seq<TunnelStep>, b: nat, n: nat, f: Flow, t: nat)
    requires IsClientRead(run, b, n) && t < n
    ensures TransferredOn(run[..b], f)(t) <= ReportedOn(run, f)(t)
              <= TransferredOn(run, f)(t) + OverlapOn(run[..b], run, f)(t)
  {
    var steps, before := Of(run, t), Of(run[..b], t);
    assert IsRead(steps, before);
    OfPrefix(run, b, t);
    assert steps[..|before|] == before;
    ReadWithin(steps, |before|, f);
  }

  /** However the tunnels' steps interleave, what a client's totals add up to for a flow is at
      least what the run had transferred on all its tunnels when the reading began, and at most what
      it has transferred when that has ended plus the bytes of the conns whose closing overlaps it. */
  lemma ClientTotalsBound(run: seq<TunnelStep>, b: nat, n: nat, f: Flow)
    requires IsClientRead(run, b, n)
    ensures IndexSum(n, TransferredOn(run[..b], f)) <= IndexSum(n, ReportedOn(run, f))
    ensures IndexSum(n, ReportedOn(run, f)) <=
            IndexSum(n, TransferredOn(run, f)) + IndexSum(n, OverlapOn(run[..b], run, f))
  {
    var none := (t: nat) => 0;
    forall t: nat | t < n
      ensures TransferredOn(run[..b], f)(t) <= ReportedOn(run, f)(t) + none(t)
                <= TransferredOn(run, f)(t) + OverlapOn(run[..b], run, f)(t)
    {
      TunnelBound(run, b, n, f, t);
    }
    IndexSumBound(n, TransferredOn(run[..b], f), ReportedOn(run, f), none,
                  TransferredOn(run, f), OverlapOn(run[..b], run, f));
    IndexSumZero(n, none);
  }
}

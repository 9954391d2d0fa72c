/** A read of a tunnel's totals against the run itself: how many bytes were counted when, and whose
    closing overlaps the read, is what the steps say, with no look at the state. */
module ReadRuns {
  import opened Basics
  import opened Sums
  import opened Counters
  import opened ConcurrentTotals

  // ---------------------------------------------------------------------------
  // What the steps say
  // ---------------------------------------------------------------------------

  function Opens(steps: seq<Step>): nat {
    if steps == [] then 0 else Opens(steps[..|steps| - 1]) + if Last(steps).Open? then 1 else 0
  }

  /** The bytes of a flow that were counted on a conn. */
  function CountedOn(steps: seq<Step>, c: nat, f: Flow): nat {
    if steps == [] then 0
    else
      var e := Last(steps);
      CountedOn(steps[..|steps| - 1], c, f) + if e.Transfer? && e.conn == c then e.bytes.Of(f) else 0
  }

  /** The bytes of a flow that were counted on all conns. */
  function Transferred(steps: seq<Step>, f: Flow): nat {
    if steps == [] then 0
    else
      var e := Last(steps);
      Transferred(steps[..|steps| - 1], f) + if e.Transfer? then e.bytes.Of(f) else 0
  }

  /** The bytes of the conns whose closing had begun by the end of `steps`, and was not over at the
      end of `before`. */
  function Overlapping(before: seq<Step>, steps: seq<Step>, f: Flow): nat {
    IndexSum(Opens(steps), OverlappingOn(before, steps, f))
  }

  function OverlappingOn(before: seq<Step>, steps: seq<Step>, f: Flow): nat -> nat {
    (c: nat) => if Copy(c) in steps && Remove(c) !in before then CountedOn(steps, c, f) else 0
  }

  // ---------------------------------------------------------------------------
  // The conns
  // ---------------------------------------------------------------------------

  ghost predicate IsConn(steps: seq<Step>, c: nat, x: Conn) {
    && (forall f :: x.bytes.Of(f) == CountedOn(steps, c, f))
    && (x.phase.Live? <==> Copy(c) !in steps) && (x.phase.Gone? <==> Remove(c) in steps)
  }

  ghost predicate ConnsFit(steps: seq<Step>, conns: seq<Conn>) {
    |conns| == Opens(steps) && forall c: nat | c < |conns| :: IsConn(steps, c, conns[c])
  }

  lemma StepLength(s: State, e: Step)
    requires Enabled(s, e)
    ensures |Do(s, e).conns| == |s.conns| + if e.Open? then 1 else 0
  {
  }

  lemma {:induction false} NotYetOpened(steps: seq<Step>, c: nat)
    requires Possible(steps) && c >= |After(steps).conns|
    ensures Copy(c) !in steps && Remove(c) !in steps && forall f :: CountedOn(steps, c, f) == 0
  {
    if steps != [] {
      var init, e := steps[..|steps| - 1], Last(steps);
      StepLength(After(init), e);
      NotYetOpened(init, c);
      assert steps == init + [e];
    }
  }

  lemma StepConn(init: seq<Step>, e: Step, s: State, c: nat)
    requires Enabled(s, e) && c < |s.conns| && IsConn(init, c, s.conns[c])
    ensures c < |Do(s, e).conns| && IsConn(init + [e], c, Do(s, e).conns[c])
  {
    assert (init + [e])[..|init|] == init;
  }

  lemma NewConn(init: seq<Step>, s: State)
    requires var c := |s.conns|; Copy(c) !in init && Remove(c) !in init && forall f :: CountedOn(init, c, f) == 0
    ensures IsConn(init + [Open], |s.conns|, Do(s, Open).conns[|s.conns|])
  {
    assert (init + [Open])[..|init|] == init;
  }

  /** In every run the conns are those that were opened, in order, each with exactly the bytes that
      were counted on it, live until its closing begins and in the map until that is over. */
  lemma {:induction false} ConnsAreTheRun(steps: seq<Step>)
    requires Possible(steps)
    ensures ConnsFit(steps, After(steps).conns)
  {
    if steps != [] {
      var init, e := steps[..|steps| - 1], Last(steps);
      var s := After(init);
      ConnsAreTheRun(init);
      StepLength(s, e);
      assert steps == init + [e];
      forall c: nat | c < |After(steps).conns| ensures IsConn(steps, c, After(steps).conns[c]) {
        if c < |s.conns| {
          StepConn(init, e, s, c);
        } else {
          NotYetOpened(init, c);
          NewConn(init, s);
        }
      }
    }
  }

  lemma StepTransfers(s: State, e: Step, f: Flow)
    requires Enabled(s, e)
    ensures Counted(Do(s, e).conns, f) == Counted(s.conns, f) + if e.Transfer? then e.bytes.Of(f) else 0
  {
    var s' := Do(s, e);
    if e.Open? {
      SumAppend(s.conns, s'.conns[|s.conns|], BytesWeight(f));
    } else if s'.conns != s.conns {
      var c := if e.VisitOut? then s.reader.visiting.value else e.conn;
      SumUpdate(s.conns, c, s'.conns[c], BytesWeight(f));
    }
  }

  /** In every run what the conns hold is what the run transferred. */
  lemma {:induction false} CountedIsTransferred(steps: seq<Step>, f: Flow)
    requires Possible(steps)
    ensures Counted(After(steps).conns, f) == Transferred(steps, f)
  {
    if steps != [] {
      var init := steps[..|steps| - 1];
      CountedIsTransferred(init, f);
      StepTransfers(After(init), Last(steps), f);
    }
  }

  /** Closings that overlap the time between two states are those of the run. */
  lemma OverlapIsOverlapping(before: seq<Step>, steps: seq<Step>, f: Flow)
    requires Possible(before) && Possible(steps)
    ensures Overlap(After(before).conns, After(steps).conns, f) == Overlapping(before, steps, f)
  {
    var a, b := After(before).conns, After(steps).conns;
    ConnsAreTheRun(before);
    ConnsAreTheRun(steps);
    forall c: nat | c < |b| ensures OverlapWeight(a, b, f)(c) == OverlappingOn(before, steps, f)(c) {
      assert IsConn(steps, c, b[c]);
      if c < |a| {
        assert IsConn(before, c, a[c]);
      } else {
        NotYetOpened(before, c);
      }
    }
    IndexSumSame(|b|, OverlapWeight(a, b, f), OverlappingOn(before, steps, f));
  }

  // ---------------------------------------------------------------------------
  // The read
  // ---------------------------------------------------------------------------

  /** The read starts from the conns as they were when it began. */
  lemma {:induction false} StartsAtBegin(steps: seq<Step>, b: nat)
    requires Possible(steps) && b < |steps| && steps[b] == Begin
    ensures Possible(steps[..b]) && After(steps[..b]).reader.Idle?
    ensures !After(steps).reader.Idle? && After(steps).start == After(steps[..b]).conns
  {
    var init, e := steps[..|steps| - 1], Last(steps);
    if b == |init| {
      assert steps[..b] == init;
    } else {
      StartsAtBegin(init, b);
      assert init[..b] == steps[..b];
    }
  }

  lemma StepAfterEnd(s: State, e: Step)
    requires Enabled(s, e) && s.reader.Finished?
    ensures var s' := Do(s, e);
      s'.reader.Finished? && s'.atOut == s.atOut && s'.active == s.active && s'.loaded == s.loaded
  {
  }

  /** It ends with the conns as they are when the second total is loaded, and its report stands. */
  lemma {:induction false} EndsAtLoad(steps: seq<Step>, n: nat)
    requires Possible(steps) && n < |steps| && steps[n] == LoadOut
    ensures Possible(steps[..n]) && After(steps).reader.Finished?
    ensures After(steps).atOut == After(steps[..n]).conns
  {
    var init, e := steps[..|steps| - 1], Last(steps);
    if n == |init| {
      assert steps[..n] == init;
    } else {
      EndsAtLoad(init, n);
      assert init[..n] == steps[..n];
      StepAfterEnd(After(init), e);
    }
  }

  /** In every run with a read that begins at step `b` and loads its last total at step `n`, the
      report for a flow is at least what the run had transferred by `b`, and at most what it had
      transferred by `n` plus the bytes of the conns whose closing overlaps the time between. */
  lemma ReadBound(steps: seq<Step>, b: nat, n: nat, f: Flow)
    requires Possible(steps) && b < n < |steps| && steps[b] == Begin && steps[n] == LoadOut
    ensures Transferred(steps[..b], f) <= Reported(After(steps), f)
              <= Transferred(steps[..n], f) + Overlapping(steps[..b], steps[..n], f)
  {
    StartsAtBegin(steps, b);
    EndsAtLoad(steps, n);
    TotalsBound(steps, f);
    CountedIsTransferred(steps[..b], f);
    CountedIsTransferred(steps[..n], f);
    OverlapIsOverlapping(steps[..b], steps[..n], f);
  }

  /** If every closing that has begun by the end of the read was over when it began, the report lies
      between the two counts. */
  lemma QuietRead(steps: seq<Step>, b: nat, n: nat, f: Flow)
    requires Possible(steps) && b < n < |steps| && steps[b] == Begin && steps[n] == LoadOut
    requires forall c: nat | Copy(c) in steps[..n] :: Remove(c) in steps[..b]
    ensures Transferred(steps[..b], f) <= Reported(After(steps), f) <= Transferred(steps[..n], f)
  {
    ReadBound(steps, b, n, f);
    IndexSumZero(Opens(steps[..n]), OverlappingOn(steps[..b], steps[..n], f));
  }

  /** The excess is real: there is a run that transfers any number of bytes once and reports them
      twice. */
  lemma TransferredOnceReportedTwice(n: nat) returns (steps: seq<Step>)
    ensures Possible(steps) && After(steps).reader.Finished?
    ensures Transferred(steps, In) == n && Reported(After(steps), In) == 2 * n
  {
    steps := BytesCountedTwice(n);
    CountedIsTransferred(steps, In);
  }
}

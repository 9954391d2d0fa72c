/** One tunnel's byte totals when they are read while conns open, count and close.

    Closing a conn and adding up the totals are sequences of atomic steps here, interleaved in
    any order. A reader visits each conn at most once, and every conn that is in the tunnel's
    map during the whole scan. */
module ConcurrentTotals {
  import opened Basics
  import opened Sums
  import opened Counters

  /** How far the closing of a conn has got: its guard is alive; its counters were copied; they
      were added to the incoming total, and to the outgoing one; it left the map. */
  datatype Phase = Live | Copied | AddedIn | AddedOut | Gone {
    function Rank(): nat {
      match this
      case Live => 0
      case Copied => 1
      case AddedIn => 2
      case AddedOut => 3
      case Gone => 4
    }
  }

  /** `copy` is what the close read; `seen` is what the reader's visit read, one flow after the
      other. */
  datatype Conn = Conn(bytes: Traffic, phase: Phase, copy: Traffic, seenIn: Option<nat>, seenOut: Option<nat>) {
    /** The conn's bytes are part of the tunnel's cumulative total for the flow. */
    predicate Added(f: Flow) {
      phase.Rank() >= if f.In? then 2 else 3
    }

    function Seen(f: Flow): Option<nat> {
      if f.In? then seenIn else seenOut
    }
  }

  datatype Reader = Idle | Scanning(visiting: Option<nat>) | Scanned | LoadedIn | Finished

  /** `start`, `atIn` and `atOut` record the conns as they were when the read began and when it
      loaded each cumulative total, the second of which ends it. */
  datatype State = State(
    conns: seq<Conn>, cumulative: Traffic,
    reader: Reader, active: Traffic, loaded: Traffic,
    start: seq<Conn>, atIn: seq<Conn>, atOut: seq<Conn>)

  const EMPTY := State([], NOTHING, Idle, NOTHING, NOTHING, [], [], [])

  // ---------------------------------------------------------------------------
  // Steps
  // ---------------------------------------------------------------------------

  datatype Step =
    | Open
    | Transfer(conn: nat, bytes: Traffic)
    | Copy(conn: nat)
    | AddIn(conn: nat)
    | AddOut(conn: nat)
    | Remove(conn: nat)
    | Begin
    | VisitIn(conn: nat)
    | VisitOut
    | EndScan
    | LoadIn
    | LoadOut

  predicate InPhase(s: State, c: nat, p: Phase) {
    c < |s.conns| && s.conns[c].phase == p
  }

  /** Everything that was in the map all the time has been visited. */
  predicate ScanComplete(s: State) {
    forall i | 0 <= i < |s.start| && i < |s.conns| ::
      s.conns[i].phase.Gone? || s.conns[i].seenOut.Some?
  }

  predicate Enabled(s: State, e: Step) {
    match e
    case Open => true
    case Transfer(c, _) => InPhase(s, c, Live)
    case Copy(c) => InPhase(s, c, Live)
    case AddIn(c) => InPhase(s, c, Copied)
    case AddOut(c) => InPhase(s, c, Phase.AddedIn)
    case Remove(c) => InPhase(s, c, Phase.AddedOut)
    case Begin => s.reader.Idle?
    case VisitIn(c) =>
      s.reader == Scanning(None) && c < |s.conns| && !s.conns[c].phase.Gone? && s.conns[c].seenIn.None?
    case VisitOut => s.reader.Scanning? && s.reader.visiting.Some? && s.reader.visiting.value < |s.conns|
    case EndScan => s.reader == Scanning(None) && ScanComplete(s)
    case LoadIn => s.reader.Scanned?
    case LoadOut => s.reader.LoadedIn?
  }

  function With(s: State, c: nat, x: Conn): State
    requires c < |s.conns|
  {
    s.(conns := s.conns[c := x])
  }

  function Do(s: State, e: Step): State
    requires Enabled(s, e)
  {
    match e
    case Open => s.(conns := s.conns + [Conn(NOTHING, Live, NOTHING, None, None)])
    case Transfer(c, b) => With(s, c, s.conns[c].(bytes := s.conns[c].bytes.Plus(b)))
    case Copy(c) => With(s, c, s.conns[c].(phase := Copied, copy := s.conns[c].bytes))
    case AddIn(c) =>
      With(s, c, s.conns[c].(phase := Phase.AddedIn))
      .(cumulative := s.cumulative.Plus(Traffic(s.conns[c].copy.bytesIn, 0)))
    case AddOut(c) =>
      With(s, c, s.conns[c].(phase := Phase.AddedOut))
      .(cumulative := s.cumulative.Plus(Traffic(0, s.conns[c].copy.bytesOut)))
    case Remove(c) => With(s, c, s.conns[c].(phase := Gone))
    case Begin => s.(reader := Scanning(None), start := s.conns)
    case VisitIn(c) =>
      With(s, c, s.conns[c].(seenIn := Some(s.conns[c].bytes.bytesIn)))
      .(reader := Scanning(Some(c)), active := s.active.Plus(Traffic(s.conns[c].bytes.bytesIn, 0)))
    case VisitOut =>
      var c := s.reader.visiting.value;
      With(s, c, s.conns[c].(seenOut := Some(s.conns[c].bytes.bytesOut)))
      .(reader := Scanning(None), active := s.active.Plus(Traffic(0, s.conns[c].bytes.bytesOut)))
    case EndScan => s.(reader := Scanned)
    case LoadIn => s.(reader := LoadedIn, loaded := Traffic(s.cumulative.bytesIn, 0), atIn := s.conns)
    case LoadOut =>
      s.(reader := Finished, loaded := Traffic(s.loaded.bytesIn, s.cumulative.bytesOut), atOut := s.conns)
  }

  predicate Possible(steps: seq<Step>)
    decreases |steps|, 0
  {
    steps == [] ||
    (Possible(steps[..|steps| - 1]) && Enabled(After(steps[..|steps| - 1]), Last(steps)))
  }

  function After(steps: seq<Step>): State
    requires Possible(steps)
    decreases |steps|, 1
  {
    if steps == [] then EMPTY else Do(After(steps[..|steps| - 1]), Last(steps))
  }

  // ---------------------------------------------------------------------------
  // The invariant
  // ---------------------------------------------------------------------------

  function AddedWeight(f: Flow): Conn -> nat {
    (c: Conn) => if c.Added(f) then c.bytes.Of(f) else 0
  }

  function SeenWeight(f: Flow): Conn -> nat {
    (c: Conn) => c.Seen(f).GetOr(0)
  }

  function BytesWeight(f: Flow): Conn -> nat {
    (c: Conn) => c.bytes.Of(f)
  }

  /** `d` is a later state of conn `c`. */
  predicate Later(c: Conn, d: Conn) {
    && c.phase.Rank() <= d.phase.Rank()
    && c.bytes.bytesIn <= d.bytes.bytesIn && c.bytes.bytesOut <= d.bytes.bytesOut
    && (!c.phase.Live? ==> d.bytes == c.bytes)
    && (c.seenIn.Some? ==> d.seenIn == c.seenIn) && (c.seenOut.Some? ==> d.seenOut == c.seenOut)
  }

  ghost predicate AllLater(a: seq<Conn>, b: seq<Conn>) {
    |a| <= |b| && forall i | 0 <= i < |a| :: Later(a[i], b[i])
  }

  predicate ConnOk(c: Conn) {
    && (!c.phase.Live? ==> c.copy == c.bytes)
    && (c.seenIn.Some? ==> c.seenIn.value <= c.bytes.bytesIn)
    && (c.seenOut.Some? ==> c.seenOut.value <= c.bytes.bytesOut)
  }

  ghost predicate ConnsOk(conns: seq<Conn>) {
    forall i | 0 <= i < |conns| :: ConnOk(conns[i])
  }

  /** The running sums are what they should be. */
  ghost predicate SumsOk(s: State) {
    forall f ::
      && s.cumulative.Of(f) == Sum(s.conns, AddedWeight(f))
      && s.active.Of(f) == Sum(s.conns, SeenWeight(f))
  }

  /** What one visit of a conn can have seen: the conn was in the map, and the value lies
      between what was counted when the read began and what is counted now. */
  ghost predicate SeenOk(start: seq<Conn>, conns: seq<Conn>) {
    |start| <= |conns| && forall i | 0 <= i < |start| :: SeenSince(start[i], conns[i])
  }

  predicate SeenSince(c: Conn, d: Conn) {
    && (d.seenIn.Some? ==> !c.phase.Gone? && c.bytes.bytesIn <= d.seenIn.value)
    && (d.seenOut.Some? ==> !c.phase.Gone? && c.bytes.bytesOut <= d.seenOut.value)
  }

  /** Both flows of a visited conn are read, except of the one being visited. */
  ghost predicate Paired(conns: seq<Conn>, visiting: Option<nat>) {
    && (visiting.Some? ==> visiting.value < |conns|)
    && forall i | 0 <= i < |conns| ::
         && (conns[i].seenOut.Some? ==> conns[i].seenIn.Some?)
         && (conns[i].seenIn.Some? && conns[i].seenOut.None? <==> visiting == Some(i))
  }

  ghost predicate Complete(start: seq<Conn>, conns: seq<Conn>) {
    && |start| <= |conns|
    && forall i | 0 <= i < |start| ::
         conns[i].phase.Gone? || (conns[i].seenIn.Some? && conns[i].seenOut.Some?)
  }

  ghost predicate Unseen(conns: seq<Conn>) {
    forall i | 0 <= i < |conns| :: conns[i].seenIn.None? && conns[i].seenOut.None?
  }

  ghost predicate Scan(start: seq<Conn>, conns: seq<Conn>) {
    AllLater(start, conns) && SeenOk(start, conns)
  }

  /** The total for a flow was loaded when the conns were `at`, after a complete scan. */
  ghost predicate LoadOk(start: seq<Conn>, at: seq<Conn>, conns: seq<Conn>, f: Flow, loaded: nat) {
    && AllLater(start, at) && AllLater(at, conns) && Complete(start, at)
    && loaded == Sum(at, AddedWeight(f))
  }

  ghost predicate ReaderOk(s: State) {
    match s.reader
    case Idle => Unseen(s.conns)
    case Scanning(v) => Scan(s.start, s.conns) && Paired(s.conns, v)
    case Scanned => Scan(s.start, s.conns) && Complete(s.start, s.conns)
    case LoadedIn =>
      && Scan(s.start, s.conns) && Complete(s.start, s.conns)
      && LoadOk(s.start, s.atIn, s.conns, In, s.loaded.bytesIn)
    case Finished => EndOk(s)
  }

  /** Nothing in this changes any more once the read has ended. */
  ghost predicate EndOk(s: State) {
    && Scan(s.start, s.atOut) && ConnsOk(s.atOut)
    && LoadOk(s.start, s.atIn, s.atOut, In, s.loaded.bytesIn)
    && LoadOk(s.start, s.atOut, s.atOut, Out, s.loaded.bytesOut)
    && forall f :: s.active.Of(f) == Sum(s.atOut, SeenWeight(f))
  }

  ghost predicate Inv(s: State) {
    ConnsOk(s.conns) && SumsOk(s) && ReaderOk(s)
  }

  // ---------------------------------------------------------------------------
  // Every step keeps it
  // ---------------------------------------------------------------------------

  /** What the steps that are not the reader's do to the conns. */
  ghost predicate Grows(a: seq<Conn>, b: seq<Conn>) {
    && AllLater(a, b)
    && (forall i | 0 <= i < |a| :: b[i].seenIn == a[i].seenIn && b[i].seenOut == a[i].seenOut)
    && (forall i | |a| <= i < |b| :: b[i].seenIn.None? && b[i].seenOut.None?)
  }

  lemma AllLaterTransitive(a: seq<Conn>, b: seq<Conn>, c: seq<Conn>)
    requires AllLater(a, b) && AllLater(b, c)
    ensures AllLater(a, c)
  {
    forall i | 0 <= i < |a| ensures Later(a[i], c[i]) {
      assert Later(a[i], b[i]) && Later(b[i], c[i]);
    }
  }

  lemma ScanGrows(start: seq<Conn>, a: seq<Conn>, b: seq<Conn>)
    requires Scan(start, a) && Grows(a, b)
    ensures Scan(start, b)
  {
    AllLaterTransitive(start, a, b);
    forall i | 0 <= i < |start| ensures SeenSince(start[i], b[i]) {
      assert SeenSince(start[i], a[i]);
    }
  }

  lemma CompleteGrows(start: seq<Conn>, a: seq<Conn>, b: seq<Conn>)
    requires Complete(start, a) && Grows(a, b)
    ensures Complete(start, b)
  {
    forall i | 0 <= i < |start| ensures b[i].phase.Gone? || (b[i].seenIn.Some? && b[i].seenOut.Some?) {
      assert Later(a[i], b[i]);
    }
  }

  lemma ReaderGrows(s: State, s': State)
    requires ReaderOk(s) && Grows(s.conns, s'.conns)
    requires s' == s.(conns := s'.conns, cumulative := s'.cumulative)
    ensures ReaderOk(s')
  {
    if !s.reader.Idle? && !s.reader.Finished? {
      ScanGrows(s.start, s.conns, s'.conns);
    }
    if s.reader.Scanned? || s.reader.LoadedIn? {
      CompleteGrows(s.start, s.conns, s'.conns);
    }
    if s.reader.LoadedIn? {
      AllLaterTransitive(s.atIn, s.conns, s'.conns);
    }
  }

  /** Changing one conn, with the same change of the running sums. */
  lemma ChangeKeepsSums(s: State, c: nat, x: Conn, s': State)
    requires SumsOk(s) && c < |s.conns| && s'.conns == s.conns[c := x]
    requires forall f :: s'.cumulative.Of(f) + AddedWeight(f)(s.conns[c]) == s.cumulative.Of(f) + AddedWeight(f)(x)
    requires forall f :: s'.active.Of(f) + SeenWeight(f)(s.conns[c]) == s.active.Of(f) + SeenWeight(f)(x)
    ensures SumsOk(s')
  {
    forall f
      ensures s'.cumulative.Of(f) == Sum(s'.conns, AddedWeight(f)) && s'.active.Of(f) == Sum(s'.conns, SeenWeight(f))
    {
      SumUpdate(s.conns, c, x, AddedWeight(f));
      SumUpdate(s.conns, c, x, SeenWeight(f));
    }
  }

  lemma OpenKeeps(s: State)
    requires Inv(s)
    ensures Inv(Do(s, Open))
  {
    var s', x := Do(s, Open), Conn(NOTHING, Live, NOTHING, None, None);
    forall f
      ensures s'.cumulative.Of(f) == Sum(s'.conns, AddedWeight(f)) && s'.active.Of(f) == Sum(s'.conns, SeenWeight(f))
    {
      SumAppend(s.conns, x, AddedWeight(f));
      SumAppend(s.conns, x, SeenWeight(f));
    }
    ReaderGrows(s, s');
  }

  predicate IsConnStep(e: Step) {
    e.Transfer? || e.Copy? || e.AddIn? || e.AddOut? || e.Remove?
  }

  lemma ConnStepKeeps(s: State, e: Step)
    requires Inv(s) && Enabled(s, e) && IsConnStep(e)
    ensures Inv(Do(s, e))
  {
    var s' := Do(s, e);
    ConnStepGrows(s, e);
    ConnStepChange(s, e);
    ChangeKeepsSums(s, e.conn, s'.conns[e.conn], s');
    ReaderGrows(s, s');
  }

  lemma ConnStepGrows(s: State, e: Step)
    requires Enabled(s, e) && IsConnStep(e) && ConnsOk(s.conns)
    ensures var s' := Do(s, e);
      && s'.conns == s.conns[e.conn := s'.conns[e.conn]]
      && ConnsOk(s'.conns) && Grows(s.conns, s'.conns)
      && s' == s.(conns := s'.conns, cumulative := s'.cumulative)
  {
    assert ConnOk(s.conns[e.conn]);
    ConnStepChange(s, e);
  }

  /** What such a step does to its conn, and that it moves the running sums with it. */
  lemma ConnStepChange(s: State, e: Step)
    requires Enabled(s, e) && IsConnStep(e) && ConnOk(s.conns[e.conn])
    ensures var s', c := Do(s, e), s.conns[e.conn];
      var x := s'.conns[e.conn];
      && ConnOk(x) && Later(c, x) && x.seenIn == c.seenIn && x.seenOut == c.seenOut
      && s'.active == s.active
      && forall f :: s'.cumulative.Of(f) + AddedWeight(f)(c) == s.cumulative.Of(f) + AddedWeight(f)(x)
  {
  }

  lemma VisitInKeeps(s: State, c: nat)
    requires Inv(s) && Enabled(s, VisitIn(c))
    ensures Inv(Do(s, VisitIn(c)))
  {
    var s' := Do(s, VisitIn(c));
    ChangeKeepsSums(s, c, s'.conns[c], s');
    assert Paired(s'.conns, Some(c));
    VisitKeepsScan(s, c, s'.conns[c]);
  }

  lemma VisitOutKeeps(s: State)
    requires Inv(s) && Enabled(s, VisitOut)
    ensures Inv(Do(s, VisitOut))
  {
    var s', c := Do(s, VisitOut), s.reader.visiting.value;
    assert s.conns[c].seenIn.Some? && s.conns[c].seenOut.None?;
    ChangeKeepsSums(s, c, s'.conns[c], s');
    assert Paired(s'.conns, None);
    VisitKeepsScan(s, c, s'.conns[c]);
  }

  lemma VisitKeepsScan(s: State, c: nat, x: Conn)
    requires Scan(s.start, s.conns) && c < |s.conns| && Later(s.conns[c], x)
    requires c < |s.start| ==> SeenSince(s.start[c], x)
    ensures Scan(s.start, s.conns[c := x])
  {
    AllLaterTransitive(s.start, s.conns, s.conns[c := x]);
  }

  lemma DoKeeps(s: State, e: Step)
    requires Inv(s) && Enabled(s, e)
    ensures Inv(Do(s, e))
  {
    match e {
      case Open => OpenKeeps(s);
      case VisitIn(c) => VisitInKeeps(s, c);
      case VisitOut => VisitOutKeeps(s);
      case Begin => assert AllLater(s.conns, s.conns);
      case EndScan => assert Complete(s.start, s.conns);
      case LoadIn => assert AllLater(s.conns, s.conns);
      case LoadOut => assert AllLater(s.conns, s.conns);
      case _ => ConnStepKeeps(s, e);
    }
  }

  lemma {:induction false} ReachableInv(steps: seq<Step>)
    requires Possible(steps)
    ensures Inv(After(steps))
  {
    if steps != [] {
      ReachableInv(steps[..|steps| - 1]);
      DoKeeps(After(steps[..|steps| - 1]), Last(steps));
    }
  }

  // ---------------------------------------------------------------------------
  // The bound
  // ---------------------------------------------------------------------------

  /** The bytes at the end of the read of the conns whose closing overlaps the read: they had
      not left the map when it began, and their guard was dropping, or gone, when it ended. */
  function OverlapWeight(start: seq<Conn>, end: seq<Conn>, f: Flow): nat -> nat {
    (i: nat) =>
      if i < |end| && !end[i].phase.Live? && (i < |start| ==> !start[i].phase.Gone?)
      then end[i].bytes.Of(f) else 0
  }

  function Overlap(start: seq<Conn>, end: seq<Conn>, f: Flow): nat {
    IndexSum(|end|, OverlapWeight(start, end, f))
  }

  /** What the read reports for a flow: active plus cumulative. */
  function Reported(s: State, f: Flow): nat {
    s.active.Of(f) + s.loaded.Of(f)
  }

  function Counted(conns: seq<Conn>, f: Flow): nat {
    Sum(conns, BytesWeight(f))
  }

  /** One conn's part of the bound. */
  lemma ConnBound(start: seq<Conn>, at: seq<Conn>, end: seq<Conn>, f: Flow, i: nat)
    requires Scan(start, end) && ConnsOk(end) && i < |end|
    requires AllLater(start, at) && AllLater(at, end) && Complete(start, at)
    ensures var x := At(end, SeenWeight(f))(i) + At(at, AddedWeight(f))(i);
      At(start, BytesWeight(f))(i) <= x <= At(end, BytesWeight(f))(i) + OverlapWeight(start, end, f)(i)
  {
    assert ConnOk(end[i]);
    if i < |at| {
      assert Later(at[i], end[i]);
    }
    if i < |start| {
      assert Later(start[i], at[i]) && SeenSince(start[i], end[i]);
    }
  }

  lemma FlowBound(start: seq<Conn>, at: seq<Conn>, end: seq<Conn>, f: Flow)
    requires Scan(start, end) && ConnsOk(end)
    requires AllLater(start, at) && AllLater(at, end) && Complete(start, at)
    ensures Counted(start, f) <= Sum(end, SeenWeight(f)) + Sum(at, AddedWeight(f))
    ensures Sum(end, SeenWeight(f)) + Sum(at, AddedWeight(f)) <= Counted(end, f) + Overlap(start, end, f)
  {
    var n := |end|;
    forall i: nat | i < n
      ensures At(start, BytesWeight(f))(i) <= At(end, SeenWeight(f))(i) + At(at, AddedWeight(f))(i)
                <= At(end, BytesWeight(f))(i) + OverlapWeight(start, end, f)(i)
    {
      ConnBound(start, at, end, f, i);
    }
    IndexSumBound(n, At(start, BytesWeight(f)), At(end, SeenWeight(f)), At(at, AddedWeight(f)),
                  At(end, BytesWeight(f)), OverlapWeight(start, end, f));
    SumIsIndexSum(end, SeenWeight(f), n);
    SumIsIndexSum(at, AddedWeight(f), n);
    SumIsIndexSum(start, BytesWeight(f), n);
    SumIsIndexSum(end, BytesWeight(f), n);
  }

  /** In every interleaving, a finished read reports for either flow at least the bytes counted
      when it began, and at most those counted when it ended plus the bytes of the conns whose
      closing overlaps it. */
  lemma TotalsBound(steps: seq<Step>, f: Flow)
    requires Possible(steps) && After(steps).reader.Finished?
    ensures var s := After(steps);
      Counted(s.start, f) <= Reported(s, f) <= Counted(s.atOut, f) + Overlap(s.start, s.atOut, f)
  {
    var s := After(steps);
    ReachableInv(steps);
    FlowBound(s.start, if f.In? then s.atIn else s.atOut, s.atOut, f);
  }

  /** With no closing in progress the report lies between the two counts, so it is exact when
      nothing is counted either. */
  lemma QuietTotals(steps: seq<Step>, f: Flow)
    requires Possible(steps) && After(steps).reader.Finished?
    requires var s := After(steps); forall i | 0 <= i < |s.atOut| ::
      s.atOut[i].phase.Live? || (i < |s.start| && s.start[i].phase.Gone?)
    ensures var s := After(steps); Counted(s.start, f) <= Reported(s, f) <= Counted(s.atOut, f)
  {
    var s := After(steps);
    TotalsBound(steps, f);
    IndexSumZero(|s.atOut|, OverlapWeight(s.start, s.atOut, f));
  }

  lemma Then(steps: seq<Step>, e: Step)
    requires Possible(steps) && Enabled(After(steps), e)
    ensures Possible(steps + [e]) && After(steps + [e]) == Do(After(steps), e)
  {
    assert (steps + [e])[..|steps|] == steps;
  }

  lemma ConnOpened(n: nat) returns (steps: seq<Step>)
    ensures Possible(steps)
    ensures After(steps) == EMPTY.(conns := [Conn(Traffic(n, 0), Live, NOTHING, None, None)])
  {
    Then([], Open);
    Then([Open], Transfer(0, Traffic(n, 0)));
    steps := [Open] + [Transfer(0, Traffic(n, 0))];
  }

  lemma Visited(s: State, n: nat)
    requires s.reader == Scanning(None) && s.conns == [Conn(Traffic(n, 0), Live, NOTHING, None, None)]
    requires s.active == NOTHING
    ensures Enabled(s, VisitIn(0)) && Enabled(Do(s, VisitIn(0)), VisitOut)
    ensures var s' := Do(Do(s, VisitIn(0)), VisitOut);
      && s'.conns == [Conn(Traffic(n, 0), Live, NOTHING, Some(n), Some(0))]
      && s' == s.(conns := s'.conns, active := Traffic(n, 0))
  {
  }

  lemma ConnVisited(n: nat) returns (steps: seq<Step>)
    ensures Possible(steps)
    ensures var s := After(steps);
      && s.reader == Scanning(None) && s.active == Traffic(n, 0) && s.cumulative == NOTHING
      && s.conns == [Conn(Traffic(n, 0), Live, NOTHING, Some(n), Some(0))] && |s.start| == 1
  {
    var before := ConnOpened(n);
    Then(before, Begin);
    var begun := before + [Begin];
    Visited(After(begun), n);
    Then(begun, VisitIn(0));
    Then(begun + [VisitIn(0)], VisitOut);
    steps := begun + [VisitIn(0)] + [VisitOut];
  }

  lemma ConnAdded(n: nat) returns (steps: seq<Step>)
    ensures Possible(steps) && After(steps).reader == Scanning(None) && ScanComplete(After(steps))
    ensures After(steps).active == After(steps).cumulative == Traffic(n, 0)
    ensures |After(steps).conns| == 1 && After(steps).conns[0].bytes == Traffic(n, 0)
  {
    var before := ConnVisited(n);
    Then(before, Copy(0));
    Then(before + [Copy(0)], AddIn(0));
    steps := before + [Copy(0)] + [AddIn(0)];
  }

  /** The excess is real: a close that adds its bytes between the visit of its conn and the
      loading of the totals makes the read report them twice. */
  lemma BytesCountedTwice(n: nat) returns (steps: seq<Step>)
    ensures Possible(steps) && After(steps).reader.Finished?
    ensures Counted(After(steps).atOut, In) == Counted(After(steps).conns, In) == n
    ensures Reported(After(steps), In) == 2 * n
  {
    var before := ConnAdded(n);
    Then(before, EndScan);
    Then(before + [EndScan], LoadIn);
    Then(before + [EndScan] + [LoadIn], LoadOut);
    steps := before + [EndScan] + [LoadIn] + [LoadOut];
    assert After(steps).atOut == [After(before).conns[0]];
    SumAppend([], After(before).conns[0], BytesWeight(In));
  }
}

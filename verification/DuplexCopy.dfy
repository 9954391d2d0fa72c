/** The copying of a TCP connection over a QUIC stream: one direction on its own, and the two
    directions with the signal by which an error in one stops the other. */
module DuplexCopy {
  import opened Basics
  import opened ByteStream

  const COPY_BUF: nat := 256 * 1024

  // ---------------------------------------------------------------------------
  // One direction
  // ---------------------------------------------------------------------------

  /** A reader that adds the length of every successful read to a counter. */
  class CountedReader {
    const inner: RecvStream
    var counter: nat

    constructor (inner: RecvStream)
      ensures this.inner == inner && counter == 0
    {
      this.inner := inner;
      this.counter := 0;
    }

    method PollRead(max: nat) returns (b: bytes)
      requires max > 0
      modifies this, inner
      ensures |b| <= max && old(inner.Unread()) == b + inner.Unread()
      ensures b == [] ==> inner.Unread() == []
      ensures counter == old(counter) + |b|
    {
      b := inner.Read(max);
      if |b| > 0 {
        counter := counter + |b|;
      }
    }
  }

  /** Of `all`, `out` is delivered, the next bytes are in the buffer, and that is what is
      counted. */
  ghost predicate Copied(all: bytes, out: bytes, buf: bytes, unread: bytes, counted: int) {
    all == out + buf + unread && counted == |out| + |buf| && |buf| <= COPY_BUF
  }

  lemma Refilled(all: bytes, out: bytes, unread: bytes, counted: int, b: bytes, unread': bytes)
    requires Copied(all, out, [], unread, counted) && unread == b + unread' && |b| <= COPY_BUF
    ensures Copied(all, out, b, unread', counted + |b|)
  {
    assert out + [] + (b + unread') == out + b + unread';
  }

  lemma Delivered(all: bytes, out: bytes, buf: bytes, unread: bytes, counted: int, n: nat)
    requires Copied(all, out, buf, unread, counted) && n <= |buf|
    ensures Copied(all, out + buf[..n], buf[n..], unread, counted)
  {
    assert buf == buf[..n] + buf[n..];
  }

  /** The end of the copy, with nothing left or with a sink that takes no more. */
  lemma CopyEnds(all: bytes, out: bytes, buf: bytes, unread: bytes, counted: int, budget: nat)
    requires Copied(all, out, buf, unread, counted) && |out| <= budget
    requires (buf == [] && unread == []) || (buf != [] && |out| == budget)
    ensures var n := Min(|all|, budget);
      && |out| == n && out == all[..n] && n <= counted <= n + COPY_BUF
      && (buf == [] <==> n == |all|) && (buf == [] ==> counted == |all|)
  {
    assert all[..|out|] == out;
  }

  /** The copy loop: refills its buffer only when that is empty, and ends when the source is at
      its end or the sink takes no more. */
  method CopyLoop(reader: CountedReader, sink: SendStream, pace: nat)
    returns (eof: bool, ghost out: bytes, ghost left: bytes)
    requires pace > 0
    modifies reader, reader.inner, sink
    ensures Copied(old(reader.inner.Unread()), out, left, reader.inner.Unread(),
                   reader.counter - old(reader.counter))
    ensures sink.written == old(sink.written) + out && sink.budget == old(sink.budget) - |out|
    ensures if eof then left == [] && reader.inner.Unread() == [] else left != [] && sink.budget == 0
  {
    ghost var all, before := reader.inner.Unread(), reader.counter;
    var buf: bytes := [];
    out := [];
    while true
      invariant Copied(all, out, buf, reader.inner.Unread(), reader.counter - before)
      invariant sink.written == old(sink.written) + out && sink.budget == old(sink.budget) - |out|
      decreases |all| - |out|
    {
      if buf == [] {
        ghost var unread, counted := reader.inner.Unread(), reader.counter - before;
        buf := reader.PollRead(COPY_BUF);
        Refilled(all, out, unread, counted, buf, reader.inner.Unread());
        if buf == [] {
          return true, out, buf;
        }
      }
      var n := sink.Write(buf, pace);
      if n == 0 {
        return false, out, buf;
      }
      Delivered(all, out, buf, reader.inner.Unread(), reader.counter - before, n);
      out := out + buf[..n];
      buf := buf[n..];
    }
  }

  /** It delivers everything unless the sink fails first; what was counted is what was delivered
      and at most a buffer more. */
  method CopyBuf(reader: CountedReader, sink: SendStream, pace: nat) returns (eof: bool)
    requires pace > 0
    modifies reader, reader.inner, sink
    ensures var all := old(reader.inner.Unread());
      var delivered := Min(|all|, old(sink.budget));
      && (eof <==> delivered == |all|)
      && sink.written == old(sink.written) + all[..delivered]
      && old(reader.counter) + delivered <= reader.counter <= old(reader.counter) + delivered + 262_144
      && (eof ==> reader.counter == old(reader.counter) + |all|)
  {
    ghost var all, before, budget := reader.inner.Unread(), reader.counter, sink.budget;
    ghost var out, left;
    eof, out, left := CopyLoop(reader, sink, pace);
    CopyEnds(all, out, left, reader.inner.Unread(), reader.counter - before, budget);
  }

  // ---------------------------------------------------------------------------
  // Both directions
  // ---------------------------------------------------------------------------

  /** From the local TCP peer into the QUIC stream, and back. */
  datatype Direction = ToQuic | ToTcp {
    function Other(): Direction {
      if ToQuic? then ToTcp else ToQuic
    }
  }

  datatype Outcome = Eof | Errored | Aborted

  /** A direction registers for the abort signal when it is first polled, and listens until its
      copy ends. Then it ends its sink, and is done. */
  datatype Stage = NotPolled | Copying | Ending(outcome: Outcome) | Done(outcome: Outcome)

  datatype Half = Half(
    stage: Stage, read: bytes, buf: bytes, written: bytes, counter: nat, atEof: bool, notified: bool)

  /** How the QUIC send half ended. */
  datatype StreamEnd = Fin | Reset

  datatype State = State(toQuic: Half, toTcp: Half, ends: seq<StreamEnd>) {
    function At(d: Direction): Half {
      if d.ToQuic? then toQuic else toTcp
    }

    function With(d: Direction, h: Half): State {
      if d.ToQuic? then this.(toQuic := h) else this.(toTcp := h)
    }
  }

  const IDLE := Half(NotPolled, [], [], [], 0, false, false)

  const INITIAL := State(IDLE, IDLE, [])

  datatype Step =
    | FirstPoll(dir: Direction)
    | Fill(dir: Direction, data: bytes)
    | SeeEof(dir: Direction)
    | Deliver(dir: Direction, count: nat)
    | Flushed(dir: Direction)
    | Fail(dir: Direction)
    | Abort(dir: Direction)
    | EndSink(dir: Direction, ok: bool)

  /** The select polls the signal first, so a notified direction copies no more. */
  predicate Enabled(s: State, e: Step) {
    var h := s.At(e.dir);
    match e
    case FirstPoll(_) => h.stage.NotPolled?
    case Fill(_, data) => h.stage.Copying? && !h.notified && h.buf == [] && 0 < |data| <= COPY_BUF
    case SeeEof(_) => h.stage.Copying? && !h.notified && h.buf == []
    case Deliver(_, n) => h.stage.Copying? && !h.notified && 0 < n <= |h.buf|
    case Flushed(_) => h.stage.Copying? && !h.notified && h.buf == [] && h.atEof
    case Fail(_) => h.stage.Copying? && !h.notified
    case Abort(_) => h.stage.Copying? && h.notified
    case EndSink(_, _) => h.stage.Ending?
  }

  /** `notify_waiters`: reaches the other direction only while that is registered. */
  function Notify(s: State, d: Direction): State {
    var h := s.At(d.Other());
    if h.stage.Copying? then s.With(d.Other(), h.(notified := true)) else s
  }

  function ResetStream(s: State): State {
    s.(ends := s.ends + [Reset])
  }

  function Do(s: State, e: Step): State
    requires Enabled(s, e)
  {
    var d, h := e.dir, s.At(e.dir);
    match e
    case FirstPoll(_) => s.With(d, h.(stage := Copying))
    case Fill(_, data) =>
      s.With(d, h.(read := h.read + data, buf := data, counter := h.counter + |data|, atEof := false))
    case SeeEof(_) => s.With(d, h.(atEof := true))
    case Deliver(_, n) => s.With(d, h.(written := h.written + h.buf[..n], buf := h.buf[n..]))
    case Flushed(_) => s.With(d, h.(stage := Ending(Eof)))
    case Fail(_) =>
      if d.ToQuic? then Notify(ResetStream(s.With(d, h.(stage := Done(Errored)))), d)
      else s.With(d, h.(stage := Ending(Errored)))
    case Abort(_) =>
      if d.ToQuic? then ResetStream(s.With(d, h.(stage := Done(Aborted))))
      else s.With(d, h.(stage := Ending(Aborted)))
    case EndSink(_, ok) =>
      var s' := s.With(d, h.(stage := Done(h.stage.outcome)));
      if d.ToQuic? then if ok then s'.(ends := s'.ends + [Fin]) else s'
      else if h.stage.outcome.Errored? then Notify(s', d)
      else s'
  }

  predicate Possible(steps: seq<Step>)
    decreases |steps|, 0
  {
    steps == [] ||
    (Possible(steps[..|steps| - 1]) && Enabled(After(steps[..|steps| - 1]), Last(steps)))
  }

  function After(steps: seq<Step>): State
    requires Possible(steps)
    decreases |steps|, 1
  {
    if steps == [] then INITIAL else Do(After(steps[..|steps| - 1]), Last(steps))
  }

  // ---------------------------------------------------------------------------
  // What every run keeps
  // ---------------------------------------------------------------------------

  /** What was read is delivered in order, but for what is in the buffer; everything read is
      counted, once. A direction that ended by end-of-file delivered everything. */
  predicate HalfOk(h: Half) {
    && h.read == h.written + h.buf
    && |h.buf| <= COPY_BUF && h.counter == |h.read|
    && (h.atEof ==> h.buf == [])
    && (h.stage == Ending(Eof) || h.stage == Done(Eof) ==> h.atEof)
    && (h.stage == NotPolled ==> h == IDLE)
  }

  /** The stream ends once, by FIN only after a graceful end, by RESET exactly after an error or
      an abort. */
  predicate EndsOk(s: State) {
    match s.toQuic.stage
    case Done(Eof) => s.ends == [] || s.ends == [Fin]
    case Done(_) => s.ends == [Reset]
    case Ending(o) => o.Eof? && s.ends == []
    case _ => s.ends == []
  }

  /** A direction is notified, and so aborted, only after the other one failed. */
  predicate SignalOk(s: State) {
    && (s.toTcp.notified ==> s.toQuic.stage == Done(Errored))
    && (s.toQuic.notified ==> s.toTcp.stage == Done(Errored))
    && (WasAborted(s.toQuic) ==> s.toQuic.notified) && (WasAborted(s.toTcp) ==> s.toTcp.notified)
  }

  predicate WasAborted(h: Half) {
    h.stage == Ending(Aborted) || h.stage == Done(Aborted)
  }

  predicate Inv(s: State) {
    HalfOk(s.toQuic) && HalfOk(s.toTcp) && EndsOk(s) && SignalOk(s)
  }

  lemma StepHalf(s: State, e: Step)
    requires Enabled(s, e) && HalfOk(s.At(e.dir))
    ensures HalfOk(Do(s, e).At(e.dir))
  {
    var h := s.At(e.dir);
    if e.Deliver? {
      assert h.buf == h.buf[..e.count] + h.buf[e.count..];
    }
  }

  lemma StepOther(s: State, e: Step)
    requires Enabled(s, e) && HalfOk(s.At(e.dir.Other()))
    ensures HalfOk(Do(s, e).At(e.dir.Other()))
  {
  }

  lemma StepEnds(s: State, e: Step)
    requires Enabled(s, e) && EndsOk(s)
    ensures EndsOk(Do(s, e))
  {
  }

  lemma StepSignal(s: State, e: Step)
    requires Enabled(s, e) && SignalOk(s)
    ensures SignalOk(Do(s, e))
  {
  }

  lemma DoKeeps(s: State, e: Step)
    requires Inv(s) && Enabled(s, e)
    ensures Inv(Do(s, e))
  {
    StepHalf(s, e);
    StepOther(s, e);
    StepEnds(s, e);
    StepSignal(s, e);
  }

  lemma {:induction false} ReachableInv(steps: seq<Step>)
    requires Possible(steps)
    ensures Inv(After(steps))
  {
    if steps != [] {
      ReachableInv(steps[..|steps| - 1]);
      DoKeeps(After(steps[..|steps| - 1]), Last(steps));
    }
  }

  predicate CopiesSafely(h: Half) {
    && h.written <= h.read && |h.written| <= h.counter <= |h.written| + 262_144
    && (h.stage == Done(Eof) ==> h.written == h.read)
  }

  predicate EndsSafely(s: State) {
    && |s.ends| <= 1
    && (Fin in s.ends ==> s.toQuic.atEof && s.toQuic.written == s.toQuic.read)
    && (Reset in s.ends <==> s.toQuic.stage == Done(Errored) || s.toQuic.stage == Done(Aborted))
  }

  lemma InvIsSafe(s: State)
    requires Inv(s)
    ensures EndsSafely(s) && CopiesSafely(s.toQuic) && CopiesSafely(s.toTcp)
  {
  }

  /** In every run: each sink received a prefix of what its source gave, the counter lies
      between what was delivered and a buffer more, and the QUIC send half ended at most once,
      by FIN only after everything read was delivered and the source was at its end. */
  lemma CopySafety(steps: seq<Step>)
    requires Possible(steps)
    ensures var s := After(steps); EndsSafely(s) && CopiesSafely(s.toQuic) && CopiesSafely(s.toTcp)
  {
    ReachableInv(steps);
    InvIsSafe(After(steps));
  }

  // ---------------------------------------------------------------------------
  // The run itself
  // ---------------------------------------------------------------------------

  /** What the source of a direction gave in a run. */
  function Given(steps: seq<Step>, d: Direction): bytes {
    if steps == [] then []
    else
      var e := Last(steps);
      Given(steps[..|steps| - 1], d) + if e.Fill? && e.dir == d then e.data else []
  }

  /** How many bytes its sink took. */
  function Taken(steps: seq<Step>, d: Direction): nat {
    if steps == [] then 0
    else
      var e := Last(steps);
      Taken(steps[..|steps| - 1], d) + if e.Deliver? && e.dir == d then e.count else 0
  }

  /** A direction's record is that of the run: it read all that its source gave, counted that, and
      wrote as much of it, from the start, as its sink took. */
  lemma {:induction false} CopiesTheRun(steps: seq<Step>, d: Direction)
    requires Possible(steps)
    ensures var h := After(steps).At(d);
      && h.read == Given(steps, d) && h.counter == |Given(steps, d)|
      && Taken(steps, d) <= |Given(steps, d)| && h.written == Given(steps, d)[..Taken(steps, d)]
  {
    ReachableInv(steps);
    if steps != [] {
      var init, e := steps[..|steps| - 1], Last(steps);
      CopiesTheRun(init, d);
      StepCopies(After(init), e, d);
    }
  }

  lemma StepCopies(s: State, e: Step, d: Direction)
    requires Enabled(s, e)
    ensures var h, h' := s.At(d), Do(s, e).At(d);
      && h'.read == h.read + (if e.Fill? && e.dir == d then e.data else [])
      && |h'.written| == |h.written| + (if e.Deliver? && e.dir == d then e.count else 0)
  {
  }

  lemma StepEnding(s: State, e: Step)
    requires Enabled(s, e)
    ensures Do(s, e).ends == s.ends +
      if e == EndSink(ToQuic, true) then [Fin]
      else if e == Fail(ToQuic) || e == Abort(ToQuic) then [Reset]
      else []
  {
  }

  /** The QUIC send half is finished exactly when the run ended it, and reset exactly when the
      direction towards it failed or was aborted. */
  lemma {:induction false} EndsTheRun(steps: seq<Step>)
    requires Possible(steps)
    ensures Fin in After(steps).ends <==> EndSink(ToQuic, true) in steps
    ensures Reset in After(steps).ends <==> Fail(ToQuic) in steps || Abort(ToQuic) in steps
  {
    if steps != [] {
      var init, e := steps[..|steps| - 1], Last(steps);
      EndsTheRun(init);
      StepEnding(After(init), e);
      assert steps == init + [e];
    }
  }

  /** A direction that is done by end-of-file went through the end of its sink. */
  lemma {:induction false} DoneEndedSink(steps: seq<Step>, d: Direction)
    requires Possible(steps) && After(steps).At(d).stage == Done(Eof)
    ensures EndSink(d, true) in steps || EndSink(d, false) in steps
  {
    var init, e := steps[..|steps| - 1], Last(steps);
    assert steps == init + [e];
    if After(init).At(d).stage == Done(Eof) {
      DoneEndedSink(init, d);
    } else {
      assert e == EndSink(d, e.ok);
    }
  }

  // ---------------------------------------------------------------------------
  // Errors and the abort signal
  // ---------------------------------------------------------------------------

  predicate ErrorFree(steps: seq<Step>) {
    forall i | 0 <= i < |steps| :: !steps[i].Fail?
  }

  /** No direction has failed, so none is told to stop. */
  predicate Graceful(s: State) {
    forall d :: !s.At(d).notified && (var g := s.At(d).stage; g.Ending? || g.Done? ==> g.outcome.Eof?)
  }

  lemma {:induction false} ErrorFreeIsGraceful(steps: seq<Step>)
    requires Possible(steps) && ErrorFree(steps)
    ensures Graceful(After(steps))
  {
    if steps != [] {
      ErrorFreeIsGraceful(steps[..|steps| - 1]);
      var s, e := After(steps[..|steps| - 1]), Last(steps);
      assert !e.Fail? && Graceful(s);
      assert !s.At(ToQuic).notified && !s.At(ToTcp).notified;
    }
  }

  /** Without an error neither direction is aborted and the stream is not reset: data still in
      flight in one direction is never cut off by the graceful end of the other. */
  lemma ErrorFreeNeverAborts(steps: seq<Step>, d: Direction)
    requires Possible(steps) && ErrorFree(steps)
    ensures var s := After(steps);
      && Reset !in s.ends && s.At(d).stage != Ending(Aborted)
      && (s.At(d).stage.Done? ==> s.At(d).written == s.At(d).read && s.At(d).atEof)
  {
    ErrorFreeIsGraceful(steps);
    ReachableInv(steps);
    assert Graceful(After(steps));
    assert !After(steps).At(ToQuic).notified;
  }

  /** Without an error, and with a sink that can be ended, a direction that is done delivered all that
      its source gave, and the one towards QUIC ended the stream by FIN, once. */
  lemma GracefulRunEndsByFin(steps: seq<Step>)
    requires Possible(steps) && ErrorFree(steps)
    requires EndSink(ToQuic, false) !in steps && After(steps).toQuic.stage.Done?
    ensures After(steps).ends == [Fin] && After(steps).toQuic.written == Given(steps, ToQuic)
  {
    ErrorFreeIsGraceful(steps);
    assert Graceful(After(steps)) && After(steps).At(ToQuic).stage.outcome.Eof?;
    DoneEndedSink(steps, ToQuic);
    EndsTheRun(steps);
    CopySafety(steps);
    CopiesTheRun(steps, ToQuic);
  }

  /** Once notified, a direction neither reads nor writes, whatever happens next. */
  predicate Frozen(h: Half, h': Half) {
    h'.notified && h'.read == h.read && h'.written == h.written && h'.counter == h.counter
  }

  lemma StepFrozen(s: State, e: Step, d: Direction)
    requires Inv(s) && Enabled(s, e) && s.At(d).notified
    ensures Frozen(s.At(d), Do(s, e).At(d))
  {
  }

  lemma {:induction false} NotifiedWritesNothing(steps: seq<Step>, n: nat, d: Direction)
    requires Possible(steps) && n <= |steps|
    requires Possible(steps[..n]) && After(steps[..n]).At(d).notified
    ensures Frozen(After(steps[..n]).At(d), After(steps).At(d))
  {
    if n == |steps| {
      assert steps[..n] == steps;
    } else {
      var init := steps[..|steps| - 1];
      assert init[..n] == steps[..n];
      NotifiedWritesNothing(init, n, d);
      ReachableInv(init);
      StepFrozen(After(init), Last(steps), d);
    }
  }

  /** The step by which a failed direction signals: at once towards TCP, but only after the
      local sink is shut down towards QUIC. */
  predicate Signals(s: State, e: Step)
    requires Enabled(s, e)
  {
    (e.Fail? && e.dir.ToQuic?) || (e.EndSink? && e.dir.ToTcp? && s.toTcp.stage.outcome.Errored?)
  }

  lemma Then(steps: seq<Step>, e: Step)
    requires Possible(steps) && Enabled(After(steps), e)
    ensures Possible(steps + [e]) && After(steps + [e]) == Do(After(steps), e)
  {
    assert (steps + [e])[..|steps|] == steps;
  }

  /** A direction that will write no more. */
  predicate Quiet(h: Half) {
    h.notified || h.stage.Ending? || h.stage.Done?
  }

  lemma StepQuiet(s: State, e: Step, d: Direction)
    requires Enabled(s, e) && Quiet(s.At(d))
    ensures Quiet(Do(s, e).At(d)) && Do(s, e).At(d).written == s.At(d).written
  {
  }

  lemma {:induction false} QuietForEver(steps: seq<Step>, more: seq<Step>, d: Direction)
    requires Possible(steps + more) && Possible(steps) && Quiet(After(steps).At(d))
    ensures Quiet(After(steps + more).At(d)) && After(steps + more).At(d).written == After(steps).At(d).written
  {
    var all := steps + more;
    if more == [] {
      assert all == steps;
    } else {
      assert all[..|all| - 1] == steps + more[..|more| - 1];
      QuietForEver(steps, more[..|more| - 1], d);
      StepQuiet(After(all[..|all| - 1]), Last(all), d);
    }
  }

  /** When an error in direction `d` stops the other one at once. */
  predicate ErrorStops(s: State, d: Direction) {
    var g := s.At(d.Other()).stage;
    g.Ending? || g.Done? || (d.ToQuic? && g.Copying?)
  }

  /** One more byte for a direction that copies and was not told to stop. */
  lemma DeliverOne(steps: seq<Step>, d: Direction) returns (more: seq<Step>)
    requires Possible(steps) && After(steps).At(d).stage.Copying? && !After(steps).At(d).notified
    ensures Possible(steps + more) && |After(steps + more).At(d).written| == |After(steps).At(d).written| + 1
  {
    if After(steps).At(d).buf == [] {
      Then(steps, Fill(d, [0]));
      var filled := steps + [Fill(d, [0])];
      Then(filled, Deliver(d, 1));
      more := [Fill(d, [0]), Deliver(d, 1)];
      assert filled + [Deliver(d, 1)] == steps + more;
    } else {
      Then(steps, Deliver(d, 1));
      more := [Deliver(d, 1)];
    }
  }

  lemma PollAndDeliver(steps: seq<Step>, d: Direction) returns (more: seq<Step>)
    requires Possible(steps) && After(steps).At(d) == IDLE
    ensures Possible(steps + more) && |After(steps + more).At(d).written| == 1
  {
    Then(steps, FirstPoll(d));
    var polled := steps + [FirstPoll(d)];
    var rest := DeliverOne(polled, d);
    more := [FirstPoll(d)] + rest;
    assert polled + rest == steps + more;
  }

  lemma WritesAfterError(steps: seq<Step>, d: Direction) returns (more: seq<Step>)
    requires Possible(steps) && Enabled(After(steps), Fail(d)) && !ErrorStops(After(steps), d)
    ensures Possible(steps + [Fail(d)] + more)
    ensures After(steps + [Fail(d)] + more).At(d.Other()).written != After(steps).At(d.Other()).written
  {
    var o := d.Other();
    ReachableInv(steps);
    Then(steps, Fail(d));
    assert After(steps + [Fail(d)]).At(o) == After(steps).At(o);
    if After(steps).At(o).stage.NotPolled? {
      more := PollAndDeliver(steps + [Fail(d)], o);
    } else {
      more := DeliverOne(steps + [Fail(d)], o);
    }
  }

  /** After an error in one direction the other one writes no further byte, whatever happens,
      if and only if that has ended its copy, or the failing direction is the one towards QUIC
      and the other one has been polled. In the remaining cases the signal comes too early, or
      only after the wait for the local sink to be ended, which is taken to let the other
      direction run. */
  lemma ErrorStopsOther(steps: seq<Step>, d: Direction)
    requires Possible(steps) && Enabled(After(steps), Fail(d))
    ensures ErrorStops(After(steps), d) <==>
            forall more | Possible(steps + [Fail(d)] + more) ::
              After(steps + [Fail(d)] + more).At(d.Other()).written == After(steps).At(d.Other()).written
  {
    var failed, o := steps + [Fail(d)], d.Other();
    Then(steps, Fail(d));
    if ErrorStops(After(steps), d) {
      assert Quiet(After(failed).At(o)) && After(failed).At(o).written == After(steps).At(o).written;
      forall more | Possible(failed + more)
        ensures After(failed + more).At(o).written == After(steps).At(o).written
      {
        QuietForEver(failed, more, o);
      }
    } else {
      var more := WritesAfterError(steps, d);
    }
  }

  /** An error and its signal, when ending the local sink does not let the other direction run. */
  function PromptError(d: Direction, ok: bool): seq<Step> {
    if d.ToQuic? then [Fail(d)] else [Fail(d), EndSink(d, ok)]
  }

  lemma PromptErrorState(steps: seq<Step>, d: Direction, ok: bool)
    requires Possible(steps) && Enabled(After(steps), Fail(d))
    ensures var failed := steps + PromptError(d, ok);
      && Possible(failed)
      && var h, h' := After(steps).At(d.Other()), After(failed).At(d.Other());
         h' == if h.stage.Copying? then h.(notified := true) else h
  {
    Then(steps, Fail(d));
    if d.ToTcp? {
      var s1 := steps + [Fail(d)];
      Then(s1, EndSink(d, ok));
      assert s1 + [EndSink(d, ok)] == steps + PromptError(d, ok);
    }
  }

  /** If ending the local sink does not suspend, an error in either direction stops the other one
      at once, if and only if that has been polled. */
  lemma PromptErrorStopsOther(steps: seq<Step>, d: Direction, ok: bool)
    requires Possible(steps) && Enabled(After(steps), Fail(d))
    ensures Possible(steps + PromptError(d, ok))
    ensures !After(steps).At(d.Other()).stage.NotPolled? <==>
            forall more | Possible(steps + PromptError(d, ok) + more) ::
              After(steps + PromptError(d, ok) + more).At(d.Other()).written == After(steps).At(d.Other()).written
  {
    var failed, o := steps + PromptError(d, ok), d.Other();
    PromptErrorState(steps, d, ok);
    if After(steps).At(o).stage.NotPolled? {
      ReachableInv(steps);
      var more := PollAndDeliver(failed, o);
    } else {
      forall more | Possible(failed + more)
        ensures After(failed + more).At(o).written == After(steps).At(o).written
      {
        QuietForEver(failed, more, o);
      }
    }
  }

  // What a signal leads to.

  /** A direction that was told to stop and can only be aborted. */
  predicate Doomed(h: Half) {
    h.notified && (h.stage.Copying? || WasAborted(h))
  }

  predicate EndedOnItsOwn(h: Half) {
    (h.stage.Ending? || h.stage.Done?) && !h.stage.outcome.Aborted?
  }

  lemma StepDoomed(s: State, e: Step, d: Direction)
    requires Enabled(s, e) && Doomed(s.At(d))
    ensures Doomed(Do(s, e).At(d))
  {
  }

  lemma {:induction false} DoomedForEver(steps: seq<Step>, more: seq<Step>, d: Direction)
    requires Possible(steps + more) && Possible(steps) && Doomed(After(steps).At(d))
    ensures Doomed(After(steps + more).At(d))
  {
    var all := steps + more;
    if more == [] {
      assert all == steps;
    } else {
      assert all[..|all| - 1] == steps + more[..|more| - 1];
      DoomedForEver(steps, more[..|more| - 1], d);
      StepDoomed(After(all[..|all| - 1]), Last(all), d);
    }
  }

  lemma CopyToEof(steps: seq<Step>, d: Direction) returns (more: seq<Step>)
    requires Possible(steps) && After(steps).At(d).stage.Copying? && !After(steps).At(d).notified
    requires After(steps).At(d).buf == []
    ensures Possible(steps + more) && After(steps + more).At(d).stage == Ending(Eof)
  {
    Then(steps, SeeEof(d));
    var seen := steps + [SeeEof(d)];
    Then(seen, Flushed(d));
    more := [SeeEof(d), Flushed(d)];
    assert seen + [Flushed(d)] == steps + more;
  }

  /** A direction that was never polled can still end by end-of-file. */
  lemma PollToEof(steps: seq<Step>, d: Direction) returns (more: seq<Step>)
    requires Possible(steps) && After(steps).At(d) == IDLE
    ensures Possible(steps + more) && After(steps + more).At(d).stage == Ending(Eof)
  {
    Polled(steps, d);
    var rest := CopyToEof(steps + [FirstPoll(d)], d);
    more := [FirstPoll(d)] + rest;
    assert steps + [FirstPoll(d)] + rest == steps + more;
  }

  lemma Polled(steps: seq<Step>, d: Direction)
    requires Possible(steps) && After(steps).At(d) == IDLE
    ensures var polled := steps + [FirstPoll(d)];
      && Possible(polled) && After(polled).At(d).stage.Copying?
      && !After(polled).At(d).notified && After(polled).At(d).buf == []
  {
    Then(steps, FirstPoll(d));
  }

  lemma SignalState(s: State, e: Step)
    requires Inv(s) && Enabled(s, e) && Signals(s, e)
    ensures var h, h' := s.At(e.dir.Other()), Do(s, e).At(e.dir.Other());
      && (h.stage.Copying? ==> Doomed(h'))
      && (!h.stage.Copying? ==> h' == h && (h == IDLE || EndedOnItsOwn(h)))
  {
  }

  /** The signal dooms the other direction, so that it can end in no way but aborted whatever
      happens, if and only if that was copying when the signal was sent. */
  lemma SignalAborts(steps: seq<Step>, e: Step)
    requires Possible(steps) && Enabled(After(steps), e) && Signals(After(steps), e)
    ensures After(steps).At(e.dir.Other()).stage.Copying? <==>
            forall more | Possible(steps + [e] + more) :: !EndedOnItsOwn(After(steps + [e] + more).At(e.dir.Other()))
  {
    var signalled, o := steps + [e], e.dir.Other();
    Then(steps, e);
    ReachableInv(steps);
    SignalState(After(steps), e);
    if After(steps).At(o).stage.Copying? {
      forall more | Possible(signalled + more) ensures !EndedOnItsOwn(After(signalled + more).At(o)) {
        DoomedForEver(signalled, more, o);
      }
    } else if After(signalled).At(o) == IDLE {
      var more := PollToEof(signalled, o);
      assert EndedOnItsOwn(After(signalled + more).At(o));
    } else {
      assert signalled + [] == signalled;
      assert EndedOnItsOwn(After(signalled + []).At(o));
    }
  }
}

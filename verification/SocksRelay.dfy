/** The SOCKS5 UDP relay: the multiplexer keyed by source and target, fed with datagrams whose
    header names the target and answering with datagrams that name it again. */
module SocksRelay {
  import opened Basics
  import opened Framing
  import opened IpText
  import opened Remote
  import opened SocksUdp
  import opened UdpMux

  /** Either a raw datagram arrives, or the multiplexer takes one of its other steps. */
  datatype Event<R, K> = Raw(raw: R) | Other(step: Step<K>)

  /** Raw datagrams that do not parse are skipped. */
  type Parser<!R, K> = R -> Option<Datagram<K>>

  function Translate<R, K>(parse: Parser<R, K>, e: Event<R, K>): seq<Step<K>> {
    match e
    case Other(step) => [step]
    case Raw(raw) =>
      match parse(raw)
      case Some(d) => [Arrive(d.key, d.payload)]
      case None => []
  }

  function Steps<R, K>(parse: Parser<R, K>, events: seq<Event<R, K>>): seq<Step<K>> {
    if events == [] then [] else Steps(parse, events[..|events| - 1]) + Translate(parse, Last(events))
  }

  /** Datagrams come in raw only. */
  predicate IsRun<R, K(==)>(parse: Parser<R, K>, events: seq<Event<R, K>>) {
    (forall i | 0 <= i < |events| :: events[i].Other? ==> !events[i].step.Arrive?) &&
    Possible(Steps(parse, events))
  }

  /** The payloads of the raw datagrams that parse to a key. */
  function Addressed<R, K(==)>(parse: Parser<R, K>, events: seq<Event<R, K>>, k: K): seq<bytes> {
    if events == [] then []
    else
      var rest := Addressed(parse, events[..|events| - 1], k);
      match Last(events)
      case Other(_) => rest
      case Raw(raw) =>
        match parse(raw)
        case Some(d) => if d.key == k then rest + [d.payload] else rest
        case None => rest
  }

  lemma StepLog<K>(s: State<K>, e: Step<K>)
    requires Enabled(s, e)
    ensures Do(s, e).log == if e.Arrive? then s.log + [Datagram(e.key, e.payload)] else s.log
  {
  }

  lemma ReceivedStep<K>(log: seq<Datagram<K>>, d: Datagram<K>, k: K)
    ensures Received(log + [d], k) == if d.key == k then Received(log, k) + [d.payload] else Received(log, k)
  {
    assert (log + [d])[..|log|] == log;
  }

  lemma {:induction false} ReceivedIsAddressed<R, K>(parse: Parser<R, K>, events: seq<Event<R, K>>, k: K)
    requires IsRun(parse, events)
    ensures Received(After(Steps(parse, events)).log, k) == Addressed(parse, events, k)
  {
    if events != [] {
      var init, e := events[..|events| - 1], Last(events);
      var before, steps := Steps(parse, init), Steps(parse, events);
      if Translate(parse, e) == [] {
        assert steps == before;
        ReceivedIsAddressed(parse, init, k);
      } else {
        var step := Translate(parse, e)[0];
        assert steps[..|steps| - 1] == before && Last(steps) == step;
        ReceivedIsAddressed(parse, init, k);
        StepLog(After(before), step);
        if step.Arrive? {
          ReceivedStep(After(before).log, Datagram(step.key, step.payload), k);
        }
      }
    }
  }

  /** Event `i` is a raw datagram that parses to a key. */
  predicate Names<R, K(==)>(parse: Parser<R, K>, events: seq<Event<R, K>>, i: nat, k: K) {
    i < |events| && events[i].Raw? && parse(events[i].raw).Some? && parse(events[i].raw).value.key == k
  }

  ghost predicate IsNamed<R, K>(parse: Parser<R, K>, events: seq<Event<R, K>>, k: K) {
    exists i: nat :: Names(parse, events, i, k)
  }

  lemma {:induction false} ArrivalIsNamed<R, K>(parse: Parser<R, K>, events: seq<Event<R, K>>, j: nat)
    requires IsRun(parse, events) && j < |After(Steps(parse, events)).log|
    ensures IsNamed(parse, events, After(Steps(parse, events)).log[j].key)
  {
    var init, e := events[..|events| - 1], Last(events);
    var before, steps := Steps(parse, init), Steps(parse, events);
    var k := After(steps).log[j].key;
    if Translate(parse, e) == [] {
      assert steps == before;
      ArrivalIsNamed(parse, init, j);
      NamedLater(parse, events, k);
    } else {
      var step := Translate(parse, e)[0];
      assert steps[..|steps| - 1] == before && Last(steps) == step;
      StepLog(After(before), step);
      if j < |After(before).log| {
        ArrivalIsNamed(parse, init, j);
        NamedLater(parse, events, k);
      } else {
        assert Names(parse, events, |events| - 1, k);
      }
    }
  }

  lemma NamedLater<R, K>(parse: Parser<R, K>, events: seq<Event<R, K>>, k: K)
    requires events != [] && IsNamed(parse, events[..|events| - 1], k)
    ensures IsNamed(parse, events, k)
  {
    var i: nat :| Names(parse, events[..|events| - 1], i, k);
    assert Names(parse, events, i, k);
  }

  /** A conn's key is that of a datagram that arrived. */
  lemma KeyIsNamed<R, K(!new)>(parse: Parser<R, K>, events: seq<Event<R, K>>, c: nat)
    requires IsRun(parse, events) && c < |After(Steps(parse, events)).tasks|
    ensures IsNamed(parse, events, After(Steps(parse, events)).tasks[c].key)
  {
    var s := After(Steps(parse, events));
    KeyArrived(Steps(parse, events), c);
    var j :| 0 <= j < |s.log| && s.log[j].key == s.tasks[c].key;
    ArrivalIsNamed(parse, events, j);
  }

  // ---------------------------------------------------------------------------
  // The SOCKS header
  // ---------------------------------------------------------------------------

  type Key = (SocketAddr, HostPort)

  function Headers(t: Text): Parser<(SocketAddr, bytes), Key> {
    (raw: (SocketAddr, bytes)) =>
      match ParseHeader(t, raw.1)
      case Ok((target, payload)) => Some(Datagram((raw.0, target), payload))
      case Err(_) => None
  }

  /** The datagram that the relay sends for a reply, and where to. */
  function Outgoing(t: Text, r: Reply<Key>): (SocketAddr, bytes) {
    (r.to.0, WrapReply(t, r.to.1, r.payload))
  }

  /** Over every run: a conn carries a subsequence of what its source sent to its target, and
      every reply on it goes to that source in a datagram that parses to that target's port, the
      name as the other side reads it, and the exact payload. */
  lemma RelayIsolation(t: Text, events: seq<Event<(SocketAddr, bytes), Key>>, c: nat)
    requires IsRun(Headers(t), events) && c < |After(Steps(Headers(t), events)).tasks|
    ensures var steps := Steps(Headers(t), events);
      var s := After(steps);
      var (source, target) := s.tasks[c].key;
      && IsSubsequence(Sent(steps, c), Addressed(Headers(t), events, (source, target)))
      && forall r | r in s.replies && r.conn == c ::
           && Outgoing(t, r).0 == source
           && ParseHeader(t, Outgoing(t, r).1) ==
              Ok((HostPort(SeenHost(t, target.host), target.port), r.payload))
  {
    var steps := Steps(Headers(t), events);
    var s := After(steps);
    var (source, target) := s.tasks[c].key;
    Isolation(steps, c);
    SentIsSubsequence(steps, c, |Sent(steps, c)|);
    assert Sent(steps, c)[..|Sent(steps, c)|] == Sent(steps, c);
    ReceivedIsAddressed(Headers(t), events, (source, target));
    forall r | r in s.replies && r.conn == c
      ensures Outgoing(t, r).0 == source
      ensures ParseHeader(t, Outgoing(t, r).1) ==
              Ok((HostPort(SeenHost(t, target.host), target.port), r.payload))
    {
      ReplyParses(t, target, r.payload);
    }
  }

  /** The datagrams that named a conn's target are valid UTF-8 where they hold a domain name. */
  ghost predicate ValidNames(t: Text, events: seq<Event<(SocketAddr, bytes), Key>>, k: Key) {
    forall i: nat | Names(Headers(t), events, i, k) ::
      HasName(events[i].raw.1) ==> IsUtf8(t, events[i].raw.1[5..5 + events[i].raw.1[4]])
  }

  /** A reply names the very target that the source asked for, if and only if that is neither IPv6
      text other than the canonical one nor a name that is lost; and no valid name is. */
  lemma RelayNamesTarget(t: Text, events: seq<Event<(SocketAddr, bytes), Key>>, c: nat, payload: bytes)
    requires Lawful(t) && IsRun(Headers(t), events) && c < |After(Steps(Headers(t), events)).tasks|
    ensures var k := After(Steps(Headers(t), events)).tasks[c].key;
      && (ParseHeader(t, Outgoing(t, Reply(k, payload, c)).1) == Ok((k.1, payload)) <==>
            !IsLooseV6(t, k.1.host) && !IsLostName(t, k.1.host))
      && (ValidNames(t, events, k) ==> !IsLostName(t, k.1.host))
  {
    var k := After(Steps(Headers(t), events)).tasks[c].key;
    ReplyNamesTarget(t, k.1, payload);
    if ValidNames(t, events, k) {
      KeyIsNamed(Headers(t), events, c);
      var i: nat :| Names(Headers(t), events, i, k);
      ValidNameIsNotLost(t, events[i].raw.1);
    }
  }

  // ---------------------------------------------------------------------------
  // The two kinds of targets that replies do not name, as runs
  // ---------------------------------------------------------------------------

  lemma ThenEvent<R, K>(parse: Parser<R, K>, events: seq<Event<R, K>>, e: Event<R, K>, step: Step<K>)
    requires IsRun(parse, events) && Translate(parse, e) == [step] && (e.Other? ==> !step.Arrive?)
    requires UdpMux.Enabled(After(Steps(parse, events)), step)
    ensures IsRun(parse, events + [e])
    ensures After(Steps(parse, events + [e])) == Do(After(Steps(parse, events)), step)
  {
    assert (events + [e])[..|events|] == events;
    Then(Steps(parse, events), step);
  }

  /** A first datagram arrives, and a conn is made for it. */
  lemma FirstConn(t: Text, source: SocketAddr, buf: bytes) returns (events: seq<Event<(SocketAddr, bytes), Key>>)
    requires ParseHeader(t, buf).Ok? && FitsDatagram(ParseHeader(t, buf).value.1)
    ensures IsRun(Headers(t), events) && Raw((source, buf)) in events
    ensures var s := After(Steps(Headers(t), events));
      && s.replies == [] && |s.tasks| == 1 && s.tasks[0].stage.Opening?
      && s.tasks[0].key == (source, ParseHeader(t, buf).value.0)
  {
    var h := Headers(t);
    var (target, data) := ParseHeader(t, buf).value;
    events := [];
    ThenEvent(h, events, Raw((source, buf)), Arrive((source, target), data));
    events := events + [Raw((source, buf))];
    ThenEvent(h, events, Other(LookUp), LookUp);
    events := events + [Other(LookUp)];
    ThenEvent(h, events, Other(Create), Create);
    events := events + [Other(Create)];
  }

  /** That conn answers once. */
  lemma AnsweredOnce(t: Text, source: SocketAddr, buf: bytes, reply: bytes)
    returns (events: seq<Event<(SocketAddr, bytes), Key>>)
    requires ParseHeader(t, buf).Ok? && FitsDatagram(ParseHeader(t, buf).value.1) && FitsDatagram(reply)
    ensures IsRun(Headers(t), events) && Raw((source, buf)) in events
    ensures After(Steps(Headers(t), events)).replies == [Reply((source, ParseHeader(t, buf).value.0), reply, 0)]
  {
    events := FirstConn(t, source, buf);
    ThenEvent(Headers(t), events, Other(Connect(0)), Connect(0));
    events := events + [Other(Connect(0))];
    ThenEvent(Headers(t), events, Other(Answer(0, reply)), Answer(0, reply));
    events := events + [Other(Answer(0, reply))];
  }

  /** A run in which the source of a datagram gets a reply that names another target. */
  predicate IsMisnamed(t: Text, source: SocketAddr, buf: bytes, events: seq<Event<(SocketAddr, bytes), Key>>) {
    && IsRun(Headers(t), events) && Raw((source, buf)) in events && ParseHeader(t, buf).Ok?
    && |After(Steps(Headers(t), events)).replies| == 1
    && var (to, out) := Outgoing(t, After(Steps(Headers(t), events)).replies[0]);
       to == source && ParseHeader(t, out).Ok? && ParseHeader(t, out).value.0 != ParseHeader(t, buf).value.0
  }

  /** Whatever target a datagram names, there is a run in which it is answered, and the answer names
      another one if the target is of one of the two kinds. */
  lemma MisnamedInRun(t: Text, source: SocketAddr, buf: bytes, reply: bytes)
    returns (events: seq<Event<(SocketAddr, bytes), Key>>)
    requires Lawful(t) && ParseHeader(t, buf).Ok? && FitsDatagram(ParseHeader(t, buf).value.1) && FitsDatagram(reply)
    requires var host := ParseHeader(t, buf).value.0.host; IsLooseV6(t, host) || IsLostName(t, host)
    ensures IsMisnamed(t, source, buf, events)
  {
    var target := ParseHeader(t, buf).value.0;
    events := AnsweredOnce(t, source, buf, reply);
    ReplyParses(t, target, reply);
    ReplyNamesTarget(t, target, reply);
  }
}

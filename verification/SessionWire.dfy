/** The session hello between two parties: what each client sends and hears, byte by byte, and the
    server that all of them talk to. A connection may be lost at any byte. */
module SessionWire {
  import opened Basics
  import opened ByteStream
  import opened Remote
  import opened Dispatch
  import opened Framing
  import R = Registry
  import S = Session

  datatype HelloReply = Accepted(ids: seq<nat>) | Rejected(reason: string)

  /** The message encodings. */
  datatype Codecs = Codecs(hello: Codec<seq<RemoteRequest>>, reply: Codec<HelloReply>)

  /** Declarations lose the flow label and the scope of their local address on the way. */
  ghost predicate LawfulHello(c: Codec<seq<RemoteRequest>>) {
    forall rs :: c.encode(rs).Some? ==> c.decode(c.encode(rs).value) == Some(PlainAll(rs))
  }

  ghost predicate LawfulCodecs(k: Codecs) {
    LawfulHello(k.hello) && LawfulCodec(k.reply)
  }

  /** What `write_framed` puts on the stream, if the message can be framed. */
  function Frame<T>(codec: Codec<T>, m: T): Option<bytes> {
    match codec.encode(m)
    case None => None
    case Some(body) => if |body| <= U32_MAX then Some(EncodeFrame(body)) else None
  }

  /** What `read_framed` makes of the bytes of a stream. */
  function Heard<T>(codec: Codec<T>, b: bytes): Option<T> {
    match DecodeFrame(b)
    case Err(_) => None
    case Ok((body, _)) => codec.decode(body)
  }

  /** Whether the body is within the reader's cap. */
  predicate Readable<T>(codec: Codec<T>, m: T) {
    codec.encode(m).Some? && |codec.encode(m).value| <= 65_536
  }

  /** A message is heard exactly from the whole of its frame, and only if that is within the cap. */
  lemma HeardExactly<T>(codec: Codec<T>, m: T, heard: T, n: nat)
    requires Frame(codec, m).Some? && n <= |Frame(codec, m).value|
    requires codec.decode(codec.encode(m).value) == Some(heard)
    ensures var f := Frame(codec, m).value;
      Heard(codec, f[..n]) == if n == |f| && Readable(codec, m) then Some(heard) else None
  {
    FrameBeginning(codec.encode(m).value, n);
  }

  lemma SameWhenPlain(rs: seq<RemoteRequest>)
    ensures PlainAll(rs) == rs <==> forall i | 0 <= i < |rs| :: Plain(rs[i]) == rs[i]
  {
    if PlainAll(rs) == rs {
      forall i | 0 <= i < |rs| ensures Plain(rs[i]) == rs[i] {
        assert PlainAll(rs)[i] == rs[i];
      }
    }
  }

  /** A hello within the cap is heard as it was said if and only if no local address in it has a
      flow label or a scope. */
  lemma HelloHeardAsSaid(k: Codecs, rs: seq<RemoteRequest>)
    requires LawfulCodecs(k) && Readable(k.hello, rs)
    ensures Frame(k.hello, rs).Some?
    ensures Heard(k.hello, Frame(k.hello, rs).value) == Some(rs) <==>
            forall i | 0 <= i < |rs| :: HasPlainLocal(rs[i])
  {
    var f := Frame(k.hello, rs).value;
    HeardExactly(k.hello, rs, PlainAll(rs), |f|);
    assert f[..|f|] == f;
    SameWhenPlain(rs);
  }

  predicate HasPlainLocal(r: RemoteRequest) {
    r.kind.local.SocketAddrV6? ==> r.kind.local.flow == 0 && r.kind.local.scope == 0
  }

  lemma SameAllowed(p: Policy, rs: seq<RemoteRequest>)
    ensures AllAllowed(p, PlainAll(rs)) <==> AllAllowed(p, rs)
  {
    forall i | 0 <= i < |rs| ensures Allowed(p, PlainAll(rs)[i]) <==> Allowed(p, rs[i]) {
    }
  }

  // ---------------------------------------------------------------------------
  // Clients
  // ---------------------------------------------------------------------------

  /** A client's side of a session. */
  datatype Client =
    | Fresh
    | Sent(remotes: seq<RemoteRequest>)
    | Mapped(remotes: seq<RemoteRequest>, ids: seq<nat>, byId: map<nat, RemoteRequest>)
    | Failed

  /** `up` and `down` are the bytes written in either direction; `declared` and `reply` record a
      hello that was written in full, and the reply that the server began to write. */
  datatype Link = Link(
    client: Client, up: bytes, down: bytes, declared: Option<seq<RemoteRequest>>, reply: Option<HelloReply>)

  /** `client_send_session_hello` once the reply is there. */
  function HearReply(k: Codecs, rs: seq<RemoteRequest>, b: bytes): Client {
    var heard: Option<HelloReply> := Heard(k.reply, b);
    match heard
    case None => Failed
    case Some(Rejected(_)) => Failed
    case Some(Accepted(ids)) => if |ids| == |rs| then Mapped(rs, ids, IdMap(ids, rs)) else Failed
  }

  /** The client's half of the exchange as it runs on the stream: the hello out, the reply in, and
      the id map built from it. `finished` says whether the send half could be ended. */
  method ExchangeHello(k: Codecs, send: SendStream, recv: RecvStream, rs: seq<RemoteRequest>, finished: bool)
    returns (client: Client)
    modifies send, recv
    ensures var f := Frame(k.hello, rs);
      && (f.None? ==> client == Failed && send.written == old(send.written))
      && (f.Some? ==>
            && send.written == old(send.written) + f.value[..Min(|f.value|, old(send.budget))]
            && client == if |f.value| > old(send.budget) || !finished then Failed
                         else HearReply(k, rs, old(recv.Unread())))
  {
    var ok := WriteFramed(send, k.hello, rs);
    if !ok || !finished {
      return Failed;
    }
    var reply := ReadFramed(recv, k.reply);
    if reply.Err? || reply.value.Rejected? || |reply.value.ids| != |rs| {
      return Failed;
    }
    var byId := BuildIdMap(reply.value.ids, rs);
    client := Mapped(rs, reply.value.ids, byId);
  }

  // ---------------------------------------------------------------------------
  // Both parties
  // ---------------------------------------------------------------------------

  datatype World = World(server: S.Server, links: map<nat, Link>)

  const INITIAL := World(S.INITIAL, map[])

  /** `n` is how many bytes get through before the connection is lost, if it is. */
  datatype Step =
    | Connect(c: nat)
    | SendHello(c: nat, remotes: seq<RemoteRequest>, n: nat)
    | ServerReads(c: nat, n: nat)
    | ServerReplies(c: nat, n: nat, finished: bool)
    | ClientReads(c: nat, n: nat)
    | ClientEnds(c: nat)
    | ServerSteps(event: S.Event)

  /** The server's reply to the hello that it has read. */
  function ReplyOf(g: S.Phase): HelloReply {
    if g.Replying? then Accepted(g.ids) else Rejected("hello rejected")
  }

  predicate WholeReply(k: Codecs, g: S.Phase, n: nat, finished: bool) {
    var f := Frame(k.reply, ReplyOf(g));
    f.Some? && n >= |f.value| && finished
  }

  /** What a step is to the server alone. */
  function ServerEvent(k: Codecs, w: World, e: Step): Option<S.Event> {
    match e
    case ServerReads(c, n) =>
      if c in w.links && n <= |w.links[c].up| then
        match Heard(k.hello, w.links[c].up[..n])
        case Some(rs) => Some(S.HelloRead(c, rs))
        case None => Some(S.HelloLost(c, "hello rejected"))
      else None
    case ServerReplies(c, n, finished) =>
      if c in w.server.phases then Some(S.Reply(c, WholeReply(k, w.server.phases[c], n, finished))) else None
    case ServerSteps(event) => Some(event)
    case _ => None
  }

  predicate Enabled(p: Policy, k: Codecs, w: World, e: Step) {
    && (var s := ServerEvent(k, w, e); s.Some? ==> S.Enabled(p, w.server, s.value))
    && match e
       case Connect(c) => c !in w.links
       case SendHello(c, _, _) => c in w.links && w.links[c].client.Fresh?
       case ServerReads(c, n) => c in w.links && n <= |w.links[c].up| && c in w.server.phases
       case ServerReplies(c, _, _) => c in w.links && c in w.server.phases
       case ClientReads(c, n) => c in w.links && w.links[c].client.Sent? && n <= |w.links[c].down|
       case ClientEnds(c) => c in w.links
       case ServerSteps(event) => !event.HelloRead? && !event.Reply?
  }

  function Served(p: Policy, k: Codecs, w: World, e: Step): S.Server
    requires Enabled(p, k, w, e)
  {
    match ServerEvent(k, w, e)
    case Some(event) => S.Do(p, w.server, event)
    case None => w.server
  }

  function SayHello(k: Codecs, l: Link, rs: seq<RemoteRequest>, n: nat): Link {
    match Frame(k.hello, rs)
    case None => l.(client := Failed)
    case Some(f) =>
      if n < |f| then l.(client := Failed, up := f[..n])
      else l.(client := Sent(rs), up := f, declared := Some(rs))
  }

  function SayReply(k: Codecs, l: Link, r: HelloReply, n: nat): Link {
    match Frame(k.reply, r)
    case None => l
    case Some(f) => l.(down := f[..Min(n, |f|)], reply := Some(r))
  }

  function Do(p: Policy, k: Codecs, w: World, e: Step): World
    requires Enabled(p, k, w, e)
  {
    var w' := w.(server := Served(p, k, w, e));
    match e
    case Connect(c) => w'.(links := w.links[c := Link(Fresh, [], [], None, None)])
    case SendHello(c, rs, n) => w'.(links := w.links[c := SayHello(k, w.links[c], rs, n)])
    case ServerReads(_, _) => w'
    case ServerReplies(c, n, _) =>
      w'.(links := w.links[c := SayReply(k, w.links[c], ReplyOf(w.server.phases[c]), n)])
    case ClientReads(c, n) =>
      var l := w.links[c];
      w'.(links := w.links[c := l.(client := HearReply(k, l.client.remotes, l.down[..n]))])
    case ClientEnds(c) => w'.(links := w.links[c := w.links[c].(client := Failed)])
    case ServerSteps(_) => w'
  }

  predicate Possible(p: Policy, k: Codecs, steps: seq<Step>)
    decreases |steps|, 0
  {
    steps == [] ||
    (Possible(p, k, steps[..|steps| - 1]) && Enabled(p, k, After(p, k, steps[..|steps| - 1]), Last(steps)))
  }

  function After(p: Policy, k: Codecs, steps: seq<Step>): World
    requires Possible(p, k, steps)
    decreases |steps|, 1
  {
    if steps == [] then INITIAL else Do(p, k, After(p, k, steps[..|steps| - 1]), Last(steps))
  }

  // ---------------------------------------------------------------------------
  // The server's part of a run is a run of the server
  // ---------------------------------------------------------------------------

  function Events(p: Policy, k: Codecs, steps: seq<Step>): seq<S.Event>
    requires Possible(p, k, steps)
  {
    if steps == [] then []
    else
      var init := steps[..|steps| - 1];
      Events(p, k, init) +
        match ServerEvent(k, After(p, k, init), Last(steps)) { case Some(e) => [e] case None => [] }
  }

  lemma {:induction false} ServerRuns(p: Policy, k: Codecs, steps: seq<Step>)
    requires Possible(p, k, steps)
    ensures S.Possible(p, Events(p, k, steps)) && S.After(p, Events(p, k, steps)) == After(p, k, steps).server
  {
    if steps != [] {
      var init := steps[..|steps| - 1];
      ServerRuns(p, k, init);
      var events, all := Events(p, k, init), Events(p, k, steps);
      var e := ServerEvent(k, After(p, k, init), Last(steps));
      if e.Some? {
        assert all[..|all| - 1] == events && Last(all) == e.value;
      } else {
        assert all == events;
      }
    }
  }

  // ---------------------------------------------------------------------------
  // The invariant
  // ---------------------------------------------------------------------------

  /** A hello can be heard only if it was written in full. */
  ghost predicate UpOk(k: Codecs, l: Link) {
    if l.declared.Some? then Frame(k.hello, l.declared.value) == Some(l.up)
    else forall n | 0 <= n <= |l.up| :: Heard(k.hello, l.up[..n]).None?
  }

  /** What the server wrote is the beginning of its reply. */
  predicate DownOk(k: Codecs, l: Link) {
    if l.reply.None? then l.down == []
    else Frame(k.reply, l.reply.value).Some? && l.down <= Frame(k.reply, l.reply.value).value
  }

  /** An accepting reply carries ids that mean the declarations of the hello. */
  ghost predicate ReplyOk(p: Policy, ta: R.Tunnels, c: nat, l: Link) {
    l.reply.Some? && l.reply.value.Accepted? ==>
      l.declared.Some? && S.HelloOk(p, ta, c, PlainAll(l.declared.value), l.reply.value.ids)
  }

  /** The hello was written in full, and means these declarations. */
  predicate HasDeclared(l: Link, rs: seq<RemoteRequest>) {
    l.declared.Some? && PlainAll(l.declared.value) == rs
  }

  /** What the server's record of a client says about the link. */
  predicate PhaseLink(g: S.Phase, l: Link) {
    match g
    case Connected => l.reply.None?
    case Refusing => l.reply.None?
    case Replying(rs, _) => HasDeclared(l, rs) && l.reply.None?
    case Established(rs, ids) => HasDeclared(l, rs) && l.reply == Some(Accepted(ids))
    case Closing(rs, ids) => HasDeclared(l, rs) && l.reply == Some(Accepted(ids))
    case Closed => true
  }

  predicate ServerLink(s: S.Server, c: nat, l: Link) {
    if c in s.phases then PhaseLink(s.phases[c], l) else l.reply.None?
  }

  predicate ClientOk(l: Link) {
    match l.client
    case Fresh => l.declared.None?
    case Sent(rs) => l.declared == Some(rs)
    case Mapped(rs, ids, byId) =>
      && l.declared == Some(rs) && l.reply == Some(Accepted(ids))
      && |ids| == |rs| && byId == IdMap(ids, rs)
    case Failed => true
  }

  ghost predicate LinkOk(p: Policy, k: Codecs, s: S.Server, c: nat, l: Link) {
    && UpOk(k, l) && DownOk(k, l) && ClientOk(l)
    && ReplyOk(p, s.registry.tunnelArena, c, l) && ServerLink(s, c, l)
  }

  ghost predicate LinksOk(p: Policy, k: Codecs, w: World) {
    forall c | c in w.links :: LinkOk(p, k, w.server, c, w.links[c])
  }

  /** The server has read nothing from a client that has not connected. */
  ghost predicate UnlinkedOk(w: World) {
    forall c | c in w.server.phases && c !in w.links :: w.server.phases[c].Connected? || w.server.phases[c].Closed?
  }

  ghost predicate Inv(p: Policy, k: Codecs, w: World) {
    S.Inv(p, w.server) && LinksOk(p, k, w) && UnlinkedOk(w)
  }

  // ---------------------------------------------------------------------------
  // Every step keeps it
  // ---------------------------------------------------------------------------

  ghost predicate Grows(s: S.Server, s': S.Server) {
    R.TunnelsExtend(s.registry.tunnelArena, s.registry.nextTunnelId, s'.registry.tunnelArena)
  }

  lemma ServedGrows(p: Policy, k: Codecs, w: World, e: Step)
    requires R.Inv(w.server.registry) && Enabled(p, k, w, e)
    ensures Grows(w.server, Served(p, k, w, e))
  {
    var event := ServerEvent(k, w, e);
    if event.Some? {
      S.RegistryKeeps(p, w.server, event.value);
    }
  }

  lemma ServedKeeps(p: Policy, k: Codecs, w: World, e: Step)
    requires S.Inv(p, w.server) && Enabled(p, k, w, e)
    ensures S.Inv(p, Served(p, k, w, e))
  {
    var event := ServerEvent(k, w, e);
    if event.Some? {
      S.DoKeeps(p, w.server, event.value);
    }
  }

  lemma ReplyStays(p: Policy, ta: R.Tunnels, tn: nat, ta': R.Tunnels, c: nat, l: Link)
    requires ReplyOk(p, ta, c, l) && R.TunnelsExtend(ta, tn, ta')
    ensures ReplyOk(p, ta', c, l)
  {
    if l.reply.Some? && l.reply.value.Accepted? {
      S.HelloStays(p, ta, tn, ta', c, PlainAll(l.declared.value), l.reply.value.ids);
    }
  }

  /** The client whose record a step of the server changes. */
  function Subject(e: S.Event): Option<nat> {
    match e
    case Accept(c) => Some(c)
    case HelloLost(c, _) => Some(c)
    case HelloRead(c, _) => Some(c)
    case Reply(c, _) => Some(c)
    case Shutdown(c) => Some(c)
    case Close(c, _) => Some(c)
    case _ => None
  }

  lemma OtherPhases(p: Policy, s: S.Server, e: S.Event, c: nat)
    requires S.Enabled(p, s, e) && Subject(e) != Some(c)
    ensures var s' := S.Do(p, s, e);
      (c in s'.phases <==> c in s.phases) && (c in s.phases ==> s'.phases[c] == s.phases[c])
  {
  }

  /** A link that a step leaves alone stays in order if the server's record does. */
  lemma OtherLink(p: Policy, k: Codecs, s: S.Server, s': S.Server, c: nat, l: Link)
    requires LinkOk(p, k, s, c, l) && Grows(s, s')
    requires (c in s'.phases <==> c in s.phases) && (c in s.phases ==> s'.phases[c] == s.phases[c])
    ensures LinkOk(p, k, s', c, l)
  {
    ReplyStays(p, s.registry.tunnelArena, s.registry.nextTunnelId, s'.registry.tunnelArena, c, l);
  }

  // Clients' steps.

  lemma SayHelloKeeps(p: Policy, k: Codecs, s: S.Server, c: nat, l: Link, rs: seq<RemoteRequest>, n: nat)
    requires LawfulCodecs(k) && LinkOk(p, k, s, c, l) && l.client.Fresh?
    ensures LinkOk(p, k, s, c, SayHello(k, l, rs, n))
  {
    var f := Frame(k.hello, rs);
    if f.Some? && n < |f.value| {
      forall m | 0 <= m <= n ensures Heard(k.hello, f.value[..n][..m]).None? {
        assert f.value[..n][..m] == f.value[..m];
        HeardExactly(k.hello, rs, PlainAll(rs), m);
      }
    }
  }

  lemma HearReplyKeeps(p: Policy, k: Codecs, s: S.Server, c: nat, l: Link, n: nat)
    requires LawfulCodecs(k) && LinkOk(p, k, s, c, l) && l.client.Sent? && n <= |l.down|
    ensures LinkOk(p, k, s, c, l.(client := HearReply(k, l.client.remotes, l.down[..n])))
  {
    if l.reply.Some? {
      var f := Frame(k.reply, l.reply.value).value;
      assert l.down[..n] == f[..n];
      HeardExactly(k.reply, l.reply.value, l.reply.value, n);
    } else {
      assert DecodeFrame(l.down[..n]).Err?;
    }
  }

  lemma ClientStepKeeps(p: Policy, k: Codecs, w: World, e: Step)
    requires LawfulCodecs(k) && LinksOk(p, k, w) && UnlinkedOk(w) && Enabled(p, k, w, e)
    requires e.Connect? || e.SendHello? || e.ClientReads? || e.ClientEnds?
    ensures LinksOk(p, k, Do(p, k, w, e)) && UnlinkedOk(Do(p, k, w, e))
  {
    var w' := Do(p, k, w, e);
    assert w'.server == w.server;
    assert e.c in w.links ==> LinkOk(p, k, w.server, e.c, w.links[e.c]);
    if e.SendHello? {
      SayHelloKeeps(p, k, w.server, e.c, w.links[e.c], e.remotes, e.n);
    } else if e.ClientReads? {
      HearReplyKeeps(p, k, w.server, e.c, w.links[e.c], e.n);
    }
    forall c | c in w'.links ensures LinkOk(p, k, w'.server, c, w'.links[c]) {
      if c != e.c {
        assert LinkOk(p, k, w.server, c, w.links[c]);
      }
    }
  }

  // The server's steps.

  lemma ReadsKeeps(p: Policy, k: Codecs, w: World, c: nat, n: nat)
    requires LawfulCodecs(k) && LinksOk(p, k, w) && Enabled(p, k, w, ServerReads(c, n))
    requires Grows(w.server, Served(p, k, w, ServerReads(c, n)))
    ensures LinkOk(p, k, Served(p, k, w, ServerReads(c, n)), c, w.links[c])
  {
    var s', l := Served(p, k, w, ServerReads(c, n)), w.links[c];
    assert LinkOk(p, k, w.server, c, l);
    ReplyStays(p, w.server.registry.tunnelArena, w.server.registry.nextTunnelId, s'.registry.tunnelArena, c, l);
    if l.declared.Some? {
      HeardExactly(k.hello, l.declared.value, PlainAll(l.declared.value), n);
    }
  }

  /** The link once the server has written what it could of its reply. */
  lemma SayReplyKeeps(p: Policy, k: Codecs, ta: R.Tunnels, c: nat, l: Link, g: S.Phase, n: nat)
    requires UpOk(k, l) && DownOk(k, l) && ClientOk(l) && PhaseLink(g, l) && ReplyOk(p, ta, c, l)
    requires (g.Replying? || g.Refusing?) && S.PhaseOk(p, ta, c, g)
    ensures var l' := SayReply(k, l, ReplyOf(g), n);
      && UpOk(k, l') && DownOk(k, l') && ClientOk(l') && ReplyOk(p, ta, c, l')
      && (Frame(k.reply, ReplyOf(g)).Some? && g.Replying? ==> PhaseLink(S.Established(g.remotes, g.ids), l'))
  {
  }

  lemma RepliesKeeps(p: Policy, k: Codecs, w: World, c: nat, n: nat, finished: bool)
    requires LinksOk(p, k, w) && S.PhasesOk(p, w.server.registry.tunnelArena, w.server.phases)
    requires Enabled(p, k, w, ServerReplies(c, n, finished))
    requires Grows(w.server, Served(p, k, w, ServerReplies(c, n, finished)))
    ensures var e := ServerReplies(c, n, finished);
      LinkOk(p, k, Served(p, k, w, e), c, SayReply(k, w.links[c], ReplyOf(w.server.phases[c]), n))
  {
    var s, s' := w.server, Served(p, k, w, ServerReplies(c, n, finished));
    var l, g := w.links[c], s.phases[c];
    assert LinkOk(p, k, s, c, l) && S.PhaseOk(p, s.registry.tunnelArena, c, g);
    SayReplyKeeps(p, k, s.registry.tunnelArena, c, l, g, n);
    ReplyStays(p, s.registry.tunnelArena, s.registry.nextTunnelId, s'.registry.tunnelArena,
               c, SayReply(k, l, ReplyOf(g), n));
  }

  lemma EventKeeps(p: Policy, k: Codecs, w: World, event: S.Event, c: nat)
    requires LinksOk(p, k, w) && Enabled(p, k, w, ServerSteps(event)) && c in w.links
    requires Grows(w.server, S.Do(p, w.server, event))
    requires event.Accept? ==> event.client !in w.server.phases
    ensures LinkOk(p, k, S.Do(p, w.server, event), c, w.links[c])
  {
    var s', l := S.Do(p, w.server, event), w.links[c];
    assert LinkOk(p, k, w.server, c, l);
    if Subject(event) == Some(c) {
      ReplyStays(p, w.server.registry.tunnelArena, w.server.registry.nextTunnelId, s'.registry.tunnelArena, c, l);
    } else {
      OtherPhases(p, w.server, event, c);
      OtherLink(p, k, w.server, s', c, l);
    }
  }

  /** The links of the clients that a step is not about. */
  lemma OthersKeep(p: Policy, k: Codecs, w: World, event: S.Event, d: nat)
    requires LinksOk(p, k, w) && UnlinkedOk(w) && S.Enabled(p, w.server, event) && Subject(event) == Some(d)
    requires Grows(w.server, S.Do(p, w.server, event)) && d in w.links
    ensures var s' := S.Do(p, w.server, event);
      && (forall c | c in w.links && c != d :: LinkOk(p, k, s', c, w.links[c]))
      && (forall c | c in s'.phases && c !in w.links :: s'.phases[c].Connected? || s'.phases[c].Closed?)
  {
    var s' := S.Do(p, w.server, event);
    forall c | c in w.links && c != d ensures LinkOk(p, k, s', c, w.links[c]) {
      OtherPhases(p, w.server, event, c);
      OtherLink(p, k, w.server, s', c, w.links[c]);
    }
    forall c | c in s'.phases && c !in w.links ensures s'.phases[c].Connected? || s'.phases[c].Closed? {
      OtherPhases(p, w.server, event, c);
    }
  }

  lemma EventKeepsUnlinked(p: Policy, s: S.Server, event: S.Event, c: nat)
    requires S.Enabled(p, s, event) && !event.HelloRead? && !event.Reply?
    requires c in s.phases ==> s.phases[c].Connected? || s.phases[c].Closed?
    ensures var s' := S.Do(p, s, event); c in s'.phases ==> s'.phases[c].Connected? || s'.phases[c].Closed?
  {
  }

  lemma ServerStepKeeps(p: Policy, k: Codecs, w: World, e: Step)
    requires LawfulCodecs(k) && LinksOk(p, k, w) && UnlinkedOk(w) && Enabled(p, k, w, e)
    requires S.PhasesOk(p, w.server.registry.tunnelArena, w.server.phases)
    requires (e.ServerReads? || e.ServerReplies?) && Grows(w.server, Served(p, k, w, e))
    ensures LinksOk(p, k, Do(p, k, w, e)) && UnlinkedOk(Do(p, k, w, e))
  {
    OthersKeep(p, k, w, ServerEvent(k, w, e).value, e.c);
    if e.ServerReads? {
      ReadsKeeps(p, k, w, e.c, e.n);
    } else {
      RepliesKeeps(p, k, w, e.c, e.n, e.finished);
    }
  }

  lemma EventStepKeeps(p: Policy, k: Codecs, w: World, event: S.Event)
    requires LinksOk(p, k, w) && UnlinkedOk(w) && Enabled(p, k, w, ServerSteps(event))
    requires Grows(w.server, S.Do(p, w.server, event))
    requires event.Accept? ==> event.client !in w.server.phases
    ensures LinksOk(p, k, Do(p, k, w, ServerSteps(event))) && UnlinkedOk(Do(p, k, w, ServerSteps(event)))
  {
    var w' := Do(p, k, w, ServerSteps(event));
    forall c | c in w'.links ensures LinkOk(p, k, w'.server, c, w'.links[c]) {
      EventKeeps(p, k, w, event, c);
    }
    forall c | c in w'.server.phases && c !in w'.links
      ensures w'.server.phases[c].Connected? || w'.server.phases[c].Closed?
    {
      EventKeepsUnlinked(p, w.server, event, c);
    }
  }

  lemma DoKeeps(p: Policy, k: Codecs, w: World, e: Step)
    requires LawfulCodecs(k) && Inv(p, k, w) && Enabled(p, k, w, e)
    ensures Inv(p, k, Do(p, k, w, e))
  {
    ServedKeeps(p, k, w, e);
    ServedGrows(p, k, w, e);
    if e.ServerSteps? {
      EventStepKeeps(p, k, w, e.event);
    } else if e.ServerReads? || e.ServerReplies? {
      ServerStepKeeps(p, k, w, e);
    } else {
      ClientStepKeeps(p, k, w, e);
    }
  }

  lemma {:induction false} ReachableInv(p: Policy, k: Codecs, steps: seq<Step>)
    requires LawfulCodecs(k) && Possible(p, k, steps)
    ensures Inv(p, k, After(p, k, steps))
  {
    if steps == [] {
      S.ReachableInv(p, []);
    } else {
      ReachableInv(p, k, steps[..|steps| - 1]);
      DoKeeps(p, k, After(p, k, steps[..|steps| - 1]), Last(steps));
    }
  }

  // ---------------------------------------------------------------------------
  // Agreement
  // ---------------------------------------------------------------------------

  /** A client's map and the server's registry mean the same by every id, position by position, up
      to what is lost on the way. */
  ghost predicate SidesAgree(p: Policy, s: S.Server, c: nat, client: Client)
    requires client.Mapped?
  {
    && |client.ids| == |client.remotes| && AllAllowed(p, client.remotes)
    && (forall i | 0 <= i < |client.ids| ::
          && client.ids[i] in client.byId && client.byId[client.ids[i]] == client.remotes[i]
          && S.IsTunnelFor(s.registry.tunnelArena, client.ids[i], c, Plain(client.remotes[i])))
    && (forall id | id in client.byId :: id in client.ids)
  }

  /** The server's record of the client, if it has not closed it, is of the same hello and ids. */
  predicate SameSession(s: S.Server, c: nat, client: Client)
    requires client.Mapped?
  {
    && c in s.phases
    && (|| s.phases[c] == S.Established(PlainAll(client.remotes), client.ids)
        || s.phases[c] == S.Closing(PlainAll(client.remotes), client.ids)
        || s.phases[c].Closed?)
  }

  /** In every run, with any loss on the way: once a client has its map, that agrees position by
      position with what the server assigned, and the server either holds the same session or has
      closed that client. */
  lemma WireAgreement(p: Policy, k: Codecs, steps: seq<Step>, c: nat)
    requires LawfulCodecs(k) && Possible(p, k, steps)
    requires c in After(p, k, steps).links && After(p, k, steps).links[c].client.Mapped?
    ensures var w := After(p, k, steps);
      SameSession(w.server, c, w.links[c].client) && SidesAgree(p, w.server, c, w.links[c].client)
  {
    var w := After(p, k, steps);
    var l := w.links[c];
    ReachableInv(p, k, steps);
    assert LinkOk(p, k, w.server, c, l);
    AgreeFromLink(p, k, w.server, c, l);
  }

  lemma AgreeFromLink(p: Policy, k: Codecs, s: S.Server, c: nat, l: Link)
    requires LinkOk(p, k, s, c, l) && l.client.Mapped?
    ensures SameSession(s, c, l.client) && SidesAgree(p, s, c, l.client)
  {
    var rs := l.client.remotes;
    assert S.HelloOk(p, s.registry.tunnelArena, c, PlainAll(rs), l.client.ids);
    SameAllowed(p, rs);
    IdMapAgrees(l.client.ids, rs);
    forall i | 0 <= i < |l.client.ids|
      ensures S.IsTunnelFor(s.registry.tunnelArena, l.client.ids[i], c, Plain(rs[i]))
    {
      assert PlainAll(rs)[i] == Plain(rs[i]);
    }
  }

  /** The server's tunnels are the very declarations of a client that has its map, if and only if no
      local address among these has a flow label or a scope. */
  lemma ExactAgreement(p: Policy, k: Codecs, steps: seq<Step>, c: nat)
    requires LawfulCodecs(k) && Possible(p, k, steps)
    requires c in After(p, k, steps).links && After(p, k, steps).links[c].client.Mapped?
    ensures var w := After(p, k, steps);
      var client := w.links[c].client;
      && |client.ids| == |client.remotes|
      && ((forall i | 0 <= i < |client.ids| ::
             S.IsTunnelFor(w.server.registry.tunnelArena, client.ids[i], c, client.remotes[i])) <==>
          forall i | 0 <= i < |client.remotes| :: HasPlainLocal(client.remotes[i]))
  {
    WireAgreement(p, k, steps, c);
    var w := After(p, k, steps);
    var client := w.links[c].client;
    forall i | 0 <= i < |client.ids|
      ensures S.IsTunnelFor(w.server.registry.tunnelArena, client.ids[i], c, client.remotes[i]) <==>
              HasPlainLocal(client.remotes[i])
    {
      assert S.IsTunnelFor(w.server.registry.tunnelArena, client.ids[i], c, Plain(client.remotes[i]));
      assert client.remotes[i].kind == PlainKind(client.remotes[i].kind) <==> HasPlainLocal(client.remotes[i]);
    }
  }

  /** A client whose hello the policy forbids, or that is over the cap, never gets a map. */
  lemma OnlyReadableHellosMap(p: Policy, k: Codecs, steps: seq<Step>, c: nat)
    requires LawfulCodecs(k) && Possible(p, k, steps)
    requires c in After(p, k, steps).links && After(p, k, steps).links[c].client.Mapped?
    ensures var client := After(p, k, steps).links[c].client;
      && Permits(p, client.remotes)
      && Readable(k.hello, client.remotes) && Readable(k.reply, Accepted(client.ids))
  {
    AllowedIsPermitted(p, After(p, k, steps).links[c].client.remotes);
    WireAgreement(p, k, steps, c);
    MappedIsReadable(p, k, steps, c);
  }

  /** What was heard was readable. */
  ghost predicate HeardReadable(k: Codecs, s: S.Server, c: nat, l: Link) {
    && (c in s.phases && (s.phases[c].Refusing? || s.phases[c].Declared()) ==>
          l.declared.Some? && Readable(k.hello, l.declared.value))
    && (l.reply.Some? ==> l.declared.Some? && Readable(k.hello, l.declared.value))
    && (l.client.Mapped? ==> Readable(k.reply, Accepted(l.client.ids)))
  }

  lemma ServerHeardReadable(p: Policy, k: Codecs, w: World, e: Step, c: nat)
    requires LawfulCodecs(k) && LinksOk(p, k, w) && Enabled(p, k, w, e) && ServerEvent(k, w, e).Some?
    requires c in w.links && HeardReadable(k, w.server, c, w.links[c])
    ensures var w' := Do(p, k, w, e); HeardReadable(k, w'.server, c, w'.links[c])
  {
    var l, event := w.links[c], ServerEvent(k, w, e).value;
    assert LinkOk(p, k, w.server, c, l);
    if Subject(event) != Some(c) {
      OtherPhases(p, w.server, event, c);
    } else if e.ServerReads? && l.declared.Some? {
      HeardExactly(k.hello, l.declared.value, PlainAll(l.declared.value), e.n);
    }
  }

  lemma ClientHeardReadable(p: Policy, k: Codecs, w: World, e: Step, c: nat)
    requires LawfulCodecs(k) && LinksOk(p, k, w) && UnlinkedOk(w) && Enabled(p, k, w, e)
    requires ServerEvent(k, w, e).None?
    requires c in w.links ==> HeardReadable(k, w.server, c, w.links[c])
    ensures var w' := Do(p, k, w, e); c in w'.links ==> HeardReadable(k, w'.server, c, w'.links[c])
  {
    if c in w.links {
      assert LinkOk(p, k, w.server, c, w.links[c]);
      if e.ClientReads? && e.c == c {
        ClientHeard(k, w.links[c], e.n);
      }
    }
  }

  lemma StepHeardReadable(p: Policy, k: Codecs, w: World, e: Step, c: nat)
    requires LawfulCodecs(k) && LinksOk(p, k, w) && UnlinkedOk(w) && Enabled(p, k, w, e)
    requires c in w.links ==> HeardReadable(k, w.server, c, w.links[c])
    ensures var w' := Do(p, k, w, e); c in w'.links ==> HeardReadable(k, w'.server, c, w'.links[c])
  {
    if ServerEvent(k, w, e).None? {
      ClientHeardReadable(p, k, w, e, c);
    } else if c in w.links {
      ServerHeardReadable(p, k, w, e, c);
    }
  }

  lemma ClientHeard(k: Codecs, l: Link, n: nat)
    requires LawfulCodecs(k) && DownOk(k, l) && n <= |l.down| && l.client.Sent?
    ensures var client := HearReply(k, l.client.remotes, l.down[..n]);
      client.Mapped? ==> Readable(k.reply, Accepted(client.ids))
  {
    if l.reply.Some? {
      var f := Frame(k.reply, l.reply.value).value;
      assert l.down[..n] == f[..n];
      HeardExactly(k.reply, l.reply.value, l.reply.value, n);
    } else {
      assert DecodeFrame(l.down[..n]).Err?;
    }
  }

  lemma {:induction false} MappedIsReadable(p: Policy, k: Codecs, steps: seq<Step>, c: nat)
    requires LawfulCodecs(k) && Possible(p, k, steps) && c in After(p, k, steps).links
    ensures HeardReadable(k, After(p, k, steps).server, c, After(p, k, steps).links[c])
    ensures var l := After(p, k, steps).links[c];
      l.client.Mapped? ==> l.reply.Some? && l.declared == Some(l.client.remotes)
  {
    var init := steps[..|steps| - 1];
    ReachableInv(p, k, init);
    if c in After(p, k, init).links {
      MappedIsReadable(p, k, init, c);
    }
    StepHeardReadable(p, k, After(p, k, init), Last(steps), c);
    ReachableInv(p, k, steps);
    assert LinkOk(p, k, After(p, k, steps).server, c, After(p, k, steps).links[c]);
  }

  // ---------------------------------------------------------------------------
  // The outcome when nothing is lost
  // ---------------------------------------------------------------------------

  /** The client has sent its hello and the server is waiting for one. */
  ghost predicate CanExchange(p: Policy, k: Codecs, w: World, c: nat) {
    && c in w.links && LinkOk(p, k, w.server, c, w.links[c]) && w.links[c].client.Sent?
    && c in w.server.phases && w.server.phases[c].Connected? && c in w.server.registry.clients
  }

  lemma WaitingCanExchange(p: Policy, k: Codecs, steps: seq<Step>, c: nat)
    requires LawfulCodecs(k) && Possible(p, k, steps)
    requires var w := After(p, k, steps);
      c in w.links && w.links[c].client.Sent? && c in w.server.phases && w.server.phases[c].Connected?
    ensures CanExchange(p, k, After(p, k, steps), c)
  {
    var w := After(p, k, steps);
    ReachableInv(p, k, steps);
    assert LinkOk(p, k, w.server, c, w.links[c]);
  }

  lemma AllIsRead(p: Policy, k: Codecs, w: World, c: nat)
    requires LawfulCodecs(k) && CanExchange(p, k, w, c)
    ensures Enabled(p, k, w, ServerReads(c, |w.links[c].up|))
    ensures var w', rs := Do(p, k, w, ServerReads(c, |w.links[c].up|)), w.links[c].client.remotes;
      && w'.links == w.links && c in w'.server.phases
      && w'.server.phases[c] == PhaseAfter(p, k, rs, S.AssignedIds(w.server.registry, rs))
  {
    var l := w.links[c];
    HeardExactly(k.hello, l.client.remotes, PlainAll(l.client.remotes), |l.up|);
    SameAllowed(p, l.client.remotes);
    assert l.up[..|l.up|] == l.up;
  }

  function ReplyLength(k: Codecs, g: S.Phase): nat {
    match Frame(k.reply, ReplyOf(g))
    case None => 0
    case Some(f) => |f|
  }

  lemma AllIsReplied(p: Policy, k: Codecs, w: World, c: nat)
    requires c in w.links && c in w.server.phases
    requires w.server.phases[c].Replying? || w.server.phases[c].Refusing?
    ensures var g := w.server.phases[c];
      var e := ServerReplies(c, ReplyLength(k, g), true);
      && Enabled(p, k, w, e)
      && var l, l' := w.links[c], Do(p, k, w, e).links[c];
         && l'.client == l.client
         && l'.down == match Frame(k.reply, ReplyOf(g)) { case None => l.down case Some(f) => f }
  {
    var f := Frame(k.reply, ReplyOf(w.server.phases[c]));
    assert f.Some? ==> f.value[..|f.value|] == f.value;
  }

  /** What the client makes of a whole reply. */
  lemma ReplyHeard(k: Codecs, rs: seq<RemoteRequest>, r: HelloReply, down: bytes)
    requires LawfulCodecs(k) && down == Frame(k.reply, r).GetOr([])
    ensures HearReply(k, rs, down[..|down|]) ==
            if Readable(k.reply, r) && r.Accepted? && |r.ids| == |rs| then Mapped(rs, r.ids, IdMap(r.ids, rs))
            else Failed
  {
    if Frame(k.reply, r).Some? {
      HeardExactly(k.reply, r, r, |down|);
    } else {
      assert DecodeFrame(down[..|down|]).Err?;
    }
  }

  lemma Then(p: Policy, k: Codecs, steps: seq<Step>, e: Step)
    requires Possible(p, k, steps) && Enabled(p, k, After(p, k, steps), e)
    ensures Possible(p, k, steps + [e]) && After(p, k, steps + [e]) == Do(p, k, After(p, k, steps), e)
  {
    assert (steps + [e])[..|steps|] == steps;
  }

  /** The phase in which the server is once it has read the whole hello. */
  function PhaseAfter(p: Policy, k: Codecs, rs: seq<RemoteRequest>, ids: seq<nat>): S.Phase {
    if !Readable(k.hello, rs) then S.Closed
    else if AllAllowed(p, rs) then S.Replying(PlainAll(rs), ids)
    else S.Refusing
  }

  /** What the client makes of the whole reply to that. */
  function ClientAfter(k: Codecs, rs: seq<RemoteRequest>, g: S.Phase): Client {
    var r := ReplyOf(g);
    if !g.Closed? && Readable(k.reply, r) && r.Accepted? && |r.ids| == |rs| then Mapped(rs, r.ids, IdMap(r.ids, rs))
    else Failed
  }

  /** What the server makes of the whole hello. */
  lemma HelloIsRead(p: Policy, k: Codecs, steps: seq<Step>, c: nat) returns (e: Step)
    requires LawfulCodecs(k) && Possible(p, k, steps)
    requires var w := After(p, k, steps);
      c in w.links && w.links[c].client.Sent? && c in w.server.phases && w.server.phases[c].Connected?
    ensures e.ServerReads? && e.c == c && Possible(p, k, steps + [e])
    ensures var w, w' := After(p, k, steps), After(p, k, steps + [e]);
      var rs := w.links[c].client.remotes;
      && c in w'.links && w'.links[c].client == Sent(rs) && w'.links[c].down == [] && c in w'.server.phases
      && w'.server.phases[c] == PhaseAfter(p, k, rs, S.AssignedIds(w.server.registry, rs))
  {
    var w := After(p, k, steps);
    e := ServerReads(c, |w.links[c].up|);
    WaitingCanExchange(p, k, steps, c);
    AllIsRead(p, k, w, c);
    Then(p, k, steps, e);
  }

  /** The client of a link is as given, at the end of a run. */
  ghost predicate EndsAs(p: Policy, k: Codecs, steps: seq<Step>, c: nat, client: Client) {
    Possible(p, k, steps) && c in After(p, k, steps).links && After(p, k, steps).links[c].client == client
  }

  /** The server is done with a hello, and has not replied yet. */
  ghost predicate AwaitsReply(p: Policy, k: Codecs, steps: seq<Step>, c: nat, rs: seq<RemoteRequest>, g: S.Phase) {
    && EndsAs(p, k, steps, c, Sent(rs)) && After(p, k, steps).links[c].down == []
    && c in After(p, k, steps).server.phases && After(p, k, steps).server.phases[c] == g
  }

  lemma GiveUp(p: Policy, k: Codecs, steps: seq<Step>, c: nat, rs: seq<RemoteRequest>, g: S.Phase)
    requires AwaitsReply(p, k, steps, c, rs, g)
    ensures EndsAs(p, k, steps + [ClientReads(c, 0)], c, Failed)
  {
    Then(p, k, steps, ClientReads(c, 0));
    assert DecodeFrame([]).Err?;
  }

  lemma HearReplied(p: Policy, k: Codecs, steps: seq<Step>, c: nat, rs: seq<RemoteRequest>, g: S.Phase)
    returns (n: nat)
    requires LawfulCodecs(k) && AwaitsReply(p, k, steps, c, rs, g) && (g.Replying? || g.Refusing?)
    ensures var reply := ServerReplies(c, ReplyLength(k, g), true);
      EndsAs(p, k, steps + [reply] + [ClientReads(c, n)], c, ClientAfter(k, rs, g))
  {
    var w, reply := After(p, k, steps), ServerReplies(c, ReplyLength(k, g), true);
    AllIsReplied(p, k, w, c);
    Then(p, k, steps, reply);
    var down := After(p, k, steps + [reply]).links[c].down;
    n := |down|;
    Then(p, k, steps + [reply], ClientReads(c, n));
    ReplyHeard(k, rs, ReplyOf(g), down);
  }

  /** The steps of the exchange when nothing is lost and nobody interferes: the server reads, replies
      if it has a reply to make, and the client reads. */
  predicate IsExchange(c: nat, more: seq<Step>) {
    && 2 <= |more| <= 3 && more[0].ServerReads? && Last(more).ClientReads?
    && (|more| == 3 ==> more[1].ServerReplies?)
    && more[0].c == c && more[1].c == c && Last(more).c == c
  }

  lemma Outcome(p: Policy, k: Codecs, rs: seq<RemoteRequest>, ids: seq<nat>)
    requires |ids| == |rs|
    ensures ClientAfter(k, rs, PhaseAfter(p, k, rs, ids)) ==
            if Readable(k.hello, rs) && AllAllowed(p, rs) && Readable(k.reply, Accepted(ids))
            then Mapped(rs, ids, IdMap(ids, rs)) else Failed
  {
  }

  /** In every run: a hello that was sent and that the server waits for ends in a map if and only if
      it is within the cap, the policy allows all of it, and the reply is within the cap; the map
      is then that of the fresh ids. */
  lemma ExchangeOutcome(p: Policy, k: Codecs, steps: seq<Step>, c: nat) returns (more: seq<Step>)
    requires LawfulCodecs(k) && Possible(p, k, steps)
    requires var w := After(p, k, steps);
      c in w.links && w.links[c].client.Sent? && c in w.server.phases && w.server.phases[c].Connected?
    ensures var rs := After(p, k, steps).links[c].client.remotes;
      var ids := S.AssignedIds(After(p, k, steps).server.registry, rs);
      && IsExchange(c, more)
      && EndsAs(p, k, steps + more, c,
                if Readable(k.hello, rs) && Permits(p, rs) && Readable(k.reply, Accepted(ids))
                then Mapped(rs, ids, IdMap(ids, rs)) else Failed)
  {
    var w := After(p, k, steps);
    var rs := w.links[c].client.remotes;
    var ids := S.AssignedIds(w.server.registry, rs);
    var e := HelloIsRead(p, k, steps, c);
    Outcome(p, k, rs, ids);
    AllowedIsPermitted(p, rs);
    var g := PhaseAfter(p, k, rs, ids);
    if g.Closed? {
      GiveUp(p, k, steps + [e], c, rs, g);
      more := [e, ClientReads(c, 0)];
      assert steps + more == steps + [e] + [ClientReads(c, 0)];
    } else {
      var n := HearReplied(p, k, steps + [e], c, rs, g);
      var reply := ServerReplies(c, ReplyLength(k, g), true);
      more := [e, reply, ClientReads(c, n)];
      assert steps + more == steps + [e] + [reply] + [ClientReads(c, n)];
    }
  }

  // ---------------------------------------------------------------------------
  // Openers on the wire
  // ---------------------------------------------------------------------------

  /** An opener is read exactly, and the data behind it is left alone. */
  lemma OpenerRead(codec: Codec<OpenConn>, o: OpenConn, data: bytes)
    requires LawfulCodec(codec) && Readable(codec, o)
    ensures Frame(codec, o).Some? && Heard(codec, Frame(codec, o).value + data) == Some(o)
    ensures DecodeFrame(Frame(codec, o).value + data).value.1 == data
  {
    FrameRoundTrip(codec.encode(o).value, data);
  }

  /** While both sides hold the session, an opener that the client's handler for declaration `i`
      writes is read by the server as it was meant, and accepted for the right destination; only
      that of a stdio SOCKS declaration is refused. */
  lemma ForwardOpenersAccepted(
      p: Policy, k: Codecs, codec: Codec<OpenConn>, steps: seq<Step>, c: nat, i: nat, o: OpenConn, data: bytes)
    requires LawfulCodecs(k) && LawfulCodec(codec) && Readable(codec, o) && Possible(p, k, steps)
    requires var w := After(p, k, steps);
      && c in w.links && w.links[c].client.Mapped? && c in w.server.phases && w.server.phases[c].Established?
      && i < |w.links[c].client.ids| && i < |w.links[c].client.remotes|
      && ClientOpens(w.links[c].client.remotes[i], w.links[c].client.ids[i], o)
    ensures var w := After(p, k, steps);
      var r, heard := w.links[c].client.remotes[i], Heard(codec, Frame(codec, o).GetOr([]) + data);
      && heard == Some(o)
      && (S.OpenRequest(w.server, o) == [] <==> r.stdio && r.kind.Socks5Remote?)
      && (S.OpenRequest(w.server, o) != [] ==>
            GoesTo(S.OpenRequest(w.server, o)[0].dispatch, PlainKind(r.kind), o.dynamic))
  {
    OpenerRead(codec, o, data);
    WireAgreement(p, k, steps, c);
    ServerRuns(p, k, steps);
    var rs := After(p, k, steps).links[c].client.remotes;
    assert PlainAll(rs)[i] == Plain(rs[i]);
    S.ForwardConnsAccepted(p, Events(p, k, steps), c, i, o);
  }

  lemma ReverseResolved(p: Policy, s: S.Server, c: nat, client: Client, i: nat, o: OpenConn)
    requires client.Mapped? && SameSession(s, c, client) && SidesAgree(p, s, c, client)
    requires S.ListenerOk(s.phases, c, i) && i < |client.ids| && client.ids[i] in s.registry.tunnelArena
    requires ListenerOpens(s.registry.tunnelArena[client.ids[i]].kind, client.ids[i], o)
    ensures i < |client.remotes| && o.tunnelId in client.byId
    ensures var d := ResolveReverse(client.byId[o.tunnelId], o.dynamic);
      d.Ok? && GoesTo(d.value, client.remotes[i].kind, o.dynamic)
  {
    assert PlainAll(client.remotes)[i] == Plain(client.remotes[i]);
    assert S.IsTunnelFor(s.registry.tunnelArena, client.ids[i], c, Plain(client.remotes[i]));
    ClientResolves(client.remotes[i], o.dynamic);
  }

  /** While both sides hold the session, an opener that the server's listener for the client's
      declaration `i` writes is read by the client as it was meant, found in the client's own map,
      and sent to the right destination. */
  lemma ReverseOpenersAccepted(
      p: Policy, k: Codecs, codec: Codec<OpenConn>, steps: seq<Step>, c: nat, i: nat, o: OpenConn, data: bytes)
    requires LawfulCodecs(k) && LawfulCodec(codec) && Readable(codec, o) && Possible(p, k, steps)
    requires var w := After(p, k, steps);
      && c in w.links && w.links[c].client.Mapped? && (c, i) in w.server.listeners
      && i < |w.links[c].client.ids| && w.links[c].client.ids[i] in w.server.registry.tunnelArena
      && ListenerOpens(w.server.registry.tunnelArena[w.links[c].client.ids[i]].kind, w.links[c].client.ids[i], o)
    ensures var client, heard := After(p, k, steps).links[c].client, Heard(codec, Frame(codec, o).GetOr([]) + data);
      && heard == Some(o) && o.tunnelId in client.byId && i < |client.remotes|
      && var d := ResolveReverse(client.byId[o.tunnelId], o.dynamic);
         d.Ok? && GoesTo(d.value, client.remotes[i].kind, o.dynamic)
  {
    var w := After(p, k, steps);
    OpenerRead(codec, o, data);
    WireAgreement(p, k, steps, c);
    ServerRuns(p, k, steps);
    S.ReachableInv(p, Events(p, k, steps));
    assert S.ListenerOk(w.server.phases, c, i);
    ReverseResolved(p, w.server, c, w.links[c].client, i, o);
  }
}

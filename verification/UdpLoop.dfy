/** The receive loop of the multiplexer as code: one iteration, when nothing interrupts it. */
module UdpLoop {
  import opened Basics
  import opened Framing
  import opened UdpMux

  /** The loop's next step. */
  function NextStep<K>(l: Loop): Step<K>
    requires !l.Receiving?
  {
    match l
    case LookingUp => LookUp
    case Found(_) => CheckClosed
    case Evicting => Evict
    case Creating => Create
    case Sending(_) => TrySend
  }

  function StepsLeft(l: Loop): nat {
    match l
    case LookingUp => 5
    case Found(_) => 4
    case Evicting => 3
    case Creating => 2
    case Sending(_) => 1
    case Receiving => 0
  }

  /** What the loop needs to go on. */
  ghost predicate Ready<K(!new)>(s: State<K>) {
    MapOk(s.conns, s.tasks) && LoopOk(s)
  }

  lemma NextReady<K(!new)>(s: State<K>)
    requires Ready(s) && !s.loop.Receiving?
    ensures Enabled(s, NextStep(s.loop))
    ensures Ready(Do(s, NextStep(s.loop))) && StepsLeft(Do(s, NextStep(s.loop)).loop) < StepsLeft(s.loop)
  {
  }

  /** The loop alone, until it waits for the next datagram. */
  ghost function RunLoop<K(!new)>(s: State<K>): State<K>
    requires Ready(s)
    decreases StepsLeft(s.loop)
  {
    if s.loop.Receiving? then s
    else
      NextReady(s);
      RunLoop(Do(s, NextStep(s.loop)))
  }

  lemma {:induction false} RunLoopKeeps<K(!new)>(s: State<K>)
    requires Inv(s)
    ensures Inv(RunLoop(s)) && RunLoop(s).loop.Receiving?
    decreases StepsLeft(s.loop)
  {
    if !s.loop.Receiving? {
      NextReady(s);
      DoKeeps(s, NextStep(s.loop));
      RunLoopKeeps(Do(s, NextStep(s.loop)));
    }
  }

  /** The entry of a key leads to an open conn. */
  predicate HasConn<K(==)>(s: State<K>, k: K) {
    k in s.conns && s.conns[k] < |s.tasks| && !s.tasks[s.conns[k]].Closed()
  }

  /** Datagram `index` is queued on conn `c`, or dropped. */
  function Queued<K>(s: State<K>, c: nat, index: nat): State<K>
    requires c < |s.tasks|
  {
    var t := s.tasks[c];
    if t.Closed() || |t.queue| >= CHANNEL_CAPACITY then s.(dropped := s.dropped + [index])
    else s.(tasks := s.tasks[c := t.(queue := t.queue + [index])])
  }

  function Fresh<K>(k: K): Task<K> {
    Task(k, Opening, [], None, [], [])
  }

  /** What one datagram does: it is queued on its key's conn, which is new unless the map leads to
      an open one. */
  function Handled<K(==)>(s: State<K>, k: K, p: bytes): State<K> {
    var s' := s.(log := s.log + [Datagram(k, p)]);
    if HasConn(s, k) then Queued(s', s.conns[k], |s.log|)
    else Queued(s'.(conns := s.conns[k := |s.tasks|], tasks := s.tasks + [Fresh(k)]), |s.tasks|, |s.log|)
  }

  lemma Unfold<K(!new)>(s: State<K>)
    requires Ready(s) && !s.loop.Receiving?
    ensures Enabled(s, NextStep(s.loop)) && Ready(Do(s, NextStep(s.loop)))
    ensures RunLoop(s) == RunLoop(Do(s, NextStep(s.loop)))
  {
    NextReady(s);
  }

  /** The last datagram is queued on conn `c`. */
  function QueuedOn<K>(s: State<K>, c: nat): State<K>
    requires c < |s.tasks| && s.log != []
  {
    Queued(s.(loop := Receiving), c, |s.log| - 1)
  }

  /** The last datagram is queued on a new conn for its key. */
  function QueuedOnNew<K>(s: State<K>, k: K): State<K>
    requires s.log != []
  {
    QueuedOn(s.(conns := s.conns[k := |s.tasks|], tasks := s.tasks + [Fresh(k)]), |s.tasks|)
  }

  lemma SendingRun<K(!new)>(s: State<K>, c: nat)
    requires Ready(s) && s.loop == Sending(c)
    ensures RunLoop(s) == QueuedOn(s, c)
  {
    Unfold(s);
  }

  lemma CreatingRun<K(!new)>(s: State<K>, k: K)
    requires Ready(s) && s.loop.Creating? && Last(s.log).key == k
    ensures RunLoop(s) == QueuedOnNew(s, k)
  {
    Unfold(s);
    SendingRun(Do(s, Create), |s.tasks|);
  }

  lemma EvictingRun<K(!new)>(s: State<K>, k: K)
    requires Ready(s) && s.loop.Evicting? && Last(s.log).key == k
    ensures RunLoop(s) == QueuedOnNew(s, k)
  {
    Unfold(s);
    CreatingRun(Do(s, Evict), k);
    EvictedSame(s, k);
  }

  lemma EvictedSame<K>(s: State<K>, k: K)
    requires s.log != []
    ensures QueuedOnNew(s.(conns := s.conns - {k}, loop := Creating), k) == QueuedOnNew(s, k)
  {
    assert (s.conns - {k})[k := |s.tasks|] == s.conns[k := |s.tasks|];
  }

  lemma FoundRun<K(!new)>(s: State<K>, c: nat, k: K)
    requires Ready(s) && s.loop == Found(c) && Last(s.log).key == k
    ensures RunLoop(s) == if s.tasks[c].Closed() then QueuedOnNew(s, k) else QueuedOn(s, c)
  {
    Unfold(s);
    if s.tasks[c].Closed() {
      EvictingRun(Do(s, CheckClosed), k);
    } else {
      SendingRun(Do(s, CheckClosed), c);
    }
  }

  /** The steps of the loop, when nothing comes between them, have just that effect. */
  lemma HandledIsRun<K(!new)>(s: State<K>, k: K, p: bytes)
    requires Ready(s) && s.loop.Receiving? && FitsDatagram(p)
    ensures Ready(Do(s, Arrive(k, p)))
    ensures RunLoop(Do(s, Arrive(k, p))) == Handled(s, k, p)
  {
    var s1 := Do(s, Arrive(k, p));
    Unfold(s1);
    if k in s.conns {
      FoundRun(Do(s1, LookUp), s.conns[k], k);
    } else {
      CreatingRun(Do(s1, LookUp), k);
    }
  }

  /** What became of the datagram: it is the last one in the queue of the conn that its key leads to,
      an open one if there was one and else a new one, unless 4096 were queued there already. */
  ghost predicate Delivered<K(!new)>(s: State<K>, k: K, p: bytes, s': State<K>) {
    && s'.log == s.log + [Datagram(k, p)] && k in s'.conns
    && (forall d | d in s.conns && d != k :: d in s'.conns && s'.conns[d] == s.conns[d])
    && var c := s'.conns[k];
       && c < |s'.tasks| && s'.tasks[c].key == k && !s'.tasks[c].Closed()
       && (if HasConn(s, k) then c == s.conns[k] && |s'.tasks| == |s.tasks|
           else c == |s.tasks| && |s'.tasks| == |s.tasks| + 1)
       && (forall d | 0 <= d < |s.tasks| && d != c :: s'.tasks[d] == s.tasks[d])
       && var queue := if c < |s.tasks| then s.tasks[c].queue else [];
          if |queue| < 4096 then s'.tasks[c].queue == queue + [|s.log|] && s'.dropped == s.dropped
          else s'.tasks[c].queue == queue && s'.dropped == s.dropped + [|s.log|]
  }

  lemma HandledDelivers<K(!new)>(s: State<K>, k: K, p: bytes)
    requires Inv(s)
    ensures Delivered(s, k, p, Handled(s, k, p))
  {
  }

  lemma HandledKeeps<K(!new)>(s: State<K>, k: K, p: bytes)
    requires Inv(s) && s.loop.Receiving? && FitsDatagram(p)
    ensures Inv(Handled(s, k, p))
  {
    HandledIsRun(s, k, p);
    DoKeeps(s, Arrive(k, p));
    RunLoopKeeps(Do(s, Arrive(k, p)));
  }

  class Multiplexer<K(==,!new)> {
    var conns: map<K, nat>
    var tasks: seq<Task<K>>
    ghost var log: seq<Datagram<K>>
    ghost var replies: seq<Reply<K>>
    ghost var dropped: seq<nat>

    ghost function Abs(): State<K>
      reads this
    {
      State(log, conns, tasks, Receiving, replies, dropped)
    }

    constructor ()
      ensures Inv(Abs()) && Abs() == Initial()
    {
      conns, tasks, log, replies, dropped := map[], [], [], [], [];
    }

    /** The conn of a key: the mapped one while it is open, else a new one. */
    method ConnFor(key: K) returns (c: nat)
      requires key in conns ==> conns[key] < |tasks|
      modifies this`conns, this`tasks
      ensures old(HasConn(Abs(), key)) ==> c == old(conns[key]) && conns == old(conns) && tasks == old(tasks)
      ensures !old(HasConn(Abs(), key)) ==>
                c == |old(tasks)| && conns == old(conns)[key := c] && tasks == old(tasks) + [Fresh(key)]
    {
      if key in conns && tasks[conns[key]].Closed() {
        conns := conns - {key};
      }
      if key in conns {
        c := conns[key];
      } else {
        c := |tasks|;
        conns := conns[key := c];
        tasks := tasks + [Fresh(key)];
      }
    }

    /** Queues a datagram, or drops it when the queue is closed or full. */
    method TryQueue(c: nat, index: nat)
      requires c < |tasks|
      modifies this`tasks, this`dropped
      ensures Abs() == Queued(old(Abs()), c, index)
    {
      if !tasks[c].Closed() && |tasks[c].queue| < CHANNEL_CAPACITY {
        tasks := tasks[c := tasks[c].(queue := tasks[c].queue + [index])];
      } else {
        dropped := dropped + [index];
      }
    }

    /** One iteration of the receive loop. `index` numbers the datagrams. */
    method OnDatagram(key: K, payload: bytes, index: nat)
      requires Inv(Abs()) && FitsDatagram(payload) && index == |log|
      modifies this
      ensures Inv(Abs()) && Abs() == Handled(old(Abs()), key, payload)
      ensures Delivered(old(Abs()), key, payload, Abs())
      ensures Ready(Do(old(Abs()), Arrive(key, payload))) &&
              Abs() == RunLoop(Do(old(Abs()), Arrive(key, payload)))
    {
      ghost var s := Abs();
      Route(key, payload, index);
      HandledIsRun(s, key, payload);
      HandledDelivers(s, key, payload);
      HandledKeeps(s, key, payload);
    }

    method Route(key: K, payload: bytes, index: nat)
      requires (key in conns ==> conns[key] < |tasks|) && index == |log|
      modifies this
      ensures Abs() == Handled(old(Abs()), key, payload)
    {
      var c := ConnFor(key);
      TryQueue(c, index);
      log := log + [Datagram(key, payload)];
    }

    /** The end of a task: the entry of its key goes, whoever's it is. */
    method UnmapTask(c: nat)
      requires Inv(Abs()) && c < |tasks| && tasks[c].stage.Ended?
      modifies this`conns, this`tasks
      ensures Inv(Abs()) && Abs() == Do(old(Abs()), Unmap(c))
    {
      DoKeeps(Abs(), Unmap(c));
      tasks := tasks[c := tasks[c].(stage := Unmapped)];
      conns := conns - {tasks[c].key};
    }
  }
}

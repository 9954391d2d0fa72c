/** The UDP multiplexer: one receive loop hands datagrams to one task per key over bounded
    queues, through a map that loop and tasks both change. Every access to the map, a queue or
    a channel's closed flag is one step, and steps of the loop and of all tasks interleave in
    any order. The plain forwarder's key is the source address; the SOCKS relay's is the pair of
    source and target. */
module UdpMux {
  import opened Basics
  import opened Framing

  const CHANNEL_CAPACITY: nat := 4096

  datatype Datagram<K> = Datagram(key: K, payload: bytes)

  /** A task opens its stream, runs, ends (which closes its queue) and, some time later, removes
      the map entry of its key, whoever's entry that is. */
  datatype Stage = Opening | Running | Ended | Unmapped

  /** `queue`, `inFlight` and `sent` hold positions in the log of arrivals. */
  datatype Task<K> = Task(
    key: K, stage: Stage, queue: seq<nat>, inFlight: Option<nat>, sent: seq<nat>, replies: seq<bytes>)
  {
    predicate Closed() {
      stage.Ended? || stage.Unmapped?
    }

    /** Every datagram that this task sent or still holds, oldest first. */
    function Held(): seq<nat> {
      sent + Waiting()
    }

    function Waiting(): seq<nat> {
      (if inFlight.Some? then [inFlight.value] else []) + queue
    }
  }

  /** Where the receive loop is, for the last datagram of the log. */
  datatype Loop =
    | Receiving
    | LookingUp
    | Found(conn: nat)
    | Evicting
    | Creating
    | Sending(conn: nat)

  datatype Reply<K> = Reply(to: K, payload: bytes, conn: nat)

  /** `dropped` lists the arrivals that found their queue closed or full, or were still queued or
      being written when their task ended. */
  datatype State<!K> = State(
    log: seq<Datagram<K>>, conns: map<K, nat>, tasks: seq<Task<K>>, loop: Loop, replies: seq<Reply<K>>,
    dropped: seq<nat>)

  function Initial<K>(): State<K> {
    State([], map[], [], Receiving, [], [])
  }

  // ---------------------------------------------------------------------------
  // Steps
  // ---------------------------------------------------------------------------

  datatype Step<K> =
    | Arrive(key: K, payload: bytes)
    | LookUp
    | CheckClosed
    | Evict
    | Create
    | TrySend
    | Connect(conn: nat)
    | Take(conn: nat)
    | Written(conn: nat)
    | Answer(conn: nat, reply: bytes)
    | End(conn: nat)
    | Unmap(conn: nat)

  predicate InStage<K>(s: State<K>, c: nat, g: Stage) {
    c < |s.tasks| && s.tasks[c].stage == g
  }

  /** A received datagram is at most as long as the receive buffer. */
  predicate Enabled<K>(s: State<K>, e: Step<K>) {
    match e
    case Arrive(_, p) => s.loop.Receiving? && FitsDatagram(p)
    case LookUp => s.loop.LookingUp? && s.log != []
    case CheckClosed => s.loop.Found? && s.loop.conn < |s.tasks|
    case Evict => s.loop.Evicting? && s.log != []
    case Create => s.loop.Creating? && s.log != []
    case TrySend => s.loop.Sending? && s.loop.conn < |s.tasks| && s.log != []
    case Connect(c) => InStage(s, c, Opening)
    case Take(c) => InStage(s, c, Running) && s.tasks[c].inFlight.None? && s.tasks[c].queue != []
    case Written(c) => InStage(s, c, Running) && s.tasks[c].inFlight.Some?
    case Answer(c, p) => InStage(s, c, Running) && FitsDatagram(p)
    case End(c) => InStage(s, c, Opening) || InStage(s, c, Running)
    case Unmap(c) => InStage(s, c, Ended)
  }

  function With<K>(s: State<K>, c: nat, x: Task<K>): State<K>
    requires c < |s.tasks|
  {
    s.(tasks := s.tasks[c := x])
  }

  function Do<K(==)>(s: State<K>, e: Step<K>): State<K>
    requires Enabled(s, e)
  {
    match e
    case Arrive(k, p) => s.(log := s.log + [Datagram(k, p)], loop := LookingUp)
    case LookUp =>
      var k := Last(s.log).key;
      s.(loop := if k in s.conns then Found(s.conns[k]) else Creating)
    case CheckClosed => s.(loop := if s.tasks[s.loop.conn].Closed() then Evicting else Sending(s.loop.conn))
    case Evict => s.(conns := s.conns - {Last(s.log).key}, loop := Creating)
    case Create =>
      var k := Last(s.log).key;
      s.(tasks := s.tasks + [Task(k, Opening, [], None, [], [])],
         conns := s.conns[k := |s.tasks|], loop := Sending(|s.tasks|))
    case TrySend =>
      var t := s.tasks[s.loop.conn];
      var s' := s.(loop := Receiving);
      if t.Closed() || |t.queue| >= CHANNEL_CAPACITY then s'.(dropped := s.dropped + [|s.log| - 1])
      else With(s', s.loop.conn, t.(queue := t.queue + [|s.log| - 1]))
    case Connect(c) => With(s, c, s.tasks[c].(stage := Running))
    case Take(c) => With(s, c, s.tasks[c].(inFlight := Some(s.tasks[c].queue[0]), queue := s.tasks[c].queue[1..]))
    case Written(c) =>
      With(s, c, s.tasks[c].(inFlight := None, sent := s.tasks[c].sent + [s.tasks[c].inFlight.value]))
    case Answer(c, p) =>
      With(s, c, s.tasks[c].(replies := s.tasks[c].replies + [p]))
      .(replies := s.replies + [Reply(s.tasks[c].key, p, c)])
    case End(c) =>
      With(s, c, s.tasks[c].(stage := Ended, queue := [], inFlight := None))
      .(dropped := s.dropped + s.tasks[c].Waiting())
    case Unmap(c) => With(s, c, s.tasks[c].(stage := Unmapped)).(conns := s.conns - {s.tasks[c].key})
  }

  predicate Possible<K(==)>(steps: seq<Step<K>>)
    decreases |steps|, 0
  {
    steps == [] ||
    (Possible(steps[..|steps| - 1]) && Enabled(After(steps[..|steps| - 1]), Last(steps)))
  }

  function After<K(==)>(steps: seq<Step<K>>): State<K>
    requires Possible(steps)
    decreases |steps|, 1
  {
    if steps == [] then Initial() else Do(After(steps[..|steps| - 1]), Last(steps))
  }

  // ---------------------------------------------------------------------------
  // The invariant
  // ---------------------------------------------------------------------------

  predicate Increasing(s: seq<nat>) {
    forall i, j | 0 <= i < j < |s| :: s[i] < s[j]
  }

  /** Increasing positions of arrivals under one key, among the first `n`. */
  ghost predicate Picks<K>(log: seq<Datagram<K>>, n: nat, k: K, held: seq<nat>)
    requires n <= |log|
  {
    Increasing(held) && forall i | 0 <= i < |held| :: held[i] < n && log[held[i]].key == k
  }

  /** A task holds arrivals of its own key, in the order of arrival, from the first `n`. */
  ghost predicate TaskOk<K>(log: seq<Datagram<K>>, n: nat, t: Task<K>)
    requires n <= |log|
  {
    Picks(log, n, t.key, t.Held()) && |t.queue| <= CHANNEL_CAPACITY
  }

  /** How many arrivals the tasks can hold: the last one not before it is sent. */
  function Routed<K>(s: State<K>): (n: nat)
    ensures n <= |s.log|
  {
    if s.loop.Receiving? || s.log == [] then |s.log| else |s.log| - 1
  }

  ghost predicate TasksOk<K>(log: seq<Datagram<K>>, n: nat, tasks: seq<Task<K>>)
    requires n <= |log|
  {
    forall i | 0 <= i < |tasks| :: TaskOk(log, n, tasks[i])
  }

  /** No arrival is with two tasks. */
  ghost predicate Disjoint<K>(tasks: seq<Task<K>>) {
    forall i, j | 0 <= i < j < |tasks| :: Apart(tasks[i], tasks[j])
  }

  ghost predicate Apart<K>(t: Task<K>, u: Task<K>) {
    forall x | x in t.Held() :: x !in u.Held()
  }

  /** Every map entry leads to a task of its own key. */
  ghost predicate MapOk<K(!new)>(conns: map<K, nat>, tasks: seq<Task<K>>) {
    forall k | k in conns :: conns[k] < |tasks| && tasks[conns[k]].key == k
  }

  predicate LoopOk<K(==)>(s: State<K>) {
    && (!s.loop.Receiving? ==> s.log != [])
    && (s.loop.Found? || s.loop.Sending? ==>
          s.loop.conn < |s.tasks| && s.tasks[s.loop.conn].key == Last(s.log).key)
  }

  /** The replies that came over one conn. */
  function Via<K>(replies: seq<Reply<K>>, c: nat): seq<bytes> {
    if replies == [] then []
    else Via(replies[..|replies| - 1], c) + if Last(replies).conn == c then [Last(replies).payload] else []
  }

  ghost predicate RepliesOk<K>(replies: seq<Reply<K>>, tasks: seq<Task<K>>) {
    && (forall i | 0 <= i < |replies| :: replies[i].conn < |tasks| && replies[i].to == tasks[replies[i].conn].key)
    && (forall c | 0 <= c < |tasks| :: Via(replies, c) == tasks[c].replies)
  }

  ghost predicate Inv<K(!new)>(s: State<K>) {
    && TasksOk(s.log, Routed(s), s.tasks) && Disjoint(s.tasks)
    && MapOk(s.conns, s.tasks) && LoopOk(s) && RepliesOk(s.replies, s.tasks)
  }

  // ---------------------------------------------------------------------------
  // Every step keeps it
  // ---------------------------------------------------------------------------

  /** What a task's own steps do to it: it never gains a datagram. */
  ghost predicate Shrinks<K>(t: Task<K>, u: Task<K>) {
    u.key == t.key && u.Held() <= t.Held() && |u.queue| <= |t.queue|
  }

  predicate IsTaskStep<K>(e: Step<K>) {
    e.Connect? || e.Take? || e.Written? || e.Answer? || e.End? || e.Unmap?
  }

  lemma TaskStepShrinks<K>(s: State<K>, e: Step<K>)
    requires Enabled(s, e) && IsTaskStep(e)
    ensures Shrinks(s.tasks[e.conn], Do(s, e).tasks[e.conn])
  {
    TaskStepHeld(s, e);
  }

  lemma ShrunkTaskOk<K>(log: seq<Datagram<K>>, n: nat, t: Task<K>, u: Task<K>)
    requires n <= |log| && TaskOk(log, n, t) && Shrinks(t, u)
    ensures TaskOk(log, n, u)
  {
    assert forall i | 0 <= i < |u.Held()| :: u.Held()[i] == t.Held()[i];
  }

  lemma ShrunkDisjoint<K>(tasks: seq<Task<K>>, c: nat, u: Task<K>)
    requires Disjoint(tasks) && c < |tasks| && Shrinks(tasks[c], u)
    ensures Disjoint(tasks[c := u])
  {
    var t, tasks' := tasks[c], tasks[c := u];
    assert forall x | x in u.Held() :: x in t.Held();
    forall i, j | 0 <= i < j < |tasks'| ensures Apart(tasks'[i], tasks'[j]) {
      assert Apart(tasks[i], tasks[j]);
    }
  }

  lemma {:induction false} ViaNone<K>(replies: seq<Reply<K>>, c: nat)
    requires forall i | 0 <= i < |replies| :: replies[i].conn != c
    ensures Via(replies, c) == []
  {
    if replies != [] {
      ViaNone(replies[..|replies| - 1], c);
    }
  }

  lemma AnsweredReplies<K>(s: State<K>, c: nat, p: bytes)
    requires RepliesOk(s.replies, s.tasks) && Enabled(s, Answer(c, p))
    ensures var s' := Do(s, Answer(c, p)); RepliesOk(s'.replies, s'.tasks)
  {
    var s' := Do(s, Answer(c, p));
    assert s'.replies[..|s'.replies| - 1] == s.replies;
  }

  lemma KeptReplies<K>(replies: seq<Reply<K>>, tasks: seq<Task<K>>, c: nat, u: Task<K>)
    requires RepliesOk(replies, tasks) && c < |tasks|
    requires u.key == tasks[c].key && u.replies == tasks[c].replies
    ensures RepliesOk(replies, tasks[c := u])
  {
  }

  lemma TaskStepReplies<K>(s: State<K>, e: Step<K>)
    requires Enabled(s, e) && IsTaskStep(e) && RepliesOk(s.replies, s.tasks)
    ensures var s' := Do(s, e); RepliesOk(s'.replies, s'.tasks)
  {
    if e.Answer? {
      AnsweredReplies(s, e.conn, e.reply);
    } else {
      KeptReplies(s.replies, s.tasks, e.conn, Do(s, e).tasks[e.conn]);
    }
  }

  /** A task's own steps leave the log and the loop alone, and only take entries out of the map. */
  lemma TaskStepFrame<K>(s: State<K>, e: Step<K>)
    requires Enabled(s, e) && IsTaskStep(e)
    ensures var s' := Do(s, e);
      && s'.log == s.log && s'.loop == s.loop && s'.tasks == s.tasks[e.conn := s'.tasks[e.conn]]
      && forall k | k in s'.conns :: k in s.conns && s'.conns[k] == s.conns[k]
  {
  }

  lemma ShrunkMap<K(!new)>(conns: map<K, nat>, conns': map<K, nat>, tasks: seq<Task<K>>, c: nat, u: Task<K>)
    requires MapOk(conns, tasks) && c < |tasks| && u.key == tasks[c].key
    requires forall k | k in conns' :: k in conns && conns'[k] == conns[k]
    ensures MapOk(conns', tasks[c := u])
  {
  }

  lemma ShrunkTasksOk<K>(log: seq<Datagram<K>>, n: nat, tasks: seq<Task<K>>, c: nat, u: Task<K>)
    requires n <= |log| && TasksOk(log, n, tasks) && c < |tasks| && Shrinks(tasks[c], u)
    ensures TasksOk(log, n, tasks[c := u])
  {
    assert TaskOk(log, n, tasks[c]);
    ShrunkTaskOk(log, n, tasks[c], u);
  }

  lemma TaskStepKeeps<K(!new)>(s: State<K>, e: Step<K>)
    requires Inv(s) && Enabled(s, e) && IsTaskStep(e)
    ensures Inv(Do(s, e))
  {
    var u := Do(s, e).tasks[e.conn];
    TaskStepFrame(s, e);
    TaskStepShrinks(s, e);
    ShrunkMap(s.conns, Do(s, e).conns, s.tasks, e.conn, u);
    ShrunkTasksOk(s.log, Routed(s), s.tasks, e.conn, u);
    ShrunkDisjoint(s.tasks, e.conn, u);
    TaskStepReplies(s, e);
  }

  lemma ArriveKeeps<K(!new)>(s: State<K>, k: K, p: bytes)
    requires Inv(s) && Enabled(s, Arrive(k, p))
    ensures Inv(Do(s, Arrive(k, p)))
  {
    var s' := Do(s, Arrive(k, p));
    forall i | 0 <= i < |s.tasks| ensures TaskOk(s'.log, Routed(s'), s'.tasks[i]) {
      assert TaskOk(s.log, Routed(s), s.tasks[i]);
    }
  }

  lemma CreatedDisjoint<K>(tasks: seq<Task<K>>, u: Task<K>)
    requires Disjoint(tasks) && u.Held() == []
    ensures Disjoint(tasks + [u])
  {
    var tasks' := tasks + [u];
    forall i, j | 0 <= i < j < |tasks'| ensures Apart(tasks'[i], tasks'[j]) {
      if j < |tasks| {
        assert Apart(tasks[i], tasks[j]);
      }
    }
  }

  lemma CreateKeeps<K(!new)>(s: State<K>)
    requires Inv(s) && Enabled(s, Create)
    ensures Inv(Do(s, Create))
  {
    var u := Task(Last(s.log).key, Opening, [], None, [], []);
    assert u.Held() == [];
    CreatedDisjoint(s.tasks, u);
    CreatedReplies(s.replies, s.tasks, u);
    assert TaskOk(s.log, Routed(s), u);
    assert TasksOk(s.log, Routed(s), s.tasks + [u]);
  }

  lemma CreatedReplies<K>(replies: seq<Reply<K>>, tasks: seq<Task<K>>, u: Task<K>)
    requires RepliesOk(replies, tasks) && u.replies == []
    ensures RepliesOk(replies, tasks + [u])
  {
    ViaNone(replies, |tasks|);
  }

  lemma QueuedTaskOk<K>(log: seq<Datagram<K>>, t: Task<K>)
    requires log != [] && TaskOk(log, |log| - 1, t) && Last(log).key == t.key
    requires |t.queue| < CHANNEL_CAPACITY
    ensures TaskOk(log, |log|, t.(queue := t.queue + [|log| - 1]))
  {
    var u := t.(queue := t.queue + [|log| - 1]);
    assert u.Held() == t.Held() + [|log| - 1];
  }

  lemma QueuedDisjoint<K>(log: seq<Datagram<K>>, n: nat, tasks: seq<Task<K>>, c: nat)
    requires n <= |log| && TasksOk(log, n, tasks) && Disjoint(tasks) && c < |tasks|
    ensures Disjoint(tasks[c := tasks[c].(queue := tasks[c].queue + [n])])
  {
    var u := tasks[c].(queue := tasks[c].queue + [n]);
    var tasks' := tasks[c := u];
    assert u.Held() == tasks[c].Held() + [n];
    forall i, j | 0 <= i < j < |tasks'| ensures Apart(tasks'[i], tasks'[j]) {
      assert Apart(tasks[i], tasks[j]);
      assert TaskOk(log, n, tasks[i]) && TaskOk(log, n, tasks[j]);
    }
  }

  lemma QueuedTasksOk<K>(log: seq<Datagram<K>>, tasks: seq<Task<K>>, c: nat)
    requires log != [] && TasksOk(log, |log| - 1, tasks) && c < |tasks|
    requires tasks[c].key == Last(log).key && |tasks[c].queue| < CHANNEL_CAPACITY
    ensures TasksOk(log, |log|, tasks[c := tasks[c].(queue := tasks[c].queue + [|log| - 1])])
  {
    var tasks' := tasks[c := tasks[c].(queue := tasks[c].queue + [|log| - 1])];
    forall i | 0 <= i < |tasks'| ensures TaskOk(log, |log|, tasks'[i]) {
      assert TaskOk(log, |log| - 1, tasks[i]);
      if i == c {
        QueuedTaskOk(log, tasks[c]);
      }
    }
  }

  lemma DroppedTasksOk<K>(log: seq<Datagram<K>>, tasks: seq<Task<K>>)
    requires log != [] && TasksOk(log, |log| - 1, tasks)
    ensures TasksOk(log, |log|, tasks)
  {
    forall i | 0 <= i < |tasks| ensures TaskOk(log, |log|, tasks[i]) {
      assert TaskOk(log, |log| - 1, tasks[i]);
    }
  }

  lemma TrySendKeeps<K(!new)>(s: State<K>)
    requires Inv(s) && Enabled(s, TrySend)
    ensures Inv(Do(s, TrySend))
  {
    if !s.tasks[s.loop.conn].Closed() && |s.tasks[s.loop.conn].queue| < CHANNEL_CAPACITY {
      QueueKeeps(s, s.loop.conn);
    } else {
      DroppedTasksOk(s.log, s.tasks);
    }
  }

  lemma QueueKeeps<K(!new)>(s: State<K>, c: nat)
    requires Inv(s) && s.loop == Sending(c) && |s.tasks[c].queue| < CHANNEL_CAPACITY
    ensures Inv(With(s, c, s.tasks[c].(queue := s.tasks[c].queue + [|s.log| - 1])).(loop := Receiving))
  {
    var u := s.tasks[c].(queue := s.tasks[c].queue + [|s.log| - 1]);
    QueuedTasksOk(s.log, s.tasks, c);
    QueuedDisjoint(s.log, |s.log| - 1, s.tasks, c);
    KeptReplies(s.replies, s.tasks, c, u);
    ShrunkMap(s.conns, s.conns, s.tasks, c, u);
  }

  lemma DoKeeps<K(!new)>(s: State<K>, e: Step<K>)
    requires Inv(s) && Enabled(s, e)
    ensures Inv(Do(s, e))
  {
    match e {
      case Arrive(k, p) => ArriveKeeps(s, k, p);
      case LookUp =>
      case CheckClosed =>
      case Evict =>
      case Create => CreateKeeps(s);
      case TrySend => TrySendKeeps(s);
      case _ => TaskStepKeeps(s, e);
    }
  }

  lemma {:induction false} ReachableInv<K(!new)>(steps: seq<Step<K>>)
    requires Possible(steps)
    ensures Inv(After(steps))
  {
    if steps != [] {
      ReachableInv(steps[..|steps| - 1]);
      DoKeeps(After(steps[..|steps| - 1]), Last(steps));
    }
  }

  // ---------------------------------------------------------------------------
  // Isolation
  // ---------------------------------------------------------------------------

  /** The payloads that came in under a key. */
  function Received<K(==)>(log: seq<Datagram<K>>, k: K): seq<bytes> {
    if log == [] then []
    else Received(log[..|log| - 1], k) + if Last(log).key == k then [Last(log).payload] else []
  }

  ghost function Payloads<K>(log: seq<Datagram<K>>, k: K, held: seq<nat>): (ps: seq<bytes>)
    requires Picks(log, |log|, k, held)
    ensures |ps| == |held|
  {
    seq(|held|, i requires 0 <= i < |held| => log[held[i]].payload)
  }

  /** Increasing positions of one key pick out a subsequence of what that key received. */
  lemma {:induction false} PickedIsSubsequence<K>(log: seq<Datagram<K>>, k: K, held: seq<nat>)
    requires Picks(log, |log|, k, held)
    ensures IsSubsequence(Payloads(log, k, held), Received(log, k))
    decreases |log|
  {
    if held != [] {
      var n := |held| - 1;
      assert held[n] < |log|;
      var init := log[..|log| - 1];
      if held[n] == |log| - 1 {
        PickLast(log, k, held);
        PickedIsSubsequence(init, k, held[..n]);
        SubsequenceTake(Payloads(init, k, held[..n]), Received(init, k), Last(log).payload);
      } else {
        PickBefore(log, k, held);
        PickedIsSubsequence(init, k, held);
        SubsequenceSkip(Payloads(init, k, held), Received(init, k), Last(log).payload);
      }
    }
  }

  lemma PickLast<K>(log: seq<Datagram<K>>, k: K, held: seq<nat>)
    requires Picks(log, |log|, k, held) && held != [] && Last(held) == |log| - 1
    ensures var init, held' := log[..|log| - 1], held[..|held| - 1];
      && Picks(init, |init|, k, held')
      && Payloads(log, k, held) == Payloads(init, k, held') + [Last(log).payload]
      && Received(log, k) == Received(init, k) + [Last(log).payload]
  {
  }

  lemma PickBefore<K>(log: seq<Datagram<K>>, k: K, held: seq<nat>)
    requires Picks(log, |log|, k, held) && held != [] && Last(held) != |log| - 1
    ensures var init := log[..|log| - 1];
      && Picks(init, |init|, k, held) && Payloads(log, k, held) == Payloads(init, k, held)
      && (Received(log, k) == Received(init, k) || Received(log, k) == Received(init, k) + [Last(log).payload])
  {
  }

  ghost predicate Arrived<K>(log: seq<Datagram<K>>, k: K) {
    exists j :: 0 <= j < |log| && log[j].key == k
  }

  lemma StepArrived<K>(s: State<K>, e: Step<K>, c: nat)
    requires Enabled(s, e) && c < |Do(s, e).tasks|
    requires c < |s.tasks| ==> Arrived(s.log, s.tasks[c].key)
    ensures Arrived(Do(s, e).log, Do(s, e).tasks[c].key)
  {
    var log := Do(s, e).log;
    if c < |s.tasks| {
      var j :| 0 <= j < |s.log| && s.log[j].key == s.tasks[c].key;
      assert log[j] == s.log[j];
    } else {
      assert log[|log| - 1].key == Do(s, e).tasks[c].key;
    }
  }

  /** A conn is only ever made for a datagram of its key. */
  lemma {:induction false} KeyArrived<K>(steps: seq<Step<K>>, c: nat)
    requires Possible(steps) && c < |After(steps).tasks|
    ensures Arrived(After(steps).log, After(steps).tasks[c].key)
  {
    var init := steps[..|steps| - 1];
    if c < |After(init).tasks| {
      KeyArrived(init, c);
    }
    StepArrived(After(init), Last(steps), c);
  }

  /** Over every interleaving: what a conn sent or still holds is a subsequence of what was
      received under its key; no datagram is with two conns; queues are bounded; a map entry
      leads to a conn of its key; and the replies that go out under a key are those of that
      key's conns, each conn's in the order its stream delivered them. */
  lemma Isolation<K(!new)>(steps: seq<Step<K>>, c: nat)
    requires Possible(steps) && c < |After(steps).tasks|
    ensures var s := After(steps);
      var t := s.tasks[c];
      && Picks(s.log, |s.log|, t.key, t.Held())
      && IsSubsequence(Payloads(s.log, t.key, t.Held()), Received(s.log, t.key))
      && (forall d, x | 0 <= d < |s.tasks| && d != c && x in t.Held() :: x !in s.tasks[d].Held())
      && |t.queue| <= 4096
      && (t.key in s.conns ==> s.conns[t.key] < |s.tasks| && s.tasks[s.conns[t.key]].key == t.key)
      && (forall r | r in s.replies && r.conn == c :: r.to == t.key)
      && Via(s.replies, c) == t.replies
  {
    var s := After(steps);
    ReachableInv(steps);
    assert TaskOk(s.log, Routed(s), s.tasks[c]);
    PickedIsSubsequence(s.log, s.tasks[c].key, s.tasks[c].Held());
    forall d, x | 0 <= d < |s.tasks| && d != c && x in s.tasks[c].Held() ensures x !in s.tasks[d].Held() {
      if d < c {
        assert Apart(s.tasks[d], s.tasks[c]);
      } else {
        assert Apart(s.tasks[c], s.tasks[d]);
      }
    }
  }

  // ---------------------------------------------------------------------------
  // End to end
  // ---------------------------------------------------------------------------

  ghost predicate LogFits<K>(log: seq<Datagram<K>>) {
    forall i | 0 <= i < |log| :: FitsDatagram(log[i].payload)
  }

  lemma {:induction false} ReachableLogFits<K>(steps: seq<Step<K>>)
    requires Possible(steps)
    ensures LogFits(After(steps).log)
  {
    if steps != [] {
      ReachableLogFits(steps[..|steps| - 1]);
    }
  }

  lemma SentPicks<K>(log: seq<Datagram<K>>, n: nat, t: Task<K>, k: nat)
    requires n <= |log| && TaskOk(log, n, t) && k <= |t.sent|
    ensures Picks(log, |log|, t.key, t.sent[..k])
  {
    assert forall i | 0 <= i < |t.sent| :: t.Held()[i] == t.sent[i];
  }

  /** The payloads that a conn has written to its stream. */
  ghost function Sent<K(!new)>(steps: seq<Step<K>>, c: nat): (ps: seq<bytes>)
    requires Possible(steps) && c < |After(steps).tasks|
    ensures |ps| == |After(steps).tasks[c].sent|
    ensures forall p | p in ps :: FitsDatagram(p)
  {
    var s := After(steps);
    var t := s.tasks[c];
    ReachableInv(steps);
    ReachableLogFits(steps);
    assert TaskOk(s.log, Routed(s), t);
    SentPicks(s.log, Routed(s), t, |t.sent|);
    assert t.sent[..|t.sent|] == t.sent;
    Payloads(s.log, t.key, t.sent)
  }

  lemma SentIsSubsequence<K(!new)>(steps: seq<Step<K>>, c: nat, k: nat)
    requires Possible(steps) && c < |After(steps).tasks| && k <= |Sent(steps, c)|
    ensures IsSubsequence(Sent(steps, c)[..k], Received(After(steps).log, After(steps).tasks[c].key))
  {
    var s := After(steps);
    var t := s.tasks[c];
    ReachableInv(steps);
    assert TaskOk(s.log, Routed(s), t);
    SentPicks(s.log, Routed(s), t, k);
    SentPicks(s.log, Routed(s), t, |t.sent|);
    assert t.sent[..|t.sent|] == t.sent;
    assert Sent(steps, c)[..k] == Payloads(s.log, t.key, t.sent[..k]);
    PickedIsSubsequence(s.log, t.key, t.sent[..k]);
  }

  /** A conn's stream carries the frames that it has written and, if it ended in the middle of a
      write, the beginning of one more. However that is chunked, and wherever it breaks off, the
      far end emits a prefix of what was sent, which is a subsequence of what was received under
      the conn's key; and it emits all that was sent once all of that has arrived. */
  lemma EndToEnd<K(!new)>(steps: seq<Step<K>>, c: nat, torn: bytes, chunks: seq<bytes>, n: nat)
    requires Possible(steps) && c < |After(steps).tasks| && FitsDatagram(torn)
    requires n < |EncodeDatagrams(Sent(steps, c) + [torn])|
    requires Flatten(chunks) == EncodeDatagrams(Sent(steps, c) + [torn])[..n]
    ensures var emitted := DecodeDatagrams(Flatten(chunks));
      && emitted <= Sent(steps, c)
      && IsSubsequence(emitted, Received(After(steps).log, After(steps).tasks[c].key))
      && (n >= |EncodeDatagrams(Sent(steps, c))| ==> emitted == Sent(steps, c))
  {
    TornFrame(Sent(steps, c), torn, chunks, n);
    SentIsSubsequence(steps, c, WholeFrames(Sent(steps, c) + [torn], n));
  }

  // ---------------------------------------------------------------------------
  // How many conns a key can have
  // ---------------------------------------------------------------------------

  /** A key has at most one live conn. */
  ghost predicate Single<K>(s: State<K>) {
    forall c, d | 0 <= c < d < |s.tasks| && !s.tasks[c].Closed() && !s.tasks[d].Closed() ::
      s.tasks[c].key != s.tasks[d].key
  }

  /** Every live conn is the one that the map leads to. */
  ghost predicate Tracked<K>(s: State<K>) {
    forall c | 0 <= c < |s.tasks| && !s.tasks[c].Closed() ::
      s.tasks[c].key in s.conns && s.conns[s.tasks[c].key] == c
  }

  /** A late removal that does not hit the entry of a live conn. */
  predicate Harmless<K(==)>(s: State<K>, e: Step<K>)
    requires Enabled(s, e)
  {
    e.Unmap? ==>
      var k := s.tasks[e.conn].key;
      k in s.conns && s.conns[k] < |s.tasks| ==> s.tasks[s.conns[k]].Closed()
  }

  /** What the loop knows about its key's entry. */
  ghost predicate LoopTracks<K>(s: State<K>) {
    s.log != [] ==>
      var k := Last(s.log).key;
      && (s.loop.Found? && k in s.conns ==> s.conns[k] == s.loop.conn)
      && (s.loop.Evicting? && k in s.conns ==> s.conns[k] < |s.tasks| && s.tasks[s.conns[k]].Closed())
      && (s.loop.Creating? ==> k !in s.conns)
  }

  lemma StepLoopTracks<K(!new)>(s: State<K>, e: Step<K>)
    requires Inv(s) && LoopTracks(s) && Enabled(s, e)
    ensures LoopTracks(Do(s, e))
  {
  }

  lemma UnmapTracks<K(!new)>(s: State<K>, c: nat)
    requires Inv(s) && Tracked(s) && Enabled(s, Unmap(c))
    ensures Tracked(Do(s, Unmap(c))) <==> Harmless(s, Unmap(c))
  {
    var s', k := Do(s, Unmap(c)), s.tasks[c].key;
    if k in s.conns && !s.tasks[s.conns[k]].Closed() {
      assert !s'.tasks[s.conns[k]].Closed();
    }
  }

  lemma LoopStepTracks<K(!new)>(s: State<K>, e: Step<K>)
    requires Inv(s) && LoopTracks(s) && Tracked(s) && Enabled(s, e) && !IsTaskStep(e)
    ensures Tracked(Do(s, e))
  {
  }

  lemma TaskStepTracks<K(!new)>(s: State<K>, e: Step<K>)
    requires Tracked(s) && Enabled(s, e) && IsTaskStep(e) && !e.Unmap?
    ensures Tracked(Do(s, e))
  {
  }

  /** No late removal of the run hit the entry of a live conn. */
  predicate AllHarmless<K(==)>(steps: seq<Step<K>>)
    requires Possible(steps)
  {
    steps == [] ||
    (AllHarmless(steps[..|steps| - 1]) && Harmless(After(steps[..|steps| - 1]), Last(steps)))
  }

  ghost predicate AlwaysTracked<K>(steps: seq<Step<K>>)
    requires Possible(steps)
  {
    Tracked(After(steps)) && (steps == [] || AlwaysTracked(steps[..|steps| - 1]))
  }

  lemma {:induction false} ReachableLoopTracks<K(!new)>(steps: seq<Step<K>>)
    requires Possible(steps)
    ensures LoopTracks(After(steps))
  {
    if steps != [] {
      ReachableLoopTracks(steps[..|steps| - 1]);
      ReachableInv(steps[..|steps| - 1]);
      StepLoopTracks(After(steps[..|steps| - 1]), Last(steps));
    }
  }

  /** The map leads to every live conn, throughout a run, if and only if no late removal of the
      run hit the entry of a live conn. */
  lemma {:induction false} TrackedIffHarmless<K(!new)>(steps: seq<Step<K>>)
    requires Possible(steps)
    ensures AlwaysTracked(steps) <==> AllHarmless(steps)
  {
    if steps != [] {
      var init, e := steps[..|steps| - 1], Last(steps);
      TrackedIffHarmless(init);
      if AlwaysTracked(init) {
        ReachableInv(init);
        ReachableLoopTracks(init);
        if e.Unmap? {
          UnmapTracks(After(init), e.conn);
        } else if IsTaskStep(e) {
          TaskStepTracks(After(init), e);
        } else {
          LoopStepTracks(After(init), e);
        }
      }
    }
  }

  lemma TrackedIsSingle<K>(s: State<K>)
    requires Tracked(s)
    ensures Single(s)
  {
  }

  ghost predicate AlwaysSingle<K>(steps: seq<Step<K>>)
    requires Possible(steps)
  {
    Single(After(steps)) && (steps == [] || AlwaysSingle(steps[..|steps| - 1]))
  }

  /** Late removals are the only cause: without one that hits a live conn's entry, no key ever has
      two live conns. */
  lemma {:induction false} HarmlessIsSingle<K(!new)>(steps: seq<Step<K>>)
    requires Possible(steps) && AllHarmless(steps)
    ensures AlwaysSingle(steps)
  {
    TrackedIffHarmless(steps);
    TrackedIsSingle(After(steps));
    if steps != [] {
      HarmlessIsSingle(steps[..|steps| - 1]);
    }
  }

  // A harmful removal does harm only if its victim is still live when its key's next conn is made.

  /** The loop makes a conn for a key that has a live one. */
  predicate Doubles<K(==)>(s: State<K>, e: Step<K>, c: nat) {
    && e.Create? && s.log != [] && c < |s.tasks|
    && !s.tasks[c].Closed() && s.tasks[c].key == Last(s.log).key
  }

  ghost predicate DoublesSome<K>(s: State<K>, e: Step<K>) {
    exists c: nat :: Doubles(s, e, c)
  }

  lemma StepSingle<K>(s: State<K>, e: Step<K>)
    requires Single(s) && Enabled(s, e)
    ensures Single(Do(s, e)) <==> !DoublesSome(s, e)
  {
    var s' := Do(s, e);
    if DoublesSome(s, e) {
      var c: nat :| Doubles(s, e, c);
      assert !s'.tasks[c].Closed() && !s'.tasks[|s.tasks|].Closed();
    } else if e.Create? {
      forall c | 0 <= c < |s.tasks| && !s.tasks[c].Closed() ensures s.tasks[c].key != Last(s.log).key {
        assert !Doubles(s, e, c);
      }
    }
  }

  ghost predicate NeverDoubles<K>(steps: seq<Step<K>>)
    requires Possible(steps)
  {
    steps == [] ||
    (NeverDoubles(steps[..|steps| - 1]) && !DoublesSome(After(steps[..|steps| - 1]), Last(steps)))
  }

  lemma {:induction false} SingleIffNeverDoubles<K(!new)>(steps: seq<Step<K>>)
    requires Possible(steps)
    ensures AlwaysSingle(steps) <==> NeverDoubles(steps)
  {
    if steps != [] {
      var init := steps[..|steps| - 1];
      SingleIffNeverDoubles(init);
      if AlwaysSingle(init) {
        StepSingle(After(init), Last(steps));
      }
    }
  }

  predicate TrackedConn<K(==)>(s: State<K>, c: nat)
    requires c < |s.tasks|
  {
    s.tasks[c].key in s.conns && s.conns[s.tasks[c].key] == c
  }

  predicate IsLive<K>(s: State<K>, c: nat) {
    c < |s.tasks| && !s.tasks[c].Closed()
  }

  /** A late removal takes the entry of live conn `c`. */
  predicate Hits<K(==)>(s: State<K>, e: Step<K>, c: nat) {
    && IsLive(s, c) && TrackedConn(s, c)
    && e.Unmap? && e.conn < |s.tasks| && s.tasks[e.conn].key == s.tasks[c].key
  }

  /** Only a late removal makes the map lose a live conn. */
  lemma StepLosesConn<K(!new)>(s: State<K>, e: Step<K>, c: nat)
    requires Inv(s) && LoopTracks(s) && Enabled(s, e)
    requires IsLive(Do(s, e), c) && !TrackedConn(Do(s, e), c)
    ensures IsLive(s, c) && (TrackedConn(s, c) ==> Hits(s, e, c))
  {
  }

  ghost predicate HitAt<K>(steps: seq<Step<K>>, i: nat, c: nat) {
    i < |steps| && Possible(steps[..i]) && Hits(After(steps[..i]), steps[i], c)
  }

  lemma HitLater<K>(steps: seq<Step<K>>, e: Step<K>, i: nat, c: nat)
    requires HitAt(steps, i, c)
    ensures HitAt(steps + [e], i, c)
  {
    assert (steps + [e])[..i] == steps[..i];
  }

  lemma HitLast<K>(steps: seq<Step<K>>, e: Step<K>, c: nat)
    requires Possible(steps) && Hits(After(steps), e, c)
    ensures HitAt(steps + [e], |steps|, c)
  {
    assert (steps + [e])[..|steps|] == steps;
  }

  lemma {:induction false} LostWasHit<K(!new)>(steps: seq<Step<K>>, c: nat)
    requires Possible(steps) && IsLive(After(steps), c) && !TrackedConn(After(steps), c)
    ensures exists i: nat :: HitAt(steps, i, c)
  {
    if steps != [] {
      var init, e := steps[..|steps| - 1], Last(steps);
      ReachableInv(init);
      ReachableLoopTracks(init);
      StepLosesConn(After(init), e, c);
      assert init + [e] == steps;
      if TrackedConn(After(init), c) {
        HitLast(init, e, c);
      } else {
        LostWasHit(init, c);
        var i: nat :| HitAt(init, i, c);
        HitLater(init, e, i, c);
      }
    }
  }

  ghost predicate DoublesAt<K>(steps: seq<Step<K>>, j: nat, c: nat) {
    j < |steps| && Possible(steps[..j]) && Doubles(After(steps[..j]), steps[j], c)
  }

  lemma DoublesLater<K>(steps: seq<Step<K>>, e: Step<K>, j: nat, c: nat)
    requires j < |steps|
    ensures DoublesAt(steps, j, c) <==> DoublesAt(steps + [e], j, c)
  {
    assert (steps + [e])[..j] == steps[..j];
  }

  lemma DoublesLast<K>(steps: seq<Step<K>>, e: Step<K>, c: nat)
    requires Possible(steps)
    ensures Doubles(After(steps), e, c) <==> DoublesAt(steps + [e], |steps|, c)
  {
    assert (steps + [e])[..|steps|] == steps;
  }

  /** A late removal took the entry of a live conn, and later, while that conn was still live, the
      loop made another conn for its key. */
  ghost predicate Replaced<K>(steps: seq<Step<K>>, i: nat, j: nat, c: nat) {
    i < j && HitAt(steps, i, c) && DoublesAt(steps, j, c)
  }

  ghost predicate SomeReplaced<K>(steps: seq<Step<K>>) {
    exists i: nat, j: nat, c: nat :: Replaced(steps, i, j, c)
  }

  lemma DoublingWasHit<K(!new)>(steps: seq<Step<K>>, e: Step<K>)
    requires Possible(steps) && Enabled(After(steps), e) && DoublesSome(After(steps), e)
    ensures SomeReplaced(steps + [e])
  {
    var c: nat :| Doubles(After(steps), e, c);
    ReachableLoopTracks(steps);
    LostWasHit(steps, c);
    var i: nat :| HitAt(steps, i, c);
    HitLater(steps, e, i, c);
    DoublesLast(steps, e, c);
    assert Replaced(steps + [e], i, |steps|, c);
  }

  lemma ReplacedStays<K>(steps: seq<Step<K>>, e: Step<K>)
    requires SomeReplaced(steps)
    ensures SomeReplaced(steps + [e])
  {
    var i: nat, j: nat, c: nat :| Replaced(steps, i, j, c);
    HitLater(steps, e, i, c);
    DoublesLater(steps, e, j, c);
    assert Replaced(steps + [e], i, j, c);
  }

  lemma ReplacedBefore<K>(steps: seq<Step<K>>, e: Step<K>)
    requires Possible(steps) && SomeReplaced(steps + [e])
    ensures SomeReplaced(steps) || DoublesSome(After(steps), e)
  {
    var i: nat, j: nat, c: nat :| Replaced(steps + [e], i, j, c);
    if j < |steps| {
      assert (steps + [e])[..i] == steps[..i];
      DoublesLater(steps, e, j, c);
      assert Replaced(steps, i, j, c);
    } else {
      DoublesLast(steps, e, c);
    }
  }

  lemma {:induction false} DoublesIffReplaced<K(!new)>(steps: seq<Step<K>>)
    requires Possible(steps)
    ensures NeverDoubles(steps) <==> !SomeReplaced(steps)
  {
    if steps != [] {
      var init, e := steps[..|steps| - 1], Last(steps);
      DoublesIffReplaced(init);
      assert init + [e] == steps;
      if DoublesSome(After(init), e) {
        DoublingWasHit(init, e);
      } else if SomeReplaced(init) {
        ReplacedStays(init, e);
      } else if SomeReplaced(steps) {
        ReplacedBefore(init, e);
      }
    }
  }

  /** Throughout a run no key has two live conns, if and only if the loop never makes a conn for a
      key that has a live one, if and only if no late removal takes the entry of a live conn that
      is still live when its key's next conn is made. */
  lemma SingleExactly<K(!new)>(steps: seq<Step<K>>)
    requires Possible(steps)
    ensures AlwaysSingle(steps) <==> NeverDoubles(steps)
    ensures AlwaysSingle(steps) <==> !SomeReplaced(steps)
  {
    SingleIffNeverDoubles(steps);
    DoublesIffReplaced(steps);
  }

  // Such a removal can happen, and leaves a source with two live conns.

  lemma Then<K>(steps: seq<Step<K>>, e: Step<K>)
    requires Possible(steps) && Enabled(After(steps), e)
    ensures Possible(steps + [e]) && After(steps + [e]) == Do(After(steps), e)
  {
    assert (steps + [e])[..|steps|] == steps;
  }

  /** The state between two datagrams, with the stages of the conns of one key. */
  ghost predicate Between<K>(s: State<K>, k: K, stages: seq<Stage>) {
    && s.loop.Receiving? && |s.tasks| == |stages|
    && forall c | 0 <= c < |stages| :: s.tasks[c].key == k && s.tasks[c].stage == stages[c]
  }

  /** The loop creates a conn for the last datagram's key and queues the datagram. */
  lemma Created<K(!new)>(steps: seq<Step<K>>, k: K, stages: seq<Stage>) returns (steps': seq<Step<K>>)
    requires Possible(steps) && After(steps).loop.Creating? && After(steps).log != []
    requires Last(After(steps).log).key == k && Between(After(steps).(loop := Receiving), k, stages)
    ensures Possible(steps') && Between(After(steps'), k, stages + [Opening])
    ensures k in After(steps').conns && After(steps').conns[k] == |stages|
  {
    Then(steps, Create);
    var s1 := steps + [Create];
    Then(s1, TrySend);
    steps' := s1 + [TrySend];
  }

  /** A datagram whose key has no entry makes a new conn. */
  lemma Spawn<K(!new)>(steps: seq<Step<K>>, k: K, stages: seq<Stage>) returns (steps': seq<Step<K>>)
    requires Possible(steps) && Between(After(steps), k, stages) && k !in After(steps).conns
    ensures Possible(steps') && Between(After(steps'), k, stages + [Opening])
    ensures k in After(steps').conns && After(steps').conns[k] == |stages|
  {
    Then(steps, Arrive(k, []));
    var s1 := steps + [Arrive(k, [])];
    Then(s1, LookUp);
    steps' := Created(s1 + [LookUp], k, stages);
  }

  /** A datagram whose key's conn has ended replaces it. */
  lemma Respawn<K(!new)>(steps: seq<Step<K>>, k: K, stages: seq<Stage>) returns (steps': seq<Step<K>>)
    requires Possible(steps) && Between(After(steps), k, stages) && k in After(steps).conns
    requires After(steps).conns[k] < |stages| && stages[After(steps).conns[k]] == Ended
    ensures Possible(steps') && Between(After(steps'), k, stages + [Opening])
    ensures k in After(steps').conns && After(steps').conns[k] == |stages|
  {
    Then(steps, Arrive(k, []));
    var s1 := steps + [Arrive(k, [])];
    Then(s1, LookUp);
    var s2 := s1 + [LookUp];
    Then(s2, CheckClosed);
    var s3 := s2 + [CheckClosed];
    Then(s3, Evict);
    steps' := Created(s3 + [Evict], k, stages);
  }

  lemma TwoLiveConns<K(!new)>(k: K) returns (steps: seq<Step<K>>)
    ensures Possible(steps) && Between(After(steps), k, [Unmapped, Opening, Opening])
  {
    var s1: seq<Step<K>> := Spawn([], k, []);
    Then(s1, End(0));
    var s2 := s1 + [End(0)];
    assert Between(After(s2), k, [Ended]);
    var s3 := Respawn(s2, k, [Ended]);
    Then(s3, Unmap(0));
    var s4 := s3 + [Unmap(0)];
    assert Between(After(s4), k, [Unmapped, Opening]);
    steps := Spawn(s4, k, [Unmapped, Opening]);
  }

  // ---------------------------------------------------------------------------
  // No datagram disappears
  // ---------------------------------------------------------------------------

  ghost predicate HeldBySome<K>(tasks: seq<Task<K>>, x: nat) {
    exists c :: 0 <= c < |tasks| && x in tasks[c].Held()
  }

  /** Every arrival that the loop is done with was sent or is held by a conn, or was dropped. */
  ghost predicate Covered<K>(s: State<K>) {
    forall x: nat | x < Routed(s) :: x in s.dropped || HeldBySome(s.tasks, x)
  }

  /** Dropped arrivals are not with any conn. */
  ghost predicate DroppedApart<K>(s: State<K>) {
    forall x | x in s.dropped :: x < Routed(s) && !HeldBySome(s.tasks, x)
  }

  lemma HeldAfter<K>(tasks: seq<Task<K>>, c: nat, u: Task<K>, x: nat)
    requires c < |tasks|
    ensures HeldBySome(tasks[c := u], x) <==>
            x in u.Held() || exists d :: 0 <= d < |tasks| && d != c && x in tasks[d].Held()
  {
    var tasks' := tasks[c := u];
    if x in u.Held() {
      assert x in tasks'[c].Held();
    }
    if d :| 0 <= d < |tasks| && d != c && x in tasks[d].Held() {
      assert x in tasks'[d].Held();
    }
  }

  /** A step that changes neither what its conn holds nor what was dropped. */
  lemma SameHeld<K>(tasks: seq<Task<K>>, c: nat, u: Task<K>, x: nat)
    requires c < |tasks| && u.Held() == tasks[c].Held()
    ensures HeldBySome(tasks[c := u], x) <==> HeldBySome(tasks, x)
  {
    HeldAfter(tasks, c, u, x);
    HeldAfter(tasks, c, tasks[c], x);
    assert tasks[c := tasks[c]] == tasks;
  }

  lemma TaskStepHeld<K>(s: State<K>, e: Step<K>)
    requires Enabled(s, e) && IsTaskStep(e)
    ensures var t, u := s.tasks[e.conn], Do(s, e).tasks[e.conn];
      if e.End? then u.Held() == t.sent && t.Held() == t.sent + t.Waiting() else u.Held() == t.Held()
  {
    var t, u := s.tasks[e.conn], Do(s, e).tasks[e.conn];
    if e.Take? {
      assert t.queue == [t.queue[0]] + t.queue[1..];
      assert u.Held() == t.Held();
    } else if e.Written? {
      assert u.Held() == t.Held();
    } else if e.End? {
      assert u.Waiting() == [];
    }
  }

  lemma EndCovers<K(!new)>(s: State<K>, c: nat)
    requires Inv(s) && Covered(s) && Enabled(s, End(c))
    ensures Covered(Do(s, End(c)))
  {
    var s', u := Do(s, End(c)), Do(s, End(c)).tasks[c];
    TaskStepHeld(s, End(c));
    forall x: nat | x < Routed(s') ensures x in s'.dropped || HeldBySome(s'.tasks, x) {
      HeldAfter(s.tasks, c, u, x);
      HeldAfter(s.tasks, c, s.tasks[c], x);
      assert s.tasks[c := s.tasks[c]] == s.tasks;
    }
  }

  lemma EndApart<K(!new)>(s: State<K>, c: nat)
    requires Inv(s) && DroppedApart(s) && Enabled(s, End(c))
    ensures DroppedApart(Do(s, End(c)))
  {
    var s', t, u := Do(s, End(c)), s.tasks[c], Do(s, End(c)).tasks[c];
    TaskStepHeld(s, End(c));
    assert TaskOk(s.log, Routed(s), t);
    forall x | x in s'.dropped ensures x < Routed(s') && !HeldBySome(s'.tasks, x) {
      HeldAfter(s.tasks, c, u, x);
      HeldAfter(s.tasks, c, t, x);
      assert s.tasks[c := t] == s.tasks;
      if x in t.Waiting() {
        WaitingIsNotSent(s, c, x);
      }
    }
  }

  lemma WaitingIsNotSent<K(!new)>(s: State<K>, c: nat, x: nat)
    requires Inv(s) && c < |s.tasks| && x in s.tasks[c].Waiting()
    ensures x < Routed(s) && x !in s.tasks[c].sent
    ensures forall d | 0 <= d < |s.tasks| && d != c :: x !in s.tasks[d].Held()
  {
    var t := s.tasks[c];
    assert TaskOk(s.log, Routed(s), t);
    var j :| 0 <= j < |t.Waiting()| && t.Waiting()[j] == x;
    assert t.Held()[|t.sent| + j] == x;
    assert forall i | 0 <= i < |t.sent| :: t.Held()[i] == t.sent[i];
    forall d | 0 <= d < |s.tasks| && d != c ensures x !in s.tasks[d].Held() {
      assert if d < c then Apart(s.tasks[d], t) else Apart(t, s.tasks[d]);
    }
  }

  lemma TaskStepAccounts<K(!new)>(s: State<K>, e: Step<K>)
    requires Inv(s) && Covered(s) && DroppedApart(s) && Enabled(s, e) && IsTaskStep(e)
    ensures Covered(Do(s, e)) && DroppedApart(Do(s, e))
  {
    if e.End? {
      EndCovers(s, e.conn);
      EndApart(s, e.conn);
    } else {
      TaskStepHeld(s, e);
      forall x: nat ensures HeldBySome(Do(s, e).tasks, x) <==> HeldBySome(s.tasks, x) {
        SameHeld(s.tasks, e.conn, Do(s, e).tasks[e.conn], x);
      }
    }
  }

  lemma CreateHeld<K>(tasks: seq<Task<K>>, u: Task<K>, x: nat)
    requires u.Held() == []
    ensures HeldBySome(tasks + [u], x) <==> HeldBySome(tasks, x)
  {
    if HeldBySome(tasks, x) {
      var c :| 0 <= c < |tasks| && x in tasks[c].Held();
      assert x in (tasks + [u])[c].Held();
    }
  }

  lemma QueueHeld<K>(tasks: seq<Task<K>>, c: nat, n: nat, x: nat)
    requires c < |tasks|
    ensures var u := tasks[c].(queue := tasks[c].queue + [n]);
      HeldBySome(tasks[c := u], x) <==> x == n || HeldBySome(tasks, x)
  {
    var t := tasks[c];
    var u := t.(queue := t.queue + [n]);
    assert u.Held() == t.Held() + [n];
    HeldAfter(tasks, c, u, x);
    HeldAfter(tasks, c, t, x);
    assert tasks[c := t] == tasks;
  }

  lemma QueueAccounts<K(!new)>(s: State<K>, c: nat)
    requires LoopOk(s) && Covered(s) && DroppedApart(s) && s.loop == Sending(c)
    ensures var u := s.tasks[c].(queue := s.tasks[c].queue + [|s.log| - 1]);
      var s' := With(s.(loop := Receiving), c, u);
      Covered(s') && DroppedApart(s')
  {
    var n := |s.log| - 1;
    var u := s.tasks[c].(queue := s.tasks[c].queue + [n]);
    forall x: nat ensures HeldBySome(s.tasks[c := u], x) <==> x == n || HeldBySome(s.tasks, x) {
      QueueHeld(s.tasks, c, n, x);
    }
  }

  lemma LastIsUnheld<K(!new)>(s: State<K>)
    requires Inv(s) && !s.loop.Receiving?
    ensures !HeldBySome(s.tasks, |s.log| - 1)
  {
    forall c | 0 <= c < |s.tasks| ensures |s.log| - 1 !in s.tasks[c].Held() {
      assert TaskOk(s.log, Routed(s), s.tasks[c]);
    }
  }

  lemma CreateAccounts<K(!new)>(s: State<K>)
    requires Covered(s) && DroppedApart(s) && Enabled(s, Create)
    ensures Covered(Do(s, Create)) && DroppedApart(Do(s, Create))
  {
    var u := Task(Last(s.log).key, Opening, [], None, [], []);
    assert u.Held() == [];
    forall x: nat ensures HeldBySome(s.tasks + [u], x) <==> HeldBySome(s.tasks, x) {
      CreateHeld(s.tasks, u, x);
    }
  }

  lemma DropAccounts<K(!new)>(s: State<K>)
    requires Inv(s) && Covered(s) && DroppedApart(s) && s.loop.Sending?
    ensures var s' := s.(loop := Receiving, dropped := s.dropped + [|s.log| - 1]); Covered(s') && DroppedApart(s')
  {
    LastIsUnheld(s);
  }

  lemma TrySendAccounts<K(!new)>(s: State<K>)
    requires Inv(s) && Covered(s) && DroppedApart(s) && Enabled(s, TrySend)
    ensures Covered(Do(s, TrySend)) && DroppedApart(Do(s, TrySend))
  {
    var t := s.tasks[s.loop.conn];
    if t.Closed() || |t.queue| >= CHANNEL_CAPACITY {
      DropAccounts(s);
    } else {
      QueueAccounts(s, s.loop.conn);
    }
  }

  lemma LoopStepAccounts<K(!new)>(s: State<K>, e: Step<K>)
    requires Inv(s) && Covered(s) && DroppedApart(s) && Enabled(s, e) && !IsTaskStep(e)
    ensures Covered(Do(s, e)) && DroppedApart(Do(s, e))
  {
    if e.Create? {
      CreateAccounts(s);
    } else if e.TrySend? {
      TrySendAccounts(s);
    }
  }

  /** Over every run, every arrival that the loop is done with is with exactly one conn or was
      dropped, never both. */
  lemma {:induction false} NothingDisappears<K(!new)>(steps: seq<Step<K>>)
    requires Possible(steps)
    ensures Covered(After(steps)) && DroppedApart(After(steps))
  {
    if steps != [] {
      var init, e := steps[..|steps| - 1], Last(steps);
      NothingDisappears(init);
      ReachableInv(init);
      if IsTaskStep(e) {
        TaskStepAccounts(After(init), e);
      } else {
        LoopStepAccounts(After(init), e);
      }
    }
  }
}

/** Delivery of replication commands: the control server's poll and ACK
    endpoints, src/control/server.cpp, and the client that polls, runs its
    callback and acknowledges, src/control/client.cpp, as one protocol. */
module Commands {
  import opened Base

  type Id = string

  datatype Command = Command(id: Id, chunk: Id, action: string, source: Id, target: Id, priority: int, createdAt: nat)

  datatype Pending = Pending(cmd: Command, deliveredAt: nat)

  const ACK_TIMEOUT: nat := 60

  /** The server's test, in its 64-bit unsigned arithmetic. */
  predicate Due(p: Pending, now: nat) {
    p.deliveredAt == 0 || (now - p.deliveredAt) % TWO64 >= ACK_TIMEOUT
  }

  lemma DueIff(p: Pending, now: nat)
    requires now < TWO64 && p.deliveredAt < TWO64
    ensures Due(p, now) <==> p.deliveredAt == 0 || now >= p.deliveredAt + ACK_TIMEOUT ||
                             (now < p.deliveredAt <= now + TWO64 - ACK_TIMEOUT)
  {
    var d := now - p.deliveredAt;
    if d < 0 {
      assert d % TWO64 == d + TWO64;
    }
  }

  function Mark(p: Pending, now: nat): Pending {
    if Due(p, now) then p.(deliveredAt := now) else p
  }

  /** The queue after a poll. */
  function MarkAll(ps: seq<Pending>, now: nat): (r: seq<Pending>)
    ensures |r| == |ps| && forall i :: 0 <= i < |ps| ==> r[i] == Mark(ps[i], now)
  {
    if ps == [] then [] else MarkAll(ps[..|ps| - 1], now) + [Mark(ps[|ps| - 1], now)]
  }

  /** The commands a poll hands out, in queue order. */
  function DueOf(ps: seq<Pending>, now: nat): seq<Command> {
    if ps == [] then []
    else
      var before, p := DueOf(ps[..|ps| - 1], now), ps[|ps| - 1];
      if Due(p, now) then before + [p.cmd] else before
  }

  /** A poll hands out a command exactly when its entry is due. */
  lemma {:induction false} HandedOut(ps: seq<Pending>, now: nat, c: Command)
    ensures c in DueOf(ps, now) <==> exists p :: p in ps && Due(p, now) && p.cmd == c
  {
    if ps != [] {
      var init, p := ps[..|ps| - 1], ps[|ps| - 1];
      assert ps == init + [p];
      HandedOut(init, now, c);
      hide Due;
      assert forall q :: q in ps <==> q in init || q == p;
    }
  }

  /** `remove_if` on the command id. */
  function Without(ps: seq<Pending>, id: Id): (r: seq<Pending>)
    ensures forall p :: p in r <==> p in ps && p.cmd.id != id
  {
    if ps == [] then []
    else
      var init, p := ps[..|ps| - 1], ps[|ps| - 1];
      assert ps == init + [p];
      var before := Without(init, id);
      if p.cmd.id == id then before else before + [p]
  }

  ghost predicate UniqueIds(ps: seq<Pending>) {
    forall i, j :: 0 <= i < j < |ps| ==> ps[i].cmd.id != ps[j].cmd.id
  }

  lemma {:induction false} WithoutUnique(ps: seq<Pending>, id: Id)
    requires UniqueIds(ps)
    ensures UniqueIds(Without(ps, id))
  {
    if ps != [] {
      var init, p := ps[..|ps| - 1], ps[|ps| - 1];
      WithoutUnique(init, id);
      var before := Without(init, id);
      assert forall i :: 0 <= i < |before| ==> before[i] in init;
      assert forall q :: q in init ==> q.cmd.id != p.cmd.id;
    }
  }

  // --------------------------------------------------------------- the server

  datatype Server = Server(nodes: set<Id>, pending: map<Id, seq<Pending>>)

  datatype Reply = BadRequest | NotFound | Batch(commands: seq<Command>)

  function Queue(s: Server, node: Id): seq<Pending> {
    if node in s.pending then s.pending[node] else []
  }

  function PollReply(s: Server, node: Id, now: nat): Reply {
    if node == "" then BadRequest
    else if node !in s.nodes then NotFound
    else Batch(DueOf(Queue(s, node), now))
  }

  function Poll(s: Server, node: Id, now: nat): Server {
    if node == "" || node !in s.nodes || node !in s.pending then s
    else s.(pending := s.pending[node := MarkAll(s.pending[node], now)])
  }

  function Ack(s: Server, node: Id, id: Id): Server {
    if node == "" || id == "" || node !in s.pending then s
    else
      var left := Without(s.pending[node], id);
      s.(pending := if left == [] then s.pending - {node} else s.pending[node := left])
  }

  function Enqueue(s: Server, node: Id, c: Command): Server {
    s.(pending := s.pending[node := Queue(s, node) + [Pending(c, 0)]])
  }

  lemma PollQueue(s: Server, node: Id, now: nat, n: Id)
    ensures Queue(Poll(s, node, now), n) ==
            if n == node && node != "" && node in s.nodes then MarkAll(Queue(s, n), now) else Queue(s, n)
  {
  }

  lemma AckQueue(s: Server, node: Id, id: Id, n: Id)
    ensures Queue(Ack(s, node, id), n) ==
            if n == node && node != "" && id != "" then Without(Queue(s, n), id) else Queue(s, n)
  {
  }

  // ------------------------------------------------------- server and clients

  /** One fetch of one client process: a received batch, or the ACKs still to be
      sent once the callback is over. */
  datatype Fetch = Got(batch: seq<Command>) | Acking(todo: seq<Id>)

  function IdsOf(batch: seq<Command>): set<Id> {
    set c | c in batch :: c.id
  }

  /** The ACKs a client sends for a batch: one for each nonempty id, in order. */
  function AcksFor(batch: seq<Command>): (r: seq<Id>)
    ensures forall x :: x in r <==> x in IdsOf(batch) && x != ""
  {
    if batch == [] then []
    else
      var init, c := batch[..|batch| - 1], batch[|batch| - 1];
      assert batch == init + [c];
      var before := AcksFor(init);
      if c.id == "" then before else before + [c.id]
  }

  datatype Issue = Issue(node: Id, cmd: Command)

  /** `acks` are the ACK requests sent so far: each may reach the server never,
      once or often, at any later time.  `issued`, `processed` and `skipped` are
      history: every command enqueued, and the ids in batches on which a callback
      returned normally, or that a client without a callback passed over. */
  datatype System = System(server: Server, fetches: map<nat, Fetch>, acks: set<(Id, Id)>, clock: nat,
                           issued: map<Id, Issue>, processed: set<Id>, skipped: set<Id>)

  datatype Outcome = Returned | Threw | Unsubscribed

  datatype Step =
    | DoRegister(node: Id)
    | DoEnqueue(node: Id, cmd: Command)
    | DoPoll(node: Id, now: nat, fetch: nat)     // the reply reaches the client
    | DoLostPoll(node: Id, now: nat)             // the reply is lost
    | DoCallback(fetch: nat, outcome: Outcome)
    | DoSendAck(fetch: nat, node: Id)            // under the node id held by then
    | DoHandleAck(node: Id, id: Id)
    | DoCrash(fetch: nat)

  ghost predicate Legal(y: System, s: Step) {
    match s
    case DoRegister(_) => true
    case DoEnqueue(_, cmd) => cmd.id !in y.issued
    case DoPoll(_, now, f) => y.clock <= now && 0 < now < TWO64 && f !in y.fetches
    case DoLostPoll(_, now) => y.clock <= now && 0 < now < TWO64
    case DoCallback(f, _) => f in y.fetches && y.fetches[f].Got?
    case DoSendAck(f, _) => f in y.fetches && y.fetches[f].Acking? && y.fetches[f].todo != []
    case DoHandleAck(node, id) => (node, id) in y.acks
    case DoCrash(_) => true
  }

  ghost function Next(y: System, s: Step): System
    requires Legal(y, s)
  {
    match s
    case DoRegister(node) => y.(server := y.server.(nodes := y.server.nodes + {node}))
    case DoEnqueue(node, cmd) => y.(server := Enqueue(y.server, node, cmd), issued := y.issued[cmd.id := Issue(node, cmd)])
    case DoPoll(node, now, f) =>
      var r := PollReply(y.server, node, now);
      y.(server := Poll(y.server, node, now), clock := now,
         fetches := if r.Batch? then y.fetches[f := Got(r.commands)] else y.fetches)
    case DoLostPoll(node, now) => y.(server := Poll(y.server, node, now), clock := now)
    case DoCallback(f, outcome) =>
      var batch := y.fetches[f].batch;
      (match outcome
       case Returned => y.(fetches := y.fetches[f := Acking(AcksFor(batch))], processed := y.processed + IdsOf(batch))
       case Unsubscribed => y.(fetches := y.fetches[f := Acking(AcksFor(batch))], skipped := y.skipped + IdsOf(batch))
       case Threw => y.(fetches := y.fetches - {f}))
    case DoSendAck(f, node) =>
      var todo := y.fetches[f].todo;
      y.(fetches := y.fetches[f := Acking(todo[1..])], acks := y.acks + {(node, todo[0])})
    case DoHandleAck(node, id) => y.(server := Ack(y.server, node, id))
    case DoCrash(f) => y.(fetches := y.fetches - {f})
  }

  // ------------------------------------------------------------- what it keeps

  ghost predicate Waits(s: Server, node: Id, id: Id) {
    exists p :: p in Queue(s, node) && p.cmd.id == id
  }

  ghost predicate QueueOk(y: System, node: Id) {
    && UniqueIds(Queue(y.server, node))
    && forall p :: p in Queue(y.server, node) ==>
         p.deliveredAt <= y.clock && p.cmd.id in y.issued && y.issued[p.cmd.id] == Issue(node, p.cmd)
  }

  ghost predicate QueuesOk(y: System) {
    forall node :: QueueOk(y, node)
  }

  /** What clients hold was issued; what they acknowledge has been dealt with. */
  ghost predicate FetchOk(y: System, f: Fetch) {
    match f
    case Got(batch) => forall c :: c in batch ==> c.id in y.issued && y.issued[c.id].cmd == c
    case Acking(todo) => forall x :: x in todo ==> x in y.processed + y.skipped
  }

  ghost predicate ClientsOk(y: System) {
    && (forall f :: f in y.fetches ==> FetchOk(y, y.fetches[f]))
    && (forall a :: a in y.acks ==> a.1 in y.processed + y.skipped)
  }

  /** Every command issued still waits, or has been dealt with. */
  ghost predicate Conserved(y: System) {
    forall x :: x in y.issued ==> Waits(y.server, y.issued[x].node, x) || x in y.processed + y.skipped
  }

  ghost predicate Good(y: System) {
    QueuesOk(y) && ClientsOk(y) && Conserved(y) && y.clock < TWO64
  }

  lemma PollQueueOk(y: System, z: System, node: Id, now: nat, n: Id)
    requires QueueOk(y, n) && y.clock <= now
    requires z.server == Poll(y.server, node, now) && z.clock == now && z.issued == y.issued
    ensures QueueOk(z, n)
  {
    PollQueue(y.server, node, now, n);
    var q, r := Queue(y.server, n), Queue(z.server, n);
    hide Poll, Queue;
    assert |q| == |r| && forall i :: 0 <= i < |q| ==> q[i] in q && r[i].cmd == q[i].cmd && r[i].deliveredAt <= now;
  }

  lemma PollWaits(s: Server, node: Id, now: nat, n: Id, x: Id)
    requires Waits(s, n, x)
    ensures Waits(Poll(s, node, now), n, x)
  {
    PollQueue(s, node, now, n);
    var q, r := Queue(s, n), Queue(Poll(s, node, now), n);
    var p :| p in q && p.cmd.id == x;
    var i :| 0 <= i < |q| && q[i] == p;
    assert r[i] in r && r[i].cmd.id == x;
  }

  lemma PollQueuesOk(y: System, z: System, node: Id, now: nat)
    requires QueuesOk(y) && y.clock <= now
    requires z.server == Poll(y.server, node, now) && z.clock == now && z.issued == y.issued
    ensures QueuesOk(z)
    ensures forall n, x :: Waits(y.server, n, x) ==> Waits(z.server, n, x)
  {
    hide QueueOk, Waits, Poll;
    forall n
      ensures QueueOk(z, n)
    {
      PollQueueOk(y, z, node, now, n);
    }
    forall n, x | Waits(y.server, n, x)
      ensures Waits(z.server, n, x)
    {
      PollWaits(y.server, node, now, n, x);
    }
  }

  lemma ReplyIssued(y: System, node: Id, now: nat)
    requires QueuesOk(y) && PollReply(y.server, node, now).Batch?
    ensures FetchOk(y, Got(PollReply(y.server, node, now).commands))
  {
    assert QueueOk(y, node);
    hide Due, UniqueIds, DueOf;
    var batch := PollReply(y.server, node, now).commands;
    forall c | c in batch
      ensures c.id in y.issued && y.issued[c.id].cmd == c
    {
      HandedOut(Queue(y.server, node), now, c);
    }
  }

  lemma AckKeeps(y: System, z: System, node: Id, id: Id)
    requires Good(y) && (node, id) in y.acks && z == y.(server := Ack(y.server, node, id))
    ensures Good(z)
  {
    forall n
      ensures QueueOk(z, n)
    {
      assert QueueOk(y, n);
      AckQueue(y.server, node, id, n);
      WithoutUnique(Queue(y.server, n), id);
    }
    forall x | x in z.issued
      ensures Waits(z.server, z.issued[x].node, x) || x in z.processed + z.skipped
    {
      var n := y.issued[x].node;
      AckQueue(y.server, node, id, n);
      if Waits(y.server, n, x) && x != id {
        var p :| p in Queue(y.server, n) && p.cmd.id == x;
        assert p in Queue(z.server, n);
      } else {
        assert x == id ==> (node, id).1 in y.processed + y.skipped;
      }
    }
    hide QueueOk;
  }

  lemma EnqueueKeeps(y: System, z: System, node: Id, cmd: Command)
    requires Good(y) && cmd.id !in y.issued
    requires z == y.(server := Enqueue(y.server, node, cmd), issued := y.issued[cmd.id := Issue(node, cmd)])
    ensures Good(z)
  {
    forall n
      ensures QueueOk(z, n)
    {
      assert QueueOk(y, n);
    }
    forall x | x in z.issued
      ensures Waits(z.server, z.issued[x].node, x) || x in z.processed + z.skipped
    {
      if x == cmd.id {
        assert Pending(cmd, 0) in Queue(z.server, node);
      } else {
        var n := y.issued[x].node;
        if Waits(y.server, n, x) {
          var p :| p in Queue(y.server, n) && p.cmd.id == x;
          assert p in Queue(z.server, n);
        }
      }
    }
    forall f | f in z.fetches
      ensures FetchOk(z, z.fetches[f])
    {
      assert FetchOk(y, y.fetches[f]);
    }
    hide QueueOk, Waits;
  }

  lemma PollKeeps(y: System, z: System, node: Id, now: nat)
    requires Good(y) && y.clock <= now < TWO64 && z.issued == y.issued && z.acks == y.acks
    requires z.server == Poll(y.server, node, now) && z.clock == now && z.processed == y.processed && z.skipped == y.skipped
    requires forall f :: f in z.fetches ==>
               (f in y.fetches && z.fetches[f] == y.fetches[f]) ||
               (PollReply(y.server, node, now).Batch? && z.fetches[f] == Got(PollReply(y.server, node, now).commands))
    ensures Good(z)
  {
    hide QueueOk, Waits, Poll, PollReply;
    PollQueuesOk(y, z, node, now);
    if PollReply(y.server, node, now).Batch? {
      ReplyIssued(y, node, now);
    }
    hide QueuesOk;
  }

  lemma ClientKeeps(y: System, s: Step)
    requires Good(y) && Legal(y, s) && (s.DoCallback? || s.DoSendAck? || s.DoCrash?)
    ensures Good(Next(y, s))
  {
    var z := Next(y, s);
    forall node
      ensures QueueOk(z, node)
    {
      assert QueueOk(y, node);
    }
    hide QueueOk, Waits;
    assert FetchOk(y, Acking([]));
    forall f | f in z.fetches
      ensures FetchOk(z, z.fetches[f])
    {
      if f in y.fetches {
        assert FetchOk(y, y.fetches[f]);
      }
    }
  }

  lemma NextKeeps(y: System, s: Step)
    requires Good(y) && Legal(y, s)
    ensures Good(Next(y, s))
  {
    var z := Next(y, s);
    match s {
      case DoRegister(node) =>
        assert forall n :: Queue(z.server, n) == Queue(y.server, n);
        assert forall n :: QueueOk(y, n) ==> QueueOk(z, n);
        hide QueueOk;
      case DoEnqueue(node, cmd) => hide *; EnqueueKeeps(y, z, node, cmd);
      case DoPoll(node, now, f) =>
        hide Good, Poll, PollReply;
        PollKeeps(y, z, node, now);
      case DoLostPoll(node, now) =>
        hide Good, Poll;
        PollKeeps(y, z, node, now);
      case DoHandleAck(node, id) =>
        hide Good, Ack;
        AckKeeps(y, z, node, id);
      case _ =>
        hide Good;
        ClientKeeps(y, s);
    }
  }

  // ----------------------------------------------------------------- whole runs

  ghost predicate Run(states: seq<System>, steps: seq<Step>) {
    && |states| == |steps| + 1
    && forall i :: 0 <= i < |steps| ==> Legal(states[i], steps[i]) && states[i + 1] == Next(states[i], steps[i])
  }

  /** Nothing issued and no client at work; the queues are empty. */
  ghost predicate Blank(y: System) {
    && y.server.pending == map[] && y.fetches == map[] && y.acks == {} && y.clock < TWO64
    && y.issued == map[] && y.processed == {} && y.skipped == {}
  }

  lemma {:induction false} RunGood(states: seq<System>, steps: seq<Step>, i: nat)
    requires Run(states, steps) && Blank(states[0]) && i < |states|
    ensures Good(states[i])
  {
    if i > 0 {
      RunGood(states, steps, i - 1);
      hide Good;
      NextKeeps(states[i - 1], steps[i - 1]);
    }
  }

  /** The step is a callback, with this outcome, over a batch holding the command. */
  ghost predicate Ran(y: System, s: Step, outcome: Outcome, c: Command) {
    s.DoCallback? && s.outcome == outcome && s.fetch in y.fetches && y.fetches[s.fetch].Got? && c in y.fetches[s.fetch].batch
  }

  lemma IssuedGrows(y: System, s: Step, x: Id)
    requires Legal(y, s) && x in y.issued
    ensures x in Next(y, s).issued && Next(y, s).issued[x] == y.issued[x]
  {
  }

  lemma {:induction false} IssuedStays(states: seq<System>, steps: seq<Step>, i: nat, j: nat, x: Id)
    requires Run(states, steps) && i <= j < |states| && x in states[i].issued
    ensures x in states[j].issued && states[j].issued[x] == states[i].issued[x]
  {
    if i < j {
      IssuedStays(states, steps, i, j - 1, x);
      hide Next;
      IssuedGrows(states[j - 1], steps[j - 1], x);
    }
  }

  /** History is what happened: an id recorded as dealt with was in a batch whose
      callback returned, or that had no callback. */
  lemma {:induction false} HistoryHappened(states: seq<System>, steps: seq<Step>, i: nat, x: Id)
    requires Run(states, steps) && Blank(states[0]) && i < |states| && x in states[i].processed + states[i].skipped
    ensures x in states[i].issued
    ensures exists k :: 0 <= k < i && (Ran(states[k], steps[k], Returned, states[i].issued[x].cmd) ||
                                       Ran(states[k], steps[k], Unsubscribed, states[i].issued[x].cmd))
  {
    var y, s := states[i - 1], steps[i - 1];
    if x in y.processed + y.skipped {
      HistoryHappened(states, steps, i - 1, x);
      IssuedGrows(y, s, x);
    } else {
      RunGood(states, steps, i - 1);
      assert s.DoCallback? && x in IdsOf(y.fetches[s.fetch].batch);
      var c :| c in y.fetches[s.fetch].batch && c.id == x;
      assert FetchOk(y, y.fetches[s.fetch]);
      IssuedGrows(y, s, x);
      assert Ran(y, s, s.outcome, c);
    }
  }

  /** At least once.  In every run, whatever messages are lost, duplicated or
      delayed and whichever clients crash, a command that was enqueued is still
      waiting at the server unless some client's callback returned normally on a
      batch holding exactly that command, or a client without a callback fetched it. */
  lemma AtLeastOnce(states: seq<System>, steps: seq<Step>, i: nat, x: Id)
    requires Run(states, steps) && Blank(states[0]) && i < |states| && x in states[i].issued
    ensures var c := states[i].issued[x].cmd;
            || Waits(states[i].server, states[i].issued[x].node, x)
            || (exists k :: 0 <= k < i && Ran(states[k], steps[k], Returned, c))
            || (exists k :: 0 <= k < i && Ran(states[k], steps[k], Unsubscribed, c))
  {
    RunGood(states, steps, i);
    if x in states[i].processed + states[i].skipped {
      HistoryHappened(states, steps, i, x);
    }
  }

  /** The commands this step hands to a client, or loses on the way. */
  ghost function Delivered(y: System, s: Step): set<Command> {
    if s.DoPoll? || s.DoLostPoll? then
      var r := PollReply(y.server, s.node, s.now);
      if r.Batch? then set c | c in r.commands else {}
    else {}
  }

  lemma DeliveredWaits(y: System, s: Step, c: Command)
    requires Good(y) && Legal(y, s) && c in Delivered(y, s)
    ensures s.node != "" && s.node in y.server.nodes
    ensures exists p :: p in Queue(y.server, s.node) && p.cmd == c && Due(p, s.now)
    ensures c.id in y.issued && y.issued[c.id] == Issue(s.node, c)
  {
    assert QueueOk(y, s.node);
    hide Due, UniqueIds, DueOf;
    HandedOut(Queue(y.server, s.node), s.now, c);
  }

  /** Gone from every queue. */
  ghost predicate Gone(y: System, x: Id) {
    x in y.issued && forall node :: !Waits(y.server, node, x)
  }

  lemma AckedIsGone(y: System, node: Id, x: Id)
    requires Good(y) && Legal(y, DoHandleAck(node, x)) && x in y.issued && y.issued[x].node == node && node != "" && x != ""
    ensures Gone(Next(y, DoHandleAck(node, x)), x)
  {
    var z := Next(y, DoHandleAck(node, x));
    forall n
      ensures !Waits(z.server, n, x)
    {
      AckQueue(y.server, node, x, n);
      assert QueueOk(y, n);
    }
  }

  lemma GoneStays(y: System, s: Step, x: Id)
    requires Gone(y, x) && Legal(y, s)
    ensures Gone(Next(y, s), x)
  {
    var z := Next(y, s);
    forall n
      ensures !Waits(z.server, n, x)
    {
      assert !Waits(y.server, n, x);
      match s {
        case DoPoll(node, now, _) => PollQueue(y.server, node, now, n);
        case DoLostPoll(node, now) => PollQueue(y.server, node, now, n);
        case DoHandleAck(node, id) => AckQueue(y.server, node, id, n);
        case _ =>
      }
    }
  }

  lemma {:induction false} GoneForGood(states: seq<System>, steps: seq<Step>, i: nat, j: nat, x: Id)
    requires Run(states, steps) && i <= j < |states| && Gone(states[i], x)
    ensures Gone(states[j], x)
  {
    if i < j {
      GoneForGood(states, steps, i, j - 1, x);
      hide Gone, Next;
      GoneStays(states[j - 1], steps[j - 1], x);
    }
  }

  /** Never again: once the server has handled a command's ACK no later poll, by
      any node, hands the command out. */
  lemma NeverAfterAck(states: seq<System>, steps: seq<Step>, i: nat, j: nat, node: Id, x: Id, c: Command)
    requires Run(states, steps) && Blank(states[0]) && i < j < |steps|
    requires steps[i] == DoHandleAck(node, x) && node != "" && x != ""
    requires x in states[i].issued && states[i].issued[x].node == node && c.id == x
    ensures c !in Delivered(states[j], steps[j])
  {
    RunGood(states, steps, i);
    RunGood(states, steps, j);
    AckedIsGone(states[i], node, x);
    GoneForGood(states, steps, i + 1, j, x);
    if c in Delivered(states[j], steps[j]) {
      DeliveredWaits(states[j], steps[j], c);
      assert Waits(states[j].server, steps[j].node, x);
    }
  }

  /** Delivered at `t` or later, or gone. */
  ghost predicate Since(y: System, x: Id, t: nat) {
    x in y.issued && forall node, p :: p in Queue(y.server, node) && p.cmd.id == x ==> t <= p.deliveredAt
  }

  lemma MarkedNow(q: seq<Pending>, now: nat, due: Pending, p: Pending)
    requires UniqueIds(q) && due in q && Due(due, now) && p in MarkAll(q, now) && p.cmd.id == due.cmd.id
    ensures p.deliveredAt == now
  {
    hide Due;
    var i :| 0 <= i < |q| && MarkAll(q, now)[i] == p;
    var j :| 0 <= j < |q| && q[j] == due;
    assert i == j;
  }

  lemma MarkedSince(q: seq<Pending>, now: nat, x: Id, t: nat)
    requires t <= now && forall p :: p in q && p.cmd.id == x ==> t <= p.deliveredAt
    ensures forall p :: p in MarkAll(q, now) && p.cmd.id == x ==> t <= p.deliveredAt
  {
    hide Due;
    forall p | p in MarkAll(q, now) && p.cmd.id == x
      ensures t <= p.deliveredAt
    {
      var i :| 0 <= i < |q| && MarkAll(q, now)[i] == p;
      assert q[i] in q;
    }
  }

  lemma DeliveredSince(y: System, s: Step, c: Command)
    requires Good(y) && Legal(y, s) && c in Delivered(y, s)
    ensures Since(Next(y, s), c.id, s.now)
  {
    DeliveredWaits(y, s, c);
    IssuedGrows(y, s, c.id);
    var z := Next(y, s);
    assert z.server == Poll(y.server, s.node, s.now);
    hide Poll, Queue, Due, Next, Delivered, Legal;
    var due :| due in Queue(y.server, s.node) && due.cmd == c && Due(due, s.now);
    forall n, p | p in Queue(z.server, n) && p.cmd.id == c.id
      ensures s.now <= p.deliveredAt
    {
      assert QueueOk(y, n);
      PollQueue(y.server, s.node, s.now, n);
      hide UniqueIds, MarkAll;
      if n == s.node {
        MarkedNow(Queue(y.server, n), s.now, due, p);
      }
    }
  }

  lemma SinceStays(y: System, s: Step, x: Id, t: nat)
    requires Since(y, x, t) && t <= y.clock && Legal(y, s)
    ensures Since(Next(y, s), x, t) && t <= Next(y, s).clock
  {
    var z := Next(y, s);
    forall n
      ensures forall p :: p in Queue(z.server, n) && p.cmd.id == x ==> t <= p.deliveredAt
    {
      assert forall p :: p in Queue(y.server, n) && p.cmd.id == x ==> t <= p.deliveredAt;
      match s {
        case DoPoll(node, now, _) =>
          PollQueue(y.server, node, now, n);
          MarkedSince(Queue(y.server, n), now, x, t);
        case DoLostPoll(node, now) =>
          PollQueue(y.server, node, now, n);
          MarkedSince(Queue(y.server, n), now, x, t);
        case DoHandleAck(node, id) => AckQueue(y.server, node, id, n);
        case _ =>
      }
    }
  }

  lemma {:induction false} SinceHolds(states: seq<System>, steps: seq<Step>, i: nat, j: nat, x: Id, t: nat)
    requires Run(states, steps) && i <= j < |states| && Since(states[i], x, t) && t <= states[i].clock
    ensures Since(states[j], x, t) && t <= states[j].clock
  {
    if i < j {
      SinceHolds(states, steps, i, j - 1, x, t);
      hide Since, Next;
      SinceStays(states[j - 1], steps[j - 1], x, t);
    }
  }

  /** Two deliveries of one command are at least sixty seconds apart. */
  lemma DeliveriesSpaced(states: seq<System>, steps: seq<Step>, i: nat, j: nat, c: Command)
    requires Run(states, steps) && Blank(states[0]) && i < j < |steps|
    requires c in Delivered(states[i], steps[i]) && c in Delivered(states[j], steps[j])
    ensures steps[j].now >= steps[i].now + ACK_TIMEOUT
  {
    RunGood(states, steps, i);
    RunGood(states, steps, j);
    DeliveredSince(states[i], steps[i], c);
    SinceHolds(states, steps, i + 1, j, c.id, steps[i].now);
    DeliveredWaits(states[j], steps[j], c);
    var p :| p in Queue(states[j].server, steps[j].node) && p.cmd == c && Due(p, steps[j].now);
    assert QueueOk(states[j], steps[j].node);
    hide Due, Next;
    DueIff(p, steps[j].now);
  }

  /** A command that nobody finishes is offered again: sixty seconds after the last
      delivery any poll by its registered node carries it. */
  lemma Redelivers(y: System, node: Id, p: Pending, now: nat)
    requires Good(y) && p in Queue(y.server, node) && node != "" && node in y.server.nodes
    requires y.clock <= now < TWO64 && now >= p.deliveredAt + ACK_TIMEOUT
    ensures p.cmd in Delivered(y, DoLostPoll(node, now))
  {
    DueIff(p, now);
    hide Due;
    HandedOut(Queue(y.server, node), now, p.cmd);
  }

  /** A command with an empty id is never acknowledged and never leaves. */
  lemma EmptyIdStays(y: System, s: Step, node: Id)
    requires Legal(y, s) && Waits(y.server, node, "")
    ensures Waits(Next(y, s).server, node, "")
  {
    match s {
      case DoPoll(n, now, _) => PollWaits(y.server, n, now, node, "");
      case DoLostPoll(n, now) => PollWaits(y.server, n, now, node, "");
      case DoHandleAck(n, id) =>
        AckQueue(y.server, n, id, node);
        var p :| p in Queue(y.server, node) && p.cmd.id == "";
        assert p in Queue(Ack(y.server, n, id), node);
      case DoEnqueue(n, cmd) =>
        var p :| p in Queue(y.server, node) && p.cmd.id == "";
        assert p in Queue(Enqueue(y.server, n, cmd), node);
      case _ =>
        assert Queue(Next(y, s).server, node) == Queue(y.server, node);
    }
  }

  /** So in every run: once waiting, it waits for ever. */
  lemma {:induction false} EmptyIdNeverLeaves(states: seq<System>, steps: seq<Step>, i: nat, j: nat, node: Id)
    requires Run(states, steps) && i <= j < |states| && Waits(states[i].server, node, "")
    ensures Waits(states[j].server, node, "")
  {
    if i < j {
      EmptyIdNeverLeaves(states, steps, i, j - 1, node);
      hide Waits, Next;
      EmptyIdStays(states[j - 1], steps[j - 1], node);
    }
  }

  lemma RunOne(y: System, s: Step, states: seq<System>, steps: seq<Step>)
    requires Legal(y, s) && Run(states, steps) && states[0] == Next(y, s)
    ensures Run([y] + states, [s] + steps)
  {
    hide Legal, Next;
    var ys, ss := [y] + states, [s] + steps;
    forall i | 0 <= i < |ss|
      ensures Legal(ys[i], ss[i]) && ys[i + 1] == Next(ys[i], ss[i])
    {
      assert i > 0 ==> ss[i] == steps[i - 1] && ys[i] == states[i - 1] && ys[i + 1] == states[i];
    }
  }

  /** Same server and history; only the client has moved. */
  ghost predicate ClientMoved(y: System, z: System) {
    z.server == y.server && z.issued == y.issued && z.processed == y.processed
  }

  /** A client working through its ACKs comes to each of them; in between nothing is
      handled yet.  The run ends with the server handling that one. */
  lemma {:induction false} AcksReach(y: System, f: nat, node: Id, x: Id) returns (states: seq<System>, steps: seq<Step>)
    requires Good(y) && f in y.fetches && y.fetches[f].Acking? && x in y.fetches[f].todo
    ensures Run(states, steps) && |states| >= 2 && states[0] == y && steps[|steps| - 1] == DoHandleAck(node, x)
    ensures Good(states[|states| - 2]) && ClientMoved(y, states[|states| - 2])
    decreases |y.fetches[f].todo|
  {
    var todo := y.fetches[f].todo;
    var s := DoSendAck(f, node);
    var z := Next(y, s);
    NextKeeps(y, s);
    assert ClientMoved(y, z) && z.fetches[f] == Acking(todo[1..]) && (node, todo[0]) in z.acks;
    hide Good;
    if todo[0] == x {
      var ack := DoHandleAck(node, x);
      states, steps := [z, Next(z, ack)], [ack];
      assert Run(states, steps);
    } else {
      states, steps := AcksReach(z, f, node, x);
    }
    RunOne(y, s, states, steps);
    var n := |states|;
    assert ([y] + states)[n - 1] == states[n - 2] && ([s] + steps)[n - 1] == steps[n - 2];
    states, steps := [y] + states, [s] + steps;
    hide Legal, Next;
  }

  /** Why a callback must be subscribed: a client without one acknowledges all it
      fetched, and every command with an id is gone although nobody ran it. */
  lemma UnsubscribedLoses(y: System, f: nat, c: Command, node: Id) returns (states: seq<System>, steps: seq<Step>)
    requires Good(y) && f in y.fetches && y.fetches[f].Got? && c in y.fetches[f].batch && c.id != "" && node != ""
    requires c.id in y.issued && y.issued[c.id].node == node && c.id !in y.processed
    ensures Run(states, steps) && steps != [] && states[0] == y && steps[0] == DoCallback(f, Unsubscribed)
    ensures var z := states[|states| - 1]; Gone(z, c.id) && c.id !in z.processed
  {
    var s := DoCallback(f, Unsubscribed);
    var z := Next(y, s);
    NextKeeps(y, s);
    assert c.id in IdsOf(y.fetches[f].batch);
    assert z.fetches[f] == Acking(AcksFor(y.fetches[f].batch)) && c.id in z.fetches[f].todo && ClientMoved(y, z);
    hide Good, Gone;
    states, steps := AcksReach(z, f, node, c.id);
    var n := |states|;
    var last := states[n - 2];
    assert Legal(last, steps[n - 2]) && states[n - 1] == Next(last, steps[n - 2]);
    AckedIsGone(last, node, c.id);
    assert states[n - 1].processed == last.processed;
    RunOne(y, s, states, steps);
    assert ([y] + states)[n] == states[n - 1];
    states, steps := [y] + states, [s] + steps;
    hide Legal, Next;
  }

  /** The answer to a poll: an error without a node id or for an unknown node, and
      otherwise the due commands, in queue order when all are due. */
  lemma PollAnswers(s: Server, node: Id, now: nat)
    ensures (PollReply(s, node, now) == BadRequest <==> node == "")
    ensures (PollReply(s, node, now) == NotFound <==> node != "" && node !in s.nodes)
    ensures node != "" && node in s.nodes && (forall p :: p in Queue(s, node) ==> p.deliveredAt == 0) ==>
              PollReply(s, node, now).Batch? && |PollReply(s, node, now).commands| == |Queue(s, node)| &&
              forall i :: 0 <= i < |Queue(s, node)| ==> PollReply(s, node, now).commands[i] == Queue(s, node)[i].cmd
  {
    if forall p :: p in Queue(s, node) ==> p.deliveredAt == 0 {
      AllDue(Queue(s, node), now);
    }
    hide DueOf, Due;
  }

  lemma {:induction false} AllDue(ps: seq<Pending>, now: nat)
    requires forall p :: p in ps ==> p.deliveredAt == 0
    ensures |DueOf(ps, now)| == |ps| && forall i :: 0 <= i < |ps| ==> DueOf(ps, now)[i] == ps[i].cmd
  {
    if ps != [] {
      AllDue(ps[..|ps| - 1], now);
      assert ps[|ps| - 1] in ps;
    }
  }

  /** A callback that returns leads on, by ACKs that arrive, to a state in which every
      command of its batch with an id is gone, and counted as processed. */
  lemma ProcessedLeaves(y: System, f: nat, c: Command, node: Id) returns (states: seq<System>, steps: seq<Step>)
    requires Good(y) && f in y.fetches && y.fetches[f].Got? && c in y.fetches[f].batch && c.id != "" && node != ""
    requires c.id in y.issued && y.issued[c.id].node == node
    ensures Run(states, steps) && steps != [] && states[0] == y && steps[0] == DoCallback(f, Returned)
    ensures var z := states[|states| - 1]; Gone(z, c.id) && c.id in z.processed
  {
    var s := DoCallback(f, Returned);
    var z := Next(y, s);
    NextKeeps(y, s);
    assert c.id in IdsOf(y.fetches[f].batch);
    assert z.fetches[f] == Acking(AcksFor(y.fetches[f].batch)) && c.id in z.fetches[f].todo && c.id in z.processed;
    hide Good, Gone;
    states, steps := AcksReach(z, f, node, c.id);
    var n := |states|;
    var last := states[n - 2];
    assert Legal(last, steps[n - 2]) && states[n - 1] == Next(last, steps[n - 2]);
    AckedIsGone(last, node, c.id);
    assert states[n - 1].processed == last.processed;
    RunOne(y, s, states, steps);
    assert ([y] + states)[n] == states[n - 1];
    states, steps := [y] + states, [s] + steps;
    hide Legal, Next;
  }

  /** An ACK leaves no empty queue behind. */
  lemma AckLeavesNoEmptyQueue(s: Server, node: Id, id: Id)
    requires forall n :: n in s.pending ==> s.pending[n] != []
    ensures forall n :: n in Ack(s, node, id).pending ==> Ack(s, node, id).pending[n] != []
  {
  }
}

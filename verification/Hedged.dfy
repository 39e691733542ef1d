/** The hedged download of src/p2p/transfer.cpp: K peers race on private buffers,
    the caller awaits them in selection order, and the remaining candidates are
    fallbacks.  Worker steps and caller steps interleave freely. */
module Hedged {
  import opened Base

  // ----------------------------------------------------------- peers and answers

  /** What a peer delivers on the connection after its response header: the
      announced length, the header's hash and the bytes before the stream ends.
      `Refuses` is any failure up to and including the header. */
  datatype Answer = Refuses | Sends(total: nat, hash: string, stream: Bytes)

  datatype Peer = Peer(id: string, latency: real, throughput: real, rarity: nat, answer: Answer)

  /** The request's content hash (empty when unknown) and the hash function. */
  datatype Check = Check(expected: string, sha: Bytes -> string)

  const SLICE: nat := 256 * 1024

  function Verify(a: Answer, data: Bytes, c: Check): Option<Bytes>
    requires a.Sends?
  {
    if c.sha(data) != a.hash then None
    else if c.expected != "" && c.sha(data) != c.expected then None
    else Some(data)
  }

  /** The bytes a peer yields when nobody interrupts it. */
  function Verified(p: Peer, c: Check): Option<Bytes> {
    match p.answer
    case Refuses => None
    case Sends(total, _, stream) => if |stream| < total then None else Verify(p.answer, stream[..total], c)
  }

  /** The specification: the first candidate, in order, that verifies. */
  function FirstVerified(peers: seq<Peer>, c: Check): Option<Bytes> {
    if peers == [] then None
    else if Verified(peers[0], c).Some? then Verified(peers[0], c)
    else FirstVerified(peers[1..], c)
  }

  lemma {:induction false} FirstVerifiedAt(peers: seq<Peer>, c: Check, i: nat)
    requires i < |peers| && (forall j :: 0 <= j < i ==> Verified(peers[j], c) == None)
    requires Verified(peers[i], c).Some?
    ensures FirstVerified(peers, c) == Verified(peers[i], c)
  {
    if i > 0 {
      assert forall j :: 0 <= j < i - 1 ==> peers[1..][j] == peers[j + 1];
      FirstVerifiedAt(peers[1..], c, i - 1);
    }
  }

  lemma {:induction false} NoneVerified(peers: seq<Peer>, c: Check)
    ensures FirstVerified(peers, c) == None <==> forall i :: 0 <= i < |peers| ==> Verified(peers[i], c) == None
  {
    if peers != [] {
      NoneVerified(peers[1..], c);
      assert forall i :: 0 <= i < |peers[1..]| ==> peers[1..][i] == peers[i + 1];
      assert (forall i :: 0 <= i < |peers[1..]| ==> Verified(peers[1..][i], c) == None)
             ==> forall i :: 1 <= i < |peers| ==> Verified(peers[i], c) == None by {
        assert forall i :: 1 <= i < |peers| ==> peers[i] == peers[1..][i - 1];
      }
    }
  }

  /** A verified answer is complete, matches the header's hash, and matches the
      origin's hash when that is known. */
  lemma VerifiedMatches(p: Peer, c: Check)
    requires Verified(p, c).Some?
    ensures var d := Verified(p, c).value;
            && p.answer.Sends? && |d| == p.answer.total && d <= p.answer.stream
            && c.sha(d) == p.answer.hash && (c.expected != "" ==> c.sha(d) == c.expected)
  {
  }

  // ---------------------------------------------------------------- one download

  datatype Worker = Reading(buf: Bytes) | Done(result: Option<Bytes>)

  /** One slice of `download_from_peer`: the stop flag is polled before each
      slice, and the hashes are checked when the buffer is complete. */
  function WorkerStep(worker: Worker, a: Answer, stop: bool, c: Check): Worker {
    match worker
    case Done(_) => worker
    case Reading(buf) =>
      match a
      case Refuses => Done(None)
      case Sends(total, _, stream) =>
        if |buf| < total then
          if stop then Done(None)
          else
            var got := Min(Min(SLICE, total - |buf|), |stream| - |buf|);
            if got <= 0 then Done(None) else Reading(stream[..|buf| + got])
        else Done(Verify(a, buf, c))
  }

  ghost predicate WorkerOk(worker: Worker, p: Peer, stop: bool, c: Check) {
    match worker
    case Reading(buf) => p.answer.Sends? ==> buf <= p.answer.stream && |buf| <= p.answer.total
    case Done(r) => (r.Some? ==> r == Verified(p, c)) && (!stop ==> r == Verified(p, c))
  }

  lemma WorkerKeeps(worker: Worker, p: Peer, stop: bool, c: Check)
    requires WorkerOk(worker, p, stop, c)
    ensures WorkerOk(WorkerStep(worker, p.answer, stop, c), p, stop, c)
  {
    if worker.Reading? && p.answer.Sends? && |worker.buf| == p.answer.total {
      assert worker.buf == p.answer.stream[..p.answer.total];
    }
  }

  // -------------------------------------------------------------------- the race

  /** The caller: awaiting the i-th task, trying the j-th fallback, or done. */
  datatype Caller =
    | Awaiting(i: nat, winner: Option<Bytes>)
    | Falling(j: nat, current: Option<Worker>)
    | Returned(result: Option<Bytes>)

  datatype Race = Race(selected: seq<Peer>, fallback: seq<Peer>, check: Check,
                       workers: seq<Worker>, stop: bool, caller: Caller)

  datatype Step = WorkerRuns(k: nat) | CallerRuns | Cancel

  function Start(selected: seq<Peer>, fallback: seq<Peer>, check: Check, stop: bool): Race {
    Race(selected, fallback, check, seq(|selected|, _ => Reading("")), stop, Awaiting(0, None))
  }

  function CallerStep(r: Race): Race
    requires |r.workers| == |r.selected|
  {
    match r.caller
    case Awaiting(i, winner) =>
      if i >= |r.workers| then
        r.(caller := if winner.Some? then Returned(winner) else Falling(0, None))
      else if r.workers[i].Reading? then r
      else if winner.Some? || r.workers[i].result == None then r.(caller := Awaiting(i + 1, winner))
      else r.(stop := true, caller := Awaiting(i + 1, r.workers[i].result))
    case Falling(j, current) =>
      if j >= |r.fallback| then r.(caller := Returned(None))
      else
        (match current
         case None => r.(caller := if r.stop then Returned(None) else Falling(j, Some(Reading(""))))
         case Some(worker) =>
           if worker.Reading? then
             r.(caller := Falling(j, Some(WorkerStep(worker, r.fallback[j].answer, r.stop, r.check))))
           else if worker.result.Some? then r.(stop := true, caller := Returned(worker.result))
           else r.(caller := Falling(j + 1, None)))
    case Returned(_) => r
  }

  function Do(r: Race, step: Step): Race
    requires |r.workers| == |r.selected|
  {
    match step
    case WorkerRuns(k) =>
      if k < |r.workers| then
        r.(workers := r.workers[k := WorkerStep(r.workers[k], r.selected[k].answer, r.stop, r.check)])
      else r
    case CallerRuns => CallerStep(r)
    case Cancel => r.(stop := true)
  }

  // ------------------------------------------------------------------ invariants

  ghost predicate WorkersOk(r: Race) {
    && |r.workers| == |r.selected|
    && forall k :: 0 <= k < |r.workers| ==> WorkerOk(r.workers[k], r.selected[k], r.stop, r.check)
  }

  ghost predicate NoneBefore(peers: seq<Peer>, n: int, c: Check) {
    forall j :: 0 <= j < n && j < |peers| ==> Verified(peers[j], c) == None
  }

  ghost predicate SomeVerified(r: Race, d: Bytes) {
    exists p :: p in r.selected + r.fallback && Verified(p, r.check) == Some(d)
  }

  /** With or without cancellation: whatever is returned is one candidate's
      complete verified answer. */
  ghost predicate Safe(r: Race) {
    && WorkersOk(r)
    && match r.caller
       case Awaiting(_, winner) => winner.Some? ==> SomeVerified(r, winner.value)
       case Falling(j, current) => j < |r.fallback| && current.Some? ==> WorkerOk(current.value, r.fallback[j], r.stop, r.check)
       case Returned(result) => result.Some? ==> SomeVerified(r, result.value)
  }

  /** Without cancellation the caller's progress determines the outcome. */
  ghost predicate Exact(r: Race) {
    match r.caller
    case Awaiting(i, winner) =>
      if winner.Some? then winner == FirstVerified(r.selected + r.fallback, r.check)
      else !r.stop && NoneBefore(r.selected, i, r.check)
    case Falling(j, _) =>
      !r.stop && NoneBefore(r.selected, |r.selected|, r.check) && NoneBefore(r.fallback, j, r.check)
    case Returned(result) => result == FirstVerified(r.selected + r.fallback, r.check)
  }

  lemma WorkerRunsKeeps(r: Race, k: nat)
    requires Safe(r) && k < |r.workers|
    ensures Safe(Do(r, WorkerRuns(k)))
    ensures Exact(r) ==> Exact(Do(r, WorkerRuns(k)))
  {
    WorkerKeeps(r.workers[k], r.selected[k], r.stop, r.check);
    hide WorkerOk, WorkerStep, Verified, FirstVerified;
    var z := Do(r, WorkerRuns(k));
    assert forall d :: SomeVerified(r, d) ==> SomeVerified(z, d);
  }

  lemma StopKeepsWorkers(r: Race)
    requires WorkersOk(r)
    ensures WorkersOk(r.(stop := true))
  {
    hide Verified;
  }

  lemma SelectedWins(r: Race, i: nat)
    requires i < |r.selected| && NoneBefore(r.selected, i, r.check) && Verified(r.selected[i], r.check).Some?
    ensures FirstVerified(r.selected + r.fallback, r.check) == Verified(r.selected[i], r.check)
  {
    var all := r.selected + r.fallback;
    assert forall j :: 0 <= j < |r.selected| ==> all[j] == r.selected[j];
    FirstVerifiedAt(all, r.check, i);
  }

  lemma FallbackWins(r: Race, j: nat)
    requires NoneBefore(r.selected, |r.selected|, r.check)
    requires j < |r.fallback| && NoneBefore(r.fallback, j, r.check) && Verified(r.fallback[j], r.check).Some?
    ensures FirstVerified(r.selected + r.fallback, r.check) == Verified(r.fallback[j], r.check)
  {
    var all := r.selected + r.fallback;
    var n := |r.selected|;
    assert forall i :: 0 <= i < n ==> all[i] == r.selected[i];
    assert forall i :: 0 <= i < |r.fallback| ==> all[n + i] == r.fallback[i];
    assert forall i :: n <= i < n + j ==> all[i] == r.fallback[i - n];
    FirstVerifiedAt(all, r.check, n + j);
  }

  lemma NobodyWins(r: Race)
    requires NoneBefore(r.selected, |r.selected|, r.check) && NoneBefore(r.fallback, |r.fallback|, r.check)
    ensures FirstVerified(r.selected + r.fallback, r.check) == None
  {
    var all := r.selected + r.fallback;
    assert forall i :: 0 <= i < |all| ==> all[i] == if i < |r.selected| then r.selected[i] else r.fallback[i - |r.selected|];
    NoneVerified(all, r.check);
  }

  lemma AwaitKeeps(r: Race)
    requires Safe(r) && r.caller.Awaiting?
    ensures Safe(CallerStep(r))
    ensures Exact(r) ==> Exact(CallerStep(r))
  {
    hide Verified, FirstVerified;
    var i := r.caller.i;
    var z := CallerStep(r);
    if i < |r.workers| {
      assert WorkerOk(r.workers[i], r.selected[i], r.stop, r.check);
      if r.workers[i].Done? && r.caller.winner == None && r.workers[i].result.Some? {
        StopKeepsWorkers(r);
        assert r.selected[i] in r.selected + r.fallback;
        assert SomeVerified(z, r.workers[i].result.value);
        if Exact(r) { SelectedWins(r, i); }
      }
    }
    hide WorkersOk;
    assert forall d :: SomeVerified(r, d) ==> SomeVerified(z, d);
  }

  lemma FallKeeps(r: Race)
    requires Safe(r) && r.caller.Falling?
    ensures Safe(CallerStep(r))
    ensures Exact(r) ==> Exact(CallerStep(r))
  {
    var j, current := r.caller.j, r.caller.current;
    if j < |r.fallback| && current.Some? {
      WorkerKeeps(current.value, r.fallback[j], r.stop, r.check);
    }
    StopKeepsWorkers(r);
    hide Verified, FirstVerified, WorkersOk, WorkerStep;
    if j >= |r.fallback| {
      if Exact(r) { NobodyWins(r); }
    } else if current.Some? && current.value.Done? && current.value.result.Some? {
      assert r.fallback[j] in r.selected + r.fallback;
      assert SomeVerified(CallerStep(r), current.value.result.value);
      if Exact(r) { FallbackWins(r, j); }
    }
  }

  lemma CancelKeeps(r: Race)
    requires Safe(r)
    ensures Safe(Do(r, Cancel))
  {
    hide Verified;
    StopKeepsWorkers(r);
    assert forall d :: SomeVerified(r, d) ==> SomeVerified(Do(r, Cancel), d);
  }

  lemma DoKeeps(r: Race, step: Step)
    requires Safe(r)
    ensures Safe(Do(r, step))
    ensures Exact(r) && step != Cancel ==> Exact(Do(r, step))
  {
    hide Exact, WorkerStep;
    match step {
      case WorkerRuns(k) => if k < |r.workers| { WorkerRunsKeeps(r, k); }
      case CallerRuns =>
        if r.caller.Awaiting? { AwaitKeeps(r); } else if r.caller.Falling? { FallKeeps(r); }
      case Cancel => CancelKeeps(r);
    }
  }

  /** The state after a schedule. */
  ghost function Run(r: Race, schedule: seq<Step>): (z: Race)
    requires Safe(r)
    ensures Safe(z)
    decreases |schedule|
  {
    if schedule == [] then r
    else
      DoKeeps(r, schedule[0]);
      Run(Do(r, schedule[0]), schedule[1..])
  }

  lemma StartSafe(selected: seq<Peer>, fallback: seq<Peer>, check: Check, stop: bool)
    ensures Safe(Start(selected, fallback, check, stop))
    ensures !stop ==> Exact(Start(selected, fallback, check, stop))
  {
  }

  lemma {:induction false} RunKeeps(r: Race, schedule: seq<Step>)
    requires Safe(r) && Exact(r) && Cancel !in schedule
    ensures Exact(Run(r, schedule))
    ensures Run(r, schedule).selected == r.selected && Run(r, schedule).fallback == r.fallback && Run(r, schedule).check == r.check
    decreases |schedule|
  {
    if schedule != [] {
      DoKeeps(r, schedule[0]);
      assert schedule[0] in schedule;
      SameRace(r, schedule[0]);
      hide Safe, Exact, Do;
      RunKeeps(Do(r, schedule[0]), schedule[1..]);
    }
  }

  lemma SameRace(r: Race, step: Step)
    requires |r.workers| == |r.selected|
    ensures var z := Do(r, step); z.selected == r.selected && z.fallback == r.fallback && z.check == r.check
  {
    hide WorkerStep;
  }

  /** The hedged download does not depend on the schedule: without cancellation
      every interleaving that returns, returns the first verifying candidate's
      bytes in selection order, then fallback order, and nothing exactly when no
      candidate verifies. */
  lemma ScheduleIndependent(selected: seq<Peer>, fallback: seq<Peer>, check: Check, schedule: seq<Step>)
    requires Cancel !in schedule
    ensures Safe(Start(selected, fallback, check, false))
    ensures var end := Run(Start(selected, fallback, check, false), schedule).caller;
            end.Returned? ==>
              && end.result == FirstVerified(selected + fallback, check)
              && (end.result == None <==> forall p :: p in selected + fallback ==> Verified(p, check) == None)
  {
    var start := Start(selected, fallback, check, false);
    StartSafe(selected, fallback, check, false);
    RunKeeps(start, schedule);
    var all := selected + fallback;
    NoneVerified(all, check);
    hide Safe, FirstVerified, Verified;
    assert (forall i :: 0 <= i < |all| ==> Verified(all[i], check) == None) <==> (forall p :: p in all ==> Verified(p, check) == None);
  }

  // ------------------------------------------------------------------ progress

  function Remaining(worker: Worker, a: Answer): nat {
    match worker
    case Done(_) => 0
    case Reading(buf) => match a case Refuses => 1 case Sends(total, _, _) => 1 + Max(0, total - |buf|)
  }

  function WorkersLeft(workers: seq<Worker>, peers: seq<Peer>): nat
    requires |workers| == |peers|
  {
    if workers == [] then 0 else Remaining(workers[0], peers[0].answer) + WorkersLeft(workers[1..], peers[1..])
  }

  function FallbackLeft(peers: seq<Peer>): nat {
    if peers == [] then 0 else 3 + Remaining(Reading(""), peers[0].answer) + FallbackLeft(peers[1..])
  }

  /** Steps left: of the workers, then of the caller. */
  function Left(r: Race): nat
    requires |r.workers| == |r.selected|
  {
    WorkersLeft(r.workers, r.selected) +
    match r.caller
    case Awaiting(i, _) => 2 + FallbackLeft(r.fallback) + Max(0, |r.workers| - i)
    case Falling(j, current) =>
      if j >= |r.fallback| then 1
      else
        1 + FallbackLeft(r.fallback[j + 1..]) +
        (match current case None => 3 + Remaining(Reading(""), r.fallback[j].answer)
                       case Some(worker) => 1 + Remaining(worker, r.fallback[j].answer))
    case Returned(_) => 0
  }

  lemma WorkerProgress(worker: Worker, a: Answer, stop: bool, c: Check)
    ensures worker.Reading? ==> Remaining(WorkerStep(worker, a, stop, c), a) < Remaining(worker, a)
  {
  }

  lemma {:induction false} WorkersProgress(workers: seq<Worker>, peers: seq<Peer>, k: nat, worker: Worker)
    requires |workers| == |peers| && k < |workers|
    ensures WorkersLeft(workers[k := worker], peers) ==
            WorkersLeft(workers, peers) - Remaining(workers[k], peers[k].answer) + Remaining(worker, peers[k].answer)
  {
    if k > 0 {
      assert workers[k := worker][1..] == workers[1..][k - 1 := worker];
      WorkersProgress(workers[1..], peers[1..], k - 1, worker);
    } else {
      assert workers[k := worker][1..] == workers[1..];
    }
  }

  lemma WorkerRunsProgress(r: Race, k: nat)
    requires |r.workers| == |r.selected| && k < |r.workers|
    ensures var z := Do(r, WorkerRuns(k));
            if r.workers[k].Reading? then Left(z) < Left(r) else z == r
  {
    WorkerProgress(r.workers[k], r.selected[k].answer, r.stop, r.check);
    WorkersProgress(r.workers, r.selected, k, WorkerStep(r.workers[k], r.selected[k].answer, r.stop, r.check));
    assert r.workers[k := r.workers[k]] == r.workers;
    hide Remaining, FallbackLeft, WorkersLeft;
  }

  lemma AwaitProgress(r: Race)
    requires |r.workers| == |r.selected| && r.caller.Awaiting?
    ensures var z := CallerStep(r);
            if r.caller.i < |r.workers| && r.workers[r.caller.i].Reading? then z == r else Left(z) < Left(r)
  {
    hide WorkersLeft;
  }

  lemma FallProgress(r: Race)
    requires |r.workers| == |r.selected| && r.caller.Falling?
    ensures Left(CallerStep(r)) < Left(r)
  {
    hide WorkersLeft;
    var j := r.caller.j;
    if j < |r.fallback| {
      if r.caller.current.Some? {
        WorkerProgress(r.caller.current.value, r.fallback[j].answer, r.stop, r.check);
      }
      hide WorkerStep, Remaining;
      var rest := r.fallback[j + 1..];
      if rest != [] {
        assert rest[0] == r.fallback[j + 1] && rest[1..] == r.fallback[j + 2..];
      }
    }
  }

  /** Every step that changes anything but the stop flag brings the end closer. */
  lemma StepProgress(r: Race, step: Step)
    requires |r.workers| == |r.selected|
    ensures Do(r, step).(stop := r.stop) != r ==> Left(Do(r, step)) < Left(r)
    ensures Left(Do(r, step)) <= Left(r)
  {
    match step {
      case WorkerRuns(k) => if k < |r.workers| { WorkerRunsProgress(r, k); }
      case CallerRuns =>
        if r.caller.Falling? { FallProgress(r); } else if r.caller.Awaiting? { AwaitProgress(r); }
      case Cancel =>
    }
    hide WorkersLeft, FallbackLeft, Remaining, WorkerStep;
  }

  /** Nothing blocks before the caller has returned: the caller can move, or the
      worker it awaits can. */
  lemma NeverStuck(r: Race)
    requires |r.workers| == |r.selected| && !r.caller.Returned?
    ensures var step := if r.caller.Awaiting? && r.caller.i < |r.workers| && r.workers[r.caller.i].Reading?
                        then WorkerRuns(r.caller.i) else CallerRuns;
            Left(Do(r, step)) < Left(r)
  {
    if r.caller.Falling? {
      FallProgress(r);
    } else {
      AwaitProgress(r);
      if r.caller.i < |r.workers| {
        WorkerRunsProgress(r, r.caller.i);
      }
    }
    hide Left, CallerStep, WorkerStep;
  }

  // ----------------------------------------------------------- a shared context

  /** A peer as a download sees it that polls a stop flag already set: only an
      announced length of zero gets past the flag. */
  function Barred(p: Peer): Peer {
    if p.answer.Sends? && p.answer.total > 0 then p.(answer := Refuses) else p
  }

  function AllBarred(peers: seq<Peer>): (r: seq<Peer>)
    ensures |r| == |peers| && forall i :: 0 <= i < |peers| ==> r[i] == Barred(peers[i])
  {
    if peers == [] then [] else [Barred(peers[0])] + AllBarred(peers[1..])
  }

  /** What a race keeps whose flag was set before it began. */
  ghost predicate Starved(r: Race) {
    && r.stop && |r.workers| == |r.selected|
    && (forall k :: 0 <= k < |r.workers| ==> StarvedWorker(r.workers[k], r.selected[k], r.check))
    && var all := AllBarred(r.selected);
       match r.caller
       case Awaiting(i, winner) => if winner.Some? then winner == FirstVerified(all, r.check) else NoneBefore(all, i, r.check)
       case Falling(_, current) => current == None && NoneBefore(all, |all|, r.check)
       case Returned(result) => result == FirstVerified(all, r.check)
  }

  ghost predicate StarvedWorker(worker: Worker, p: Peer, c: Check) {
    match worker
    case Reading(buf) => buf == ""
    case Done(r) => r == Verified(Barred(p), c)
  }

  lemma StarvedWorkerKeeps(worker: Worker, p: Peer, c: Check)
    requires StarvedWorker(worker, p, c)
    ensures StarvedWorker(WorkerStep(worker, p.answer, true, c), p, c)
  {
    if worker.Reading? && p.answer.Sends? && p.answer.total == 0 {
      assert p.answer.stream[..0] == "";
    }
  }

  lemma StarvedCaller(r: Race)
    requires Starved(r)
    ensures Starved(CallerStep(r))
  {
    var all := AllBarred(r.selected);
    hide Verified, FirstVerified, WorkerStep, AllBarred;
    NoneVerified(all, r.check);
    if r.caller.Awaiting? && r.caller.i < |r.workers| && r.workers[r.caller.i].Done? && r.caller.winner == None {
      var i := r.caller.i;
      assert StarvedWorker(r.workers[i], r.selected[i], r.check);
      if r.workers[i].result.Some? {
        FirstVerifiedAt(all, r.check, i);
      }
    }
  }

  lemma StarvedKeeps(r: Race, step: Step)
    requires Starved(r)
    ensures Starved(Do(r, step))
  {
    match step {
      case WorkerRuns(k) =>
        if k < |r.workers| {
          StarvedWorkerKeeps(r.workers[k], r.selected[k], r.check);
          hide WorkerStep, StarvedWorker, FirstVerified, NoneBefore;
        }
      case CallerRuns => StarvedCaller(r);
      case Cancel =>
    }
  }

  lemma {:induction false} StarvedRun(r: Race, schedule: seq<Step>)
    requires Safe(r) && Starved(r)
    ensures Starved(Run(r, schedule))
    ensures Run(r, schedule).selected == r.selected && Run(r, schedule).check == r.check
    decreases |schedule|
  {
    if schedule != [] {
      DoKeeps(r, schedule[0]);
      StarvedKeeps(r, schedule[0]);
      SameRace(r, schedule[0]);
      hide Safe, Do, Starved;
      StarvedRun(Do(r, schedule[0]), schedule[1..]);
    }
  }

  /** A download that joins a context whose stop flag is already set: under every
      schedule its result is that of the first verifying selected peer among those
      announcing no bytes at all, and none otherwise; so never a nonempty chunk. */
  lemma SharedFlagStarves(selected: seq<Peer>, fallback: seq<Peer>, check: Check, schedule: seq<Step>)
    ensures Safe(Start(selected, fallback, check, true))
    ensures var end := Run(Start(selected, fallback, check, true), schedule).caller;
            end.Returned? ==>
              end.result == FirstVerified(AllBarred(selected), check) && (end.result.Some? ==> end.result.value == "")
  {
    StartSafe(selected, fallback, check, true);
    StarvedRun(Start(selected, fallback, check, true), schedule);
    BarredYieldsNothing(AllBarred(selected), selected, check);
  }

  lemma {:induction false} BarredYieldsNothing(all: seq<Peer>, peers: seq<Peer>, c: Check)
    requires all == AllBarred(peers)
    ensures FirstVerified(all, c).Some? ==> FirstVerified(all, c).value == ""
  {
    if peers != [] {
      assert all[1..] == AllBarred(peers[1..]);
      BarredYieldsNothing(all[1..], peers[1..], c);
    }
  }

  // ---------------------------------------------------------------- cancellation

  /** From every state some schedule without cancellation brings the caller to its
      end. */
  lemma {:induction false} Finishes(r: Race) returns (schedule: seq<Step>)
    requires Safe(r)
    ensures Cancel !in schedule && Run(r, schedule).caller.Returned?
    decreases Left(r)
  {
    if r.caller.Returned? {
      schedule := [];
    } else {
      var step := if r.caller.Awaiting? && r.caller.i < |r.workers| && r.workers[r.caller.i].Reading?
                  then WorkerRuns(r.caller.i) else CallerRuns;
      NeverStuck(r);
      DoKeeps(r, step);
      hide Safe, Do, Left;
      var rest := Finishes(Do(r, step));
      schedule := [step] + rest;
      assert schedule[1..] == rest;
    }
  }

  lemma {:induction false} RunSame(r: Race, schedule: seq<Step>)
    requires Safe(r)
    ensures var z := Run(r, schedule); z.selected == r.selected && z.fallback == r.fallback && z.check == r.check
    decreases |schedule|
  {
    if schedule != [] {
      DoKeeps(r, schedule[0]);
      SameRace(r, schedule[0]);
      hide Safe, Do;
      RunSame(Do(r, schedule[0]), schedule[1..]);
    }
  }

  lemma {:induction false} FirstIndex(peers: seq<Peer>, c: Check) returns (i: nat)
    requires FirstVerified(peers, c).Some?
    ensures i < |peers| && NoneBefore(peers, i, c) && Verified(peers[i], c) == FirstVerified(peers, c)
  {
    hide Verified;
    if Verified(peers[0], c).Some? {
      i := 0;
    } else {
      var j := FirstIndex(peers[1..], c);
      i := j + 1;
      assert forall k :: 1 <= k < |peers| ==> peers[k] == peers[1..][k - 1];
    }
  }

  /** The first verifying candidate is selected peer `i`, and verifies with no bytes:
      then the flag changes nothing. */
  ghost predicate EmptyWins(r: Race, i: nat) {
    && |r.workers| == |r.selected| && i < |r.selected| && NoneBefore(r.selected, i, r.check)
    && r.selected[i].answer.Sends? && r.selected[i].answer.total == 0 && Verify(r.selected[i].answer, "", r.check) == Some("")
    && (r.workers[i] == Reading("") || r.workers[i] == Done(Some("")))
    && match r.caller
       case Awaiting(j, winner) => if winner.Some? then winner == Some("") else j <= i
       case Falling(_, _) => false
       case Returned(result) => result == Some("")
  }

  lemma EmptyWinsKeeps(r: Race, i: nat, step: Step)
    requires Safe(r) && EmptyWins(r, i)
    ensures EmptyWins(Do(r, step), i)
  {
    hide Verified;
    if step.CallerRuns? && r.caller.Awaiting? && r.caller.i < |r.workers| {
      var j := r.caller.i;
      assert WorkerOk(r.workers[j], r.selected[j], r.stop, r.check);
      hide WorkerOk;
    }
  }

  lemma {:induction false} EmptyWinsRun(r: Race, i: nat, schedule: seq<Step>)
    requires Safe(r) && EmptyWins(r, i)
    ensures EmptyWins(Run(r, schedule), i)
    decreases |schedule|
  {
    if schedule != [] {
      DoKeeps(r, schedule[0]);
      EmptyWinsKeeps(r, i, schedule[0]);
      hide Safe, Do, EmptyWins;
      EmptyWinsRun(Do(r, schedule[0]), i, schedule[1..]);
    }
  }

  /** A peer that verifies with no bytes announced none. */
  lemma EmptyAnnounced(p: Peer, c: Check)
    requires Verified(p, c) == Some("")
    ensures p.answer.Sends? && p.answer.total == 0 && Verify(p.answer, "", c) == Some("")
  {
    var total := p.answer.total;
    assert |p.answer.stream[..total]| == total;
    assert p.answer.stream[..0] == "";
  }

  lemma BarredVerifies(p: Peer, c: Check)
    requires Verified(Barred(p), c).Some?
    ensures Verified(p, c).Some?
  {
  }

  ghost function Result(selected: seq<Peer>, fallback: seq<Peer>, check: Check, schedule: seq<Step>): Caller {
    StartSafe(selected, fallback, check, false);
    Run(Start(selected, fallback, check, false), schedule).caller
  }

  /** Every schedule that returns, cancelled at whatever moments, returns the same. */
  ghost predicate CancelIndependent(selected: seq<Peer>, fallback: seq<Peer>, check: Check) {
    forall a, b :: Result(selected, fallback, check, a).Returned? && Result(selected, fallback, check, b).Returned? ==>
      Result(selected, fallback, check, a) == Result(selected, fallback, check, b)
  }

  lemma CancelFirst(selected: seq<Peer>, fallback: seq<Peer>, check: Check, rest: seq<Step>)
    ensures Safe(Start(selected, fallback, check, true))
    ensures Result(selected, fallback, check, [Cancel] + rest) == Run(Start(selected, fallback, check, true), rest).caller
  {
    StartSafe(selected, fallback, check, false);
    StartSafe(selected, fallback, check, true);
    assert ([Cancel] + rest)[1..] == rest;
    assert Do(Start(selected, fallback, check, false), Cancel) == Start(selected, fallback, check, true);
    hide Safe, Start;
  }

  /** Both ends of the spectrum occur: no cancellation at all, and one before all else. */
  lemma TwoSchedules(selected: seq<Peer>, fallback: seq<Peer>, check: Check) returns (a: seq<Step>, b: seq<Step>)
    ensures Result(selected, fallback, check, a) == Returned(FirstVerified(selected + fallback, check))
    ensures Result(selected, fallback, check, b) == Returned(FirstVerified(AllBarred(selected), check))
  {
    StartSafe(selected, fallback, check, false);
    StartSafe(selected, fallback, check, true);
    hide Safe, Start, Run;
    a := Finishes(Start(selected, fallback, check, false));
    ScheduleIndependent(selected, fallback, check, a);
    var rest := Finishes(Start(selected, fallback, check, true));
    SharedFlagStarves(selected, fallback, check, rest);
    b := [Cancel] + rest;
    CancelFirst(selected, fallback, check, rest);
  }

  lemma NobodyReturned(selected: seq<Peer>, fallback: seq<Peer>, check: Check, schedule: seq<Step>)
    requires FirstVerified(selected + fallback, check) == None
    ensures var end := Result(selected, fallback, check, schedule); end.Returned? ==> end.result == None
  {
    var start := Start(selected, fallback, check, false);
    StartSafe(selected, fallback, check, false);
    RunSame(start, schedule);
    var all := selected + fallback;
    NoneVerified(all, check);
    hide Verified, FirstVerified, WorkersOk, Run;
    assert forall p :: p in all ==> Verified(p, check) == None;
  }

  lemma EmptyFirst(selected: seq<Peer>, fallback: seq<Peer>, c: Check) returns (i: nat)
    requires FirstVerified(selected + fallback, c) == FirstVerified(AllBarred(selected), c) == Some("")
    ensures i < |selected| && NoneBefore(selected, i, c) && Verified(selected[i], c) == Some("")
  {
    var all := selected + fallback;
    i := FirstIndex(all, c);
    var k := FirstIndex(AllBarred(selected), c);
    BarredVerifies(selected[k], c);
    hide Verified, FirstVerified, AllBarred;
    assert forall j :: 0 <= j < |selected| ==> all[j] == selected[j];
    assert i <= k;
  }

  lemma StartEmptyWins(selected: seq<Peer>, fallback: seq<Peer>, c: Check, i: nat)
    requires i < |selected| && NoneBefore(selected, i, c) && Verified(selected[i], c) == Some("")
    ensures EmptyWins(Start(selected, fallback, c, false), i)
  {
    EmptyAnnounced(selected[i], c);
    hide Verified;
  }

  lemma EmptyReturned(selected: seq<Peer>, fallback: seq<Peer>, check: Check, schedule: seq<Step>)
    requires FirstVerified(selected + fallback, check) == FirstVerified(AllBarred(selected), check) == Some("")
    ensures var end := Result(selected, fallback, check, schedule); end.Returned? ==> end.result == Some("")
  {
    var i := EmptyFirst(selected, fallback, check);
    StartEmptyWins(selected, fallback, check, i);
    StartSafe(selected, fallback, check, false);
    hide FirstVerified, Verified, Start, Safe, NoneBefore;
    EmptyWinsRun(Start(selected, fallback, check, false), i, schedule);
  }

  /** Exactly when cancellation, by a caller or by a download sharing the context, can
      change nothing: when the first verifying candidate is one that would win under
      a flag set from the start, or there is none. */
  lemma CancelIndependentIff(selected: seq<Peer>, fallback: seq<Peer>, check: Check)
    ensures CancelIndependent(selected, fallback, check) <==>
            FirstVerified(selected + fallback, check) == FirstVerified(AllBarred(selected), check)
  {
    hide Result, FirstVerified;
    var f := FirstVerified(selected + fallback, check);
    var a, b := TwoSchedules(selected, fallback, check);
    if f == FirstVerified(AllBarred(selected), check) {
      forall s
        ensures Result(selected, fallback, check, s).Returned? ==> Result(selected, fallback, check, s).result == f
      {
        if f == None {
          NobodyReturned(selected, fallback, check, s);
        } else {
          BarredYieldsNothing(AllBarred(selected), selected, check);
          EmptyReturned(selected, fallback, check, s);
        }
      }
    }
  }

  // ------------------------------------------------------------------- selection

  /** `Unordered` is the shuffle of `RarestFirst` without node discovery, and the
      order given for an unknown mode. */
  datatype Mode = NearestFirst | FastestFirst | RarestFirst | Unordered

  predicate Better(mode: Mode, a: Peer, b: Peer) {
    match mode
    case NearestFirst => a.latency < b.latency
    case FastestFirst => a.throughput > b.throughput
    case RarestFirst => a.rarity < b.rarity
    case Unordered => false
  }

  /** `select_k_peers`: the head of some sorted arrangement of the candidates
      (`std::sort` leaves the order of equals open, a shuffle all order). */
  ghost predicate Selection(candidates: seq<Peer>, k: nat, mode: Mode, sorted: seq<Peer>, selected: seq<Peer>) {
    && multiset(sorted) == multiset(candidates)
    && (forall i, j :: 0 <= i < j < |sorted| ==> !Better(mode, sorted[j], sorted[i]))
    && selected == sorted[..Min(k, |sorted|)]
  }

  /** The candidates not selected, in their original order. */
  function Fallbacks(candidates: seq<Peer>, selected: seq<Peer>): seq<Peer> {
    if candidates == [] then []
    else if exists p :: p in selected && p.id == candidates[0].id then Fallbacks(candidates[1..], selected)
    else [candidates[0]] + Fallbacks(candidates[1..], selected)
  }

  /** The loop of `download_chunk` that collects the fallback peers. */
  method FallbackPeers(candidates: seq<Peer>, selected: seq<Peer>) returns (rest: seq<Peer>)
    ensures rest == Fallbacks(candidates, selected)
  {
    rest := [];
    for i := 0 to |candidates|
      invariant rest + Fallbacks(candidates[i..], selected) == Fallbacks(candidates, selected)
    {
      var tried := false;
      for j := 0 to |selected|
        invariant tried <==> exists p :: p in selected[..j] && p.id == candidates[i].id
      {
        assert selected[..j + 1] == selected[..j] + [selected[j]];
        if selected[j].id == candidates[i].id {
          tried := true;
        }
      }
      assert selected[..|selected|] == selected;
      assert candidates[i..][0] == candidates[i] && candidates[i..][1..] == candidates[i + 1..];
      if !tried {
        rest := rest + [candidates[i]];
      }
    }
  }

  ghost predicate DistinctIds(peers: seq<Peer>) {
    forall i, j :: 0 <= i < j < |peers| ==> peers[i].id != peers[j].id
  }

  lemma {:induction false} FallbacksMembers(candidates: seq<Peer>, selected: seq<Peer>)
    ensures forall p :: p in Fallbacks(candidates, selected) <==> p in candidates && !exists q :: q in selected && q.id == p.id
    ensures |Fallbacks(candidates, selected)| <= |candidates|
  {
    if candidates != [] {
      FallbacksMembers(candidates[1..], selected);
      assert forall p :: p in candidates <==> p == candidates[0] || p in candidates[1..];
    }
  }

  lemma {:induction false} FallbacksDistinct(candidates: seq<Peer>, selected: seq<Peer>)
    requires DistinctIds(candidates)
    ensures DistinctIds(Fallbacks(candidates, selected))
  {
    if candidates != [] {
      FallbacksDistinct(candidates[1..], selected);
      FallbacksMembers(candidates[1..], selected);
      var rest := Fallbacks(candidates[1..], selected);
      forall p | p in rest
        ensures p.id != candidates[0].id
      {
        var i :| 0 <= i < |candidates[1..]| && candidates[1..][i] == p;
        assert candidates[i + 1] == p;
      }
    }
  }

  lemma IdDetermines(peers: seq<Peer>, p: Peer, q: Peer)
    requires DistinctIds(peers) && p in peers && q in peers && p.id == q.id
    ensures p == q
  {
  }

  lemma SortedDistinct(candidates: seq<Peer>, sorted: seq<Peer>)
    requires DistinctIds(candidates) && multiset(sorted) == multiset(candidates)
    ensures DistinctIds(sorted) && |sorted| == |candidates|
    ensures forall p :: p in sorted <==> p in candidates
  {
    assert |multiset(sorted)| == |multiset(candidates)|;
    forall p
      ensures p in sorted <==> p in candidates
    {
      assert p in sorted <==> p in multiset(sorted);
      assert p in candidates <==> p in multiset(candidates);
    }
    forall i, j | 0 <= i < j < |sorted|
      ensures sorted[i].id != sorted[j].id
    {
      var p := sorted[i];
      assert p in candidates && sorted[j] in candidates;
      if p.id == sorted[j].id {
        IdDetermines(candidates, p, sorted[j]);
        TwiceInMultiset(sorted, i, j);
        OnceInMultiset(candidates, p);
      }
    }
  }

  lemma TwiceInMultiset(s: seq<Peer>, i: nat, j: nat)
    requires i < j < |s| && s[i] == s[j]
    ensures multiset(s)[s[i]] >= 2
  {
    assert s == s[..j] + s[j..];
    assert s[..j][i] == s[i] && s[j..][0] == s[i];
    assert multiset(s) == multiset(s[..j]) + multiset(s[j..]);
  }

  lemma OnceInMultiset(s: seq<Peer>, p: Peer)
    requires DistinctIds(s) && p in s
    ensures multiset(s)[p] == 1
  {
    var a :| 0 <= a < |s| && s[a] == p;
    assert s == s[..a] + [p] + s[a + 1..];
    assert p !in s[..a] && p !in s[a + 1..];
    assert multiset(s) == multiset(s[..a]) + multiset([p]) + multiset(s[a + 1..]);
  }

  lemma TriedCovers(candidates: seq<Peer>, selected: seq<Peer>, p: Peer)
    requires DistinctIds(candidates) && (forall q :: q in selected ==> q in candidates) && p in candidates
    ensures p in selected || p in Fallbacks(candidates, selected)
  {
    FallbacksMembers(candidates, selected);
    hide Fallbacks, DistinctIds;
    if p !in Fallbacks(candidates, selected) {
      var q :| q in selected && q.id == p.id;
      IdDetermines(candidates, p, q);
    }
  }

  lemma BestK(k: nat, mode: Mode, sorted: seq<Peer>, selected: seq<Peer>, p: Peer, q: Peer)
    requires forall i, j :: 0 <= i < j < |sorted| ==> !Better(mode, sorted[j], sorted[i])
    requires selected == sorted[..Min(k, |sorted|)] && p in selected && q in sorted && q !in selected
    ensures !Better(mode, q, p)
  {
    hide Better;
    var i :| 0 <= i < |selected| && selected[i] == p;
    var j :| 0 <= j < |sorted| && sorted[j] == q;
    assert sorted[i] == p;
    assert forall n :: 0 <= n < |selected| ==> sorted[n] == selected[n];
    assert j >= |selected|;
  }

  lemma DistinctConcat(a: seq<Peer>, b: seq<Peer>)
    requires DistinctIds(a) && DistinctIds(b) && forall p, q :: p in a && q in b ==> p.id != q.id
    ensures DistinctIds(a + b)
  {
  }

  /** The K selected are the best K, and selection plus fallback tries every
      candidate once and nobody twice. */
  lemma EveryCandidateOnce(candidates: seq<Peer>, k: nat, mode: Mode, sorted: seq<Peer>, selected: seq<Peer>)
    requires DistinctIds(candidates) && Selection(candidates, k, mode, sorted, selected)
    ensures |selected| == Min(k, |candidates|)
    ensures var tried := selected + Fallbacks(candidates, selected);
            DistinctIds(tried) && forall p :: p in tried <==> p in candidates
    ensures forall p, q :: p in selected && q in Fallbacks(candidates, selected) ==> !Better(mode, q, p)
  {
    SortedDistinct(candidates, sorted);
    var rest := Fallbacks(candidates, selected);
    FallbacksMembers(candidates, selected);
    FallbacksDistinct(candidates, selected);
    assert DistinctIds(selected);
    DistinctConcat(selected, rest);
    hide Fallbacks, Better, DistinctIds;
    assert forall p :: p in selected ==> p in sorted;
    forall p | p in candidates
      ensures p in selected || p in rest
    {
      TriedCovers(candidates, selected, p);
    }
    forall p, q | p in selected && q in rest
      ensures !Better(mode, q, p)
    {
      BestK(k, mode, sorted, selected, p, q);
    }
  }

  /** Mode by mode: nobody left for fallback has a lower latency, a higher throughput or
      a lower rarity than one selected. */
  lemma SelectedAreBest(candidates: seq<Peer>, k: nat, mode: Mode, sorted: seq<Peer>, selected: seq<Peer>, p: Peer, q: Peer)
    requires DistinctIds(candidates) && Selection(candidates, k, mode, sorted, selected)
    requires p in selected && q in Fallbacks(candidates, selected)
    ensures mode == NearestFirst ==> p.latency <= q.latency
    ensures mode == FastestFirst ==> p.throughput >= q.throughput
    ensures mode == RarestFirst ==> p.rarity <= q.rarity
  {
    EveryCandidateOnce(candidates, k, mode, sorted, selected);
    hide Fallbacks, Selection, DistinctIds;
  }

  /** Adopting a winner sets the stop flag, and a download that sees the flag before it
      is complete gives up at its next slice. */
  lemma WinnerStopsOthers(r: Race)
    requires |r.workers| == |r.selected|
    ensures var c := r.caller;
            (c.Awaiting? && c.i < |r.workers| && c.winner == None && r.workers[c.i].Done? && r.workers[c.i].result.Some?) ==>
              Do(r, CallerRuns).stop && Do(r, CallerRuns).caller == Awaiting(c.i + 1, r.workers[c.i].result)
    ensures forall k :: 0 <= k < |r.workers| ==> var a := r.selected[k].answer;
              (r.stop && r.workers[k].Reading? && a.Sends? && |r.workers[k].buf| < a.total) ==>
                Do(r, WorkerRuns(k)).workers[k] == Done(None)
  {
  }
}

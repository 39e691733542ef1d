/** What a node's cache is for: a request whose meta line and chunks the node holds is
    answered by its own steps, without peers and without the origin,
    src/proxy/request_handler.cpp over src/cache/chunk_manager.cpp. */
module CacheServes {
  import opened Base
  import opened Text
  import opened MetaCodec
  import opened RangeHeader
  import opened Assembly
  import opened World
  import opened Cluster
  import L = LruSpec
  import O = LruOps
  import S = ChunkStore

  // ------------------------------------------------------------- what is held

  /** On disk, and small enough to survive its promotion. */
  ghost predicate OnDisk(s: S.Store, id: S.Id) {
    && s.hasDisk && id in s.index && S.Sanitize(id) in s.files
    && S.Small(s.files[S.Sanitize(id)], s.mem.config.capacity)
  }

  /** All in memory, so that nothing is promoted; or all on disk, so that it does not
      matter what a promotion evicts. */
  ghost predicate Holds(s: S.Store, ids: iset<S.Id>) {
    (forall id :: id in ids ==> id in s.mem.cache) || (forall id :: id in ids ==> OnDisk(s, id))
  }

  /** Whichever copy of the meta line is read, it parses. */
  ghost predicate MetaReads(s: S.Store, meta: S.Id) {
    && (meta in s.mem.cache ==> Parse(s.mem.cache[meta].data).Some?)
    && (S.Sanitize(meta) in s.files ==> Parse(s.files[S.Sanitize(meta)]).Some?)
  }

  /** The bytes a GET asks for, as positions; none for an empty object or a range it
      does not have. */
  ghost function SpanOf(w: World, req: Request): Option<Span>
    requires req.key in w.origin
  {
    var size := |w.origin[req.key].content|;
    match req.range
    case Some(header) => ParseRange(header, size)
    case None => if size == 0 then None else Some(Span(0, size - 1))
  }

  ghost predicate Wants(w: World, req: Request, i: nat) {
    && w.chunkSize > 0 && req.key in w.origin && !req.isHead && SpanOf(w, req).Some?
    && var span := SpanOf(w, req).value; span.first / w.chunkSize <= i <= span.last / w.chunkSize
  }

  /** The meta line and the chunks of the span asked for. */
  ghost function Needed(w: World, req: Request): iset<S.Id> {
    iset{MetaKey(req.key)} + iset i: nat | Wants(w, req, i) :: IndexedId(req.key, i)
  }

  // ------------------------------------------------------ reads of what is held

  lemma FastReads(s: S.Store, id: S.Id, ids: iset<S.Id>, meta: S.Id, clock: L.Clock)
    requires L.Valid(s.mem) && Holds(s, ids) && MetaReads(s, meta)
    ensures var (r, got) := S.GetFast(s, id, clock);
            && L.Valid(r.mem) && Holds(r, ids) && MetaReads(r, meta)
            && (got.Some? <==> id in s.mem.cache) && (got.Some? ==> got.value == s.mem.cache[id].data)
  {
    O.GetFacts(s.mem, id, clock);
    hide L.Valid, O.Get, S.Sanitize, Parse;
  }

  /** The second critical section finds what is held, from memory or from disk. */
  lemma SlowReads(s: S.Store, id: S.Id, ids: iset<S.Id>, meta: S.Id, clock: L.Clock)
    requires L.Valid(s.mem) && Holds(s, ids) && id in ids && MetaReads(s, meta) && id != ""
    requires O.Brief(clock, s.mem.ticks, S.GetSlow(s, id, clock).0.mem.ticks)
    ensures var (r, got) := S.GetSlow(s, id, clock);
            && L.Valid(r.mem) && Holds(r, ids) && MetaReads(r, meta) && got.Some?
            && (id in s.mem.cache ==> got.value == s.mem.cache[id].data)
            && (id !in s.mem.cache ==> S.Sanitize(id) in s.files && got.value == s.files[S.Sanitize(id)])
  {
    hide L.Valid, O.Get, O.Put, S.Sanitize, Parse;
    O.GetFacts(s.mem, id, clock);
    if id !in s.mem.cache {
      assert OnDisk(s, id);
      var m := O.Get(s.mem, id, clock).0;
      var data := s.files[S.Sanitize(id)];
      O.PutFacts(m, id, data, clock);
      O.GetFacts(O.Put(m, id, data, clock).0, id, clock);
      O.FreshPutSurvives(m, id, data, clock);
    }
  }

  // ---------------------------------------------------------- a request's own steps

  ghost function OwnStep(w: World, s: S.Store, task: Task, net: set<(S.Id, Bytes)>, clock: L.Clock): (S.Store, Task)
    requires w.chunkSize > 0 && L.Valid(s.mem)
  {
    var (r, stage) := if task.stage.Fetching? then FetchStep(w, s, task, Local, net, clock)
                      else InfoStep(w, s, task, Local, net, clock);
    (r, task.(stage := stage))
  }

  /** The request alone: no peer answers, no origin, nothing else happening. */
  ghost function OwnSteps(w: World, s: S.Store, task: Task, net: set<(S.Id, Bytes)>, clock: L.Clock, k: nat): (S.Store, Task)
    requires w.chunkSize > 0
    decreases k
  {
    if k == 0 || !L.Valid(s.mem) then (s, task)
    else
      var (r, t) := OwnStep(w, s, task, net, clock);
      OwnSteps(w, r, t, net, clock, k - 1)
  }

  /** The clock reads of each single step span less than a minute. */
  ghost predicate EachBrief(w: World, s: S.Store, task: Task, net: set<(S.Id, Bytes)>, clock: L.Clock)
    requires w.chunkSize > 0
  {
    forall k: nat :: BriefAt(w, s, task, net, clock, k)
  }

  ghost predicate BriefAt(w: World, s: S.Store, task: Task, net: set<(S.Id, Bytes)>, clock: L.Clock, k: nat)
    requires w.chunkSize > 0
  {
    O.Brief(clock, OwnSteps(w, s, task, net, clock, k).0.mem.ticks, OwnSteps(w, s, task, net, clock, k + 1).0.mem.ticks)
  }

  lemma BriefFirst(w: World, s: S.Store, task: Task, net: set<(S.Id, Bytes)>, clock: L.Clock)
    requires w.chunkSize > 0 && L.Valid(s.mem) && EachBrief(w, s, task, net, clock)
    ensures var (r, t) := OwnStep(w, s, task, net, clock);
            O.Brief(clock, s.mem.ticks, r.mem.ticks) && EachBrief(w, r, t, net, clock)
  {
    var (r, t) := OwnStep(w, s, task, net, clock);
    hide L.Valid, OwnStep, O.Brief;
    assert BriefAt(w, s, task, net, clock, 0);
    assert OwnSteps(w, s, task, net, clock, 0) == (s, task);
    assert OwnSteps(w, s, task, net, clock, 1) == OwnSteps(w, r, t, net, clock, 0);
    forall k: nat
      ensures BriefAt(w, r, t, net, clock, k)
    {
      assert BriefAt(w, s, task, net, clock, k + 1);
      assert OwnSteps(w, s, task, net, clock, k + 1) == OwnSteps(w, r, t, net, clock, k);
      assert OwnSteps(w, s, task, net, clock, k + 2) == OwnSteps(w, r, t, net, clock, k + 1);
    }
  }

  /** On its way through the cache. */
  ghost predicate Cached(stage: Stage) {
    match stage
    case InfoFast | InfoSlow => true
    case InfoPeers | InfoHead => false
    case Fetching(_, at) => at.CacheFast? || at.CacheSlow?
    case Finished(_) => !Refuses(stage)
  }

  ghost predicate Underway(w: World, s: S.Store, task: Task) {
    && w.chunkSize > 0 && Contains(w, s) && task.req.key in w.keys && StageOk(w, task.req, task.stage)
    && Holds(s, Needed(w, task.req)) && MetaReads(s, MetaKey(task.req.key)) && Cached(task.stage)
  }

  lemma BeginCached(w: World, req: Request, obj: ObjectInfo)
    requires w.chunkSize > 0
    ensures Cached(Begin(w, req, obj)) && !Begin(w, req, obj).InfoFast? && !Begin(w, req, obj).InfoSlow?
  {
    hide ParseRange;
  }

  lemma NeedsMeta(w: World, req: Request)
    ensures MetaKey(req.key) in Needed(w, req)
  {
  }

  lemma InfoCached(w: World, s: S.Store, task: Task, net: set<(S.Id, Bytes)>, clock: L.Clock)
    requires WorldOk(w) && Underway(w, s, task) && (task.stage.InfoFast? || task.stage.InfoSlow?)
    requires L.Valid(s.mem) && O.Brief(clock, s.mem.ticks, OwnStep(w, s, task, net, clock).0.mem.ticks)
    ensures var (r, t) := OwnStep(w, s, task, net, clock);
            Underway(w, r, t) && !t.stage.InfoFast? && (t.stage.InfoSlow? ==> task.stage.InfoFast?)
  {
    var meta := MetaKey(task.req.key);
    InfoStepOkLocal(w, s, task, net, clock);
    NeedsMeta(w, task.req);
    IdsOfKey(w, task.req.key, 0);
    hide Contains, StageOk, L.Valid, Holds, Needed, MetaKey, S.GetFast, S.GetSlow, Parse, Begin, O.Brief, Correct;
    if task.stage.InfoFast? {
      FastReads(s, meta, Needed(w, task.req), meta, clock);
      var got := S.GetFast(s, meta, clock).1;
      if got.Some? && Parse(got.value).Some? {
        BeginCached(w, task.req, Parse(got.value).value);
      }
    } else {
      SlowReads(s, meta, Needed(w, task.req), meta, clock);
      var got := S.GetSlow(s, meta, clock).1;
      if Parse(got.value).Some? {
        BeginCached(w, task.req, Parse(got.value).value);
      }
    }
  }

  lemma InfoStepOkLocal(w: World, s: S.Store, task: Task, net: set<(S.Id, Bytes)>, clock: L.Clock)
    requires WorldOk(w) && Contains(w, s) && task.req.key in w.keys && StageOk(w, task.req, task.stage)
    requires task.stage.InfoFast? || task.stage.InfoSlow?
    ensures L.Valid(s.mem)
    ensures var (r, t) := OwnStep(w, s, task, net, clock); Contains(w, r) && StageOk(w, task.req, t.stage) && t.req == task.req
  {
    ContainsValid(w, s);
    hide Contains, StageOk, L.Valid, InfoStep;
    NoNetOk(w);
    OtherNet(w, s, task, net, clock);
    InfoStepOk(w, s, task, Local, {}, clock);
  }

  lemma NoNetOk(w: World)
    ensures NetOk(w, {})
  {
  }

  /** A local step does not look at the network. */
  lemma OtherNet(w: World, s: S.Store, task: Task, net: set<(S.Id, Bytes)>, clock: L.Clock)
    requires w.chunkSize > 0 && L.Valid(s.mem) && (task.stage.InfoFast? || task.stage.InfoSlow?)
    ensures InfoStep(w, s, task, Local, net, clock) == InfoStep(w, s, task, Local, {}, clock)
  {
    hide L.Valid, Learned, S.GetFast, S.GetSlow;
  }

  lemma JobWants(w: World, req: Request, job: Job)
    requires w.chunkSize > 0 && JobOk(w, req, job)
    ensures IndexedId(req.key, job.idx) in Needed(w, req)
  {
    JobInfo(w, req, job);
    hide GoodInfo, Reached, ParseRange, Slice;
    assert SpanOf(w, req) == Some(job.span);
    assert Wants(w, req, job.idx);
  }

  lemma AdvanceCached(w: World, job: Job, data: Bytes)
    requires w.chunkSize > 0
    ensures var stage := Advance(w, job, data);
            Cached(stage) && MovedOn(w, job, stage)
  {
    hide Trim;
  }

  /** Done, or at the next chunk. */
  ghost predicate MovedOn(w: World, job: Job, stage: Stage)
    requires w.chunkSize > 0
  {
    || stage.Finished?
    || (stage.Fetching? && stage.at.CacheFast? && job.idx < job.span.last / w.chunkSize
        && stage.job.idx == job.idx + 1 && stage.job.span == job.span)
  }

  lemma FetchStepOkLocal(w: World, s: S.Store, task: Task, net: set<(S.Id, Bytes)>, clock: L.Clock)
    requires WorldOk(w) && Contains(w, s) && task.req.key in w.keys && StageOk(w, task.req, task.stage)
    requires task.stage.Fetching? && (task.stage.at.CacheFast? || task.stage.at.CacheSlow?)
    ensures L.Valid(s.mem)
    ensures var (r, t) := OwnStep(w, s, task, net, clock); Contains(w, r) && StageOk(w, task.req, t.stage) && t.req == task.req
  {
    ContainsValid(w, s);
    hide Contains, StageOk, L.Valid, FetchStep;
    NoNetOk(w);
    OtherNetFetch(w, s, task, net, clock);
    CacheStepOk(w, s, task, Local, {}, clock);
  }

  lemma OtherNetFetch(w: World, s: S.Store, task: Task, net: set<(S.Id, Bytes)>, clock: L.Clock)
    requires w.chunkSize > 0 && L.Valid(s.mem) && task.stage.Fetching? && (task.stage.at.CacheFast? || task.stage.at.CacheSlow?)
    ensures FetchStep(w, s, task, Local, net, clock) == FetchStep(w, s, task, Local, {}, clock)
  {
    hide L.Valid, Advance, S.GetFast, S.GetSlow;
  }

  /** A chunk that is held goes into the body: at once from memory, or one step later
      from disk; never to the peers. */
  lemma FetchCached(w: World, s: S.Store, task: Task, net: set<(S.Id, Bytes)>, clock: L.Clock)
    requires WorldOk(w) && Underway(w, s, task) && task.stage.Fetching?
    requires L.Valid(s.mem) && O.Brief(clock, s.mem.ticks, OwnStep(w, s, task, net, clock).0.mem.ticks)
    ensures var (r, t) := OwnStep(w, s, task, net, clock);
            var job, id := task.stage.job, IndexedId(task.req.key, task.stage.job.idx);
            && Underway(w, r, t)
            && if task.stage.at.CacheFast? && id !in s.mem.cache then t.stage == Fetching(job, CacheSlow)
               else
                 && (id in s.mem.cache || S.Sanitize(id) in s.files)
                 && t.stage == Advance(w, job, if id in s.mem.cache then s.mem.cache[id].data else s.files[S.Sanitize(id)])
                 && MovedOn(w, job, t.stage)
  {
    var meta, job := MetaKey(task.req.key), task.stage.job;
    var id := IndexedId(task.req.key, job.idx);
    FetchStepOkLocal(w, s, task, net, clock);
    JobWants(w, task.req, job);
    IdsOfKey(w, task.req.key, job.idx);
    hide Contains, StageOk, L.Valid, Holds, Needed, MetaKey, IndexedId, S.GetFast, S.GetSlow, S.Sanitize, MetaReads, Advance, O.Brief, JobOk;
    if task.stage.at.CacheFast? {
      FastReads(s, id, Needed(w, task.req), meta, clock);
      var got := S.GetFast(s, id, clock).1;
      if got.Some? {
        AdvanceCached(w, job, got.value);
      }
    } else {
      SlowReads(s, id, Needed(w, task.req), meta, clock);
      var got := S.GetSlow(s, id, clock).1;
      AdvanceCached(w, job, got.value);
    }
  }

  // --------------------------------------------------------------- the whole run

  /** Steps left, lexicographically: info reads, chunks, reads of the chunk. */
  ghost function Phase(stage: Stage): nat {
    match stage case InfoFast => 3 case InfoSlow => 2 case Fetching(_, _) => 1 case _ => 0
  }

  ghost function ChunksLeft(w: World, stage: Stage): nat
    requires w.chunkSize > 0
  {
    if stage.Fetching? then Max(0, stage.job.span.last / w.chunkSize - stage.job.idx) else 0
  }

  ghost function ReadsLeft(stage: Stage): nat {
    if stage.Fetching? && stage.at.CacheFast? then 1 else 0
  }

  ghost predicate Closer(w: World, a: Stage, b: Stage)
    requires w.chunkSize > 0
  {
    || Phase(b) < Phase(a)
    || (Phase(b) == Phase(a) && ChunksLeft(w, b) < ChunksLeft(w, a))
    || (Phase(b) == Phase(a) && ChunksLeft(w, b) == ChunksLeft(w, a) && ReadsLeft(b) < ReadsLeft(a))
  }

  lemma MovedCloser(w: World, stage: Stage, next: Stage)
    requires w.chunkSize > 0 && stage.Fetching?
    requires MovedOn(w, stage.job, next) || (stage.at.CacheFast? && next == Fetching(stage.job, CacheSlow))
    ensures Closer(w, stage, next)
  {
  }

  lemma OwnStepCloser(w: World, s: S.Store, task: Task, net: set<(S.Id, Bytes)>, clock: L.Clock)
    requires WorldOk(w) && Underway(w, s, task) && !task.stage.Finished? && L.Valid(s.mem)
    requires O.Brief(clock, s.mem.ticks, OwnStep(w, s, task, net, clock).0.mem.ticks)
    ensures var (r, t) := OwnStep(w, s, task, net, clock);
            Underway(w, r, t) && t.req == task.req && Closer(w, task.stage, t.stage)
  {
    var (r, t) := OwnStep(w, s, task, net, clock);
    assert t.req == task.req;
    if task.stage.Fetching? {
      hide OwnStep, L.Valid, Contains, StageOk, Holds, Needed, MetaReads, O.Brief;
      FetchCached(w, s, task, net, clock);
      hide Underway, MovedOn, Closer, Advance;
      MovedCloser(w, task.stage, t.stage);
    } else {
      hide OwnStep, L.Valid, Contains, StageOk, Holds, Needed, MetaReads, O.Brief;
      InfoCached(w, s, task, net, clock);
    }
  }

  ghost predicate Served(w: World, req: Request, task: Task) {
    task.stage.Finished? && task.req == req && Correct(w, req, task.stage.response) && !Refuses(task.stage)
  }

  lemma UnderwayDone(w: World, s: S.Store, task: Task)
    requires Underway(w, s, task)
    ensures L.Valid(s.mem) && w.chunkSize > 0
    ensures task.stage.Finished? ==> Served(w, task.req, task)
  {
    ContainsValid(w, s);
    hide Contains, L.Valid, Correct, Refuses;
  }

  lemma OneMore(w: World, s: S.Store, task: Task, net: set<(S.Id, Bytes)>, clock: L.Clock, j: nat)
    requires w.chunkSize > 0 && L.Valid(s.mem)
    ensures OwnSteps(w, s, task, net, clock, 0) == (s, task)
    ensures OwnSteps(w, s, task, net, clock, j + 1) ==
            OwnSteps(w, OwnStep(w, s, task, net, clock).0, OwnStep(w, s, task, net, clock).1, net, clock, j)
  {
    hide OwnStep, L.Valid;
  }

  lemma {:induction false} OwnStepsServe(w: World, s: S.Store, task: Task, net: set<(S.Id, Bytes)>, clock: L.Clock) returns (k: nat)
    requires WorldOk(w) && Underway(w, s, task) && EachBrief(w, s, task, net, clock)
    ensures Served(w, task.req, OwnSteps(w, s, task, net, clock, k).1)
    decreases Phase(task.stage), ChunksLeft(w, task.stage), ReadsLeft(task.stage)
  {
    hide *;
    UnderwayDone(w, s, task);
    if task.stage.Finished? {
      OneMore(w, s, task, net, clock, 0);
      k := 0;
    } else {
      BriefFirst(w, s, task, net, clock);
      OwnStepCloser(w, s, task, net, clock);
      var next := OwnStep(w, s, task, net, clock);
      CloserIs(w, task.stage, next.1.stage);
      var j := OwnStepsServe(w, next.0, next.1, net, clock);
      OneMore(w, s, task, net, clock, j);
      k := j + 1;
    }
  }

  lemma CloserIs(w: World, a: Stage, b: Stage)
    requires w.chunkSize > 0 && Closer(w, a, b)
    ensures Phase(b) < Phase(a) || (Phase(b) == Phase(a) &&
              (ChunksLeft(w, b) < ChunksLeft(w, a) || (ChunksLeft(w, b) == ChunksLeft(w, a) && ReadsLeft(b) < ReadsLeft(a))))
  {
    hide Phase, ChunksLeft, ReadsLeft;
  }

  /** What a finished request must return when nothing refuses it. */
  ghost function Due(w: World, req: Request): Response
    requires req.key in w.origin
  {
    var size := |w.origin[req.key].content|;
    match Asked(w, req)
    case Some(bytes) => Response(if !req.isHead && req.range.Some? then 206 else 200, bytes, Some(size))
    case None => Response(416, "", Some(size))
  }

  lemma CorrectIsDue(w: World, req: Request, stage: Stage)
    requires stage.Finished? && Correct(w, req, stage.response) && !Refuses(stage)
    ensures req.key in w.origin && stage.response == Due(w, req)
  {
    hide Asked;
  }

  /** A cached object is served from the cache.  In any good state in which the meta
      line reads and it and every chunk asked for are in memory, or all on disk and
      small enough to be promoted, the request's own steps end, whatever peers and the
      origin would say, with exactly the bytes asked for, or 416 for a range the object
      does not have. */
  lemma CachedRequestIsServed(w: World, s: S.Store, req: Request, net: set<(S.Id, Bytes)>, clock: L.Clock) returns (k: nat)
    requires WorldOk(w) && Contains(w, s) && req.key in w.keys
    requires Holds(s, Needed(w, req)) && MetaReads(s, MetaKey(req.key))
    requires EachBrief(w, s, Task(req, InfoFast), net, clock)
    ensures var (r, t) := OwnSteps(w, s, Task(req, InfoFast), net, clock, k);
            t.stage.Finished? && req.key in w.origin && t.stage.response == Due(w, req)
  {
    assert Underway(w, s, Task(req, InfoFast));
    hide Contains, Holds, Needed, MetaReads, EachBrief, OwnSteps, Correct, Due, WorldOk, Underway;
    k := OwnStepsServe(w, s, Task(req, InfoFast), net, clock);
    var (r, t) := OwnSteps(w, s, Task(req, InfoFast), net, clock, k);
    CorrectIsDue(w, req, t.stage);
  }
}

/** Any number of nodes serving requests from their caches, from each other and
    from the origin: src/proxy/request_handler.cpp as a state machine.  A step is
    one locked section, one message or one await; steps of all requests on all
    nodes interleave freely. */
module Cluster {
  import opened Base
  import opened Text
  import opened MetaCodec
  import opened RangeHeader
  import opened Assembly
  import opened World
  import L = LruSpec
  import S = ChunkStore

  // ------------------------------------------------------------------ requests

  /** A GET or HEAD whose path has been parsed; `range` is the Range header. */
  datatype Request = Request(key: Key, isHead: bool, range: Option<string>)

  /** `total` is the object size announced, in Content-Length or Content-Range. */
  datatype Response = Response(status: nat, body: Bytes, total: Option<nat>)

  function NotFound(key: Key): Response {
    Response(404, "Object not found: " + key, None)
  }

  const BAD_GATEWAY := Response(502, "Failed to fetch object data", None)

  /** Progress through the chunks of a GET. */
  datatype Job = Job(obj: ObjectInfo, span: Span, partial: bool, idx: nat, body: Bytes)

  /** Where the current chunk is being looked for. */
  datatype At =
    | CacheFast
    | CacheSlow
    | Peers
    | Origin
    | AnchorFast(data: Bytes)
    | AnchorSlow(data: Bytes)
    | AnchorWrite(data: Bytes, current: ObjectInfo)

  datatype Stage =
    | InfoFast
    | InfoSlow
    | InfoPeers
    | InfoHead
    | Fetching(job: Job, at: At)
    | Finished(response: Response)

  datatype Task = Task(req: Request, stage: Stage)

  /** What the environment contributes to a step. */
  datatype Choice = Local | FromPeer(data: Bytes) | OriginAnswers

  /** `handle_request` once the object info is known. */
  function Begin(w: World, req: Request, obj: ObjectInfo): Stage
    requires w.chunkSize > 0
  {
    if req.isHead then Finished(Response(200, "", Some(obj.size)))
    else
      match req.range
      case Some(header) =>
        (match ParseRange(header, obj.size)
         case None => Finished(Response(416, "", Some(obj.size)))
         case Some(span) => Fetching(Job(obj, span, true, ChunkOf(span.first, w.chunkSize), ""), CacheFast))
      case None =>
        if obj.size == 0 then Finished(Response(200, "", Some(0)))
        else Fetching(Job(obj, Span(0, obj.size - 1), false, 0, ""), CacheFast)
  }

  /** Appends the chunk to the body and moves on. */
  function Advance(w: World, job: Job, data: Bytes): Stage
    requires w.chunkSize > 0
  {
    var body := job.body + Trim(data, job.idx, job.span, w.chunkSize);
    if job.idx < job.span.last / w.chunkSize then Fetching(job.(idx := job.idx + 1, body := body), CacheFast)
    else Finished(Response(if job.partial then 206 else 200, body, Some(job.obj.size)))
  }

  /** The origin's answer to the Range header printed for a chunk, as section
      14.1.2 of RFC 9110 prescribes. */
  ghost function OriginGet(content: Bytes, offset: nat, want: nat): Option<Bytes>
    requires want > 0
  {
    DecValue(offset);
    DecValue(offset + want - 1);
    match Select(SpecOf(Dec(offset), Dec(offset + want - 1)), |content|)
    case None => None
    case Some(span) => if span.first <= span.last < |content| then Some(content[span.first..span.last + 1]) else None
  }

  /** The range GET of `fetch_chunk`. */
  ghost function OriginChunk(w: World, key: Key, job: Job): Option<Bytes>
    requires w.chunkSize > 0
  {
    var offset := job.idx * w.chunkSize;
    if key in w.origin && offset < job.obj.size then
      OriginGet(w.origin[key].content, offset, Min(w.chunkSize, job.obj.size - offset))
    else None
  }

  function Expected(job: Job): string {
    if job.idx < |job.obj.hashes| then job.obj.hashes[job.idx] else ""
  }

  function Reading(got: Option<Bytes>, fallback: ObjectInfo): ObjectInfo {
    if got.Some? && Parse(got.value).Some? then Parse(got.value).value else fallback
  }

  /** After reading the meta chunk: its info, or on to the next place. */
  function Learned(w: World, req: Request, got: Option<Bytes>, missed: Stage): Stage
    requires w.chunkSize > 0
  {
    match got
    case None => missed
    case Some(data) =>
      match Parse(data)
      case None => InfoPeers
      case Some(o) => Begin(w, req, o)
  }

  function Store(s: S.Store, id: S.Id, data: Bytes, clock: L.Clock): S.Store
    requires L.Valid(s.mem) && id != ""
  {
    S.StoreChunk(s, id, |data|, data, clock).0
  }

  /** One step of `get_object_info`. */
  ghost function InfoStep(w: World, s: S.Store, task: Task, choice: Choice, net: set<(S.Id, Bytes)>, clock: L.Clock)
    : (S.Store, Stage)
    requires w.chunkSize > 0 && L.Valid(s.mem)
  {
    var req := task.req;
    var meta := MetaKey(req.key);
    match task.stage
    case InfoFast =>
      var (r, got) := S.GetFast(s, meta, clock);
      (r, Learned(w, req, got, InfoSlow))
    case InfoSlow =>
      var (r, got) := S.GetSlow(s, meta, clock);
      (r, Learned(w, req, got, InfoPeers))
    case InfoPeers =>
      if choice.FromPeer? && (meta, choice.data) in net && choice.data != "" && Parse(choice.data).Some? then
        (Store(s, meta, choice.data, clock), Begin(w, req, Parse(choice.data).value))
      else (s, InfoHead)
    case InfoHead =>
      if choice.OriginAnswers? && req.key in w.origin then
        var o := ObjectInfo(|w.origin[req.key].content|, w.origin[req.key].etag, []);
        (Store(s, meta, Serialize(o), clock), Begin(w, req, o))
      else (s, Finished(NotFound(req.key)))
    case _ => (s, task.stage)
  }

  /** One step of `fetch_chunk`. */
  ghost function FetchStep(w: World, s: S.Store, task: Task, choice: Choice, net: set<(S.Id, Bytes)>, clock: L.Clock)
    : (S.Store, Stage)
    requires w.chunkSize > 0 && L.Valid(s.mem) && task.stage.Fetching?
  {
    var req, job := task.req, task.stage.job;
    var id := IndexedId(req.key, job.idx);
    var meta := MetaKey(req.key);
    match task.stage.at
    case CacheFast =>
      var (r, got) := S.GetFast(s, id, clock);
      (r, if got.Some? then Advance(w, job, got.value) else Fetching(job, CacheSlow))
    case CacheSlow =>
      var (r, got) := S.GetSlow(s, id, clock);
      (r, if got.Some? then Advance(w, job, got.value) else Fetching(job, Peers))
    case Peers =>
      if choice.FromPeer? && (id, choice.data) in net && choice.data != "" &&
         (Expected(job) == "" || w.hash(choice.data) == Expected(job))
      then (Store(s, id, choice.data, clock), Advance(w, job, choice.data))
      else (s, Fetching(job, Origin))
    case Origin =>
      var answer := OriginChunk(w, req.key, job);
      if choice.OriginAnswers? && answer.Some? then
        (Store(s, id, answer.value, clock), Fetching(job, AnchorFast(answer.value)))
      else (s, Finished(BAD_GATEWAY))
    case AnchorFast(data) =>
      var (r, got) := S.GetFast(s, meta, clock);
      (r, Fetching(job, if got.Some? then AnchorWrite(data, Reading(got, job.obj)) else AnchorSlow(data)))
    case AnchorSlow(data) =>
      var (r, got) := S.GetSlow(s, meta, clock);
      (r, Fetching(job, AnchorWrite(data, Reading(got, job.obj))))
    case AnchorWrite(data, current) =>
      (if job.idx < |current.hashes| && current.hashes[job.idx] != "" then s
       else Store(s, meta, Serialize(Anchor(current, job.idx, w.hash(data))), clock),
       Advance(w, job, data))
  }

  // ------------------------------------------------------------- task invariant

  /** What the request asks for: nothing for a HEAD, else the range, else all. */
  ghost function Asked(w: World, req: Request): Option<Bytes>
    requires req.key in w.origin
  {
    var content := w.origin[req.key].content;
    if req.isHead then Some("")
    else
      match req.range
      case None => Some(content)
      case Some(header) =>
        match ParseRange(header, |content|)
        case None => None
        case Some(span) => Some(content[span.first..span.last + 1])
  }

  /** What a finished request has returned: the bytes asked for and the object's
      size, a refusal of a range the object does not have, or the message that the
      object, or one of its chunks, could not be had. */
  ghost predicate Correct(w: World, req: Request, r: Response) {
    || (&& (r.status == 200 || r.status == 206) && req.key in w.origin
        && (r.status == 206 <==> !req.isHead && req.range.Some?)
        && Asked(w, req) == Some(r.body) && r.total == Some(|w.origin[req.key].content|))
    || (&& r.status == 416 && req.key in w.origin && Asked(w, req) == None
        && r.body == "" && r.total == Some(|w.origin[req.key].content|))
    || (r == BAD_GATEWAY && req.key in w.origin && !req.isHead && Asked(w, req).Some?)
    || r == NotFound(req.key)
  }

  ghost predicate JobOk(w: World, req: Request, job: Job)
    requires w.chunkSize > 0
  {
    && !req.isHead
    && GoodInfo(w, req.key, job.obj)
    && var content := w.origin[req.key].content;
       && job.span.first <= job.span.last < |content|
       && (if job.partial then req.range.Some? && ParseRange(req.range.value, |content|) == Some(job.span)
           else req.range == None && job.span == Span(0, |content| - 1))
       && job.span.first / w.chunkSize <= job.idx <= job.span.last / w.chunkSize
       && Reached(job.idx, job.span, w.chunkSize) <= |content|
       && job.body == content[job.span.first..Reached(job.idx, job.span, w.chunkSize)]
  }

  ghost predicate AtOk(w: World, req: Request, job: Job, at: At)
    requires req.key in w.origin
  {
    match at
    case CacheFast | CacheSlow | Peers | Origin => true
    case AnchorFast(data) => data == Slice(w.origin[req.key].content, job.idx, w.chunkSize)
    case AnchorSlow(data) => data == Slice(w.origin[req.key].content, job.idx, w.chunkSize)
    case AnchorWrite(data, current) =>
      data == Slice(w.origin[req.key].content, job.idx, w.chunkSize) && GoodInfo(w, req.key, current)
  }

  ghost predicate StageOk(w: World, req: Request, stage: Stage)
    requires w.chunkSize > 0
  {
    match stage
    case InfoFast | InfoSlow | InfoPeers | InfoHead => true
    case Fetching(job, at) => JobOk(w, req, job) && AtOk(w, req, job, at)
    case Finished(r) => Correct(w, req, r)
  }

  lemma ContainsValid(w: World, s: S.Store)
    requires Contains(w, s)
    ensures L.Valid(s.mem)
  {
  }

  lemma BeginOk(w: World, req: Request, obj: ObjectInfo)
    requires WorldOk(w) && GoodInfo(w, req.key, obj)
    ensures StageOk(w, req, Begin(w, req, obj))
  {
    hide Reached;
    var content := w.origin[req.key].content;
    var stage := Begin(w, req, obj);
    if stage.Fetching? {
      var span := stage.job.span;
      assert span.first <= span.last < |content|;
      DivOrder(span.first, span.last, w.chunkSize);
      ReachedStart(span, w.chunkSize);
      if !stage.job.partial { DivUnique(0, 0, 0, w.chunkSize); }
    }
  }

  lemma AdvanceOk(w: World, req: Request, job: Job)
    requires WorldOk(w) && JobOk(w, req, job)
    ensures StageOk(w, req, Advance(w, job, Slice(w.origin[req.key].content, job.idx, w.chunkSize)))
  {
    var content := w.origin[req.key].content;
    TrimExtends(content, job.idx, job.span, w.chunkSize);
    assert content[0..|content|] == content;
    hide Trim, Slice, Reached, GoodInfo;
  }

  /** The chunk the origin returns is the slice the job is waiting for. */
  lemma OriginGivesSlice(w: World, req: Request, job: Job)
    requires WorldOk(w) && JobOk(w, req, job)
    ensures OriginChunk(w, req.key, job) == Some(Slice(w.origin[req.key].content, job.idx, w.chunkSize))
  {
    hide Reached, OriginGet, SliceAt, ParseRange;
    var offset := job.idx * w.chunkSize;
    ChunkBounds(job.idx, offset, job.span, w.chunkSize);
    OriginGetIs(w.origin[req.key].content, offset, w.chunkSize);
  }

  lemma OriginGetIs(content: Bytes, base: nat, c: nat)
    requires c > 0 && base < |content| < TWO64
    ensures OriginGet(content, base, Min(c, |content| - base)) == Some(SliceAt(content, base, c))
  {
    hide Dec, Value, Select, SpecOf, Fields;
    PrintedRangeReadsBack(base, Min(c, |content| - base), |content|);
  }

  lemma LearnedOk(w: World, req: Request, got: Option<Bytes>, missed: Stage)
    requires WorldOk(w) && StageOk(w, req, missed)
    requires got.Some? ==> Good(w, MetaKey(req.key), got.value)
    ensures StageOk(w, req, Learned(w, req, got, missed))
  {
    hide Good, GoodInfo, Begin, JobOk;
    if got.Some? {
      GoodMetaInfo(w, req.key, got.value);
      if Parse(got.value).Some? {
        BeginOk(w, req, Parse(got.value).value);
      }
    }
  }

  ghost predicate NetOk(w: World, net: set<(S.Id, Bytes)>) {
    forall m :: m in net ==> Good(w, m.0, m.1)
  }

  lemma InfoStepOk(w: World, s: S.Store, task: Task, choice: Choice, net: set<(S.Id, Bytes)>, clock: L.Clock)
    requires WorldOk(w) && Contains(w, s) && NetOk(w, net) && task.req.key in w.keys
    requires StageOk(w, task.req, task.stage)
    ensures var (r, stage) := InfoStep(w, s, task, choice, net, clock);
            Contains(w, r) && StageOk(w, task.req, stage)
  {
    ContainsValid(w, s);
    hide Contains, Good, GoodInfo, Begin, Learned, JobOk, AtOk, S.StoreChunk, S.GetFast, S.GetSlow, Serialize, Parse, MetaKey;
    var req := task.req;
    var meta := MetaKey(req.key);
    IdsOfKey(w, req.key, 0);
    match task.stage {
      case InfoFast =>
        GetFastContains(w, s, meta, clock);
        LearnedOk(w, req, S.GetFast(s, meta, clock).1, InfoSlow);
      case InfoSlow =>
        GetSlowContains(w, s, meta, clock);
        LearnedOk(w, req, S.GetSlow(s, meta, clock).1, InfoPeers);
      case InfoPeers =>
        if choice.FromPeer? && (meta, choice.data) in net && choice.data != "" && Parse(choice.data).Some? {
          assert Good(w, (meta, choice.data).0, (meta, choice.data).1);
          StoreContains(w, s, meta, choice.data, clock);
          GoodMetaInfo(w, req.key, choice.data);
          BeginOk(w, req, Parse(choice.data).value);
        }
      case InfoHead =>
        if choice.OriginAnswers? && req.key in w.origin {
          var o := ObjectInfo(|w.origin[req.key].content|, w.origin[req.key].etag, []);
          HeadIsGood(w, req.key);
          StoreContains(w, s, meta, Serialize(o), clock);
          BeginOk(w, req, o);
        }
      case _ =>
    }
  }

  /** In an ordered world a hash is anchored only right behind the known ones. */
  ghost predicate InOrder(w: World, task: Task) {
    w.ordered && task.stage.Fetching? && task.stage.at.AnchorWrite? ==>
      task.stage.job.idx <= |task.stage.at.current.hashes|
  }

  lemma AdvanceGood(w: World, req: Request, job: Job, data: Bytes)
    requires WorldOk(w) && JobOk(w, req, job) && Good(w, IndexedId(req.key, job.idx), data)
    ensures StageOk(w, req, Advance(w, job, data))
  {
    hide JobOk, StageOk, Advance;
    GoodChunkBytes(w, req.key, job.idx, data);
    AdvanceOk(w, req, job);
  }

  lemma ReadingOk(w: World, req: Request, got: Option<Bytes>, fallback: ObjectInfo)
    requires GoodInfo(w, req.key, fallback)
    requires got.Some? ==> Good(w, MetaKey(req.key), got.value)
    ensures GoodInfo(w, req.key, Reading(got, fallback))
  {
    hide Good, GoodInfo, Parse;
    if got.Some? {
      GoodMetaInfo(w, req.key, got.value);
    }
  }

  lemma JobInfo(w: World, req: Request, job: Job)
    requires w.chunkSize > 0 && JobOk(w, req, job)
    ensures GoodInfo(w, req.key, job.obj) && req.key in w.origin
  {
  }

  lemma CacheStepOk(w: World, s: S.Store, task: Task, choice: Choice, net: set<(S.Id, Bytes)>, clock: L.Clock)
    requires WorldOk(w) && Contains(w, s) && NetOk(w, net) && task.req.key in w.keys
    requires task.stage.Fetching? && StageOk(w, task.req, task.stage)
    requires task.stage.at.CacheFast? || task.stage.at.CacheSlow? || task.stage.at.Peers?
    ensures var (r, stage) := FetchStep(w, s, task, choice, net, clock);
            Contains(w, r) && StageOk(w, task.req, stage)
  {
    ContainsValid(w, s);
    hide Contains, Good, GoodInfo, Advance, JobOk, Correct, S.StoreChunk, S.GetFast, S.GetSlow, IndexedId, MetaKey;
    var req, job := task.req, task.stage.job;
    var id := IndexedId(req.key, job.idx);
    IdsOfKey(w, req.key, job.idx);
    JobInfo(w, req, job);
    match task.stage.at {
      case CacheFast =>
        GetFastContains(w, s, id, clock);
        var got := S.GetFast(s, id, clock).1;
        if got.Some? { AdvanceGood(w, req, job, got.value); }
      case CacheSlow =>
        GetSlowContains(w, s, id, clock);
        var got := S.GetSlow(s, id, clock).1;
        if got.Some? { AdvanceGood(w, req, job, got.value); }
      case Peers =>
        if choice.FromPeer? && (id, choice.data) in net {
          assert Good(w, (id, choice.data).0, (id, choice.data).1);
          StoreContains(w, s, id, choice.data, clock);
          AdvanceGood(w, req, job, choice.data);
        }
      case _ =>
    }
  }

  lemma GatewayCorrect(w: World, req: Request, job: Job)
    requires w.chunkSize > 0 && JobOk(w, req, job)
    ensures Correct(w, req, BAD_GATEWAY)
  {
    JobInfo(w, req, job);
    hide GoodInfo, Reached, ParseRange;
  }

  lemma OriginStepIs(w: World, s: S.Store, task: Task, choice: Choice, net: set<(S.Id, Bytes)>, clock: L.Clock)
    requires w.chunkSize > 0 && L.Valid(s.mem) && task.stage.Fetching? && task.stage.at.Origin?
    ensures var id, job := IndexedId(task.req.key, task.stage.job.idx), task.stage.job;
            var answer := OriginChunk(w, task.req.key, job);
            && id != ""
            && FetchStep(w, s, task, choice, net, clock) ==
               if choice.OriginAnswers? && answer.Some?
               then (Store(s, id, answer.value, clock), Fetching(job, AnchorFast(answer.value)))
               else (s, Finished(BAD_GATEWAY))
  {
    hide L.Valid, Store, OriginChunk, MetaKey;
  }

  lemma OriginStepOk(w: World, s: S.Store, task: Task, choice: Choice, net: set<(S.Id, Bytes)>, clock: L.Clock)
    requires WorldOk(w) && Contains(w, s) && task.req.key in w.keys
    requires task.stage.Fetching? && StageOk(w, task.req, task.stage) && task.stage.at.Origin?
    ensures var (r, stage) := FetchStep(w, s, task, choice, net, clock);
            Contains(w, r) && StageOk(w, task.req, stage)
  {
    ContainsValid(w, s);
    hide Contains, Good, GoodInfo, JobOk, S.StoreChunk, IndexedId, Slice, OriginChunk, Correct, FetchStep, L.Valid;
    var req, job := task.req, task.stage.job;
    OriginStepIs(w, s, task, choice, net, clock);
    IdsOfKey(w, req.key, job.idx);
    JobInfo(w, req, job);
    GatewayCorrect(w, req, job);
    OriginGivesSlice(w, req, job);
    SliceIsGood(w, req.key, job.idx);
    StoreContains(w, s, IndexedId(req.key, job.idx), Slice(w.origin[req.key].content, job.idx, w.chunkSize), clock);
  }

  lemma AnchorStepOk(w: World, s: S.Store, task: Task, choice: Choice, net: set<(S.Id, Bytes)>, clock: L.Clock)
    requires WorldOk(w) && Contains(w, s) && task.req.key in w.keys && InOrder(w, task)
    requires task.stage.Fetching? && StageOk(w, task.req, task.stage)
    requires task.stage.at.AnchorFast? || task.stage.at.AnchorSlow? || task.stage.at.AnchorWrite?
    ensures var (r, stage) := FetchStep(w, s, task, choice, net, clock);
            Contains(w, r) && StageOk(w, task.req, stage)
  {
    ContainsValid(w, s);
    hide Contains, Good, GoodInfo, Advance, JobOk, S.StoreChunk, S.GetFast, S.GetSlow, IndexedId, MetaKey, Slice, Serialize, Anchor, Reading;
    var req, job := task.req, task.stage.job;
    var meta := MetaKey(req.key);
    IdsOfKey(w, req.key, job.idx);
    JobInfo(w, req, job);
    match task.stage.at {
      case AnchorFast(data) =>
        GetFastContains(w, s, meta, clock);
        ReadingOk(w, req, S.GetFast(s, meta, clock).1, job.obj);
      case AnchorSlow(data) =>
        GetSlowContains(w, s, meta, clock);
        ReadingOk(w, req, S.GetSlow(s, meta, clock).1, job.obj);
      case AnchorWrite(data, current) =>
        AdvanceOk(w, req, job);
        AnchorIsGood(w, req.key, current, job.idx);
        StoreContains(w, s, meta, Serialize(Anchor(current, job.idx, w.hash(data))), clock);
      case _ =>
    }
  }

  // ------------------------------------------------------------------ cluster

  datatype Node = Node(store: S.Store, tasks: map<nat, Task>)

  /** `net` holds every chunk answer ever sent: it may be lost, delayed,
      duplicated and reordered. */
  datatype Cluster = Cluster(nodes: map<nat, Node>, net: set<(S.Id, Bytes)>)

  datatype Action =
    | Arrive(task: nat, req: Request)
    | Proceed(task: nat, choice: Choice)
    | ServeFast(id: S.Id)
    | ServeSlow(id: S.Id)
    | AcceptUpload(id: S.Id, data: Bytes)
    | Remove(id: S.Id)
    | Promote(id: S.Id)
    | Demote(id: S.Id)
    | Evict
    | Reboot

  ghost predicate Legal(w: World, node: Node, net: set<(S.Id, Bytes)>, a: Action) {
    match a
    case Arrive(t, req) => req.key in w.keys && t !in node.tasks
    case Proceed(t, _) => t in node.tasks && InOrder(w, node.tasks[t])
    case AcceptUpload(id, data) => id in Ids(w) && id != "" && (id, data) in net
    case ServeFast(id) => id in Ids(w)
    case ServeSlow(id) => id in Ids(w) && id != ""
    case Remove(id) => id in Ids(w)
    case Promote(id) => id in Ids(w) && id != ""
    case Demote(id) => id in Ids(w)
    case Evict | Reboot => true
  }

  ghost predicate NodeOk(w: World, node: Node)
    requires w.chunkSize > 0
  {
    && Contains(w, node.store)
    && forall t :: t in node.tasks ==> node.tasks[t].req.key in w.keys && StageOk(w, node.tasks[t].req, node.tasks[t].stage)
  }

  ghost predicate ClusterOk(w: World, c: Cluster)
    requires w.chunkSize > 0
  {
    NetOk(w, c.net) && forall n :: n in c.nodes ==> NodeOk(w, c.nodes[n])
  }

  ghost function Answer(net: set<(S.Id, Bytes)>, id: S.Id, got: Option<Bytes>): set<(S.Id, Bytes)> {
    if got.Some? && got.value != "" then net + {(id, got.value)} else net
  }

  /** The action at one node: its new state and the network's. */
  ghost function Act(w: World, node: Node, net: set<(S.Id, Bytes)>, a: Action, clock: L.Clock): (Node, set<(S.Id, Bytes)>)
    requires w.chunkSize > 0 && L.Valid(node.store.mem) && Legal(w, node, net, a)
  {
    var s := node.store;
    match a
    case Arrive(t, req) => (node.(tasks := node.tasks[t := Task(req, InfoFast)]), net)
    case Proceed(t, choice) =>
      var task := node.tasks[t];
      var (r, stage) := if task.stage.Fetching? then FetchStep(w, s, task, choice, net, clock)
                        else InfoStep(w, s, task, choice, net, clock);
      (Node(r, node.tasks[t := task.(stage := stage)]), net)
    case ServeFast(id) =>
      var (r, got) := S.GetFast(s, id, clock);
      (node.(store := r), Answer(net, id, got))
    case ServeSlow(id) =>
      var (r, got) := S.GetSlow(s, id, clock);
      (node.(store := r), Answer(net, id, got))
    case AcceptUpload(id, data) => (node.(store := Store(s, id, data, clock)), net)
    case Remove(id) => (node.(store := S.RemoveChunk(s, id).0), net)
    case Promote(id) => (node.(store := S.Promote(s, id, clock).0), net)
    case Demote(id) => (node.(store := S.Demote(s, id, clock).0), net)
    case Evict => (node.(store := S.TriggerEviction(s, clock)), net)
    case Reboot => (Node(S.Restart(s), map[]), net)
  }

  lemma NewStore(w: World, node: Node, s: S.Store)
    requires w.chunkSize > 0 && NodeOk(w, node) && Contains(w, s)
    ensures NodeOk(w, node.(store := s))
  {
    hide Contains, StageOk;
  }

  lemma NewTask(w: World, node: Node, s: S.Store, t: nat, task: Task)
    requires w.chunkSize > 0 && NodeOk(w, node) && Contains(w, s)
    requires task.req.key in w.keys && StageOk(w, task.req, task.stage)
    ensures NodeOk(w, Node(s, node.tasks[t := task]))
  {
    hide Contains, StageOk;
  }

  lemma AnswerOk(w: World, net: set<(S.Id, Bytes)>, id: S.Id, got: Option<Bytes>)
    requires NetOk(w, net) && (got.Some? ==> Good(w, id, got.value))
    ensures NetOk(w, Answer(net, id, got)) && net <= Answer(net, id, got)
  {
    hide Good;
  }

  lemma NodeFacts(w: World, node: Node)
    requires w.chunkSize > 0 && NodeOk(w, node)
    ensures Contains(w, node.store) && L.Valid(node.store.mem)
    ensures forall t :: t in node.tasks ==> node.tasks[t].req.key in w.keys && StageOk(w, node.tasks[t].req, node.tasks[t].stage)
  {
    hide StageOk;
  }

  lemma ProceedOk(w: World, node: Node, net: set<(S.Id, Bytes)>, t: nat, choice: Choice, clock: L.Clock)
    requires WorldOk(w) && NodeOk(w, node) && NetOk(w, net) && t in node.tasks && InOrder(w, node.tasks[t])
    ensures L.Valid(node.store.mem)
    ensures var task := node.tasks[t];
            var (r, stage) := if task.stage.Fetching? then FetchStep(w, node.store, task, choice, net, clock)
                              else InfoStep(w, node.store, task, choice, net, clock);
            NodeOk(w, Node(r, node.tasks[t := task.(stage := stage)]))
  {
    NodeFacts(w, node);
    hide NodeOk, Contains, StageOk, NetOk, FetchStep, InfoStep, L.Valid;
    var task := node.tasks[t];
    if !task.stage.Fetching? {
      InfoStepOk(w, node.store, task, choice, net, clock);
      var (r, stage) := InfoStep(w, node.store, task, choice, net, clock);
      NewTask(w, node, r, t, task.(stage := stage));
    } else {
      match task.stage.at {
        case CacheFast | CacheSlow | Peers => CacheStepOk(w, node.store, task, choice, net, clock);
        case Origin => OriginStepOk(w, node.store, task, choice, net, clock);
        case AnchorFast(_) | AnchorSlow(_) | AnchorWrite(_, _) => AnchorStepOk(w, node.store, task, choice, net, clock);
      }
      var (r, stage) := FetchStep(w, node.store, task, choice, net, clock);
      NewTask(w, node, r, t, task.(stage := stage));
    }
  }

  /** Every step of every node keeps caches, messages and requests truthful. */
  lemma ActOk(w: World, node: Node, net: set<(S.Id, Bytes)>, a: Action, clock: L.Clock)
    requires WorldOk(w) && NodeOk(w, node) && NetOk(w, net) && Legal(w, node, net, a)
    ensures L.Valid(node.store.mem)
    ensures var (r, net') := Act(w, node, net, a, clock);
            NodeOk(w, r) && NetOk(w, net') && net <= net'
  {
    var s := node.store;
    NodeFacts(w, node);
    assert a.AcceptUpload? ==> Good(w, (a.id, a.data).0, (a.id, a.data).1);
    hide NodeOk, NetOk, Contains, L.Valid, Good, Ids, StageOk, FetchStep, InfoStep, Answer, InOrder,
         S.GetFast, S.GetSlow, S.StoreChunk, S.RemoveChunk, S.Promote, S.Demote, S.TriggerEviction, S.Restart;
    match a {
      case Arrive(t, req) => ArriveOk(w, node, t, req);
      case Proceed(t, choice) => ProceedOk(w, node, net, t, choice, clock);
      case ServeFast(id) =>
        GetFastContains(w, s, id, clock);
        NewStore(w, node, S.GetFast(s, id, clock).0);
        AnswerOk(w, net, id, S.GetFast(s, id, clock).1);
      case ServeSlow(id) =>
        GetSlowContains(w, s, id, clock);
        NewStore(w, node, S.GetSlow(s, id, clock).0);
        AnswerOk(w, net, id, S.GetSlow(s, id, clock).1);
      case AcceptUpload(id, data) =>
        StoreContains(w, s, id, data, clock);
        NewStore(w, node, Store(s, id, data, clock));
      case Remove(id) =>
        RemoveContains(w, s, id);
        NewStore(w, node, S.RemoveChunk(s, id).0);
      case Promote(id) =>
        PromoteContains(w, s, id, clock);
        NewStore(w, node, S.Promote(s, id, clock).0);
      case Demote(id) =>
        DemoteContains(w, s, id, clock);
        NewStore(w, node, S.Demote(s, id, clock).0);
      case Evict =>
        EvictContains(w, s, clock);
        NewStore(w, node, S.TriggerEviction(s, clock));
      case Reboot =>
        RestartContains(w, s);
        RebootOk(w, s);
    }
  }

  lemma ArriveOk(w: World, node: Node, t: nat, req: Request)
    requires w.chunkSize > 0 && NodeOk(w, node) && req.key in w.keys
    ensures NodeOk(w, node.(tasks := node.tasks[t := Task(req, InfoFast)]))
  {
    NewTask(w, node, node.store, t, Task(req, InfoFast));
  }

  lemma RebootOk(w: World, s: S.Store)
    requires w.chunkSize > 0 && Contains(w, S.Restart(s))
    ensures NodeOk(w, Node(S.Restart(s), map[]))
  {
    hide Contains;
  }

  ghost predicate Next(w: World, c: Cluster, n: nat, a: Action, c': Cluster, clocks: nat -> L.Clock)
    requires w.chunkSize > 0
  {
    && n in c.nodes && L.Valid(c.nodes[n].store.mem)
    && Legal(w, c.nodes[n], c.net, a)
    && var (r, net) := Act(w, c.nodes[n], c.net, a, clocks(n));
       c' == Cluster(c.nodes[n := r], net)
  }

  lemma NextOk(w: World, c: Cluster, n: nat, a: Action, c': Cluster, clocks: nat -> L.Clock)
    requires WorldOk(w) && ClusterOk(w, c) && Next(w, c, n, a, c', clocks)
    ensures ClusterOk(w, c')
  {
    hide NodeOk, NetOk, Act, Legal, L.Valid;
    ActOk(w, c.nodes[n], c.net, a, clocks(n));
  }

  /** A run: which node did what, one step after the other. */
  ghost predicate Run(w: World, states: seq<Cluster>, labels: seq<(nat, Action)>, clocks: nat -> L.Clock)
    requires w.chunkSize > 0
  {
    && |states| == |labels| + 1
    && forall i :: 0 <= i < |labels| ==> Next(w, states[i], labels[i].0, labels[i].1, states[i + 1], clocks)
  }

  lemma {:induction false} RunOk(w: World, states: seq<Cluster>, labels: seq<(nat, Action)>, clocks: nat -> L.Clock, i: nat)
    requires WorldOk(w) && Run(w, states, labels, clocks) && ClusterOk(w, states[0]) && i < |states|
    ensures ClusterOk(w, states[i])
  {
    if i > 0 {
      assert Next(w, states[i - 1], labels[i - 1].0, labels[i - 1].1, states[i], clocks);
      hide ClusterOk, Next, WorldOk;
      RunOk(w, states, labels, clocks, i - 1);
      NextOk(w, states[i - 1], labels[i - 1].0, labels[i - 1].1, states[i], clocks);
    }
  }

  ghost predicate Starting(c: Cluster) {
    c.net == {} && forall n :: n in c.nodes ==>
      c.nodes[n].tasks == map[] && c.nodes[n].store.mem.cache == map[] && c.nodes[n].store.files == map[] &&
      L.Valid(c.nodes[n].store.mem)
  }

  /** With a disk tier anywhere, ids in use must have file names of their own. */
  ghost predicate DisksFit(w: World, c: Cluster) {
    forall n :: n in c.nodes && c.nodes[n].store.hasDisk ==> S.Separate(Ids(w))
  }

  /** The whole-cluster safety property.  In every run of any number of nodes over
      an immutable origin, in every state: each chunk a node holds in memory is
      exactly the origin's slice, and each finished request carries exactly the
      bytes it asked for. */
  lemma ServedBytesAreOrigins(w: World, states: seq<Cluster>, labels: seq<(nat, Action)>, clocks: nat -> L.Clock, i: nat, n: nat)
    requires WorldOk(w) && Run(w, states, labels, clocks) && Starting(states[0]) && DisksFit(w, states[0])
    requires i < |states| && n in states[i].nodes
    ensures var node := states[i].nodes[n];
            forall t :: t in node.tasks && node.tasks[t].stage.Finished? ==>
                          Correct(w, node.tasks[t].req, node.tasks[t].stage.response)
    ensures var mem := states[i].nodes[n].store.mem;
            forall key, j: nat :: IndexedId(key, j) in mem.cache ==>
              key in w.origin && mem.cache[IndexedId(key, j)].data == Slice(w.origin[key].content, j, w.chunkSize)
    ensures var s := states[i].nodes[n].store;
            forall key, j: nat :: key in w.keys && S.Sanitize(IndexedId(key, j)) in s.files ==>
              key in w.origin && s.files[S.Sanitize(IndexedId(key, j))] == Slice(w.origin[key].content, j, w.chunkSize)
  {
    StartingOk(w, states[0]);
    RunOk(w, states, labels, clocks, i);
    var s := states[i].nodes[n].store;
    hide IndexedId, Slice, S.Sanitize, JobOk, AtOk, L.Valid, Run, Ids;
    forall key, j: nat | IndexedId(key, j) in s.mem.cache
      ensures key in w.origin && s.mem.cache[IndexedId(key, j)].data == Slice(w.origin[key].content, j, w.chunkSize)
    {
      GoodChunkBytes(w, key, j, s.mem.cache[IndexedId(key, j)].data);
    }
    forall key, j: nat | key in w.keys && S.Sanitize(IndexedId(key, j)) in s.files
      ensures key in w.origin && s.files[S.Sanitize(IndexedId(key, j))] == Slice(w.origin[key].content, j, w.chunkSize)
    {
      IdsOfKey(w, key, j);
      GoodChunkBytes(w, key, j, s.files[S.Sanitize(IndexedId(key, j))]);
    }
  }

  ghost predicate Refuses(stage: Stage) {
    stage.Finished? && (stage.response.status == 404 || stage.response.status == 502)
  }

  lemma InfoRefuses(w: World, s: S.Store, task: Task, choice: Choice, net: set<(S.Id, Bytes)>, clock: L.Clock)
    requires w.chunkSize > 0 && L.Valid(s.mem) && !task.stage.Finished? && !task.stage.Fetching?
    requires Refuses(InfoStep(w, s, task, choice, net, clock).1)
    ensures choice.OriginAnswers? ==> task.req.key !in w.origin
  {
    hide S.GetFast, S.GetSlow, S.StoreChunk, Store, Parse, Serialize, MetaKey, L.Valid, ParseRange;
  }

  lemma FetchRefuses(w: World, s: S.Store, task: Task, choice: Choice, net: set<(S.Id, Bytes)>, clock: L.Clock)
    requires WorldOk(w) && L.Valid(s.mem) && task.stage.Fetching? && JobOk(w, task.req, task.stage.job)
    requires Refuses(FetchStep(w, s, task, choice, net, clock).1)
    ensures !choice.OriginAnswers?
  {
    OriginGivesSlice(w, task.req, task.stage.job);
    hide JobOk, OriginChunk, Slice, L.Valid;
    if task.stage.at.Origin? {
      hide FetchStep;
      OriginStepIs(w, s, task, choice, net, clock);
    } else {
      hide S.GetFast, S.GetSlow, S.StoreChunk, Store, Serialize, MetaKey, IndexedId, Anchor, Trim, Reading;
    }
  }

  lemma OthersKeep(w: World, node: Node, net: set<(S.Id, Bytes)>, a: Action, clock: L.Clock, t: nat)
    requires w.chunkSize > 0 && L.Valid(node.store.mem) && Legal(w, node, net, a) && !(a.Proceed? && a.task == t)
    requires t in node.tasks && t in Act(w, node, net, a, clock).0.tasks
    ensures Act(w, node, net, a, clock).0.tasks[t] == node.tasks[t]
  {
    hide FetchStep, InfoStep, S.GetFast, S.GetSlow, S.StoreChunk, Store, S.RemoveChunk, S.Promote, S.Demote,
         S.TriggerEviction, S.Restart, L.Valid, Answer, Ids, InOrder;
  }

  /** A step that ends a request without the object: the request's own, at a moment
      when the origin gave no answer, or for an object the origin does not have. */
  lemma RefusalNeedsSilence(w: World, c: Cluster, n: nat, a: Action, c': Cluster, clocks: nat -> L.Clock, t: nat)
    requires WorldOk(w) && ClusterOk(w, c) && Next(w, c, n, a, c', clocks)
    requires t in c.nodes[n].tasks && !c.nodes[n].tasks[t].stage.Finished?
    requires t in c'.nodes[n].tasks && Refuses(c'.nodes[n].tasks[t].stage)
    ensures a.Proceed? && a.task == t && (a.choice.OriginAnswers? ==> c.nodes[n].tasks[t].req.key !in w.origin)
  {
    var node := c.nodes[n];
    NodeFacts(w, node);
    var task, clock := node.tasks[t], clocks(n);
    assert task.stage.Fetching? ==> JobOk(w, task.req, task.stage.job);
    hide FetchStep, InfoStep, L.Valid, StageOk, Contains, NodeOk, NetOk, JobOk, Refuses;
    if a.Proceed? && a.task == t {
      if task.stage.Fetching? {
        FetchRefuses(w, node.store, task, a.choice, c.net, clock);
      } else {
        InfoRefuses(w, node.store, task, a.choice, c.net, clock);
      }
    } else {
      hide Act, Legal;
      OthersKeep(w, node, c.net, a, clock, t);
      NotRefused(task.stage);
    }
  }

  /** So in every run of the cluster. */
  lemma RefusalsNeedSilence(w: World, states: seq<Cluster>, labels: seq<(nat, Action)>, clocks: nat -> L.Clock, i: nat, n: nat, t: nat)
    requires WorldOk(w) && Run(w, states, labels, clocks) && Starting(states[0]) && DisksFit(w, states[0])
    requires i < |labels| && labels[i].0 == n && n in states[i].nodes && n in states[i + 1].nodes
    requires t in states[i].nodes[n].tasks && !states[i].nodes[n].tasks[t].stage.Finished?
    requires t in states[i + 1].nodes[n].tasks && Refuses(states[i + 1].nodes[n].tasks[t].stage)
    ensures var a := labels[i].1;
            a.Proceed? && a.task == t && (a.choice.OriginAnswers? ==> states[i].nodes[n].tasks[t].req.key !in w.origin)
  {
    StartingOk(w, states[0]);
    RunOk(w, states, labels, clocks, i);
    assert Next(w, states[i], n, labels[i].1, states[i + 1], clocks);
    hide Run, ClusterOk, Next, Refuses, WorldOk, DisksFit, Starting;
    RefusalNeedsSilence(w, states[i], n, labels[i].1, states[i + 1], clocks, t);
  }

  lemma NotRefused(stage: Stage)
    requires !stage.Finished?
    ensures !Refuses(stage)
  {
  }

  lemma StartingOk(w: World, c: Cluster)
    requires WorldOk(w) && Starting(c) && DisksFit(w, c)
    ensures ClusterOk(w, c)
  {
  }

  /** The bytes are a meta line whose hashes are those of the origin's own chunks. */
  ghost predicate Truthful(w: World, key: Key, data: Bytes) {
    Parse(data).Some? ==>
      key in w.origin && forall j :: 0 <= j < |Parse(data).value.hashes| ==>
        Parse(data).value.hashes[j] == w.hash(Slice(w.origin[key].content, j, w.chunkSize))
  }

  lemma GoodIsTruthful(w: World, key: Key, data: Bytes)
    requires WorldOk(w) && w.ordered && Good(w, MetaKey(key), data)
    ensures Truthful(w, key, data)
  {
    GoodMetaInfo(w, key, data);
    hide Slice, Parse, Good, MetaKey;
  }

  /** In every run that anchors hashes in index order, each hash on record for a
      chunk, in a node's memory, in its files or in a message, is the hash of the
      origin's own chunk. */
  lemma RecordedHashesAreOrigins(w: World, states: seq<Cluster>, labels: seq<(nat, Action)>, clocks: nat -> L.Clock,
                                 i: nat, n: nat, key: Key)
    requires WorldOk(w) && w.ordered && Run(w, states, labels, clocks) && Starting(states[0]) && DisksFit(w, states[0])
    requires i < |states| && n in states[i].nodes && key in w.keys
    ensures var s := states[i].nodes[n].store;
            && (MetaKey(key) in s.mem.cache ==> Truthful(w, key, s.mem.cache[MetaKey(key)].data))
            && (S.Sanitize(MetaKey(key)) in s.files ==> Truthful(w, key, s.files[S.Sanitize(MetaKey(key))]))
    ensures forall data :: (MetaKey(key), data) in states[i].net ==> Truthful(w, key, data)
  {
    StartingOk(w, states[0]);
    RunOk(w, states, labels, clocks, i);
    var s, meta := states[i].nodes[n].store, MetaKey(key);
    IdsOfKey(w, key, 0);
    hide MetaKey, S.Sanitize, StageOk, L.Valid, Run, Ids, Truthful, Good, WorldOk;
    if meta in s.mem.cache {
      GoodIsTruthful(w, key, s.mem.cache[meta].data);
    }
    if S.Sanitize(meta) in s.files {
      GoodIsTruthful(w, key, s.files[S.Sanitize(meta)]);
    }
    forall data | (meta, data) in states[i].net
      ensures Truthful(w, key, data)
    {
      assert Good(w, (meta, data).0, (meta, data).1);
      GoodIsTruthful(w, key, data);
    }
  }
}

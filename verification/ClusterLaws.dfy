/** What single steps of a request must achieve, src/proxy/request_handler.cpp: what
    they cache, what they record, and that a request comes to its end. */
module ClusterLaws {
  import opened Base
  import opened Text
  import opened MetaCodec
  import opened RangeHeader
  import opened Assembly
  import opened World
  import opened Cluster
  import L = LruSpec
  import O = LruOps
  import S = ChunkStore

  // --------------------------------------------------------------------- progress

  ghost function Phase(stage: Stage): nat {
    match stage
    case InfoFast => 5
    case InfoSlow => 4
    case InfoPeers => 3
    case InfoHead => 2
    case Fetching(_, _) => 1
    case Finished(_) => 0
  }

  ghost function ChunksLeft(w: World, stage: Stage): nat
    requires w.chunkSize > 0
  {
    if stage.Fetching? then Max(0, stage.job.span.last / w.chunkSize - stage.job.idx) else 0
  }

  ghost function PlacesLeft(stage: Stage): nat {
    if !stage.Fetching? then 0
    else
      match stage.at
      case CacheFast => 6
      case CacheSlow => 5
      case Peers => 4
      case Origin => 3
      case AnchorFast(_) => 2
      case AnchorSlow(_) => 1
      case AnchorWrite(_, _) => 0
  }

  ghost predicate Closer(w: World, a: Stage, b: Stage)
    requires w.chunkSize > 0
  {
    || Phase(b) < Phase(a)
    || (Phase(b) == Phase(a) && ChunksLeft(w, b) < ChunksLeft(w, a))
    || (Phase(b) == Phase(a) && ChunksLeft(w, b) == ChunksLeft(w, a) && PlacesLeft(b) < PlacesLeft(a))
  }

  lemma AdvanceCloser(w: World, job: Job, at: At, data: Bytes)
    requires w.chunkSize > 0
    ensures Closer(w, Fetching(job, at), Advance(w, job, data))
  {
    hide Trim;
  }

  lemma BeginPhase(w: World, req: Request, obj: ObjectInfo)
    requires w.chunkSize > 0
    ensures Phase(Begin(w, req, obj)) <= 1
  {
    hide ParseRange;
  }

  lemma InfoCloser(w: World, s: S.Store, task: Task, choice: Choice, net: set<(S.Id, Bytes)>, clock: L.Clock)
    requires w.chunkSize > 0 && L.Valid(s.mem) && !task.stage.Finished? && !task.stage.Fetching?
    ensures Phase(InfoStep(w, s, task, choice, net, clock).1) < Phase(task.stage)
  {
    hide L.Valid, S.GetFast, S.GetSlow, S.StoreChunk, Store, Begin, Parse, Serialize, MetaKey;
    forall obj
      ensures Phase(Begin(w, task.req, obj)) <= 1
    {
      BeginPhase(w, task.req, obj);
    }
  }

  lemma FetchCloser(w: World, s: S.Store, task: Task, choice: Choice, net: set<(S.Id, Bytes)>, clock: L.Clock)
    requires w.chunkSize > 0 && L.Valid(s.mem) && task.stage.Fetching?
    ensures Closer(w, task.stage, FetchStep(w, s, task, choice, net, clock).1)
  {
    assert IndexedId(task.req.key, task.stage.job.idx) != "";
    hide L.Valid, S.GetFast, S.GetSlow, S.StoreChunk, Store, Advance, Serialize, OriginChunk, Anchor, MetaKey, IndexedId, Reading;
    var job, at := task.stage.job, task.stage.at;
    forall data
      ensures Closer(w, Fetching(job, at), Advance(w, job, data))
    {
      AdvanceCloser(w, job, at, data);
    }
    assert task.stage == Fetching(job, at);
    if at.CacheSlow? {
      var got := S.GetSlow(s, IndexedId(task.req.key, job.idx), clock).1;
      assert FetchStep(w, s, task, choice, net, clock).1 == if got.Some? then Advance(w, job, got.value) else Fetching(job, Peers);
    }
  }

  /** Every step of an unfinished request, whatever caches, peers and the origin
      contribute, brings it closer to its end: no request goes on for ever. */
  lemma EveryStepCloser(w: World, s: S.Store, task: Task, choice: Choice, net: set<(S.Id, Bytes)>, clock: L.Clock)
    requires w.chunkSize > 0 && L.Valid(s.mem) && !task.stage.Finished?
    ensures Closer(w, task.stage, (if task.stage.Fetching? then FetchStep(w, s, task, choice, net, clock)
                                   else InfoStep(w, s, task, choice, net, clock)).1)
  {
    hide L.Valid, FetchStep, InfoStep;
    if task.stage.Fetching? {
      FetchCloser(w, s, task, choice, net, clock);
    } else {
      InfoCloser(w, s, task, choice, net, clock);
    }
  }

  // --------------------------------------------------------------------- caching

  /** The bytes are where a store leaves them: on disk if there is one, and in memory
      when they are at most 60% of capacity. */
  ghost predicate Kept(s: S.Store, id: S.Id, data: Bytes) {
    && (s.hasDisk ==> id in s.index && S.Sanitize(id) in s.files && s.files[S.Sanitize(id)] == data)
    && (S.Small(data, s.mem.config.capacity) ==> id in s.mem.cache && s.mem.cache[id].data == data)
  }

  lemma StoreKeeps(s: S.Store, id: S.Id, data: Bytes, clock: L.Clock)
    requires L.Valid(s.mem) && id != "" && O.Brief(clock, s.mem.ticks, Store(s, id, data, clock).mem.ticks)
    ensures Kept(Store(s, id, data, clock), id, data)
  {
    hide L.Valid, O.Put, S.Sanitize;
    O.PutFacts(s.mem, id, data, clock);
    if |data| <= s.mem.config.capacity && id !in s.mem.cache {
      O.FreshPutSurvives(s.mem, id, data, clock);
    }
  }

  /** An origin that answers gives the slice, and the node keeps it. */
  lemma OriginAnswerIsKept(w: World, s: S.Store, task: Task, net: set<(S.Id, Bytes)>, clock: L.Clock)
    requires WorldOk(w) && L.Valid(s.mem) && task.stage.Fetching? && task.stage.at.Origin? && JobOk(w, task.req, task.stage.job)
    requires O.Brief(clock, s.mem.ticks, FetchStep(w, s, task, OriginAnswers, net, clock).0.mem.ticks)
    ensures var (r, stage) := FetchStep(w, s, task, OriginAnswers, net, clock);
            && task.req.key in w.origin
            && var slice := Slice(w.origin[task.req.key].content, task.stage.job.idx, w.chunkSize);
            Kept(r, IndexedId(task.req.key, task.stage.job.idx), slice) && stage == Fetching(task.stage.job, AnchorFast(slice))
  {
    var job := task.stage.job;
    var id := IndexedId(task.req.key, job.idx);
    JobInfo(w, task.req, job);
    OriginGivesSlice(w, task.req, job);
    hide L.Valid, Store, FetchStep, OriginChunk, JobOk, IndexedId, Slice, Kept, O.Brief;
    OriginStepIs(w, s, task, OriginAnswers, net, clock);
    StoreKeeps(s, id, Slice(w.origin[task.req.key].content, job.idx, w.chunkSize), clock);
  }

  /** A peer's answer is kept and appended. */
  lemma PeerAnswerIsKept(w: World, s: S.Store, task: Task, data: Bytes, net: set<(S.Id, Bytes)>, clock: L.Clock)
    requires w.chunkSize > 0 && L.Valid(s.mem) && task.stage.Fetching? && task.stage.at.Peers? && data != ""
    requires (IndexedId(task.req.key, task.stage.job.idx), data) in net
    requires Expected(task.stage.job) == "" || w.hash(data) == Expected(task.stage.job)
    requires O.Brief(clock, s.mem.ticks, FetchStep(w, s, task, FromPeer(data), net, clock).0.mem.ticks)
    ensures var (r, stage) := FetchStep(w, s, task, FromPeer(data), net, clock);
            Kept(r, IndexedId(task.req.key, task.stage.job.idx), data) && stage == Advance(w, task.stage.job, data)
  {
    var id := IndexedId(task.req.key, task.stage.job.idx);
    assert id != "";
    hide L.Valid, Store, Advance, IndexedId, Kept, O.Brief, S.StoreChunk;
    StoreKeeps(s, id, data, clock);
  }

  /** Not finding a chunk leads from memory to disk, to the peers and to the origin, in
      this order. */
  lemma MissesGoOn(w: World, s: S.Store, task: Task, choice: Choice, net: set<(S.Id, Bytes)>, clock: L.Clock)
    requires w.chunkSize > 0 && L.Valid(s.mem) && task.stage.Fetching?
    ensures var id, job := IndexedId(task.req.key, task.stage.job.idx), task.stage.job;
            var stage := FetchStep(w, s, task, choice, net, clock).1;
            && (task.stage.at.CacheFast? && id !in s.mem.cache ==> stage == Fetching(job, CacheSlow))
            && (task.stage.at.CacheSlow? && id !in s.mem.cache && id !in s.index ==> stage == Fetching(job, Peers))
            && (task.stage.at.Peers? && !choice.FromPeer? ==> stage == Fetching(job, Origin))
            && (task.stage.at.Origin? && !choice.OriginAnswers? ==> stage == Finished(BAD_GATEWAY))
  {
    O.GetFacts(s.mem, IndexedId(task.req.key, task.stage.job.idx), clock);
    hide L.Valid, O.Get, Store, Advance, OriginChunk, Anchor, Serialize, MetaKey;
  }

  // ---------------------------------------------------------------------- recording

  /** Writing the anchor of the next chunk in order leaves a meta line that reads back
      with that chunk's hash in its own slot, all others as before. */
  lemma AnchorIsRecorded(w: World, s: S.Store, task: Task, data: Bytes, current: ObjectInfo, choice: Choice,
                         net: set<(S.Id, Bytes)>, clock: L.Clock)
    requires WorldOk(w) && w.ordered && L.Valid(s.mem) && task.req.key in w.origin && GoodInfo(w, task.req.key, current)
    requires task.stage.Fetching? && task.stage.at == AnchorWrite(data, current) && task.stage.job.idx == |current.hashes|
    requires data == Slice(w.origin[task.req.key].content, task.stage.job.idx, w.chunkSize)
    requires O.Brief(clock, s.mem.ticks, FetchStep(w, s, task, choice, net, clock).0.mem.ticks)
    ensures var line := Serialize(Anchor(current, task.stage.job.idx, w.hash(data)));
            && Kept(FetchStep(w, s, task, choice, net, clock).0, MetaKey(task.req.key), line)
            && Parse(line) == Some(current.(hashes := current.hashes + [w.hash(data)]))
  {
    var key, i := task.req.key, task.stage.job.idx;
    var truth := Truth(w, key);
    TruthIsWordy(w, key, current);
    assert Anchored(current, truth) && truth(i) == w.hash(data);
    AnchorReread(current, i, truth);
    hide L.Valid, Store, Anchor, Serialize, Parse, Kept, O.Brief, Slice, Advance, IndexedId, MetaKey;
    MetaKeyNonempty(key);
    StoreKeeps(s, MetaKey(key), Serialize(Anchor(current, i, w.hash(data))), clock);
  }

  /** A chunk fetched from the origin goes on to be anchored, on top of the meta line the
      node holds in memory if it reads, else on what the request knows. */
  lemma FetchedGoesToAnchor(w: World, s: S.Store, task: Task, choice: Choice, data: Bytes, net: set<(S.Id, Bytes)>, clock: L.Clock)
    requires w.chunkSize > 0 && L.Valid(s.mem) && task.stage.Fetching?
    ensures var meta, job := MetaKey(task.req.key), task.stage.job;
            var stage := FetchStep(w, s, task, choice, net, clock).1;
            && (task.stage.at == AnchorFast(data) ==>
                  stage == if meta !in s.mem.cache then Fetching(job, AnchorSlow(data))
                           else
                             var line := Parse(s.mem.cache[meta].data);
                             Fetching(job, AnchorWrite(data, if line.Some? then line.value else job.obj)))
            && (task.stage.at == AnchorSlow(data) ==>
                  stage.Fetching? && stage.job == job && stage.at.AnchorWrite? && stage.at.data == data
                  && (meta !in s.mem.cache && meta !in s.index ==> stage.at.current == job.obj))
  {
    MetaKeyNonempty(task.req.key);
    O.GetFacts(s.mem, MetaKey(task.req.key), clock);
    hide L.Valid, O.Get, Store, Advance, OriginChunk, Anchor, Serialize, MetaKey, IndexedId, Parse;
  }

  lemma MetaKeyNonempty(key: Key)
    ensures MetaKey(key) != ""
  {
  }

  /** An origin that answers the HEAD settles the object's size, and the line is kept. */
  lemma HeadIsKept(w: World, s: S.Store, task: Task, net: set<(S.Id, Bytes)>, clock: L.Clock)
    requires WorldOk(w) && L.Valid(s.mem) && task.stage.InfoHead? && task.req.key in w.origin
    requires O.Brief(clock, s.mem.ticks, InfoStep(w, s, task, OriginAnswers, net, clock).0.mem.ticks)
    ensures var (r, stage) := InfoStep(w, s, task, OriginAnswers, net, clock);
            var o := ObjectInfo(|w.origin[task.req.key].content|, w.origin[task.req.key].etag, []);
            Kept(r, MetaKey(task.req.key), Serialize(o)) && stage == Begin(w, task.req, o)
  {
    MetaKeyNonempty(task.req.key);
    hide L.Valid, Store, Serialize, Kept, O.Brief, Begin, MetaKey;
    StoreKeeps(s, MetaKey(task.req.key), Serialize(ObjectInfo(|w.origin[task.req.key].content|, w.origin[task.req.key].etag, [])), clock);
  }

  /** A meta line that reads, from a peer or from the cache, saves the HEAD. */
  lemma MetaSavesHead(w: World, s: S.Store, task: Task, data: Bytes, net: set<(S.Id, Bytes)>, clock: L.Clock)
    requires w.chunkSize > 0 && L.Valid(s.mem) && Parse(data).Some?
    ensures task.stage.InfoPeers? && data != "" && (MetaKey(task.req.key), data) in net ==>
              InfoStep(w, s, task, FromPeer(data), net, clock).1 == Begin(w, task.req, Parse(data).value)
    ensures task.stage.InfoFast? && MetaKey(task.req.key) in s.mem.cache && s.mem.cache[MetaKey(task.req.key)].data == data ==>
              InfoStep(w, s, task, Local, net, clock).1 == Begin(w, task.req, Parse(data).value)
  {
    MetaKeyNonempty(task.req.key);
    O.GetFacts(s.mem, MetaKey(task.req.key), clock);
    hide L.Valid, O.Get, Store, S.StoreChunk, Begin, Parse, MetaKey, S.GetSlow;
  }

  /** What a node accepts in an upload it keeps. */
  lemma UploadIsKept(w: World, node: Node, net: set<(S.Id, Bytes)>, id: S.Id, data: Bytes, clock: L.Clock)
    requires w.chunkSize > 0 && L.Valid(node.store.mem) && id in Ids(w) && id != "" && (id, data) in net
    requires O.Brief(clock, node.store.mem.ticks, Act(w, node, net, AcceptUpload(id, data), clock).0.store.mem.ticks)
    ensures Kept(Act(w, node, net, AcceptUpload(id, data), clock).0.store, id, data)
  {
    hide L.Valid, Store, Kept, O.Brief, Ids;
    StoreKeeps(node.store, id, data, clock);
  }

  /** A removal takes the chunk from both tiers. */
  lemma RemovalRemoves(w: World, node: Node, net: set<(S.Id, Bytes)>, id: S.Id, clock: L.Clock)
    requires w.chunkSize > 0 && L.Valid(node.store.mem) && id in Ids(w)
    ensures var s := Act(w, node, net, Remove(id), clock).0.store;
            id !in s.mem.cache && id !in s.index && (s.hasDisk ==> S.Sanitize(id) !in s.files)
  {
    hide L.Valid, Ids, S.Sanitize;
  }

  /** A restart forgets memory and requests, but no file. */
  lemma RestartForgets(w: World, node: Node, net: set<(S.Id, Bytes)>, clock: L.Clock)
    requires w.chunkSize > 0 && L.Valid(node.store.mem)
    ensures var n := Act(w, node, net, Reboot, clock).0;
            n.tasks == map[] && n.store.mem.cache == map[] && n.store.files == node.store.files
  {
    hide L.Valid;
  }

  /** An eviction ends at most at 80% of capacity and leaves the files. */
  lemma EvictionActs(w: World, node: Node, net: set<(S.Id, Bytes)>, clock: L.Clock)
    requires w.chunkSize > 0 && L.Valid(node.store.mem)
    ensures var s := Act(w, node, net, Evict, clock).0.store;
            5 * s.mem.size <= 4 * node.store.mem.config.capacity && s.files == node.store.files
  {
    S.EvictionShrinks(node.store, clock);
    hide L.Valid, S.TriggerEviction;
  }
}

/** The two-tier chunk store of src/cache/chunk_manager.cpp: the LRU cache in
    memory over a directory of chunk files with an in-memory index. */
module ChunkStore {
  import opened Base
  import opened LruSpec
  import Ops = LruOps

  type Id = string

  // ------------------------------------------------------------- file names

  predicate Plain(c: char) {
    '0' <= c <= '9' || 'a' <= c <= 'z' || 'A' <= c <= 'Z' || c == '.' || c == '_' || c == '-' || c == '#'
  }

  /** `sanitize_chunk_filename`. */
  function Sanitize(id: Id): string {
    var out := seq(|id|, i requires 0 <= i < |id| => if Plain(id[i]) then id[i] else '_');
    if out == "" || out == "." || out == ".." then "_" else out
  }

  lemma SanitizeIdempotent(id: Id)
    ensures Sanitize(Sanitize(id)) == Sanitize(id)
  {
    var out := Sanitize(id);
    assert forall i :: 0 <= i < |out| ==> Plain(out[i]);
    assert seq(|out|, i requires 0 <= i < |out| => if Plain(out[i]) then out[i] else '_') == out;
  }

  // ----------------------------------- what a file name is, without the filter

  ghost predicate NameChar(c: char) {
    ('a' <= c <= 'z') || ('A' <= c <= 'Z') || ('0' <= c <= '9') || c in {'.', '_', '-', '#'}
  }

  ghost predicate SpecialName(s: string) {
    s == "" || s == "." || s == ".."
  }

  /** Ids that are file names already. */
  ghost predicate ProperName(s: string) {
    !SpecialName(s) && forall i :: 0 <= i < |s| ==> NameChar(s[i])
  }

  lemma NoSlash()
    ensures !NameChar('/')
  {
  }

  /** Every result is a proper file name, so it names a file in the chunk directory and
      no other; away from three ids it keeps the length and every allowed character in
      its place, and has '_' everywhere else. */
  lemma SanitizeIs(id: Id)
    ensures var r := Sanitize(id);
            && ProperName(r) && '/' !in r
            && (if SpecialName(id) then r == "_"
                else |r| == |id| && forall i :: 0 <= i < |id| ==> r[i] == if NameChar(id[i]) then id[i] else '_')
  {
    assert forall c :: Plain(c) <==> NameChar(c);
    hide Plain;
    var out := seq(|id|, i requires 0 <= i < |id| => if Plain(id[i]) then id[i] else '_');
    assert forall i :: 0 <= i < |id| ==> out[i] == if NameChar(id[i]) then id[i] else '_';
    assert NameChar('.') && NameChar('_');
    hide NameChar;
    if SpecialName(out) {
      assert forall i :: 0 <= i < |id| ==> out[i] == '.';
      assert forall i :: 0 <= i < |id| ==> id[i] == '.';
      assert id == out;
    }
    if SpecialName(id) {
      assert forall i :: 0 <= i < |id| ==> id[i] == '.';
      assert out == id;
    }
    NoSlash();
  }

  /** The ids left as they are. */
  lemma SanitizeFixesIff(id: Id)
    ensures Sanitize(id) == id <==> ProperName(id)
  {
    SanitizeIs(id);
    hide Sanitize, NameChar;
  }

  /** Ids whose chunks get files of their own. */
  ghost predicate Separate(ids: iset<Id>) {
    forall x, y :: x in ids && y in ids && Sanitize(x) == Sanitize(y) ==> x == y
  }

  // -------------------------------------------------------------- operations

  /** `index` is `disk_index_`; `files` are the chunk files by name. */
  datatype Store = Store(mem: Lru, hasDisk: bool, index: map<Id, nat>, files: map<string, Bytes>)

  function Load(s: Store, id: Id): Option<Bytes> {
    if s.hasDisk && Sanitize(id) in s.files then Some(s.files[Sanitize(id)]) else None
  }

  /** First critical section of `get_chunk`. */
  function GetFast(s: Store, id: Id, clock: Clock): (Store, Option<Bytes>) {
    var (m, got) := Ops.Get(s.mem, id, clock);
    (s.(mem := m), got)
  }

  /** Second critical section: look again, then load from disk and promote. */
  function GetSlow(s: Store, id: Id, clock: Clock): (Store, Option<Bytes>)
    requires Valid(s.mem) && id != ""
  {
    Ops.GetFacts(s.mem, id, clock);
    var (m, hit) := Ops.Get(s.mem, id, clock);
    if hit.Some? then (s.(mem := m), hit)
    else if id !in s.index then (s.(mem := m), None)
    else
      match Load(s, id)
      case None => (s.(mem := m, index := s.index - {id}), None)
      case Some(data) =>
        Ops.PutFacts(m, id, data, clock);
        var (p, _) := Ops.Put(m, id, data, clock);
        var (q, got) := Ops.Get(p, id, clock);
        (s.(mem := q), got)
  }

  /** `store_chunk`; `declared` is the metadata's size, 0 when unknown. */
  function StoreChunk(s: Store, id: Id, declared: nat, data: Bytes, clock: Clock): (Store, bool)
    requires Valid(s.mem) && id != ""
  {
    if declared > 0 && |data| != declared then (s, false)
    else
      var (m, ok) := Ops.Put(s.mem, id, data, clock);
      if s.hasDisk then
        (s.(mem := m, files := s.files[Sanitize(id) := data], index := s.index[id := |data|]), ok)
      else (s.(mem := m), ok)
  }

  function RemoveChunk(s: Store, id: Id): (Store, bool) {
    var (m, had) := Ops.Remove(s.mem, id);
    (s.(mem := m, index := s.index - {id}, files := if s.hasDisk then s.files - {Sanitize(id)} else s.files),
     had || id in s.index)
  }

  predicate HasChunk(s: Store, id: Id) {
    id in s.mem.cache || id in s.index
  }

  function Promote(s: Store, id: Id, clock: Clock): (Store, bool)
    requires Valid(s.mem) && id != ""
  {
    match Load(s, id)
    case None => (s, false)
    case Some(data) =>
      var (m, ok) := Ops.Put(s.mem, id, data, clock);
      (s.(mem := m), ok)
  }

  function Demote(s: Store, id: Id, clock: Clock): (Store, bool) {
    var (m, got) := Ops.Get(s.mem, id, clock);
    match got
    case None => (s.(mem := m), false)
    case Some(data) =>
      if !s.hasDisk then (s.(mem := m), false)
      else
        (s.(mem := Ops.Remove(m, id).0, files := s.files[Sanitize(id) := data], index := s.index[id := |data|]), true)
  }

  function TriggerEviction(s: Store, clock: Clock): Store
    requires Valid(s.mem)
  {
    s.(mem := Ops.MaybeEvict(s.mem, clock))
  }

  /** A new process over the same directory: memory is empty and the index is
      rebuilt from the file names, which are sanitised ids. */
  function Restart(s: Store): (r: Store)
    ensures Valid(r.mem)
  {
    Store(Ops.Clear(s.mem), s.hasDisk, if s.hasDisk then map n | n in s.files :: |s.files[n]| else map[], s.files)
  }

  // ------------------------------------------------------ refinement of a map

  function Lookup(a: map<Id, Bytes>, id: Id): Option<Bytes> {
    if id in a then Some(a[id]) else None
  }

  /** Memory holds a part of the map. */
  ghost predicate MemoryPart(mem: Lru, a: map<Id, Bytes>) {
    Valid(mem) && forall k :: k in mem.cache ==> k in a && mem.cache[k].data == a[k]
  }

  /** The disk tier holds all of it, one file per chunk and no other file. */
  ghost predicate DiskPart(index: map<Id, nat>, files: map<string, Bytes>, a: map<Id, Bytes>, ids: iset<Id>) {
    && (forall k :: k in index <==> k in a)
    && (forall k :: k in a ==> k in ids && index[k] == |a[k]| && Sanitize(k) in files && files[Sanitize(k)] == a[k])
    && (forall k :: k in ids && Sanitize(k) in files ==> k in a)
    && (forall n :: n in files ==> Sanitize(n) == n)
  }

  ghost predicate Small(data: Bytes, capacity: nat) {
    5 * |data| <= 3 * capacity
  }

  ghost predicate Refines(s: Store, a: map<Id, Bytes>, ids: iset<Id>) {
    && s.hasDisk && MemoryPart(s.mem, a) && DiskPart(s.index, s.files, a, ids)
    && forall k :: k in a ==> Small(a[k], s.mem.config.capacity)
  }

  lemma DiskStore(index: map<Id, nat>, files: map<string, Bytes>, a: map<Id, Bytes>, ids: iset<Id>, id: Id, data: Bytes)
    requires DiskPart(index, files, a, ids) && Separate(ids) && id in ids
    ensures DiskPart(index[id := |data|], files[Sanitize(id) := data], a[id := data], ids)
  {
    hide Sanitize;
    SanitizeIdempotent(id);
  }

  lemma DiskRemove(index: map<Id, nat>, files: map<string, Bytes>, a: map<Id, Bytes>, ids: iset<Id>, id: Id)
    requires DiskPart(index, files, a, ids) && Separate(ids) && id in ids
    ensures DiskPart(index - {id}, files - {Sanitize(id)}, a - {id}, ids)
  {
    hide Sanitize;
  }

  lemma StoreRefines(s: Store, a: map<Id, Bytes>, ids: iset<Id>, id: Id, declared: nat, data: Bytes, clock: Clock)
    requires Refines(s, a, ids) && Separate(ids) && id in ids && id != ""
    requires Small(data, s.mem.config.capacity)
    ensures var (r, ok) := StoreChunk(s, id, declared, data, clock);
            && (ok <==> declared == 0 || declared == |data|)
            && Refines(r, if ok then a[id := data] else a, ids)
            && r.mem.config == s.mem.config
  {
    hide Valid, Ops.Put, DiskPart, Separate;
    Ops.PutFacts(s.mem, id, data, clock);
    DiskStore(s.index, s.files, a, ids, id, data);
  }

  lemma IndexIsMap(s: Store, a: map<Id, Bytes>, ids: iset<Id>)
    requires Refines(s, a, ids)
    ensures forall k :: k in s.index <==> k in a
  {
  }

  lemma RemoveRefines(s: Store, a: map<Id, Bytes>, ids: iset<Id>, id: Id)
    requires Refines(s, a, ids) && Separate(ids) && id in ids
    ensures var (r, ok) := RemoveChunk(s, id);
            Refines(r, a - {id}, ids) && (ok <==> id in a) && r.mem.config == s.mem.config
  {
    hide Valid, DiskPart, Separate, Sanitize;
    Ops.RemoveKeeps(s.mem, id);
    DiskRemove(s.index, s.files, a, ids, id);
    IndexIsMap(s, a, ids);
  }

  /** A hit in the first section already is the current value. */
  lemma GetFastRefines(s: Store, a: map<Id, Bytes>, ids: iset<Id>, id: Id, clock: Clock)
    requires Refines(s, a, ids)
    ensures var (r, got) := GetFast(s, id, clock);
            && Refines(r, a, ids) && r.mem.config == s.mem.config
            && (got.Some? ==> got == Lookup(a, id))
  {
    hide Valid, Ops.Get, Sanitize;
    Ops.GetFacts(s.mem, id, clock);
  }

  lemma LoadIsMap(s: Store, a: map<Id, Bytes>, ids: iset<Id>, id: Id)
    requires Refines(s, a, ids) && id in ids
    ensures Load(s, id) == Lookup(a, id)
  {
  }

  /** The second section always returns the current value, from either tier. */
  lemma GetSlowRefines(s: Store, a: map<Id, Bytes>, ids: iset<Id>, id: Id, clock: Clock)
    requires Refines(s, a, ids) && id in ids && id != ""
    requires Ops.Brief(clock, s.mem.ticks, GetSlow(s, id, clock).0.mem.ticks)
    ensures var (r, got) := GetSlow(s, id, clock);
            && Refines(r, a, ids) && r.mem.config == s.mem.config
            && got == Lookup(a, id)
  {
    hide Valid, Ops.Get, Ops.Put, Sanitize, DiskPart;
    Ops.GetFacts(s.mem, id, clock);
    IndexIsMap(s, a, ids);
    var (m, hit) := Ops.Get(s.mem, id, clock);
    if hit == None && id in s.index {
      LoadIsMap(s, a, ids, id);
      var data := a[id];
      var p := Ops.Put(m, id, data, clock).0;
      Ops.PutFacts(m, id, data, clock);
      Ops.GetFacts(p, id, clock);
      Ops.FreshPutSurvives(m, id, data, clock);
    }
  }

  lemma PromoteRefines(s: Store, a: map<Id, Bytes>, ids: iset<Id>, id: Id, clock: Clock)
    requires Refines(s, a, ids) && id in ids && id != ""
    ensures var (r, ok) := Promote(s, id, clock);
            Refines(r, a, ids) && (ok <==> id in a) && r.mem.config == s.mem.config
  {
    hide Valid, Ops.Put, DiskPart;
    LoadIsMap(s, a, ids, id);
    if id in a {
      Ops.PutFacts(s.mem, id, a[id], clock);
    }
  }

  lemma DemoteRefines(s: Store, a: map<Id, Bytes>, ids: iset<Id>, id: Id, clock: Clock)
    requires Refines(s, a, ids) && Separate(ids) && id in ids
    ensures var (r, ok) := Demote(s, id, clock);
            Refines(r, a, ids) && (ok <==> id in s.mem.cache) && r.mem.config == s.mem.config
            && id !in r.mem.cache
  {
    hide Valid, Ops.Get, DiskPart, Separate;
    Ops.GetFacts(s.mem, id, clock);
    var m := Ops.Get(s.mem, id, clock).0;
    Ops.RemoveKeeps(m, id);
    if id in s.mem.cache {
      DiskStore(s.index, s.files, a, ids, id, a[id]);
      assert a[id := a[id]] == a;
    }
  }

  lemma EvictRefines(s: Store, a: map<Id, Bytes>, ids: iset<Id>, clock: Clock)
    requires Refines(s, a, ids)
    ensures Refines(TriggerEviction(s, clock), a, ids)
    ensures TriggerEviction(s, clock).mem.config == s.mem.config
  {
    hide Valid, Ops.MaybeEvict, Sanitize;
    Ops.MaybeEvictFacts(s.mem, clock);
  }

  /** A promotion of a chunk of at most 60% leaves it in memory with the bytes of its
      file, and on disk as it was; without a file it does nothing. */
  lemma PromotionFills(s: Store, id: Id, clock: Clock)
    requires Valid(s.mem) && id != ""
    requires Ops.Brief(clock, s.mem.ticks, Promote(s, id, clock).0.mem.ticks)
    ensures var (r, ok) := Promote(s, id, clock);
            && r.files == s.files && r.index == s.index && r.hasDisk == s.hasDisk
            && if !s.hasDisk || Sanitize(id) !in s.files then r == s && !ok
               else
                 var data := s.files[Sanitize(id)];
                 && (ok <==> |data| <= s.mem.config.capacity)
                 && (Small(data, s.mem.config.capacity) ==> id in r.mem.cache && r.mem.cache[id].data == data)
  {
    hide Valid, Ops.Put, Sanitize;
    if s.hasDisk && Sanitize(id) in s.files {
      var data := s.files[Sanitize(id)];
      Ops.PutFacts(s.mem, id, data, clock);
      if |data| <= s.mem.config.capacity && id !in s.mem.cache {
        Ops.FreshPutSurvives(s.mem, id, data, clock);
      }
    }
  }

  /** A demotion takes a cached chunk out of memory and onto disk, and reports whether
      it could. */
  lemma DemotionMoves(s: Store, id: Id, clock: Clock)
    requires Valid(s.mem)
    ensures var (r, ok) := Demote(s, id, clock);
            && (ok <==> s.hasDisk && id in s.mem.cache)
            && (if ok then
                  && r.mem.cache.Keys == s.mem.cache.Keys - {id}
                  && r.files == s.files[Sanitize(id) := s.mem.cache[id].data]
                  && r.index == s.index[id := |s.mem.cache[id].data|]
                else r.files == s.files && r.index == s.index && r.mem.cache.Keys == s.mem.cache.Keys)
  {
    hide Valid, Ops.Get, Sanitize;
    Ops.GetFacts(s.mem, id, clock);
  }

  /** A forced eviction ends at most at 80% of capacity and leaves the disk alone. */
  lemma EvictionShrinks(s: Store, clock: Clock)
    requires Valid(s.mem)
    ensures var r := TriggerEviction(s, clock);
            && 5 * r.mem.size <= 4 * s.mem.config.capacity && Valid(r.mem)
            && r.files == s.files && r.index == s.index
            && (5 * s.mem.size <= 4 * s.mem.config.capacity ==> r == s)
  {
    hide Valid, Ops.EvictDown;
    Ops.MaybeEvictFacts(s.mem, clock);
  }

  // ------------------------------------------------------- concurrent runs

  /** Atomic steps: a get is two steps with anything in between. */
  datatype Step =
    | DoStore(id: Id, data: Bytes)
    | DoRemove(id: Id)
    | DoPromote(id: Id)
    | DoDemote(id: Id)
    | DoEvict
    | DoHas(id: Id)
    | GetBegin(thread: nat, id: Id)
    | GetFinish(thread: nat)

  /** What a call returned, next to what the map says at that moment. */
  datatype Observation =
    | SawBytes(id: Id, got: Option<Bytes>, want: Option<Bytes>)
    | SawFlag(id: Id, flag: bool, present: bool)

  datatype System = System(store: Store, spec: map<Id, Bytes>, waiting: map<nat, Id>, log: seq<Observation>)

  ghost predicate Legal(y: System, step: Step, ids: iset<Id>, clock: Clock) {
    match step
    case DoStore(id, data) => id in ids && id != "" && Small(data, y.store.mem.config.capacity)
    case DoRemove(id) => id in ids
    case DoPromote(id) => id in ids && id != ""
    case DoDemote(id) => id in ids
    case DoEvict => true
    case DoHas(id) => id in ids
    case GetBegin(_, id) => id in ids && id != ""
    case GetFinish(t) =>
      t in y.waiting && y.waiting[t] != "" && Valid(y.store.mem) ==>
        Ops.Brief(clock, y.store.mem.ticks, GetSlow(y.store, y.waiting[t], clock).0.mem.ticks)
  }

  ghost predicate Good(y: System, ids: iset<Id>) {
    && Refines(y.store, y.spec, ids)
    && (forall t :: t in y.waiting ==> y.waiting[t] in ids && y.waiting[t] != "")
  }

  /** What the operations need to be defined. */
  ghost predicate Callable(y: System) {
    Valid(y.store.mem) && forall t :: t in y.waiting ==> y.waiting[t] != ""
  }

  ghost function Apply(y: System, step: Step, ids: iset<Id>, clock: Clock): System
    requires Callable(y) && Legal(y, step, ids, clock)
  {
    match step
    case DoStore(id, data) =>
      y.(store := StoreChunk(y.store, id, |data|, data, clock).0, spec := y.spec[id := data])
    case DoRemove(id) =>
      var (s, ok) := RemoveChunk(y.store, id);
      y.(store := s, spec := y.spec - {id}, log := y.log + [SawFlag(id, ok, id in y.spec)])
    case DoPromote(id) => y.(store := Promote(y.store, id, clock).0)
    case DoDemote(id) => y.(store := Demote(y.store, id, clock).0)
    case DoEvict => y.(store := TriggerEviction(y.store, clock))
    case DoHas(id) => y.(log := y.log + [SawFlag(id, HasChunk(y.store, id), id in y.spec)])
    case GetBegin(t, id) =>
      if t in y.waiting then y
      else
        var (s, got) := GetFast(y.store, id, clock);
        if got.Some? then y.(store := s, log := y.log + [SawBytes(id, got, Lookup(y.spec, id))])
        else y.(store := s, waiting := y.waiting[t := id])
    case GetFinish(t) =>
      if t !in y.waiting then y
      else
        var id := y.waiting[t];
        var (s, got) := GetSlow(y.store, id, clock);
        y.(store := s, waiting := y.waiting - {t}, log := y.log + [SawBytes(id, got, Lookup(y.spec, id))])
  }

  ghost predicate Faithful(o: Observation) {
    match o
    case SawBytes(_, got, want) => got == want
    case SawFlag(_, flag, present) => flag == present
  }

  ghost predicate AllFaithful(log: seq<Observation>) {
    forall i :: 0 <= i < |log| ==> Faithful(log[i])
  }

  /** A step that logs nothing and lets nobody wait. */
  lemma Quiet(y: System, store: Store, spec: map<Id, Bytes>, ids: iset<Id>)
    requires Good(y, ids) && AllFaithful(y.log) && Refines(store, spec, ids)
    ensures Good(y.(store := store, spec := spec), ids)
  {
    hide Refines, AllFaithful;
  }

  lemma Waits(y: System, store: Store, t: nat, id: Id, ids: iset<Id>)
    requires Good(y, ids) && Refines(store, y.spec, ids) && id in ids && id != ""
    ensures Good(y.(store := store, waiting := y.waiting[t := id]), ids)
  {
    hide Refines;
  }

  lemma Resumes(y: System, store: Store, t: nat, ids: iset<Id>)
    requires Good(y, ids) && Refines(store, y.spec, ids)
    ensures Good(y.(store := store, waiting := y.waiting - {t}), ids)
  {
    hide Refines;
  }

  lemma Logged(y: System, o: Observation, ids: iset<Id>)
    requires Good(y, ids) && AllFaithful(y.log) && Faithful(o)
    ensures Good(y.(log := y.log + [o]), ids) && AllFaithful(y.log + [o])
  {
    hide Refines;
  }

  lemma GoodCallable(y: System, ids: iset<Id>)
    requires Good(y, ids)
    ensures Callable(y) && Refines(y.store, y.spec, ids)
    ensures forall t :: t in y.waiting ==> y.waiting[t] in ids && y.waiting[t] != ""
  {
  }

  lemma StepKeeps(y: System, step: Step, ids: iset<Id>, clock: Clock)
    requires Good(y, ids) && Separate(ids) && Legal(y, step, ids, clock) && AllFaithful(y.log)
    ensures Callable(y)
    ensures var z := Apply(y, step, ids, clock); Good(z, ids) && AllFaithful(z.log)
  {
    GoodCallable(y, ids);
    hide Good, AllFaithful, HasChunk, Lookup, Refines, Valid, Small, Separate, StoreChunk, RemoveChunk, Promote, Demote,
         TriggerEviction, GetFast, GetSlow;
    var s, a := y.store, y.spec;
    match step {
      case DoStore(id, data) =>
        StoreRefines(s, a, ids, id, |data|, data, clock);
        Quiet(y, StoreChunk(s, id, |data|, data, clock).0, a[id := data], ids);
      case DoRemove(id) =>
        RemoveRefines(s, a, ids, id);
        var (r, ok) := RemoveChunk(s, id);
        Quiet(y, r, a - {id}, ids);
        Logged(y.(store := r, spec := a - {id}), SawFlag(id, ok, id in a), ids);
      case DoPromote(id) =>
        PromoteRefines(s, a, ids, id, clock);
        Quiet(y, Promote(s, id, clock).0, a, ids);
      case DoDemote(id) =>
        DemoteRefines(s, a, ids, id, clock);
        Quiet(y, Demote(s, id, clock).0, a, ids);
      case DoEvict =>
        EvictRefines(s, a, ids, clock);
        Quiet(y, TriggerEviction(s, clock), a, ids);
      case DoHas(id) =>
        HasIsMembership(s, a, ids, id);
        Logged(y, SawFlag(id, HasChunk(s, id), id in a), ids);
      case GetBegin(t, id) => GetBeginKeeps(y, t, id, ids, clock);
      case GetFinish(t) => GetFinishKeeps(y, t, ids, clock);
    }
  }

  lemma GetBeginKeeps(y: System, t: nat, id: Id, ids: iset<Id>, clock: Clock)
    requires Good(y, ids) && Legal(y, GetBegin(t, id), ids, clock) && AllFaithful(y.log)
    ensures Callable(y)
    ensures var z := Apply(y, GetBegin(t, id), ids, clock); Good(z, ids) && AllFaithful(z.log)
  {
    GoodCallable(y, ids);
    hide Good, AllFaithful, Lookup, Refines, Valid, GetFast;
    var s, a := y.store, y.spec;
    GetFastRefines(s, a, ids, id, clock);
    var (r, got) := GetFast(s, id, clock);
    Quiet(y, r, a, ids);
    if got.Some? {
      Logged(y.(store := r), SawBytes(id, got, Lookup(a, id)), ids);
    } else {
      Waits(y, r, t, id, ids);
    }
  }

  lemma GetFinishKeeps(y: System, t: nat, ids: iset<Id>, clock: Clock)
    requires Good(y, ids) && Legal(y, GetFinish(t), ids, clock) && AllFaithful(y.log)
    ensures Callable(y)
    ensures var z := Apply(y, GetFinish(t), ids, clock); Good(z, ids) && AllFaithful(z.log)
  {
    GoodCallable(y, ids);
    hide Good, AllFaithful, Lookup, Refines, Valid, GetSlow, Ops.Brief;
    if t in y.waiting {
      var s, a, id := y.store, y.spec, y.waiting[t];
      GetSlowRefines(s, a, ids, id, clock);
      var (r, got) := GetSlow(s, id, clock);
      Resumes(y, r, t, ids);
      Logged(y.(store := r, waiting := y.waiting - {t}), SawBytes(id, got, Lookup(a, id)), ids);
    }
  }

  lemma HasIsMembership(s: Store, a: map<Id, Bytes>, ids: iset<Id>, id: Id)
    requires Refines(s, a, ids)
    ensures HasChunk(s, id) <==> id in a
  {
  }

  /** `steps` can be taken one after the other from `y` and lead to `z`. */
  ghost predicate Reaches(y: System, steps: seq<Step>, z: System, ids: iset<Id>, clock: Clock)
    decreases |steps|
  {
    if steps == [] then z == y
    else
      Callable(y) && Legal(y, steps[0], ids, clock) &&
      Reaches(Apply(y, steps[0], ids, clock), steps[1..], z, ids, clock)
  }

  /** The two-tier store is a map: in every interleaving every completed get
      returned the bytes stored last (none if never stored, or removed), and
      every flag told the truth, at the moment of its own last critical section. */
  lemma {:induction false} StoreIsAMap(y: System, steps: seq<Step>, z: System, ids: iset<Id>, clock: Clock)
    requires Good(y, ids) && Separate(ids) && AllFaithful(y.log)
    requires Reaches(y, steps, z, ids, clock)
    ensures Good(z, ids) && AllFaithful(z.log)
    decreases |steps|
  {
    if steps != [] {
      hide Good, Legal, Apply, AllFaithful, Separate, Callable;
      StepKeeps(y, steps[0], ids, clock);
      StoreIsAMap(Apply(y, steps[0], ids, clock), steps[1..], z, ids, clock);
    }
  }

  function Fresh(config: Config, hotAt: nat, warmAt: nat): System {
    System(Store(Ops.New(config, hotAt, warmAt, 0), true, map[], map[]), map[], map[], [])
  }

  lemma FreshIsGood(config: Config, hotAt: nat, warmAt: nat, ids: iset<Id>)
    ensures Good(Fresh(config, hotAt, warmAt), ids) && AllFaithful(Fresh(config, hotAt, warmAt).log)
  {
  }

  // ----------------------------------------------------- shared file names

  /** A state in which `x` is on disk alone and nothing is going on. */
  ghost predicate OnDiskOnly(y: System, x: Id) {
    && Valid(y.store.mem) && y.store.hasDisk && x !in y.store.mem.cache && y.store.mem.cache == map[]
    && y.store.index == map[x := 0] && y.store.files == map[Sanitize(x) := ""]
    && y.spec == map[x := ""] && y.waiting == map[] && y.log == []
  }

  lemma StoreAndDemote(config: Config, hotAt: nat, warmAt: nat, ids: iset<Id>, clock: Clock, x: Id) returns (y1: System, y2: System)
    requires x in ids && x != ""
    ensures var y := Fresh(config, hotAt, warmAt);
            && Callable(y) && Legal(y, DoStore(x, ""), ids, clock) && y1 == Apply(y, DoStore(x, ""), ids, clock)
            && Callable(y1) && Legal(y1, DoDemote(x), ids, clock) && y2 == Apply(y1, DoDemote(x), ids, clock)
    ensures OnDiskOnly(y2, x)
  {
    var y := Fresh(config, hotAt, warmAt);
    Ops.NewIsValid(config, hotAt, warmAt, clock);
    var m := Ops.New(config, hotAt, warmAt, 0);
    Ops.RoomyPut(m, x, "", clock);
    y1 := Apply(y, DoStore(x, ""), ids, clock);
    assert y1.store.mem == Ops.Insert(m, x, "", clock) && y1.store.mem.cache.Keys == {x};
    hide Sanitize;
    assert y1.store.files == map[Sanitize(x) := ""] && y1.store.index == map[x := 0] && y1.spec == map[x := ""];
    Ops.GetFacts(y1.store.mem, x, clock);
    var g := Ops.Get(y1.store.mem, x, clock).0;
    Ops.RemoveKeeps(g, x);
    hide Valid, Ops.Put, Ops.Insert, HeatOf;
    y2 := Apply(y1, DoDemote(x), ids, clock);
    assert y2.store.mem == Ops.Remove(g, x).0 && y2.store.mem.cache == g.cache - {x};
    assert g.cache.Keys == {x};
    assert y2.store.mem.cache == map[];
    assert y2.store.files == map[Sanitize(x) := ""] && y2.store.index == map[x := 0];
  }

  /** Removing another id with the same file name takes the file away. */
  lemma RemoveOther(y2: System, ids: iset<Id>, clock: Clock, x: Id, other: Id) returns (y3: System)
    requires OnDiskOnly(y2, x) && other in ids && other != x && Sanitize(other) == Sanitize(x)
    ensures Callable(y2) && Legal(y2, DoRemove(other), ids, clock) && y3 == Apply(y2, DoRemove(other), ids, clock)
    ensures y3.store == y2.store.(files := map[]) && y3.spec == y2.spec && y3.waiting == map[]
    ensures y3.log == [SawFlag(other, false, false)]
  {
    hide Sanitize, Valid;
    y3 := Apply(y2, DoRemove(other), ids, clock);
    assert y3.store.index == y2.store.index && y3.store.files == map[] && y3.spec == y2.spec;
  }

  /** So the chunk stored is not found. */
  lemma GetMisses(y3: System, ids: iset<Id>, clock: Clock, x: Id) returns (y4: System, y5: System)
    requires x in ids && x != "" && Valid(y3.store.mem) && x !in y3.store.mem.cache && x in y3.store.index
    requires y3.store.files == map[] && y3.waiting == map[] && x in y3.spec
    ensures Callable(y3) && Legal(y3, GetBegin(0, x), ids, clock) && y4 == Apply(y3, GetBegin(0, x), ids, clock)
    ensures Callable(y4) && Legal(y4, GetFinish(0), ids, clock) && y5 == Apply(y4, GetFinish(0), ids, clock)
    ensures y5.log == y3.log + [SawBytes(x, None, Some(y3.spec[x]))]
  {
    hide Sanitize;
    y4 := Apply(y3, GetBegin(0, x), ids, clock);
    Ops.GetFacts(y3.store.mem, x, clock);
    hide Valid;
    assert y4.waiting == map[0 := x] && y4.spec == y3.spec && y4.log == y3.log;
    assert Legal(y4, GetFinish(0), ids, clock);
    y5 := Apply(y4, GetFinish(0), ids, clock);
  }

  lemma FiveSteps(y: System, a: Step, b: Step, c: Step, d: Step, e: Step, ids: iset<Id>, clock: Clock,
                  y1: System, y2: System, y3: System, y4: System, z: System)
    requires Callable(y) && Legal(y, a, ids, clock) && y1 == Apply(y, a, ids, clock)
    requires Callable(y1) && Legal(y1, b, ids, clock) && y2 == Apply(y1, b, ids, clock)
    requires Callable(y2) && Legal(y2, c, ids, clock) && y3 == Apply(y2, c, ids, clock)
    requires Callable(y3) && Legal(y3, d, ids, clock) && y4 == Apply(y3, d, ids, clock)
    requires Callable(y4) && Legal(y4, e, ids, clock) && z == Apply(y4, e, ids, clock)
    ensures Reaches(y, [a, b, c, d, e], z, ids, clock)
  {
    hide Callable, Legal, Apply;
    assert Reaches(z, [], z, ids, clock);
    assert [e][1..] == [];
    assert Reaches(y4, [e], z, ids, clock);
    assert [d, e][1..] == [e];
    assert Reaches(y3, [d, e], z, ids, clock);
    assert [c, d, e][1..] == [d, e];
    assert Reaches(y2, [c, d, e], z, ids, clock);
    assert [b, c, d, e][1..] == [c, d, e];
    assert Reaches(y1, [b, c, d, e], z, ids, clock);
    assert [a, b, c, d, e][1..] == [b, c, d, e];
  }

  /** In every run of a new store every call tells the truth. */
  ghost predicate AlwaysFaithful(config: Config, hotAt: nat, warmAt: nat, ids: iset<Id>, clock: Clock) {
    forall steps, z :: Reaches(Fresh(config, hotAt, warmAt), steps, z, ids, clock) ==> AllFaithful(z.log)
  }

  lemma SharedNameMisleads(config: Config, hotAt: nat, warmAt: nat, ids: iset<Id>, clock: Clock, x: Id, other: Id)
    requires x in ids && other in ids && x != other && x != "" && Sanitize(x) == Sanitize(other)
    ensures !AlwaysFaithful(config, hotAt, warmAt, ids, clock)
  {
    var y := Fresh(config, hotAt, warmAt);
    var y1, y2 := StoreAndDemote(config, hotAt, warmAt, ids, clock, x);
    var y3 := RemoveOther(y2, ids, clock, x, other);
    var y4, z := GetMisses(y3, ids, clock, x);
    hide Callable, Legal, Apply, Sanitize, Valid, OnDiskOnly, Reaches, Fresh;
    FiveSteps(y, DoStore(x, ""), DoDemote(x), DoRemove(other), GetBegin(0, x), GetFinish(0), ids, clock, y1, y2, y3, y4, z);
    assert !Faithful(z.log[|z.log| - 1]);
  }

  /** Exactly over which ids the two-tier store is a map: those with file names of
      their own. */
  lemma StoreIsAMapIff(config: Config, hotAt: nat, warmAt: nat, ids: iset<Id>, clock: Clock)
    ensures AlwaysFaithful(config, hotAt, warmAt, ids, clock) <==> Separate(ids)
  {
    if Separate(ids) {
      FreshIsGood(config, hotAt, warmAt, ids);
      hide Separate, Good, AllFaithful, Reaches, Fresh;
      forall steps, z | Reaches(Fresh(config, hotAt, warmAt), steps, z, ids, clock)
        ensures AllFaithful(z.log)
      {
        StoreIsAMap(Fresh(config, hotAt, warmAt), steps, z, ids, clock);
      }
    } else {
      hide AlwaysFaithful, Sanitize;
      var x, other :| x in ids && other in ids && Sanitize(x) == Sanitize(other) && x != other;
      if x != "" {
        SharedNameMisleads(config, hotAt, warmAt, ids, clock, x, other);
      } else {
        SharedNameMisleads(config, hotAt, warmAt, ids, clock, other, x);
      }
    }
  }

  // ------------------------------------------------ where the map ends

  /** Exactly when memory agrees with the map after a store of any size: a value
      above capacity leaves an older cached one where it is. */
  lemma StoreMemoryIff(s: Store, a: map<Id, Bytes>, ids: iset<Id>, id: Id, data: Bytes, clock: Clock)
    requires Refines(s, a, ids) && id != ""
    ensures MemoryPart(StoreChunk(s, id, |data|, data, clock).0.mem, a[id := data]) <==>
            |data| <= s.mem.config.capacity || id !in s.mem.cache
  {
    hide Valid, Ops.Put, DiskPart, Sanitize;
    Ops.PutFacts(s.mem, id, data, clock);
  }

  /** Above 60% of capacity a promoted chunk may evict itself: the get finds the
      bytes on disk and returns them exactly when the fresh-put condition holds. */
  lemma LargePromotionIff(s: Store, id: Id, clock: Clock)
    requires Valid(s.mem) && s.hasDisk && id != "" && id !in s.mem.cache && id in s.index
    requires Sanitize(id) in s.files && |s.files[Sanitize(id)]| <= s.mem.config.capacity
    requires Ops.Brief(clock, s.mem.ticks, GetSlow(s, id, clock).0.mem.ticks)
    ensures var data := s.files[Sanitize(id)];
            var m := Ops.Get(s.mem, id, clock).0;
            && Valid(m)
            && var room := Ops.MakeRoom(m, |data|, clock);
               GetSlow(s, id, clock).1 ==
               if Small(data, s.mem.config.capacity) || 5 * (room.size + |data|) <= 4 * s.mem.config.capacity
               then Some(data) else None
  {
    hide Valid, Ops.Get, Ops.Put, Sanitize, Ops.MakeRoom;
    var data := s.files[Sanitize(id)];
    Ops.GetFacts(s.mem, id, clock);
    var m := Ops.Get(s.mem, id, clock).0;
    var p := Ops.Put(m, id, data, clock).0;
    Ops.PutFacts(m, id, data, clock);
    Ops.GetFacts(p, id, clock);
    Ops.FreshPutSurvives(m, id, data, clock);
  }

  /** A get that nothing comes between. */
  function GetChunk(s: Store, id: Id, clock: Clock): (Store, Option<Bytes>)
    requires Valid(s.mem) && id != ""
  {
    Ops.GetFacts(s.mem, id, clock);
    var (r, got) := GetFast(s, id, clock);
    if got.Some? then (r, got) else GetSlow(r, id, clock)
  }

  lemma BriefPart(clock: Clock, from: nat, to: nat, from': nat, to': nat)
    requires Ops.Brief(clock, from, to) && from <= from' && to' <= to
    ensures Ops.Brief(clock, from', to')
  {
  }

  lemma CachedIsGot(s: Store, id: Id, clock: Clock)
    requires Valid(s.mem) && id != "" && id in s.mem.cache
    ensures GetChunk(s, id, clock).1 == Some(s.mem.cache[id].data)
  {
    hide Valid, Ops.Get;
    Ops.GetFacts(s.mem, id, clock);
  }

  /** An oversize file is never promoted, so the get finds nothing. */
  lemma OversizeIsLost(s: Store, id: Id, clock: Clock)
    requires Valid(s.mem) && s.hasDisk && id != "" && id !in s.mem.cache && id in s.index
    requires Sanitize(id) in s.files && |s.files[Sanitize(id)]| > s.mem.config.capacity
    ensures GetChunk(s, id, clock).1 == None
  {
    hide Valid, Sanitize;
    var m := Ops.Get(s.mem, id, clock).0;
    Ops.GetFacts(s.mem, id, clock);
    Ops.GetFacts(m, id, clock);
    hide Ops.Get;
    Ops.GetFacts(Ops.Get(m, id, clock).0, id, clock);
    Ops.PutFacts(Ops.Get(m, id, clock).0, id, s.files[Sanitize(id)], clock);
  }

  /** A get of a file while memory is empty: promoted, and kept up to 80%. */
  lemma EmptyPromotes(s: Store, id: Id, clock: Clock)
    requires Valid(s.mem) && s.hasDisk && id != "" && s.mem.order == [] && id in s.index && id !in s.mem.cache
    requires Sanitize(id) in s.files && |s.files[Sanitize(id)]| <= s.mem.config.capacity
    requires Ops.Brief(clock, s.mem.ticks, GetChunk(s, id, clock).0.mem.ticks)
    ensures var data := s.files[Sanitize(id)];
            GetChunk(s, id, clock).1 == if 5 * |data| <= 4 * s.mem.config.capacity then Some(data) else None
  {
    var data := s.files[Sanitize(id)];
    var r := GetFast(s, id, clock).0;
    Ops.GetFacts(s.mem, id, clock);
    assert r.mem == s.mem.(stats := r.mem.stats);
    var m := Ops.Get(r.mem, id, clock).0;
    assert m == s.mem.(stats := m.stats);
    Ops.GetFacts(r.mem, id, clock);
    Ops.EmptyHasNoSize(m);
    assert Ops.MakeRoom(m, |data|, clock) == m;
    hide Valid, Ops.Get, Ops.Put, Sanitize, Ops.MakeRoom;
    LargePromotionIff(r, id, clock);
  }

  function StoreThenGet(s: Store, id: Id, data: Bytes, clock: Clock): (Store, Option<Bytes>)
    requires Valid(s.mem) && id != ""
  {
    Ops.PutFacts(s.mem, id, data, clock);
    GetChunk(StoreChunk(s, id, |data|, data, clock).0, id, clock)
  }

  lemma GetTicks(s: Store, id: Id, clock: Clock)
    requires Valid(s.mem) && id != ""
    ensures s.mem.ticks <= GetChunk(s, id, clock).0.mem.ticks
  {
    hide Valid, Ops.Get, Ops.Put, Sanitize;
    Ops.GetFacts(s.mem, id, clock);
    var r := GetFast(s, id, clock).0;
    Ops.GetFacts(r.mem, id, clock);
    var m := Ops.Get(r.mem, id, clock).0;
    if id in r.index && Load(r, id).Some? {
      var data := Load(r, id).value;
      Ops.PutFacts(m, id, data, clock);
      Ops.GetFacts(Ops.Put(m, id, data, clock).0, id, clock);
    }
  }

  /** A new key that survives its put fills at most 80%. */
  lemma KeptIsModest(s: Lru, id: Id, data: Bytes, clock: Clock)
    requires Valid(s) && id != "" && id !in s.cache && |data| <= s.config.capacity && id in Ops.Put(s, id, data, clock).0.cache
    ensures 5 * |data| <= 4 * s.config.capacity
  {
    hide Ops.Put;
    Ops.PutFacts(s, id, data, clock);
    var r := Ops.Put(s, id, data, clock).0;
    Ops.EntryWithinTotal(r.order, r.cache, id);
  }

  /** One condition for every size: a get right after a store returns the bytes just
      stored exactly when they fit the cache and either replaced a cached value or
      fill at most 80% of capacity.  Otherwise it returns nothing, or what an oversize
      value failed to replace. */
  lemma StoredIsGotIff(s: Store, a: map<Id, Bytes>, ids: iset<Id>, id: Id, data: Bytes, clock: Clock)
    requires Refines(s, a, ids) && id != ""
    requires Ops.Brief(clock, s.mem.ticks, StoreThenGet(s, id, data, clock).0.mem.ticks)
    ensures var cap := s.mem.config.capacity;
            var got := StoreThenGet(s, id, data, clock).1;
            && (got == Some(data) <==> |data| <= cap && (id in s.mem.cache || 5 * |data| <= 4 * cap))
            && (got != Some(data) ==> got == if id in s.mem.cache then Some(a[id]) else None)
  {
    var r := StoreChunk(s, id, |data|, data, clock).0;
    Ops.PutFacts(s.mem, id, data, clock);
    hide Valid, Ops.Put, DiskPart, Sanitize, GetChunk;
    if id in r.mem.cache {
      CachedIsGot(r, id, clock);
      if id !in s.mem.cache {
        KeptIsModest(s.mem, id, data, clock);
      }
    } else if |data| <= s.mem.config.capacity {
      GetTicks(r, id, clock);
      BriefPart(clock, s.mem.ticks, GetChunk(r, id, clock).0.mem.ticks, s.mem.ticks, r.mem.ticks);
      BriefPart(clock, s.mem.ticks, GetChunk(r, id, clock).0.mem.ticks, r.mem.ticks, GetChunk(r, id, clock).0.mem.ticks);
      hide Ops.Brief;
      Ops.LostPutEmpties(s.mem, id, data, clock);
      EmptyPromotes(r, id, clock);
    } else {
      OversizeIsLost(r, id, clock);
    }
  }

  /** After a restart a chunk is found exactly when its id is a proper file name, so
      never under an id of bucket, slash and key. */
  lemma RestartFindsIff(s: Store, a: map<Id, Bytes>, ids: iset<Id>, id: Id, clock: Clock)
    requires Refines(s, a, ids) && id in a && id != ""
    requires Ops.Brief(clock, s.mem.ticks, GetSlow(Restart(s), id, clock).0.mem.ticks)
    ensures var got := GetSlow(Restart(s), id, clock).1;
            got == if ProperName(id) then Some(a[id]) else None
  {
    SanitizeFixesIff(id);
    hide ProperName;
    hide Valid, Ops.Get, Ops.Put, Sanitize;
    var r := Restart(s);
    Ops.GetFacts(r.mem, id, clock);
    var m := Ops.Get(r.mem, id, clock).0;
    if id in r.index {
      var data := a[id];
      var p := Ops.Put(m, id, data, clock).0;
      Ops.PutFacts(m, id, data, clock);
      Ops.GetFacts(p, id, clock);
      Ops.FreshPutSurvives(m, id, data, clock);
    }
  }
}

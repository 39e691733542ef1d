/** The operations of the weighted LRU cache and what every run of them keeps. */
module LruOps {
  import opened Base
  import opened LruSpec

  // -------------------------------------------------------------- operations

  function New(config: Config, hotAt: nat, warmAt: nat, ticks: nat): Lru {
    Lru(config, hotAt, warmAt, [], map[], 0, Stats(0, 0, 0, 0, 0), ticks)
  }

  function EvictOne(s: Lru, clock: Clock): Lru {
    if s.order == [] then s
    else
      var k := SelectTarget(s, clock(s.ticks));
      if k == "" then s.(ticks := s.ticks + 1)
      else if k in s.cache then
        s.(order := Without(s.order, k), cache := s.cache - {k}, size := s.size - |s.cache[k].data|,
           stats := s.stats.(evictions := s.stats.evictions + 1), ticks := s.ticks + 1)
      else
        s.(order := Without(s.order, k), ticks := s.ticks + 1)
  }

  /** Every eviction removes exactly the entry at the victim position. */
  lemma EvictOneFacts(s: Lru, clock: Clock) returns (v: nat)
    requires Valid(s) && s.order != []
    ensures v < |s.order| && IsVictim(s, clock(s.ticks), v)
    ensures var r := EvictOne(s, clock); var k := s.order[v];
            && Valid(r)
            && r.order == s.order[..v] + s.order[v + 1..]
            && r.cache == s.cache - {k}
            && r.size == s.size - |s.cache[k].data|
            && r.stats == s.stats.(evictions := s.stats.evictions + 1)
            && r.ticks == s.ticks + 1 && r.config == s.config && r.hotAt == s.hotAt && r.warmAt == s.warmAt
  {
    hide IsVictim, SelectTarget, Valid, NoDup;
    v := SelectIsVictim(s, clock(s.ticks));
    var k := s.order[v];
    ValidLists(s);
    assert k in s.order;
    DropValid(s, k);
    assert IndexOf(s.order, k) == v by { OnlyOnce(s.order, IndexOf(s.order, k), v); }
    ValidFrame(s.(order := Without(s.order, k), cache := s.cache - {k}, size := s.size - |s.cache[k].data|,
                   stats := s.stats.(totalItems := s.stats.totalItems - 1)), EvictOne(s, clock));
  }

  lemma OnlyOnce(s: seq<Key>, i: nat, j: nat)
    requires NoDup(s) && i < |s| && j < |s| && s[i] == s[j]
    ensures i == j
  {
  }

  /** Clock and counters do not matter to the representation invariant, as long
      as items less evictions stay the same. */
  lemma ValidFrame(s: Lru, r: Lru)
    requires Valid(s) && r.order == s.order && r.cache == s.cache && r.size == s.size
    requires r.stats.totalItems - r.stats.evictions == s.stats.totalItems - s.stats.evictions
    ensures Valid(r)
  {
  }

  /** Dropping one entry keeps the lists and the size counter in step. */
  lemma DropValid(s: Lru, k: Key)
    requires Valid(s) && k in s.order
    ensures k in s.cache && Valid(s.(order := Without(s.order, k), cache := s.cache - {k},
                                     size := s.size - |s.cache[k].data|,
                                     stats := s.stats.(totalItems := s.stats.totalItems - 1)))
  {
    WithoutFacts(s.order, k);
    TotalWithout(s.order, s.cache, k);
    hide NoDup, Without;
    TotalFrame(Without(s.order, k), s.cache, s.cache - {k});
  }

  lemma EvictOneShrinks(s: Lru, clock: Clock)
    requires Valid(s) && s.order != []
    ensures Valid(EvictOne(s, clock)) && |EvictOne(s, clock).order| < |s.order|
  {
    var v := EvictOneFacts(s, clock);
  }

  /** The eviction loops: evict while `5 * size > bound` and the list is not empty. */
  function EvictDown(s: Lru, bound: int, clock: Clock): Lru
    requires Valid(s)
    decreases |s.order|
  {
    if 5 * s.size > bound && s.order != [] then
      EvictOneShrinks(s, clock);
      EvictDown(EvictOne(s, clock), bound, clock)
    else s
  }

  function MaybeEvict(s: Lru, clock: Clock): Lru
    requires Valid(s)
  {
    if 5 * s.size > 4 * s.config.capacity then EvictDown(s, 3 * s.config.capacity, clock) else s
  }

  function EvictToTarget(s: Lru, clock: Clock): Lru
    requires Valid(s)
  {
    EvictDown(s, 3 * s.config.capacity, clock)
  }

  function MakeRoom(s: Lru, n: nat, clock: Clock): Lru
    requires Valid(s)
  {
    EvictDown(s, 5 * (s.config.capacity - n), clock)
  }

  /** A new entry at the front; the clock is read for the entry and for its heat. */
  function Insert(s: Lru, k: Key, data: Bytes, clock: Clock): Lru {
    var heat := HeatOf(Sub64(clock(s.ticks + 1), clock(s.ticks)), 0, s.hotAt, s.warmAt);
    s.(order := [k] + s.order, cache := s.cache[k := Entry(data, clock(s.ticks), 0, 1, heat)],
       size := s.size + |data|, stats := Counted(s.stats, 1, |data|), ticks := s.ticks + 2)
  }

  function Replace(s: Lru, k: Key, data: Bytes, clock: Clock): Lru
    requires k in s.cache
  {
    s.(order := ToFront(s.order, k), cache := s.cache[k := Entry(data, clock(s.ticks), 0, 1, Cold)],
       size := s.size - |s.cache[k].data| + |data|, ticks := s.ticks + 1)
  }

  function Put(s: Lru, k: Key, data: Bytes, clock: Clock): (Lru, bool)
    requires Valid(s) && k != ""
  {
    if |data| > s.config.capacity then (s, false)
    else if k in s.cache then (Replace(s, k, data, clock), true)
    else
      RoomReady(s, k, data, clock);
      (MaybeEvict(Insert(MakeRoom(s, |data|, clock), k, data, clock), clock), true)
  }

  lemma RoomReady(s: Lru, k: Key, data: Bytes, clock: Clock)
    requires Valid(s) && k != "" && k !in s.cache
    ensures Valid(Insert(MakeRoom(s, |data|, clock), k, data, clock))
  {
    hide Valid, EvictDown, Insert;
    EvictDownFacts(s, 5 * (s.config.capacity - |data|), clock);
    InsertValid(MakeRoom(s, |data|, clock), k, data, clock);
  }

  function Get(s: Lru, k: Key, clock: Clock): (Lru, Option<Bytes>) {
    if k !in s.cache then (s.(stats := s.stats.(misses := s.stats.misses + 1)), None)
    else
      var e := s.cache[k];
      var heat := HeatOf(0, e.accessCount + 1, s.hotAt, s.warmAt);
      (s.(order := ToFront(s.order, k),
          cache := s.cache[k := e.(lastAccess := clock(s.ticks), accessCount := e.accessCount + 1, heat := heat)],
          stats := s.stats.(hits := s.stats.hits + 1), ticks := s.ticks + 1),
       Some(e.data))
  }

  function Remove(s: Lru, k: Key): (Lru, bool) {
    if k !in s.cache then (s, false)
    else
      (s.(order := Without(s.order, k), cache := s.cache - {k}, size := s.size - |s.cache[k].data|,
          stats := Counted(s.stats, -1, -|s.cache[k].data|)), true)
  }

  function Clear(s: Lru): Lru {
    New(s.config, s.hotAt, s.warmAt, s.ticks)
  }

  function UpdateMetadata(s: Lru, k: Key, replicas: nat, heat: Heat): Lru {
    if k in s.cache then s.(cache := s.cache[k := s.cache[k].(replicas := replicas, heat := heat)]) else s
  }

  /** `stats()` recomputes the heat of every entry against one clock read. */
  function RefreshHeat(s: Lru, clock: Clock): Lru {
    var now := clock(s.ticks);
    s.(cache := map k | k in s.cache ::
                  var e := s.cache[k];
                  e.(heat := HeatOf(Sub64(now, e.lastAccess), e.accessCount, s.hotAt, s.warmAt)),
       ticks := s.ticks + 1)
  }

  // ---------------------------------------------- what single operations keep

  /** `r` holds a subset of the entries of `s`, unchanged. */
  ghost predicate Shrinks(s: Lru, r: Lru) {
    && (forall k :: k in r.cache ==> k in s.cache && r.cache[k] == s.cache[k])
    && r.config == s.config && r.hotAt == s.hotAt && r.warmAt == s.warmAt
    && s.ticks <= r.ticks && r.stats.totalItems == s.stats.totalItems
  }

  lemma EmptyHasNoSize(s: Lru)
    requires Valid(s) && s.order == []
    ensures s.size == 0
  {
  }

  /** The loops terminate below their bound (or empty) and only ever drop entries. */
  lemma {:induction false} EvictDownFacts(s: Lru, bound: int, clock: Clock)
    requires Valid(s)
    ensures var r := EvictDown(s, bound, clock); Valid(r) && Shrinks(s, r)
    ensures var r := EvictDown(s, bound, clock); 5 * r.size <= bound || (r.order == [] && r.size == 0)
    decreases |s.order|
  {
    hide Valid, IsVictim, EvictOne;
    if 5 * s.size > bound && s.order != [] {
      var v := EvictOneFacts(s, clock);
      EvictDownFacts(EvictOne(s, clock), bound, clock);
    } else if s.order == [] {
      EmptyHasNoSize(s);
    }
  }

  lemma {:induction false} EvictDownSorted(s: Lru, bound: int, clock: Clock)
    requires Valid(s) && Sorted(s, clock) && Monotone(clock)
    ensures Sorted(EvictDown(s, bound, clock), clock)
    decreases |s.order|
  {
    hide Valid, IsVictim, EvictOne, SortedAt;
    if 5 * s.size > bound && s.order != [] {
      var v := EvictOneFacts(s, clock);
      ValidLists(s);
      var r := EvictOne(s, clock);
      SortedDrop(s.order, s.cache, v, clock(s.ticks), r.cache, clock(r.ticks));
      EvictDownSorted(r, bound, clock);
    }
  }

  lemma MaybeEvictFacts(s: Lru, clock: Clock)
    requires Valid(s)
    ensures var r := MaybeEvict(s, clock); Valid(r) && Shrinks(s, r) && 5 * r.size <= 4 * s.config.capacity
  {
    hide Valid, EvictDown;
    EvictDownFacts(s, 3 * s.config.capacity, clock);
  }

  lemma NoDupPush(s: seq<Key>, k: Key)
    requires NoDup(s) && k !in s
    ensures NoDup([k] + s)
  {
  }

  lemma InsertValid(s: Lru, k: Key, data: Bytes, clock: Clock)
    requires Valid(s) && k !in s.cache && k != ""
    ensures Valid(Insert(s, k, data, clock))
  {
    hide HeatOf, NoDup, Total;
    NoDupPush(s.order, k);
    TotalPush(s.order, s.cache, k, Insert(s, k, data, clock).cache[k]);
  }

  /** Moving `k` to the front with a new entry keeps the list and the sizes in step. */
  lemma TouchValid(s: Lru, k: Key, e: Entry)
    requires Valid(s) && k in s.cache
    ensures var r := s.(order := ToFront(s.order, k), cache := s.cache[k := e],
                        size := s.size - |s.cache[k].data| + |e.data|);
            Valid(r) && |r.order| == |s.order|
  {
    hide NoDup, Total, Without;
    var w := Without(s.order, k);
    WithoutFacts(s.order, k);
    TotalWithout(s.order, s.cache, k);
    NoDupPush(w, k);
    TotalPush(w, s.cache, k, e);
  }

  lemma ReplaceValid(s: Lru, k: Key, data: Bytes, clock: Clock)
    requires Valid(s) && k in s.cache
    ensures Valid(Replace(s, k, data, clock))
  {
    hide Valid, ToFront;
    var e := Entry(data, clock(s.ticks), 0, 1, Cold);
    TouchValid(s, k, e);
    ValidFrame(s.(order := ToFront(s.order, k), cache := s.cache[k := e],
                  size := s.size - |s.cache[k].data| + |e.data|), Replace(s, k, data, clock));
  }

  lemma TouchSorted(s: Lru, k: Key, e: Entry, clock: Clock)
    requires Valid(s) && k in s.cache && Sorted(s, clock) && Monotone(clock) && e.lastAccess == clock(s.ticks)
    ensures SortedAt(ToFront(s.order, k), s.cache[k := e], clock(s.ticks + 1))
  {
    hide Valid, SortedAt, NoDup;
    var now := clock(s.ticks);
    var w := Without(s.order, k);
    ValidLists(s);
    WithoutFacts(s.order, k);
    SortedDrop(s.order, s.cache, IndexOf(s.order, k), now, s.cache, now);
    SortedPush(w, s.cache, now, k, e, clock(s.ticks + 1));
  }

  lemma RemoveKeeps(s: Lru, k: Key)
    requires Valid(s)
    ensures Valid(Remove(s, k).0)
  {
    if k in s.cache {
      DropValid(s, k);
      hide Valid;
      ValidFrame(s.(order := Without(s.order, k), cache := s.cache - {k}, size := s.size - |s.cache[k].data|,
                    stats := s.stats.(totalItems := s.stats.totalItems - 1)), Remove(s, k).0);
    }
  }

  lemma RemoveSorted(s: Lru, k: Key, clock: Clock)
    requires Valid(s) && Sorted(s, clock)
    ensures Sorted(Remove(s, k).0, clock)
  {
    hide Valid, SortedAt;
    ValidLists(s);
    if k in s.cache {
      SortedDrop(s.order, s.cache, IndexOf(s.order, k), clock(s.ticks), s.cache - {k}, clock(s.ticks));
    }
  }

  /** The three states of a put of a new key: after making room, after the
      insertion, and after the closing eviction pass. */
  ghost predicate FreshPut(s: Lru, k: Key, data: Bytes, room: Lru, full: Lru, r: Lru) {
    && Valid(room) && Shrinks(s, room)
    && Valid(full) && full.order == [k] + room.order && full.size == room.size + |data|
    && k in full.cache && full.cache[k].data == data && full.cache == room.cache[k := full.cache[k]]
    && full.config == s.config && s.ticks <= full.ticks
    && Valid(r) && Shrinks(full, r) && 5 * r.size <= 4 * s.config.capacity
  }

  lemma PutFresh(s: Lru, k: Key, data: Bytes, clock: Clock) returns (room: Lru, full: Lru)
    requires Valid(s) && k != "" && k !in s.cache && |data| <= s.config.capacity
    ensures room == MakeRoom(s, |data|, clock) && full == Insert(room, k, data, clock) && Valid(full)
    ensures Put(s, k, data, clock) == (MaybeEvict(full, clock), true)
    ensures FreshPut(s, k, data, room, full, MaybeEvict(full, clock))
  {
    hide Valid, EvictDown;
    EvictDownFacts(s, 5 * (s.config.capacity - |data|), clock);
    room := MakeRoom(s, |data|, clock);
    InsertValid(room, k, data, clock);
    full := Insert(room, k, data, clock);
    MaybeEvictFacts(full, clock);
  }

  /** An accepted put of a new key ends at or below 80% of capacity, from any
      valid state; no put touches the data of another key. */
  lemma PutFacts(s: Lru, k: Key, data: Bytes, clock: Clock)
    requires Valid(s) && k != ""
    ensures var (r, ok) := Put(s, k, data, clock);
            && Valid(r) && r.config == s.config && s.ticks <= r.ticks
            && (ok <==> |data| <= s.config.capacity)
            && (ok && k !in s.cache ==> 5 * r.size <= 4 * r.config.capacity)
    ensures var (r, ok) := Put(s, k, data, clock);
            && (forall x :: x in r.cache && x != k ==> x in s.cache && r.cache[x] == s.cache[x])
            && (k in r.cache && ok ==> r.cache[k].data == data)
            && (k in s.cache && ok ==> k in r.cache && r.size == s.size - |s.cache[k].data| + |data|)
            && (!ok ==> r == s)
  {
    hide Valid, EvictDown;
    if |data| <= s.config.capacity {
      if k in s.cache {
        ReplaceValid(s, k, data, clock);
      } else {
        var room, full := PutFresh(s, k, data, clock);
      }
    }
  }

  /** Exactly when an accepted put ends at or below 80% of capacity: a new key
      always, a replacement when the sizes happen to allow it. */
  lemma PutSizeIff(s: Lru, k: Key, data: Bytes, clock: Clock)
    requires Valid(s) && k != "" && |data| <= s.config.capacity
    ensures 5 * Put(s, k, data, clock).0.size <= 4 * s.config.capacity <==>
            k !in s.cache || 5 * (s.size - |s.cache[k].data| + |data|) <= 4 * s.config.capacity
  {
    hide Valid, Put;
    PutFacts(s, k, data, clock);
  }

  lemma PutSorted(s: Lru, k: Key, data: Bytes, clock: Clock)
    requires Valid(s) && k != "" && Sorted(s, clock) && Monotone(clock)
    ensures Sorted(Put(s, k, data, clock).0, clock)
  {
    hide Valid, SortedAt, EvictDown;
    if |data| <= s.config.capacity {
      if k in s.cache {
        TouchSorted(s, k, Entry(data, clock(s.ticks), 0, 1, Cold), clock);
      } else {
        var bound := 5 * (s.config.capacity - |data|);
        EvictDownFacts(s, bound, clock);
        EvictDownSorted(s, bound, clock);
        var room := MakeRoom(s, |data|, clock);
        InsertValid(room, k, data, clock);
        var full := Insert(room, k, data, clock);
        ValidLists(room);
        SortedPush(room.order, room.cache, clock(room.ticks), k, full.cache[k], clock(full.ticks));
        EvictDownSorted(full, 3 * full.config.capacity, clock);
      }
    }
  }

  /** A get returns the data held and changes no data. */
  lemma GetFacts(s: Lru, k: Key, clock: Clock)
    requires Valid(s)
    ensures var (r, got) := Get(s, k, clock);
            && Valid(r) && r.config == s.config && r.cache.Keys == s.cache.Keys && s.ticks <= r.ticks
            && (forall x :: x in s.cache ==> r.cache[x].data == s.cache[x].data)
            && got == (if k in s.cache then Some(s.cache[k].data) else None)
  {
    hide Valid, HeatOf, ToFront;
    var r := Get(s, k, clock).0;
    if k in s.cache {
      var e := r.cache[k];
      TouchValid(s, k, e);
      ValidFrame(s.(order := ToFront(s.order, k), cache := s.cache[k := e],
                    size := s.size - |s.cache[k].data| + |e.data|), r);
    } else {
      ValidFrame(s, r);
    }
  }

  lemma GetSorted(s: Lru, k: Key, clock: Clock)
    requires Valid(s) && Sorted(s, clock) && Monotone(clock)
    ensures Sorted(Get(s, k, clock).0, clock)
  {
    hide Valid, HeatOf, ToFront, SortedAt;
    if k in s.cache {
      TouchSorted(s, k, Get(s, k, clock).0.cache[k], clock);
    }
  }

  // ------------------------------------------------------------ runs

  datatype Op =
    | OpGet(k: Key)
    | OpPut(k: Key, data: Bytes)
    | OpRemove(k: Key)
    | OpClear
    | OpMaybeEvict
    | OpEvictToTarget
    | OpMetadata(k: Key, replicas: nat, heat: Heat)
    | OpStats
    | OpThresholds(hotAt: nat, warmAt: nat)

  ghost predicate Legal(op: Op) {
    op.OpPut? ==> op.k != ""
  }

  ghost function Apply(s: Lru, op: Op, clock: Clock): Lru
    requires Valid(s) && Legal(op)
  {
    match op
    case OpGet(k) => Get(s, k, clock).0
    case OpPut(k, data) => Put(s, k, data, clock).0
    case OpRemove(k) => Remove(s, k).0
    case OpClear => Clear(s)
    case OpMaybeEvict => MaybeEvict(s, clock)
    case OpEvictToTarget => EvictToTarget(s, clock)
    case OpMetadata(k, replicas, heat) => UpdateMetadata(s, k, replicas, heat)
    case OpStats => RefreshHeat(s, clock)
    case OpThresholds(h, w) => s.(hotAt := h, warmAt := w)
  }

  lemma ApplyKeeps(s: Lru, op: Op, clock: Clock)
    requires Valid(s) && Legal(op)
    ensures Valid(Apply(s, op, clock))
  {
    var r := Apply(s, op, clock);
    match op {
      case OpGet(k) => GetFacts(s, k, clock);
      case OpPut(k, data) => PutFacts(s, k, data, clock);
      case OpRemove(k) => RemoveKeeps(s, k);
      case OpMaybeEvict | OpEvictToTarget => EvictDownFacts(s, 3 * s.config.capacity, clock);
      case OpMetadata(_, _, _) | OpStats => TotalFrame(s.order, s.cache, r.cache);
      case OpClear | OpThresholds(_, _) =>
    }
  }

  lemma ApplySorted(s: Lru, op: Op, clock: Clock)
    requires Valid(s) && Legal(op) && Sorted(s, clock) && Monotone(clock)
    ensures Sorted(Apply(s, op, clock), clock)
  {
    match op {
      case OpGet(k) => GetSorted(s, k, clock);
      case OpPut(k, data) => PutSorted(s, k, data, clock);
      case OpRemove(k) => RemoveSorted(s, k, clock);
      case OpMaybeEvict | OpEvictToTarget => EvictDownSorted(s, 3 * s.config.capacity, clock);
      case OpStats => assert clock(s.ticks) <= clock(s.ticks + 1);
      case OpClear | OpMetadata(_, _, _) | OpThresholds(_, _) =>
    }
  }

  /** The states a run of operations passes through, last state last. */
  ghost function Run(s: Lru, ops: seq<Op>, clock: Clock): (r: Lru)
    requires Valid(s) && forall i :: 0 <= i < |ops| ==> Legal(ops[i])
    ensures Valid(r)
    decreases |ops|
  {
    if ops == [] then s
    else
      ApplyKeeps(s, ops[0], clock);
      Run(Apply(s, ops[0], clock), ops[1..], clock)
  }

  /** Over every run with nonempty keys: list and map hold the same keys once
      each, the size counter is the sum of the entry sizes, items count live
      entries plus evictions, and the list stays sorted by last access. */
  lemma {:induction false} RunInvariant(s: Lru, ops: seq<Op>, clock: Clock)
    requires Valid(s) && Sorted(s, clock) && Monotone(clock)
    requires forall i :: 0 <= i < |ops| ==> Legal(ops[i])
    ensures var r := Run(s, ops, clock);
            && Elements(r.order) == r.cache.Keys && NoDup(r.order)
            && r.size == Total(r.order, r.cache)
            && r.stats.totalItems == |r.cache| + r.stats.evictions
            && Sorted(r, clock)
    decreases |ops|
  {
    if ops == [] {
      NoDupCardinality(s.order);
      assert Elements(s.order) == s.cache.Keys;
    } else {
      ApplyKeeps(s, ops[0], clock);
      ApplySorted(s, ops[0], clock);
      RunInvariant(Apply(s, ops[0], clock), ops[1..], clock);
    }
  }

  lemma NewIsValid(config: Config, hotAt: nat, warmAt: nat, clock: Clock)
    ensures Valid(New(config, hotAt, warmAt, 0)) && Sorted(New(config, hotAt, warmAt, 0), clock)
  {
  }

  /** So over every run of a new cache. */
  lemma EveryRun(config: Config, hotAt: nat, warmAt: nat, ops: seq<Op>, clock: Clock)
    requires Monotone(clock) && forall i :: 0 <= i < |ops| ==> Legal(ops[i])
    ensures Valid(New(config, hotAt, warmAt, 0))
    ensures var r := Run(New(config, hotAt, warmAt, 0), ops, clock);
            && Elements(r.order) == r.cache.Keys && NoDup(r.order)
            && r.size == Total(r.order, r.cache)
            && r.stats.totalItems == |r.cache| + r.stats.evictions
            && Sorted(r, clock)
  {
    NewIsValid(config, hotAt, warmAt, clock);
    RunInvariant(New(config, hotAt, warmAt, 0), ops, clock);
  }

  /** A run that ends above capacity: two puts fill the cache to 80%, and replacing
      the first value by one of the full capacity evicts nothing. */
  lemma ReplacementOverfills(config: Config, hotAt: nat, warmAt: nat, clock: Clock, a: Bytes, b: Bytes, c: Bytes)
    requires config.capacity == 100 && |a| == 50 && |b| == 30 && |c| == 100
    ensures var ops := [OpPut("a", a), OpPut("b", b), OpPut("a", c)];
            && Valid(New(config, hotAt, warmAt, 0)) && (forall i :: 0 <= i < |ops| ==> Legal(ops[i]))
            && Run(New(config, hotAt, warmAt, 0), ops, clock).size == 130
  {
    NewIsValid(config, hotAt, warmAt, clock);
    hide Valid, Put, Run, HeatOf, Sub64, Sorted;
    var s0 := New(config, hotAt, warmAt, 0);
    var ops := [OpPut("a", a), OpPut("b", b), OpPut("a", c)];
    var s1 := Insert(s0, "a", a, clock);
    var s2 := Insert(s1, "b", b, clock);
    RoomyPut(s0, "a", a, clock);
    RoomyPut(s1, "b", b, clock);
    PutFacts(s2, "a", c, clock);
    ThreePuts(s0, ops, clock);
  }

  /** A new key that leaves the cache at or below 80% is simply inserted. */
  lemma RoomyPut(s: Lru, k: Key, data: Bytes, clock: Clock)
    requires Valid(s) && k != "" && k !in s.cache && 5 * (s.size + |data|) <= 4 * s.config.capacity && |data| <= s.config.capacity
    ensures Valid(Insert(s, k, data, clock)) && Put(s, k, data, clock) == (Insert(s, k, data, clock), true)
  {
    InsertValid(s, k, data, clock);
    hide Valid;
    assert MakeRoom(s, |data|, clock) == s;
  }

  lemma ThreePuts(s: Lru, ops: seq<Op>, clock: Clock)
    requires Valid(s) && |ops| == 3 && forall i :: 0 <= i < |ops| ==> Legal(ops[i])
    ensures var s1 := Apply(s, ops[0], clock);
            && Valid(s1)
            && var s2 := Apply(s1, ops[1], clock);
            && Valid(s2) && Run(s, ops, clock) == Apply(s2, ops[2], clock)
  {
    hide Valid, Apply;
    ApplyKeeps(s, ops[0], clock);
    var s1 := Apply(s, ops[0], clock);
    ApplyKeeps(s1, ops[1], clock);
    var s2 := Apply(s1, ops[1], clock);
    ApplyKeeps(s2, ops[2], clock);
    assert ops[1..][1..] == ops[2..] && ops[2..][1..] == [];
    assert Run(s2, ops[2..], clock) == Apply(s2, ops[2], clock);
    assert Run(s1, ops[1..], clock) == Run(s2, ops[2..], clock);
  }

  // ------------------------------------------------------- fresh-put survival

  lemma {:induction false} EntryWithinTotal(order: seq<Key>, cache: map<Key, Entry>, k: Key)
    requires Indexed(order, cache) && k in order
    ensures |cache[k].data| <= Total(order, cache)
  {
    if order[0] != k {
      EntryWithinTotal(order[1..], cache, k);
    }
  }

  /** A protected entry at the front outlives an eviction loop whose bound it fits. */
  lemma {:induction false} KeepsFront(s: Lru, bound: int, k: Key, clock: Clock)
    requires Valid(s) && s.order != [] && s.order[0] == k && 5 * |s.cache[k].data| <= bound
    requires forall i: nat :: s.ticks <= i < EvictDown(s, bound, clock).ticks ==>
                                s.cache[k].lastAccess <= clock(i) < s.cache[k].lastAccess + PROTECTION
    ensures var r := EvictDown(s, bound, clock); k in r.cache && r.cache[k] == s.cache[k]
    decreases |s.order|
  {
    if 5 * s.size > bound {
      var v := EvictOneFacts(s, clock);
      var r := EvictOne(s, clock);
      EvictDownFacts(r, bound, clock);
      assert !Candidate(s, clock(s.ticks), 0);
      assert s.size == |s.cache[k].data| + Total(s.order[1..], s.cache);
      assert |s.order| > 1 && v > 0;
      assert r.order[0] == k && k in r.order;
      KeepsFront(r, bound, k, clock);
    }
  }

  /** A protected entry at the front is evicted last: when it goes, nothing is left. */
  lemma {:induction false} FrontGoesLast(s: Lru, bound: int, k: Key, clock: Clock)
    requires Valid(s) && s.order != [] && s.order[0] == k
    requires forall i: nat :: s.ticks <= i < EvictDown(s, bound, clock).ticks ==>
                                s.cache[k].lastAccess <= clock(i) < s.cache[k].lastAccess + PROTECTION
    ensures var r := EvictDown(s, bound, clock); k in r.cache || r.order == []
    decreases |s.order|
  {
    if 5 * s.size > bound {
      var v := EvictOneFacts(s, clock);
      var r := EvictOne(s, clock);
      EvictDownFacts(r, bound, clock);
      assert !Candidate(s, clock(s.ticks), 0);
      if |s.order| > 1 {
        assert v > 0;
        assert r.order[0] == k && k in r.order;
        FrontGoesLast(r, bound, k, clock);
      }
    }
  }

  /** The clock reads of one call span less than the protection period. */
  ghost predicate Brief(clock: Clock, from: nat, to: nat) {
    forall i: nat, j: nat :: from <= i <= j < to ==> clock(i) <= clock(j) < clock(i) + PROTECTION
  }

  /** A put of a new key survives its own eviction pass exactly when it is at
      most 60% of capacity or the insertion did not take the cache above 80%. */
  lemma FreshPutSurvives(s: Lru, k: Key, data: Bytes, clock: Clock)
    requires Valid(s) && k != "" && k !in s.cache && |data| <= s.config.capacity
    requires Brief(clock, s.ticks, Put(s, k, data, clock).0.ticks)
    ensures var r := Put(s, k, data, clock).0;
            var room := MakeRoom(s, |data|, clock);
            (k in r.cache <==>
             5 * |data| <= 3 * s.config.capacity || 5 * (room.size + |data|) <= 4 * s.config.capacity)
    ensures var r := Put(s, k, data, clock).0; k in r.cache ==> r.cache[k].data == data
  {
    var cap := s.config.capacity;
    var room, full := PutFresh(s, k, data, clock);
    var r := MaybeEvict(full, clock);
    if 5 * full.size > 4 * cap {
      EvictDownFacts(full, 3 * cap, clock);
      if 5 * |data| <= 3 * cap {
        KeepsFront(full, 3 * cap, k, clock);
      } else if k in r.cache {
        EntryWithinTotal(r.order, r.cache, k);
      }
    }
  }

  /** A new key that does not survive its own put leaves the cache empty. */
  lemma LostPutEmpties(s: Lru, k: Key, data: Bytes, clock: Clock)
    requires Valid(s) && k != "" && k !in s.cache && |data| <= s.config.capacity
    requires Brief(clock, s.ticks, Put(s, k, data, clock).0.ticks)
    ensures var r := Put(s, k, data, clock).0; k in r.cache || (r.order == [] && r.size == 0)
  {
    var room, full := PutFresh(s, k, data, clock);
    var r := MaybeEvict(full, clock);
    if 5 * full.size > 4 * s.config.capacity {
      FrontGoesLast(full, 3 * s.config.capacity, k, clock);
      EvictDownFacts(full, 3 * s.config.capacity, clock);
      if r.order == [] {
        EmptyHasNoSize(r);
      }
    }
  }

  // ------------------------------------------------------------ exact LRU

  lemma ScaleMonotone(w: real, a: real, b: real)
    requires w >= 0.0 && a <= b
    ensures w * a <= w * b
  {
  }

  ghost predicate PureTime(c: Config) {
    c.wTime >= 0.0 && c.wReplica == 0.0 && c.wHeat == 0.0
  }

  lemma TimeScore(e: Entry, now: nat, c: Config)
    requires PureTime(c) && e.lastAccess <= now
    ensures Score(e, now, c) == c.wTime * ((now - e.lastAccess) as real) >= 0.0
  {
    ScaleMonotone(c.wTime, 0.0, (now - e.lastAccess) as real);
  }

  /** With only a non-negative time weight the victim is the least recently used entry. */
  lemma TimeOnlyPicksTail(s: Lru, clock: Clock)
    requires Valid(s) && Sorted(s, clock) && PureTime(s.config) && s.order != []
    ensures IsVictim(s, clock(s.ticks), |s.order| - 1)
    ensures SelectTarget(s, clock(s.ticks)) == s.order[|s.order| - 1]
  {
    var now, t := clock(s.ticks), |s.order| - 1;
    var last := s.cache[s.order[t]];
    TimeScore(last, now, s.config);
    forall i | Candidate(s, now, i)
      ensures Candidate(s, now, t) && ScoreAt(s, now, i) <= ScoreAt(s, now, t)
    {
      var e := s.cache[s.order[i]];
      assert last.lastAccess <= e.lastAccess;
      TimeScore(e, now, s.config);
      ScaleMonotone(s.config.wTime, (now - e.lastAccess) as real, (now - last.lastAccess) as real);
    }
    assert Candidate(s, now, t) ==> Best(s, now, 0, t);
    assert !Candidate(s, now, t) ==> Best(s, now, 0, |s.order|);
    var v := SelectIsVictim(s, now);
  }

  lemma VictimIsUnique(s: Lru, now: nat, v: nat, w: nat)
    requires Valid(s) && IsVictim(s, now, v) && IsVictim(s, now, w)
    ensures v == w
  {
    var u := SelectIsVictim(s, now);
  }

  lemma TimeOnlyStep(s: Lru, clock: Clock)
    requires Valid(s) && Sorted(s, clock) && Monotone(clock) && PureTime(s.config) && s.order != []
    ensures var r := EvictOne(s, clock);
            && Valid(r) && Sorted(r, clock) && r.config == s.config
            && r.order == s.order[..|s.order| - 1]
            && (forall k :: k in r.cache ==> k in s.cache && r.cache[k] == s.cache[k])
  {
    TimeOnlyPicksTail(s, clock);
    var v := EvictOneFacts(s, clock);
    var r := EvictOne(s, clock);
    VictimIsUnique(s, clock(s.ticks), v, |s.order| - 1);
    assert r.order == s.order[..v];
    SortedDrop(s.order, s.cache, v, clock(s.ticks), r.cache, clock(r.ticks));
  }

  ghost function PrefixTotal(s: Lru, n: nat): nat
    requires Valid(s) && n <= |s.order|
  {
    assert forall k :: k in s.order[..n] ==> k in s.order;
    Total(s.order[..n], s.cache)
  }

  /** The first `m` keys are the longest prefix of the list that fits the bound. */
  ghost predicate LongestFit(s: Lru, bound: int, m: nat)
    requires Valid(s)
  {
    && m <= |s.order|
    && (m == 0 || 5 * PrefixTotal(s, m) <= bound)
    && forall n :: m < n <= |s.order| ==> 5 * PrefixTotal(s, n) > bound
  }

  lemma PrefixTotalFrame(s: Lru, r: Lru, n: nat)
    requires Valid(s) && Valid(r) && n <= |r.order| <= |s.order| && r.order == s.order[..|r.order|]
    requires forall k :: k in r.cache ==> k in s.cache && r.cache[k] == s.cache[k]
    ensures PrefixTotal(r, n) == PrefixTotal(s, n)
  {
    assert r.order[..n] == s.order[..n];
    assert forall k :: k in r.order[..n] ==> k in r.order;
    TotalFrame(s.order[..n], s.cache, r.cache);
  }

  lemma WholePrefix(s: Lru)
    requires Valid(s)
    ensures PrefixTotal(s, |s.order|) == s.size
  {
    assert s.order[..|s.order|] == s.order;
  }

  lemma LongestFitExtends(s: Lru, r: Lru, bound: int, m: nat)
    requires Valid(s) && Valid(r) && s.order != [] && r.order == s.order[..|s.order| - 1]
    requires forall k :: k in r.cache ==> k in s.cache && r.cache[k] == s.cache[k]
    requires LongestFit(r, bound, m) && 5 * s.size > bound
    ensures LongestFit(s, bound, m)
  {
    hide Valid, PrefixTotal;
    WholePrefix(s);
    forall n: nat | n <= |r.order|
      ensures PrefixTotal(r, n) == PrefixTotal(s, n)
    {
      PrefixTotalFrame(s, r, n);
    }
  }

  /** An eviction loop then is plain LRU: it keeps the longest prefix of the
      list whose sizes fit the bound. */
  lemma {:induction false} TimeOnlyIsLru(s: Lru, bound: int, clock: Clock) returns (m: nat)
    requires Valid(s) && Sorted(s, clock) && Monotone(clock) && PureTime(s.config)
    ensures LongestFit(s, bound, m)
    ensures EvictDown(s, bound, clock).order == s.order[..m]
    decreases |s.order|
  {
    if 5 * s.size > bound && s.order != [] {
      var r := EvictOne(s, clock);
      TimeOnlyStep(s, clock);
      m := TimeOnlyIsLru(r, bound, clock);
      LongestFitExtends(s, r, bound, m);
    } else {
      m := |s.order|;
      assert s.order[..m] == s.order;
    }
  }

  // ------------------------------------------------------------ the empty key

  /** An eviction step of any list of distinct keys stalls exactly when the tail is
      the empty key and the tail is the victim; otherwise it drops one key.  An empty
      key chosen elsewhere makes the code fall back to the tail. */
  lemma EvictStallsIff(s: Lru, clock: Clock)
    requires s.order != [] && NoDup(s.order)
    ensures var last := |s.order| - 1;
            if s.order[last] == "" && IsVictim(s, clock(s.ticks), last) then EvictOne(s, clock) == s.(ticks := s.ticks + 1)
            else |EvictOne(s, clock).order| == last
  {
    var now, last := clock(s.ticks), |s.order| - 1;
    var r := ScanFindsBest(s, now, 0, |s.order|);
    hide Scan, Score, Protected;
    if s.order[last] == "" && IsVictim(s, now, last) {
      assert r == last || r == |s.order|;
    } else {
      var k := SelectTarget(s, now);
      assert k in s.order;
      if k == "" {
        assert s.order[last] == "" && (r == |s.order| || s.order[r] == "");
      }
    }
  }

  /** A list of the empty key alone always stalls, so its eviction loop never ends. */
  lemma EmptyKeyStalls(s: Lru, clock: Clock)
    requires s.order == [""]
    ensures EvictOne(s, clock) == s.(ticks := s.ticks + 1)
  {
    EvictStallsIff(s, clock);
    EmptyTailWins(s, clock(s.ticks));
  }

  lemma EmptyTailWins(s: Lru, now: nat)
    requires |s.order| == 1
    ensures IsVictim(s, now, 0)
  {
    assert Candidate(s, now, 0) ==> Best(s, now, 0, 0);
    assert !Candidate(s, now, 0) ==> Best(s, now, 0, 1);
  }
}

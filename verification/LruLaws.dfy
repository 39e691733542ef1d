/** What the operations of the LRU cache of src/cache/lru_cache.cpp do, said without
    their own helpers: which evictions a put performs and which it does not, what a
    hit and a removal leave behind, and what the weights prefer. */
module LruLaws {
  import opened Base
  import opened LruSpec
  import opened LruOps

  // ----------------------------------------------------- evictions, one by one

  /** A chain of single evictions. */
  ghost predicate Chain(p: seq<Lru>, clock: Clock) {
    && p != []
    && forall i :: 0 <= i < |p| - 1 ==> Valid(p[i]) && p[i].order != [] && p[i + 1] == EvictOne(p[i], clock)
  }

  ghost function Last(p: seq<Lru>): Lru
    requires p != []
  {
    p[|p| - 1]
  }

  lemma ChainCons(s: Lru, rest: seq<Lru>, clock: Clock)
    requires Valid(s) && s.order != [] && Chain(rest, clock) && rest[0] == EvictOne(s, clock)
    ensures Chain([s] + rest, clock) && Last([s] + rest) == Last(rest)
  {
    var p := [s] + rest;
    hide Valid, EvictOne;
    forall i | 0 <= i < |p| - 1
      ensures Valid(p[i]) && p[i].order != [] && p[i + 1] == EvictOne(p[i], clock)
    {
      assert i > 0 ==> p[i] == rest[i - 1] && p[i + 1] == rest[i];
    }
  }

  lemma EvictDownStep(s: Lru, bound: int, clock: Clock)
    requires Valid(s)
    ensures if 5 * s.size > bound && s.order != [] then
              Valid(EvictOne(s, clock)) && |EvictOne(s, clock).order| < |s.order| &&
              EvictDown(s, bound, clock) == EvictDown(EvictOne(s, clock), bound, clock)
            else EvictDown(s, bound, clock) == s
  {
    if s.order != [] {
      EvictOneShrinks(s, clock);
    }
    hide Valid, EvictOne;
  }

  /** An eviction loop evicts only while above its bound, and stops as soon as it is
      not. */
  lemma {:induction false} EvictsWhileAbove(s: Lru, bound: int, clock: Clock) returns (p: seq<Lru>)
    requires Valid(s)
    ensures Chain(p, clock) && p[0] == s && Last(p) == EvictDown(s, bound, clock)
    ensures forall i :: 0 <= i < |p| - 1 ==> 5 * p[i].size > bound
    ensures 5 * Last(p).size <= bound || Last(p).order == []
    decreases |s.order|
  {
    hide Valid, EvictOne, EvictDown, Chain;
    EvictDownStep(s, bound, clock);
    if 5 * s.size > bound && s.order != [] {
      var rest := EvictsWhileAbove(EvictOne(s, clock), bound, clock);
      NonemptyChain(rest, clock);
      ChainCons(s, rest, clock);
      p := [s] + rest;
      assert forall i :: 0 < i < |p| ==> p[i] == rest[i - 1];
    } else {
      p := [s];
      Alone(s, clock);
    }
  }

  lemma NonemptyChain(p: seq<Lru>, clock: Clock)
    requires Chain(p, clock)
    ensures p != []
  {
  }

  /** A put of a new key.  First single evictions, each from a state with no room for
      the data, until it fits or nothing is left; then the insertion at the front;
      then, only above 80% of capacity, single evictions, each from a state above
      60%. */
  lemma PutEvictsOnlyWhatItMust(s: Lru, k: Key, data: Bytes, clock: Clock) returns (a: seq<Lru>, b: seq<Lru>)
    requires Valid(s) && k != "" && k !in s.cache && |data| <= s.config.capacity
    ensures Chain(a, clock) && a[0] == s
    ensures forall i :: 0 <= i < |a| - 1 ==> a[i].size + |data| > s.config.capacity
    ensures Last(a).size + |data| <= s.config.capacity || Last(a).order == []
    ensures Chain(b, clock) && b[0].order == [k] + Last(a).order && k in b[0].cache
    ensures b[0].cache == Last(a).cache[k := b[0].cache[k]] && b[0].cache[k].data == data
    ensures b[0].size == Last(a).size + |data| && Put(s, k, data, clock).0 == Last(b)
    ensures if 5 * b[0].size <= 4 * s.config.capacity then |b| == 1
            else (forall i :: 0 <= i < |b| - 1 ==> 5 * b[i].size > 3 * s.config.capacity) &&
                 (5 * Last(b).size <= 3 * s.config.capacity || Last(b).order == [])
  {
    hide Valid, EvictOne, EvictDown, Chain, Insert, Put, Shrinks;
    var room, full := PutFresh(s, k, data, clock);
    a := EvictsWhileAbove(s, 5 * (s.config.capacity - |data|), clock);
    NonemptyChain(a, clock);
    assert Last(a) == room;
    if 5 * full.size > 4 * s.config.capacity {
      b := EvictsWhileAbove(full, 3 * s.config.capacity, clock);
      NonemptyChain(b, clock);
    } else {
      b := [full];
      Alone(full, clock);
    }
  }

  /** Forced eviction works down to 60%; the check after a put does so only above 80%. */
  lemma ForcedEvictions(s: Lru, clock: Clock) returns (a: seq<Lru>, b: seq<Lru>)
    requires Valid(s)
    ensures Chain(a, clock) && a[0] == s && Last(a) == EvictToTarget(s, clock)
    ensures (forall i :: 0 <= i < |a| - 1 ==> 5 * a[i].size > 3 * s.config.capacity)
            && (5 * Last(a).size <= 3 * s.config.capacity || Last(a).order == [])
    ensures Chain(b, clock) && b[0] == s && Last(b) == MaybeEvict(s, clock)
    ensures if 5 * s.size <= 4 * s.config.capacity then |b| == 1
            else (forall i :: 0 <= i < |b| - 1 ==> 5 * b[i].size > 3 * s.config.capacity)
                 && (5 * Last(b).size <= 3 * s.config.capacity || Last(b).order == [])
  {
    hide Valid, EvictOne, EvictDown, Chain;
    a := EvictsWhileAbove(s, 3 * s.config.capacity, clock);
    NonemptyChain(a, clock);
    Alone(s, clock);
    b := if 5 * s.size > 4 * s.config.capacity then a else [s];
  }

  lemma Alone(s: Lru, clock: Clock)
    ensures Chain([s], clock)
  {
  }

  /** A put that fits evicts nothing on the way in. */
  lemma FittingPutKeepsAll(s: Lru, k: Key, data: Bytes, clock: Clock)
    requires Valid(s) && k != "" && k !in s.cache && 5 * (s.size + |data|) <= 4 * s.config.capacity
    ensures var r := Put(s, k, data, clock).0;
            && r.order == [k] + s.order && r.cache.Keys == s.cache.Keys + {k} && (forall x :: x in s.cache ==> r.cache[x] == s.cache[x])
            && r.stats == s.stats.(totalItems := s.stats.totalItems + 1, totalBytes := (s.stats.totalBytes + |data|) % TWO64)
  {
    SizeNonNegative(s);
    RoomyPut(s, k, data, clock);
    hide Valid, Put;
  }

  lemma SizeNonNegative(s: Lru)
    requires Valid(s)
    ensures s.size >= 0
  {
  }

  lemma FitBound(s: Lru, bound: int, m: nat)
    requires Valid(s) && LongestFit(s, bound, m)
    ensures m <= |s.order|
  {
  }

  /** With the time weight alone a put of a new key keeps that key followed by the
      longest prefix of the list that leaves room for it, when that is at most 80%. */
  lemma TimeOnlyPut(s: Lru, k: Key, data: Bytes, clock: Clock) returns (m: nat)
    requires Valid(s) && Sorted(s, clock) && Monotone(clock) && PureTime(s.config)
    requires k != "" && k !in s.cache && |data| <= s.config.capacity
    ensures LongestFit(s, 5 * (s.config.capacity - |data|), m)
    ensures 5 * (PrefixTotal(s, m) + |data|) <= 4 * s.config.capacity ==> Put(s, k, data, clock).0.order == [k] + s.order[..m]
  {
    hide Valid, EvictDown, Put, PrefixTotal, Insert, LongestFit, Sorted, PureTime, Monotone;
    var room, full := PutFresh(s, k, data, clock);
    var bound := 5 * (s.config.capacity - |data|);
    m := TimeOnlyIsLru(s, bound, clock);
    FitBound(s, bound, m);
    assert room == EvictDown(s, bound, clock) && |room.order| == m;
    PrefixTotalFrame(s, room, m);
    WholePrefix(room);
  }

  // ------------------------------------------------------ hits, replacements, removals

  /** `t` is `s` with the key at `i` moved to the front. */
  ghost predicate MovedToFront(s: seq<Key>, i: nat, t: seq<Key>) {
    i < |s| && t == [s[i]] + (s[..i] + s[i + 1..])
  }

  lemma ToFrontMoves(s: seq<Key>, k: Key)
    requires k in s
    ensures exists i: nat :: i < |s| && s[i] == k && MovedToFront(s, i, ToFront(s, k))
  {
    var i := IndexOf(s, k);
    assert MovedToFront(s, i, ToFront(s, k));
  }

  /** A hit moves the key to the front with the time of the read and one access more;
      a miss only counts. */
  lemma GetTouches(s: Lru, k: Key, clock: Clock)
    requires Valid(s)
    ensures var r := Get(s, k, clock).0;
            if k in s.cache then
              && (exists i: nat :: i < |s.order| && s.order[i] == k && MovedToFront(s.order, i, r.order))
              && k in r.cache && r.cache == s.cache[k := r.cache[k]]
              && r.cache[k].lastAccess == clock(s.ticks) && r.cache[k].accessCount == s.cache[k].accessCount + 1
              && r.cache[k].replicas == s.cache[k].replicas && r.stats == s.stats.(hits := s.stats.hits + 1)
            else r == s.(stats := s.stats.(misses := s.stats.misses + 1))
  {
    if k in s.cache {
      ToFrontMoves(s.order, k);
      hide ToFront, Valid, MovedToFront, HeatOf;
    }
  }

  /** Replacing moves the key to the front with the new data, the time of the write
      and fresh counters, and touches nothing else. */
  lemma ReplaceTouches(s: Lru, k: Key, data: Bytes, clock: Clock)
    requires Valid(s) && k != "" && k in s.cache && |data| <= s.config.capacity
    ensures var r := Put(s, k, data, clock).0;
            && (exists i: nat :: i < |s.order| && s.order[i] == k && MovedToFront(s.order, i, r.order))
            && k in r.cache && r.cache == s.cache[k := r.cache[k]]
            && r.cache[k].data == data && r.cache[k].lastAccess == clock(s.ticks) && r.cache[k].accessCount == 0
            && r.stats == s.stats
  {
    ToFrontMoves(s.order, k);
    hide ToFront, Valid, MovedToFront, HeatOf, EvictDown;
  }

  /** A removal takes exactly the key out of list and map, and says whether it was
      there. */
  lemma RemoveDrops(s: Lru, k: Key)
    requires Valid(s)
    ensures var (r, ok) := Remove(s, k);
            && (ok <==> k in s.cache) && r.cache == s.cache - {k}
            && (!ok ==> r == s)
            && (ok ==> r.size == s.size - |s.cache[k].data|
                       && r.stats == s.stats.(totalItems := s.stats.totalItems - 1,
                                              totalBytes := (s.stats.totalBytes - |s.cache[k].data|) % TWO64))
            && (ok ==> exists i: nat :: i < |s.order| && s.order[i] == k && r.order == s.order[..i] + s.order[i + 1..])
  {
    if k in s.cache {
      var i := IndexOf(s.order, k);
      assert Remove(s, k).0.order == s.order[..i] + s.order[i + 1..];
    } else {
      assert s.cache - {k} == s.cache;
    }
  }

  /** Metadata reaches one entry, if it is cached, and only its two fields. */
  lemma MetadataIs(s: Lru, k: Key, replicas: nat, heat: Heat, x: Key)
    ensures var r := UpdateMetadata(s, k, replicas, heat);
            && r.order == s.order && r.cache.Keys == s.cache.Keys && r.size == s.size && r.stats == s.stats
            && (x in s.cache ==> r.cache[x] == if x == k then s.cache[x].(replicas := replicas, heat := heat) else s.cache[x])
  {
  }

  // ------------------------------------------------------------ what weights prefer

  /** Among the last 32 of the list. */
  ghost predicate Sampled(s: Lru, i: int) {
    0 <= i < |s.order| && |s.order| - 32 <= i
  }

  /** Not accessed for a minute. */
  ghost predicate Idle(s: Lru, now: nat, i: int)
    requires Valid(s) && 0 <= i < |s.order|
  {
    s.order[i] in s.cache && s.cache[s.order[i]].lastAccess + 60 <= now
  }

  ghost predicate NoneFromFuture(s: Lru, now: nat) {
    forall k :: k in s.cache ==> s.cache[k].lastAccess <= now
  }

  /** The weighted sum comes down to a multiple of a rank. */
  ghost predicate ScoresBy(s: Lru, now: nat, w: real, rank: Entry -> nat) {
    w > 0.0 && forall k :: k in s.cache ==> Score(s.cache[k], now, s.config) == w * (rank(s.cache[k]) as real)
  }

  lemma CandidatesAreIdle(s: Lru, now: nat, i: int)
    requires Valid(s) && NoneFromFuture(s, now) && 0 <= i < |s.order|
    ensures Candidate(s, now, i) <==> Sampled(s, i) && Idle(s, now, i) && Score(s.cache[s.order[i]], now, s.config) > -1.0
  {
    assert s.order[i] in s.order;
    hide Score;
  }

  lemma RankOrder(w: real, a: nat, b: nat)
    requires w > 0.0
    ensures w * (a as real) <= w * (b as real) <==> a <= b
    ensures w * (a as real) == w * (b as real) <==> a == b
    ensures w * (a as real) > -1.0
  {
    if a < b {
      assert w * ((b - a) as real) > 0.0;
      assert w * (b as real) == w * (a as real) + w * ((b - a) as real);
    } else if b < a {
      assert w * ((a - b) as real) > 0.0;
      assert w * (a as real) == w * (b as real) + w * ((a - b) as real);
    }
    assert w * (a as real) >= 0.0;
  }

  /** The victim is the idle sampled entry of the highest rank, the least recent of
      equals; without an idle sampled entry it is the tail. */
  ghost predicate HighestIdle(s: Lru, now: nat, rank: Entry -> nat, v: int)
    requires Valid(s)
  {
    && 0 <= v < |s.order|
    && if exists i :: Sampled(s, i) && Idle(s, now, i) then
         Sampled(s, v) && Idle(s, now, v) &&
         forall i :: Sampled(s, i) && Idle(s, now, i) ==>
           rank(s.cache[s.order[i]]) <= rank(s.cache[s.order[v]]) &&
           (rank(s.cache[s.order[i]]) == rank(s.cache[s.order[v]]) ==> i <= v)
       else v == |s.order| - 1
  }

  lemma CandidateByRank(s: Lru, now: nat, w: real, rank: Entry -> nat, i: int)
    requires Valid(s) && NoneFromFuture(s, now) && ScoresBy(s, now, w, rank) && 0 <= i < |s.order|
    ensures s.order[i] in s.cache && (Candidate(s, now, i) <==> Sampled(s, i) && Idle(s, now, i))
    ensures Candidate(s, now, i) ==> ScoreAt(s, now, i) == w * (rank(s.cache[s.order[i]]) as real)
  {
    assert s.order[i] in s.order;
    CandidatesAreIdle(s, now, i);
    RankOrder(w, rank(s.cache[s.order[i]]), 0);
    hide Score, Protected, Sampled;
  }

  lemma CompareByRank(s: Lru, now: nat, w: real, rank: Entry -> nat, i: int, v: int)
    requires Valid(s) && NoneFromFuture(s, now) && ScoresBy(s, now, w, rank) && Candidate(s, now, i) && Candidate(s, now, v)
    ensures s.order[i] in s.cache && s.order[v] in s.cache
    ensures var a, b := rank(s.cache[s.order[i]]), rank(s.cache[s.order[v]]);
            && (ScoreAt(s, now, i) <= ScoreAt(s, now, v) <==> a <= b)
            && (ScoreAt(s, now, i) == ScoreAt(s, now, v) <==> a == b)
  {
    CandidateByRank(s, now, w, rank, i);
    CandidateByRank(s, now, w, rank, v);
    hide *;
    Compare(w, rank(s.cache[s.order[i]]), rank(s.cache[s.order[v]]), ScoreAt(s, now, i), ScoreAt(s, now, v));
  }

  lemma Compare(w: real, a: nat, b: nat, x: real, y: real)
    requires w > 0.0 && x == w * (a as real) && y == w * (b as real)
    ensures (x <= y <==> a <= b) && (x == y <==> a == b)
  {
    RankOrder(w, a, b);
  }

  lemma RankPicks(s: Lru, now: nat, w: real, rank: Entry -> nat) returns (v: nat)
    requires Valid(s) && s.order != [] && NoneFromFuture(s, now) && ScoresBy(s, now, w, rank)
    ensures HighestIdle(s, now, rank, v) && SelectTarget(s, now) == s.order[v]
  {
    hide Valid, SelectTarget, Candidate, ScoreAt, Idle, Sampled, ScoresBy, NoneFromFuture;
    v := SelectIsVictim(s, now);
    forall i | 0 <= i < |s.order|
      ensures s.order[i] in s.cache && (Candidate(s, now, i) <==> Sampled(s, i) && Idle(s, now, i))
    {
      CandidateByRank(s, now, w, rank, i);
    }
    forall i | 0 <= i < |s.order| && Candidate(s, now, i) && Candidate(s, now, v)
      ensures var a, b := rank(s.cache[s.order[i]]), rank(s.cache[s.order[v]]);
              (ScoreAt(s, now, i) <= ScoreAt(s, now, v) <==> a <= b) && (ScoreAt(s, now, i) == ScoreAt(s, now, v) <==> a == b)
    {
      CompareByRank(s, now, w, rank, i, v);
    }
    SampledInRange(s);
    if exists i :: Sampled(s, i) && Idle(s, now, i) {
      var i :| Sampled(s, i) && Idle(s, now, i);
      assert Candidate(s, now, i);
    }
  }

  lemma SampledInRange(s: Lru)
    ensures forall i :: Sampled(s, i) ==> 0 <= i < |s.order|
  {
  }

  /** With the replica weight alone the most replicated idle entry goes first. */
  lemma ReplicaOnlyPicks(s: Lru, now: nat) returns (v: nat)
    requires Valid(s) && s.order != [] && NoneFromFuture(s, now)
    requires s.config.wTime == 0.0 && s.config.wHeat == 0.0 && s.config.wReplica > 0.0
    ensures HighestIdle(s, now, (e: Entry) => e.replicas, v) && SelectTarget(s, now) == s.order[v]
  {
    v := RankPicks(s, now, s.config.wReplica, (e: Entry) => e.replicas);
  }

  function Degree(h: Heat): nat {
    match h case Cold => 0 case Warm => 1 case Hot => 2
  }

  /** With the heat weight alone the hottest idle entry goes first, as the sign of the
      source's sum has it. */
  lemma HeatOnlyPicks(s: Lru, now: nat) returns (v: nat)
    requires Valid(s) && s.order != [] && NoneFromFuture(s, now)
    requires s.config.wTime == 0.0 && s.config.wReplica == 0.0 && s.config.wHeat > 0.0
    ensures HighestIdle(s, now, (e: Entry) => Degree(e.heat), v) && SelectTarget(s, now) == s.order[v]
  {
    v := RankPicks(s, now, s.config.wHeat, (e: Entry) => Degree(e.heat));
  }

  lemma RateOrder(count: nat, elapsed: nat, level: nat)
    requires elapsed > 0
    ensures (count as real) / ((elapsed as real) / 3600.0) > level as real <==> count * 3600 > level * elapsed
    ensures (count as real) / ((elapsed as real) / 3600.0) >= level as real <==> count * 3600 >= level * elapsed
  {
    var hours := (elapsed as real) / 3600.0;
    var rate := (count as real) / hours;
    assert rate * hours == count as real;
    assert rate * (elapsed as real) == (count as real) * 3600.0 == (count * 3600) as real;
    assert ((level * elapsed) as real) == (level as real) * (elapsed as real);
    if rate > level as real {
      assert (rate - level as real) * (elapsed as real) > 0.0;
    } else {
      assert (level as real - rate) * (elapsed as real) >= 0.0;
    }
    if rate >= level as real {
      assert (rate - level as real) * (elapsed as real) >= 0.0;
    } else {
      assert (level as real - rate) * (elapsed as real) > 0.0;
    }
  }

  /** Heat is a matter of accesses per hour; no time at all counts as 36 seconds. */
  lemma HeatByRate(elapsed: nat, count: nat, hotAt: nat, warmAt: nat)
    ensures var rate := (count as real) / (if elapsed == 0 then 0.01 else (elapsed as real) / 3600.0);
            HeatOf(elapsed, count, hotAt, warmAt) ==
            if rate > hotAt as real then Hot else if rate >= warmAt as real then Warm else Cold
  {
    if elapsed > 0 {
      RateOrder(count, elapsed, hotAt);
      RateOrder(count, elapsed, warmAt);
    }
  }
}

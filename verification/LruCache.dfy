/** The cache object of src/cache/lru_cache.cpp, updated in place.  Every method
    is proved against the value-level operations of `LruOps`. */
module LruCacheImpl {
  import opened Base
  import opened LruSpec
  import Ops = LruOps

  class LruCache {
    const config: Config
    const clock: Clock
    var hotAt: nat
    var warmAt: nat
    var list: seq<Key>
    var listed: set<Key>
    var cache: map<Key, Entry>
    var size: int
    var stats: Stats
    var ticks: nat

    ghost function Abs(): Lru
      reads this
    {
      Lru(config, hotAt, warmAt, list, cache, size, stats, ticks)
    }

    ghost predicate Ok()
      reads this
    {
      listed == Elements(list) && Valid(Abs())
    }

    constructor (config: Config, clock: Clock, hotAt: nat, warmAt: nat)
      ensures Ok() && Abs() == Ops.New(config, hotAt, warmAt, 0) && this.clock == clock
    {
      this.config, this.clock := config, clock;
      this.hotAt, this.warmAt := hotAt, warmAt;
      list, listed := [], {};
      cache, size, stats, ticks := map[], 0, Stats(0, 0, 0, 0, 0), 0;
    }

    method CurrentTime() returns (now: nat)
      modifies this`ticks
      ensures now == clock(old(ticks)) && ticks == old(ticks) + 1
    {
      now := clock(ticks);
      ticks := ticks + 1;
    }

    /** Moves a listed key to the front. */
    method Touch(key: Key)
      requires listed == Elements(list) && NoDup(list)
      modifies this`list
      ensures list == ToFront(old(list), key) && listed == Elements(list)
    {
      if key in listed {
        WithoutFacts(list, key);
        list := [key] + Without(list, key);
      }
    }

    /** Removes a key from the list and from the map of list positions. */
    method Unlist(key: Key)
      requires listed == Elements(list) && NoDup(list)
      modifies this`list, this`listed
      ensures list == Without(old(list), key) && listed == Elements(list)
    {
      if key in listed {
        WithoutFacts(list, key);
        list, listed := Without(list, key), listed - {key};
      }
    }

    method SelectEvictionTarget() returns (target: Key)
      modifies this`ticks
      ensures target == SelectTarget(old(Abs()), clock(old(ticks)))
      ensures ticks == if list == [] then old(ticks) else old(ticks) + 1
    {
      if list == [] {
        return "";
      }
      ghost var s := Abs();
      var now := CurrentTime();
      var order := list;
      target := "";
      var best := -1.0;
      var sampled := 0;
      while sampled < |order| && sampled < SAMPLE
        invariant 0 <= sampled <= |order| && sampled <= SAMPLE
        invariant Scan(s, now, sampled, target, best) == Scan(s, now, 0, "", -1.0)
      {
        var key := order[|order| - 1 - sampled];
        if key in cache && !Protected(cache[key], now) && Score(cache[key], now, config) > best {
          best, target := Score(cache[key], now, config), key;
        }
        sampled := sampled + 1;
      }
      if target == "" {
        target := order[|order| - 1];
      }
    }

    /** `told` is what the eviction callback gets. */
    method EvictOne() returns (told: Option<(Key, Bytes)>)
      requires Ok()
      modifies this`ticks, this`list, this`listed, this`cache, this`size, this`stats
      ensures Ok() && Abs() == Ops.EvictOne(old(Abs()), clock)
      ensures told == None <==> old(list) == []
      ensures told.Some? ==> told.value.0 in old(cache) && cache == old(cache) - {told.value.0}
                             && told.value.1 == old(cache)[told.value.0].data
      ensures |list| < |old(list)| || old(list) == []
    {
      hide Valid, HeatOf, Without;
      if list == [] {
        return None;
      }
      ghost var s := Abs();
      ValidLists(s);
      Ops.EvictOneShrinks(s, clock);
      ghost var v := SelectIsVictim(s, clock(s.ticks));
      told := None;
      var key := SelectEvictionTarget();
      if key == "" {
        return;
      }
      Unlist(key);
      if key in cache {
        told := Some((key, cache[key].data));
        size := size - |cache[key].data|;
        cache := cache - {key};
        stats := stats.(evictions := stats.evictions + 1);
      }
      assert Abs() == Ops.EvictOne(s, clock);
    }

    method MaybeEvict()
      requires Ok()
      modifies this`ticks, this`list, this`listed, this`cache, this`size, this`stats
      ensures Ok() && Abs() == Ops.MaybeEvict(old(Abs()), clock)
    {
      if 5 * size > 4 * config.capacity {
        EvictToTarget();
      }
    }

    method EvictToTarget()
      requires Ok()
      modifies this`ticks, this`list, this`listed, this`cache, this`size, this`stats
      ensures Ok() && Abs() == Ops.EvictToTarget(old(Abs()), clock)
    {
      while 5 * size > 3 * config.capacity && list != []
        invariant Ok()
        invariant Ops.EvictDown(Abs(), 3 * config.capacity, clock) == Ops.EvictDown(old(Abs()), 3 * config.capacity, clock)
        decreases |list|
      {
        var _ := EvictOne();
      }
    }

    /** The eviction loop at the head of `put`. */
    method MakeRoom(n: nat)
      requires Ok()
      modifies this`ticks, this`list, this`listed, this`cache, this`size, this`stats
      ensures Ok() && Abs() == Ops.MakeRoom(old(Abs()), n, clock)
    {
      hide Valid, HeatOf, Without;
      ghost var bound := 5 * (config.capacity - n);
      while size + n > config.capacity && list != []
        invariant Ok()
        invariant Ops.EvictDown(Abs(), bound, clock) == Ops.EvictDown(old(Abs()), bound, clock)
        decreases |list|
      {
        var _ := EvictOne();
      }
    }

    method Get(key: Key) returns (r: Option<Bytes>)
      requires Ok()
      modifies this
      ensures Ok() && (Abs(), r) == Ops.Get(old(Abs()), key, clock)
    {
      hide Valid, HeatOf, Without;
      ghost var s := Abs();
      ValidLists(s);
      Ops.GetFacts(s, key, clock);
      if key !in cache {
        stats := stats.(misses := stats.misses + 1);
        r := None;
      } else {
        Touch(key);
        stats := stats.(hits := stats.hits + 1);
        var now := CurrentTime();
        var e := cache[key];
        cache := cache[key := e.(lastAccess := now, accessCount := e.accessCount + 1,
                                 heat := HeatOf(0, e.accessCount + 1, hotAt, warmAt))];
        r := Some(e.data);
      }
      assert (Abs(), r) == Ops.Get(s, key, clock);
    }

    method Put(key: Key, data: Bytes) returns (ok: bool)
      requires Ok() && key != ""
      modifies this
      ensures Ok() && (Abs(), ok) == Ops.Put(old(Abs()), key, data, clock)
    {
      if |data| > config.capacity {
        return false;
      }
      if key in cache {
        Overwrite(key, data);
      } else {
        ghost var room, full := Ops.PutFresh(Abs(), key, data, clock);
        MakeRoom(|data|);
        PushNew(key, data);
        MaybeEvict();
      }
      ok := true;
    }

    /** The branch of `put` for a key that is already cached. */
    method Overwrite(key: Key, data: Bytes)
      requires Ok() && key in cache
      modifies this
      ensures Ok() && Abs() == Ops.Replace(old(Abs()), key, data, clock)
    {
      hide Valid, HeatOf, Without;
      ghost var s := Abs();
      ValidLists(s);
      Ops.ReplaceValid(s, key, data, clock);
      size := size - |cache[key].data|;
      var now := CurrentTime();
      cache := cache[key := Entry(data, now, 0, 1, Cold)];
      size := size + |data|;
      Touch(key);
      assert Abs() == Ops.Replace(s, key, data, clock);
    }

    /** The insertion step of `put`. */
    method PushNew(key: Key, data: Bytes)
      requires Ok() && key !in cache && key != ""
      modifies this
      ensures Ok() && Abs() == Ops.Insert(old(Abs()), key, data, clock)
    {
      hide Valid, HeatOf, Without;
      ghost var s := Abs();
      ValidLists(s);
      Ops.InsertValid(s, key, data, clock);
      var created := CurrentTime();
      list, listed := [key] + list, listed + {key};
      size := size + |data|;
      stats := Counted(stats, 1, |data|);
      var now := CurrentTime();
      cache := cache[key := Entry(data, created, 0, 1, HeatOf(Sub64(now, created), 0, hotAt, warmAt))];
      assert Abs() == Ops.Insert(s, key, data, clock);
    }

    method Remove(key: Key) returns (ok: bool)
      requires Ok()
      modifies this
      ensures Ok() && (Abs(), ok) == Ops.Remove(old(Abs()), key)
    {
      hide Valid, HeatOf, Without;
      ghost var s := Abs();
      ValidLists(s);
      Ops.RemoveKeeps(s, key);
      if key !in cache {
        return false;
      }
      size := size - |cache[key].data|;
      stats := Counted(stats, -1, -|cache[key].data|);
      Unlist(key);
      cache := cache - {key};
      ok := true;
      assert (Abs(), ok) == Ops.Remove(s, key);
    }

    method Exists(key: Key) returns (ok: bool)
      ensures ok <==> key in Abs().cache
    {
      ok := key in cache;
    }

    method Clear()
      modifies this
      ensures Ok() && Abs() == Ops.Clear(old(Abs()))
    {
      list, listed, cache := [], {}, map[];
      size, stats := 0, Stats(0, 0, 0, 0, 0);
    }

    method UpdateChunkMetadata(key: Key, replicas: nat, heat: Heat)
      requires Ok()
      modifies this
      ensures Ok() && Abs() == Ops.UpdateMetadata(old(Abs()), key, replicas, heat)
    {
      Ops.ApplyKeeps(Abs(), Ops.OpMetadata(key, replicas, heat), clock);
      if key in cache {
        cache := cache[key := cache[key].(replicas := replicas, heat := heat)];
      }
    }
  }
}

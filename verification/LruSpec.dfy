/** The weighted LRU cache of src/cache/lru_cache.cpp as a function of values.

    Clock reads are numbered: the i-th `system_clock::now()` of a run returns
    `clock(i)` and the state counts the reads made so far.  Float ratios are
    exact: `usage > 0.8f` is `5 * size > 4 * capacity`. */
module LruSpec {
  import opened Base

  type Key = string
  type Clock = nat -> nat

  datatype Heat = Cold | Warm | Hot

  datatype Entry = Entry(data: Bytes, lastAccess: nat, accessCount: nat, replicas: nat, heat: Heat)

  datatype Config = Config(capacity: nat, wTime: real, wReplica: real, wHeat: real)

  /** `totalBytes` is a `uint64_t` that counts insertions and removals, but neither
      replacements nor evictions. */
  datatype Stats = Stats(totalItems: int, hits: nat, misses: nat, evictions: nat, totalBytes: nat)

  function Counted(stats: Stats, items: int, bytes: int): Stats {
    stats.(totalItems := stats.totalItems + items, totalBytes := (stats.totalBytes + bytes) % TWO64)
  }

  /** `order` lists the keys, most recently used first. */
  datatype Lru = Lru(config: Config, hotAt: nat, warmAt: nat, order: seq<Key>,
                     cache: map<Key, Entry>, size: int, stats: Stats, ticks: nat)

  const SAMPLE: nat := 32
  const PROTECTION: nat := 60

  ghost predicate Monotone(clock: Clock) {
    forall i: nat, j: nat :: i <= j ==> clock(i) <= clock(j)
  }

  // ---------------------------------------------------------------- scoring

  /** Subtraction of `uint64_t` values. */
  function Sub64(a: nat, b: nat): int {
    if b <= a then a - b else a - b + TWO64
  }

  /** Accesses per hour against the two thresholds; no elapsed time counts as a
      hundredth of an hour. */
  function HeatOf(elapsed: int, count: nat, hotAt: nat, warmAt: nat): Heat {
    var num := if elapsed <= 0 then count * 100 else count * 3600;
    var den := if elapsed <= 0 then 1 else elapsed;
    if num > hotAt * den then Hot else if num >= warmAt * den then Warm else Cold
  }

  function HeatValue(h: Heat): real {
    match h case Cold => 0.0 case Warm => 1.0 case Hot => 2.0
  }

  function Score(e: Entry, now: nat, c: Config): real {
    c.wTime * (Sub64(now, e.lastAccess) as real) + c.wReplica * (e.replicas as real) + c.wHeat * HeatValue(e.heat)
  }

  predicate Protected(e: Entry, now: nat) {
    Sub64(now, e.lastAccess) < PROTECTION
  }

  // ------------------------------------------------------------- invariants

  ghost predicate Indexed(order: seq<Key>, cache: map<Key, Entry>) {
    forall k :: k in order ==> k in cache
  }

  /** Sum of the data sizes of the listed keys. */
  ghost function Total(order: seq<Key>, cache: map<Key, Entry>): nat
    requires Indexed(order, cache)
  {
    if order == [] then 0 else |cache[order[0]].data| + Total(order[1..], cache)
  }

  /** The representation invariant of the cache. */
  ghost predicate Valid(s: Lru) {
    && NoDup(s.order)
    && (forall k :: k in s.order <==> k in s.cache)
    && "" !in s.order
    && s.size == Total(s.order, s.cache)
    && s.stats.totalItems == |s.order| + s.stats.evictions
  }

  /** The keys are sorted by last access time, none of them later than `now`. */
  ghost predicate SortedAt(order: seq<Key>, cache: map<Key, Entry>, now: nat) {
    && Indexed(order, cache)
    && (forall i, j :: 0 <= i < j < |order| ==> cache[order[j]].lastAccess <= cache[order[i]].lastAccess)
    && (forall i :: 0 <= i < |order| ==> cache[order[i]].lastAccess <= now)
  }

  ghost predicate Sorted(s: Lru, clock: Clock) {
    SortedAt(s.order, s.cache, clock(s.ticks))
  }

  // --------------------------------------------------------- list operations

  function IndexOf(s: seq<Key>, k: Key): (i: nat)
    requires k in s
    ensures i < |s| && s[i] == k
  {
    if s[0] == k then 0 else 1 + IndexOf(s[1..], k)
  }

  /** `s` without its occurrence of `k`, the other elements in their order. */
  function Without(s: seq<Key>, k: Key): (r: seq<Key>)
    ensures k !in s ==> r == s
    ensures k in s ==> |r| == |s| - 1
  {
    if k in s then var i := IndexOf(s, k); s[..i] + s[i + 1..] else s
  }

  function ToFront(s: seq<Key>, k: Key): seq<Key> {
    if k in s then [k] + Without(s, k) else s
  }

  /** The elements of a list without position `i`. */
  lemma DropMembers(s: seq<Key>, i: nat, x: Key)
    requires i < |s| && NoDup(s)
    ensures x in s[..i] + s[i + 1..] <==> x in s && x != s[i]
  {
    var r := s[..i] + s[i + 1..];
    if x in s && x != s[i] {
      var j :| 0 <= j < |s| && s[j] == x;
      assert r[if j < i then j else j - 1] == x;
    }
    if x in r {
      var j :| 0 <= j < |r| && r[j] == x;
      assert s[if j < i then j else j + 1] == x;
    }
  }

  lemma DropNoDup(s: seq<Key>, i: nat)
    requires i < |s| && NoDup(s)
    ensures NoDup(s[..i] + s[i + 1..])
  {
    var r := s[..i] + s[i + 1..];
    assert forall j :: 0 <= j < |r| ==> r[j] == s[if j < i then j else j + 1];
  }

  lemma WithoutFacts(s: seq<Key>, k: Key)
    requires NoDup(s)
    ensures NoDup(Without(s, k))
    ensures forall x :: x in Without(s, k) <==> x in s && x != k
  {
    if k in s {
      var i := IndexOf(s, k);
      DropNoDup(s, i);
      hide NoDup;
      forall x
        ensures x in Without(s, k) <==> x in s && x != k
      {
        DropMembers(s, i, x);
      }
    }
  }

  /** Dropping position `v` keeps the order by access time. */
  lemma SortedDrop(order: seq<Key>, cache: map<Key, Entry>, v: nat, now: nat, cache': map<Key, Entry>, now': nat)
    requires SortedAt(order, cache, now) && NoDup(order) && v < |order| && now <= now'
    requires forall k :: k in cache && k != order[v] ==> k in cache' && cache'[k] == cache[k]
    ensures SortedAt(order[..v] + order[v + 1..], cache', now')
  {
    var r := order[..v] + order[v + 1..];
    assert forall i :: 0 <= i < |r| ==> r[i] == order[if i < v then i else i + 1] && r[i] != order[v];
  }

  /** So does adding an entry accessed now in front. */
  lemma SortedPush(order: seq<Key>, cache: map<Key, Entry>, now: nat, k: Key, e: Entry, now': nat)
    requires SortedAt(order, cache, now) && k !in order && e.lastAccess == now <= now'
    ensures SortedAt([k] + order, cache[k := e], now')
  {
    var r := [k] + order;
    assert forall i :: 0 < i < |r| ==> r[i] == order[i - 1];
  }

  lemma {:induction false} TotalSplit(a: seq<Key>, b: seq<Key>, cache: map<Key, Entry>)
    requires Indexed(a, cache) && Indexed(b, cache)
    ensures Indexed(a + b, cache)
    ensures Total(a + b, cache) == Total(a, cache) + Total(b, cache)
  {
    if a == [] {
      assert a + b == b;
    } else {
      assert (a + b)[1..] == a[1..] + b;
      assert (a + b)[0] == a[0];
      TotalSplit(a[1..], b, cache);
    }
  }

  lemma {:induction false} TotalFrame(order: seq<Key>, c: map<Key, Entry>, d: map<Key, Entry>)
    requires Indexed(order, c) && Indexed(order, d)
    requires forall k :: k in order ==> |c[k].data| == |d[k].data|
    ensures Total(order, c) == Total(order, d)
  {
    if order != [] {
      TotalFrame(order[1..], c, d);
    }
  }

  lemma TotalWithout(order: seq<Key>, cache: map<Key, Entry>, k: Key)
    requires Indexed(order, cache) && k in order
    ensures Indexed(Without(order, k), cache)
    ensures Total(order, cache) == |cache[k].data| + Total(Without(order, k), cache)
  {
    var i := IndexOf(order, k);
    var a, b := order[..i], order[i + 1..];
    assert order == a + ([k] + b);
    TotalSplit(a, [k] + b, cache);
    TotalSplit([k], b, cache);
    TotalSplit(a, b, cache);
    assert Total([k], cache) == |cache[k].data|;
  }

  lemma TotalPush(order: seq<Key>, cache: map<Key, Entry>, k: Key, e: Entry)
    requires Indexed(order, cache) && k !in order
    ensures Indexed([k] + order, cache[k := e])
    ensures Total([k] + order, cache[k := e]) == |e.data| + Total(order, cache)
  {
    assert ([k] + order)[1..] == order;
    TotalFrame(order, cache, cache[k := e]);
  }

  lemma ValidLists(s: Lru)
    requires Valid(s)
    ensures NoDup(s.order) && Indexed(s.order, s.cache) && "" !in s.order
    ensures forall k :: k in s.order <==> k in s.cache
  {
  }

  // ------------------------------------------------------------ victim choice

  /** The scan over the sampled tail: `j` entries seen, `target` the best so far. */
  function Scan(s: Lru, now: nat, j: nat, target: Key, best: real): Key
    requires j <= |s.order|
    decreases |s.order| - j
  {
    if j == |s.order| || j == SAMPLE then target
    else
      var k := s.order[|s.order| - 1 - j];
      if k in s.cache && !Protected(s.cache[k], now) && Score(s.cache[k], now, s.config) > best then
        Scan(s, now, j + 1, k, Score(s.cache[k], now, s.config))
      else
        Scan(s, now, j + 1, target, best)
  }

  function SelectTarget(s: Lru, now: nat): Key {
    if s.order == [] then ""
    else
      var t := Scan(s, now, 0, "", -1.0);
      if t == "" then s.order[|s.order| - 1] else t
  }

  /** Position `i` is sampled, unprotected and scores above the floor. */
  ghost predicate Candidate(s: Lru, now: nat, i: int) {
    && 0 <= i < |s.order|
    && |s.order| - SAMPLE <= i
    && s.order[i] in s.cache
    && !Protected(s.cache[s.order[i]], now)
    && Score(s.cache[s.order[i]], now, s.config) > -1.0
  }

  ghost function ScoreAt(s: Lru, now: nat, i: int): real
    requires Candidate(s, now, i)
  {
    Score(s.cache[s.order[i]], now, s.config)
  }

  /** `t` is the best candidate at or after position `lo` (the highest score, the
      least recent among equals), or `|s.order|` when there is none. */
  ghost predicate Best(s: Lru, now: nat, lo: int, t: int) {
    if t == |s.order| then
      forall i :: lo <= i ==> !Candidate(s, now, i)
    else
      && Candidate(s, now, t) && lo <= t
      && forall i :: lo <= i && Candidate(s, now, i) ==>
           ScoreAt(s, now, i) <= ScoreAt(s, now, t) && (ScoreAt(s, now, i) == ScoreAt(s, now, t) ==> i <= t)
  }

  /** What the eviction policy promises of the victim, without the scan: the
      best candidate, and the tail when there is no candidate. */
  ghost predicate IsVictim(s: Lru, now: nat, v: int) {
    && 0 <= v < |s.order|
    && (Best(s, now, 0, v) || (Best(s, now, 0, |s.order|) && v == |s.order| - 1))
  }

  ghost function BestScore(s: Lru, now: nat, lo: int, t: int): real
    requires Best(s, now, lo, t)
  {
    if t == |s.order| then -1.0 else ScoreAt(s, now, t)
  }

  ghost function KeyAt(s: Lru, t: int): Key
    requires 0 <= t <= |s.order|
  {
    if t == |s.order| then "" else s.order[t]
  }

  lemma BestStep(s: Lru, now: nat, i: nat, t: int)
    requires i < |s.order| && Best(s, now, i + 1, t) && t <= |s.order|
    ensures Candidate(s, now, i) && ScoreAt(s, now, i) > BestScore(s, now, i + 1, t) ==> Best(s, now, i, i)
    ensures !(Candidate(s, now, i) && ScoreAt(s, now, i) > BestScore(s, now, i + 1, t)) ==> Best(s, now, i, t)
  {
  }

  lemma ScanStep(s: Lru, now: nat, j: nat, t: int)
    requires j < |s.order| && j < SAMPLE
    requires 0 <= t <= |s.order| && Best(s, now, |s.order| - j, t)
    ensures var i := |s.order| - 1 - j; var r := if Best(s, now, i, t) then t else i;
            && Best(s, now, i, r)
            && Scan(s, now, j, KeyAt(s, t), BestScore(s, now, |s.order| - j, t))
               == Scan(s, now, j + 1, KeyAt(s, r), BestScore(s, now, i, r))
  {
    var i := |s.order| - 1 - j;
    BestStep(s, now, i, t);
    hide Score, Protected;
  }

  lemma {:induction false} ScanFindsBest(s: Lru, now: nat, j: nat, t: int) returns (r: int)
    requires j <= |s.order| && j <= SAMPLE
    requires 0 <= t <= |s.order| && Best(s, now, |s.order| - j, t)
    ensures 0 <= r <= |s.order| && Best(s, now, 0, r)
    ensures Scan(s, now, j, KeyAt(s, t), BestScore(s, now, |s.order| - j, t)) == KeyAt(s, r)
    decreases |s.order| - j
  {
    if j == |s.order| || j == SAMPLE {
      r := t;
    } else {
      hide Best, Score, Protected, Valid, Scan, BestScore, KeyAt;
      ScanStep(s, now, j, t);
      var i := |s.order| - 1 - j;
      r := ScanFindsBest(s, now, j + 1, if Best(s, now, i, t) then t else i);
    }
  }

  /** The key chosen is the one at the victim position, and there is just one. */
  lemma SelectIsVictim(s: Lru, now: nat) returns (v: nat)
    requires Valid(s) && s.order != []
    ensures v < |s.order| && IsVictim(s, now, v) && SelectTarget(s, now) == s.order[v]
    ensures forall w :: IsVictim(s, now, w) ==> w == v
  {
    var r := ScanFindsBest(s, now, 0, |s.order|);
    if r == |s.order| {
      v := |s.order| - 1;
    } else {
      v := r;
      assert s.order[v] in s.order;
    }
  }
}

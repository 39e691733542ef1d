/** What bytes may be stored under an id, given an immutable origin. */
module World {
  import opened Base
  import opened Text
  import opened MetaCodec
  import opened RangeHeader
  import opened Assembly
  import L = LruSpec
  import Ops = LruOps
  import S = ChunkStore

  datatype Object = Object(content: Bytes, etag: string)

  /** The origin, the chunk size, the object keys in use and the content hash.
      In an `ordered` world chunk hashes are anchored in index order only. */
  datatype World = World(origin: map<Key, Object>, chunkSize: nat, keys: iset<Key>, hash: Bytes -> string, ordered: bool)

  ghost predicate WorldOk(w: World) {
    && w.chunkSize > 0
    && (forall k :: k in w.origin ==> |w.origin[k].content| < TWO64)
    && (w.ordered ==>
          && (forall k :: k in w.origin ==> w.origin[k].etag != "" && Blankless(w.origin[k].etag))
          && (forall b :: w.hash(b) != "" && Blankless(w.hash(b))))
  }

  ghost predicate IsId(w: World, id: S.Id) {
    (exists key :: key in w.keys && id == MetaKey(key)) ||
    (exists key, i: nat :: key in w.keys && id == IndexedId(key, i))
  }

  ghost function Ids(w: World): iset<S.Id> {
    iset id: S.Id | IsId(w, id)
  }

  lemma IdsOfKey(w: World, key: Key, i: nat)
    requires key in w.keys
    ensures MetaKey(key) in Ids(w) && IndexedId(key, i) in Ids(w)
    ensures MetaKey(key) != "" && IndexedId(key, i) != ""
  {
    assert IsId(w, MetaKey(key)) && IsId(w, IndexedId(key, i));
  }

  // ---------------------------------------------------------- admissible bytes

  ghost function Truth(w: World, key: Key): nat -> string
    requires key in w.origin
  {
    (i: nat) => w.hash(Slice(w.origin[key].content, i, w.chunkSize))
  }

  /** Object info that tells the truth about the origin's object. */
  ghost predicate GoodInfo(w: World, key: Key, o: ObjectInfo) {
    && key in w.origin
    && o.size == |w.origin[key].content|
    && (w.ordered ==> o.etag == w.origin[key].etag && Anchored(o, Truth(w, key)))
  }

  ghost predicate GoodChunk(w: World, id: S.Id, data: Bytes) {
    forall key, i: nat :: id == IndexedId(key, i) ==>
                            key in w.origin && data == Slice(w.origin[key].content, i, w.chunkSize)
  }

  ghost predicate GoodMeta(w: World, id: S.Id, data: Bytes) {
    forall key :: id == MetaKey(key) ==>
                    key in w.origin && (Parse(data).Some? ==> GoodInfo(w, key, Parse(data).value))
  }

  ghost predicate Good(w: World, id: S.Id, data: Bytes) {
    GoodChunk(w, id, data) && GoodMeta(w, id, data)
  }

  lemma SliceIsGood(w: World, key: Key, i: nat)
    requires key in w.origin
    ensures Good(w, IndexedId(key, i), Slice(w.origin[key].content, i, w.chunkSize))
  {
    hide IndexedId, MetaKey, Slice;
    var id := IndexedId(key, i);
    forall key', i': nat | id == IndexedId(key', i')
      ensures key' == key && i' == i
    {
      ChunkIdInjective(key, i, key', i');
    }
    forall key' | id == MetaKey(key')
      ensures false
    {
      ChunkIdIsNotMeta(key, i, key');
    }
  }

  lemma MetaIsGood(w: World, key: Key, data: Bytes)
    requires key in w.origin && (Parse(data).Some? ==> GoodInfo(w, key, Parse(data).value))
    ensures Good(w, MetaKey(key), data)
  {
    hide IndexedId, MetaKey, GoodInfo, Parse;
    var id := MetaKey(key);
    forall key', i: nat | id == IndexedId(key', i)
      ensures false
    {
      ChunkIdIsNotMeta(key', i, key);
    }
    forall key' | id == MetaKey(key')
      ensures key' == key
    {
      MetaKeyInjective(key, key');
    }
  }

  lemma GoodChunkBytes(w: World, key: Key, i: nat, data: Bytes)
    requires Good(w, IndexedId(key, i), data)
    ensures key in w.origin && data == Slice(w.origin[key].content, i, w.chunkSize)
  {
  }

  lemma GoodMetaInfo(w: World, key: Key, data: Bytes)
    requires Good(w, MetaKey(key), data)
    ensures key in w.origin && (Parse(data).Some? ==> GoodInfo(w, key, Parse(data).value))
  {
  }

  /** The info learned by HEAD, once serialized. */
  lemma HeadIsGood(w: World, key: Key)
    requires WorldOk(w) && key in w.origin
    ensures var o := ObjectInfo(|w.origin[key].content|, w.origin[key].etag, []);
            GoodInfo(w, key, o) && Good(w, MetaKey(key), Serialize(o))
  {
    hide Serialize, Parse;
    var o := ObjectInfo(|w.origin[key].content|, w.origin[key].etag, []);
    SizeSurvives(o);
    if w.ordered {
      assert AllBlankless([o.etag] + o.hashes);
      RoundTripIff(o);
    }
    MetaIsGood(w, key, Serialize(o));
  }

  /** Anchoring the hash of chunk `i` keeps the info truthful; in an ordered world
      when `i` is at most the length of the list. */
  lemma AnchorIsGood(w: World, key: Key, o: ObjectInfo, i: nat)
    requires WorldOk(w) && GoodInfo(w, key, o)
    requires w.ordered ==> i <= |o.hashes|
    ensures var h := w.hash(Slice(w.origin[key].content, i, w.chunkSize));
            Good(w, MetaKey(key), Serialize(Anchor(o, i, h)))
  {
    hide Serialize, Parse, Anchor, Slice;
    var h := w.hash(Slice(w.origin[key].content, i, w.chunkSize));
    AnchorSize(o, i, h);
    SizeSurvives(Anchor(o, i, h));
    if w.ordered {
      TruthIsWordy(w, key, o);
      AnchorReread(o, i, Truth(w, key));
    }
    MetaIsGood(w, key, Serialize(Anchor(o, i, h)));
  }

  lemma TruthIsWordy(w: World, key: Key, o: ObjectInfo)
    requires WorldOk(w) && GoodInfo(w, key, o) && w.ordered
    ensures Wordy(o, Truth(w, key))
  {
    forall i: nat
      ensures Truth(w, key)(i) != "" && Blankless(Truth(w, key)(i))
    {
      var b := Slice(w.origin[key].content, i, w.chunkSize);
      assert Truth(w, key)(i) == w.hash(b);
    }
  }

  lemma AnchorSize(o: ObjectInfo, i: nat, h: string)
    ensures Anchor(o, i, h).size == o.size
  {
  }

  // ------------------------------------------------------------ store contents

  /** Everything a store can return for an id in use is admissible.  With a disk
      the ids must map to files of their own. */
  ghost predicate Contains(w: World, s: S.Store) {
    && L.Valid(s.mem)
    && (forall k :: k in s.mem.cache ==> Good(w, k, s.mem.cache[k].data))
    && (s.hasDisk ==> S.Separate(Ids(w)))
    && (forall k :: k in Ids(w) && S.Sanitize(k) in s.files ==> Good(w, k, s.files[S.Sanitize(k)]))
  }

  lemma StoreContains(w: World, s: S.Store, id: S.Id, data: Bytes, clock: L.Clock)
    requires Contains(w, s) && id in Ids(w) && id != "" && Good(w, id, data)
    ensures Contains(w, S.StoreChunk(s, id, |data|, data, clock).0)
  {
    hide Good, Ids, S.Sanitize, L.Valid, Ops.Put;
    Ops.PutFacts(s.mem, id, data, clock);
  }

  lemma GetFastContains(w: World, s: S.Store, id: S.Id, clock: L.Clock)
    requires Contains(w, s)
    ensures var (r, got) := S.GetFast(s, id, clock);
            Contains(w, r) && (got.Some? ==> Good(w, id, got.value))
  {
    hide Good, Ids, S.Sanitize, L.Valid, Ops.Get;
    Ops.GetFacts(s.mem, id, clock);
  }

  lemma GetSlowContains(w: World, s: S.Store, id: S.Id, clock: L.Clock)
    requires Contains(w, s) && id in Ids(w) && id != ""
    ensures var (r, got) := S.GetSlow(s, id, clock);
            Contains(w, r) && (got.Some? ==> Good(w, id, got.value))
  {
    hide Good, Ids, S.Sanitize, L.Valid, Ops.Get, Ops.Put;
    Ops.GetFacts(s.mem, id, clock);
    var (m, hit) := Ops.Get(s.mem, id, clock);
    if hit == None && id in s.index && S.Load(s, id).Some? {
      var data := S.Load(s, id).value;
      Ops.PutFacts(m, id, data, clock);
      Ops.GetFacts(Ops.Put(m, id, data, clock).0, id, clock);
    }
  }

  lemma RemoveContains(w: World, s: S.Store, id: S.Id)
    requires Contains(w, s)
    ensures Contains(w, S.RemoveChunk(s, id).0)
  {
    hide Good, Ids, S.Sanitize, L.Valid;
    Ops.RemoveKeeps(s.mem, id);
  }

  lemma PromoteContains(w: World, s: S.Store, id: S.Id, clock: L.Clock)
    requires Contains(w, s) && id in Ids(w) && id != ""
    ensures Contains(w, S.Promote(s, id, clock).0)
  {
    hide Good, Ids, S.Sanitize, L.Valid, Ops.Put;
    if S.Load(s, id).Some? {
      Ops.PutFacts(s.mem, id, S.Load(s, id).value, clock);
    }
  }

  lemma DemoteContains(w: World, s: S.Store, id: S.Id, clock: L.Clock)
    requires Contains(w, s) && id in Ids(w)
    ensures Contains(w, S.Demote(s, id, clock).0)
  {
    hide Good, Ids, S.Sanitize, L.Valid, Ops.Get;
    Ops.GetFacts(s.mem, id, clock);
    Ops.RemoveKeeps(Ops.Get(s.mem, id, clock).0, id);
  }

  lemma EvictContains(w: World, s: S.Store, clock: L.Clock)
    requires Contains(w, s)
    ensures Contains(w, S.TriggerEviction(s, clock))
  {
    hide Good, Ids, S.Sanitize, L.Valid, Ops.MaybeEvict;
    Ops.MaybeEvictFacts(s.mem, clock);
  }

  lemma RestartContains(w: World, s: S.Store)
    requires Contains(w, s)
    ensures Contains(w, S.Restart(s))
  {
    hide Good, Ids, S.Sanitize;
  }
}

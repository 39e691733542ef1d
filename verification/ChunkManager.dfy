/** The chunk manager object of src/cache/chunk_manager.cpp over an `LruCache`
    object; each method is one locked section and is proved against `ChunkStore`. */
module ChunkManagerImpl {
  import opened Base
  import opened LruSpec
  import opened LruCacheImpl
  import Ops = LruOps
  import Spec = ChunkStore

  class ChunkManager {
    const mem: LruCache
    const hasDisk: bool
    var index: map<Key, nat>
    var files: map<string, Bytes>

    ghost function Abs(): Spec.Store
      reads this, mem
    {
      Spec.Store(mem.Abs(), hasDisk, index, files)
    }

    constructor (mem: LruCache, hasDisk: bool)
      ensures this.mem == mem && Abs() == Spec.Store(mem.Abs(), hasDisk, map[], map[])
    {
      this.mem, this.hasDisk := mem, hasDisk;
      index, files := map[], map[];
    }

    method PersistToDisk(id: Key, data: Bytes) returns (ok: bool)
      modifies this`files
      ensures ok == hasDisk
      ensures files == if hasDisk then old(files)[Spec.Sanitize(id) := data] else old(files)
    {
      if hasDisk {
        files := files[Spec.Sanitize(id) := data];
      }
      ok := hasDisk;
    }

    method LoadFromDisk(id: Key) returns (r: Option<Bytes>)
      ensures r == Spec.Load(Abs(), id)
    {
      if hasDisk && Spec.Sanitize(id) in files {
        r := Some(files[Spec.Sanitize(id)]);
      } else {
        r := None;
      }
    }

    /** The shared-lock section of `get_chunk`. */
    method GetShared(id: Key) returns (r: Option<Bytes>)
      requires mem.Ok()
      modifies mem
      ensures mem.Ok() && (Abs(), r) == Spec.GetFast(old(Abs()), id, mem.clock)
    {
      hide LruCache.Ok, Ops.Get;
      r := mem.Get(id);
    }

    /** The exclusive-lock section of `get_chunk`. */
    method GetExclusive(id: Key) returns (r: Option<Bytes>)
      requires mem.Ok() && id != ""
      modifies this, mem
      ensures mem.Ok() && old(Valid(Abs().mem)) && (Abs(), r) == Spec.GetSlow(old(Abs()), id, mem.clock)
    {
      hide Ops.Get, Ops.Put, Valid, Spec.Sanitize;
      r := mem.Get(id);
      if r.Some? {
        return;
      }
      if id !in index {
        return None;
      }
      var data := LoadFromDisk(id);
      if data == None {
        index := index - {id};
        return None;
      }
      var _ := mem.Put(id, data.value);
      r := mem.Get(id);
    }

    method StoreChunk(id: Key, declared: nat, data: Bytes) returns (ok: bool)
      requires mem.Ok() && id != ""
      modifies this, mem
      ensures mem.Ok() && old(Valid(Abs().mem)) && (Abs(), ok) == Spec.StoreChunk(old(Abs()), id, declared, data, mem.clock)
    {
      hide Ops.Put, Valid, Spec.Sanitize;
      if declared > 0 && |data| != declared {
        return false;
      }
      ok := mem.Put(id, data);
      if hasDisk {
        var persisted := PersistToDisk(id, data);
        if persisted {
          index := index[id := |data|];
        }
      }
    }

    method RemoveChunk(id: Key) returns (ok: bool)
      requires mem.Ok()
      modifies this, mem
      ensures mem.Ok() && (Abs(), ok) == Spec.RemoveChunk(old(Abs()), id)
    {
      hide Ops.Remove, Valid, Spec.Sanitize;
      var fromMemory := mem.Remove(id);
      var fromIndex := id in index;
      index := index - {id};
      if hasDisk {
        files := files - {Spec.Sanitize(id)};
      }
      ok := fromMemory || fromIndex;
    }

    method HasChunk(id: Key) returns (ok: bool)
      ensures ok == Spec.HasChunk(Abs(), id)
    {
      var cached := mem.Exists(id);
      ok := cached || id in index;
    }

    method PromoteToMemory(id: Key) returns (ok: bool)
      requires mem.Ok() && id != ""
      modifies mem
      ensures mem.Ok() && old(Valid(Abs().mem)) && (Abs(), ok) == Spec.Promote(old(Abs()), id, mem.clock)
    {
      hide Ops.Put, Valid, Spec.Sanitize;
      var data := LoadFromDisk(id);
      if data == None {
        return false;
      }
      ok := mem.Put(id, data.value);
    }

    method DemoteToDisk(id: Key) returns (ok: bool)
      requires mem.Ok()
      modifies this, mem
      ensures mem.Ok() && (Abs(), ok) == Spec.Demote(old(Abs()), id, mem.clock)
    {
      hide Ops.Get, Ops.Remove, Valid, Spec.Sanitize;
      var chunk := mem.Get(id);
      if chunk == None {
        return false;
      }
      ok := PersistToDisk(id, chunk.value);
      if ok {
        var _ := mem.Remove(id);
        index := index[id := |chunk.value|];
      }
    }

    method TriggerEviction()
      requires mem.Ok()
      modifies mem
      ensures mem.Ok() && old(Valid(Abs().mem)) && Abs() == Spec.TriggerEviction(old(Abs()), mem.clock)
    {
      mem.MaybeEvict();
    }
  }
}

/** The serializer and deserializer loops of src/p2p/node_discovery.cpp, proved
    against `GossipCodec`. */
module GossipBuffer {
  import opened Base
  import opened Octets
  import opened GossipCodec

  // ------------------------------------------------------------------ appending

  lemma {:induction false} StrsSnoc(l: seq<Octets>, x: Octets)
    requires Short(x) && forall i :: 0 <= i < |l| ==> Short(l[i])
    ensures Strs(l + [x]) == Strs(l) + Str(x)
  {
    if l == [] {
      assert [x][1..] == [];
    } else {
      assert (l + [x])[1..] == l[1..] + [x];
      StrsSnoc(l[1..], x);
    }
  }

  lemma {:induction false} EntriesSnoc(l: seq<Entry>, e: Entry)
    requires EntryFits(e) && forall i :: 0 <= i < |l| ==> EntryFits(l[i])
    ensures EncEntries(l + [e]) == EncEntries(l) + EncEntry(e)
  {
    hide EntryFits, EncEntry;
    if l == [] {
      assert [e][1..] == [];
    } else {
      assert (l + [e])[1..] == l[1..] + [e];
      EntriesSnoc(l[1..], e);
    }
  }

  lemma {:induction false} PeersSnoc(l: seq<PeerEntry>, e: PeerEntry)
    requires PeerFits(e) && forall i :: 0 <= i < |l| ==> PeerFits(l[i])
    ensures EncPeers(l + [e]) == EncPeers(l) + EncPeer(e)
  {
    hide PeerFits, EncPeer;
    if l == [] {
      assert [e][1..] == [];
    } else {
      assert (l + [e])[1..] == l[1..] + [e];
      PeersSnoc(l[1..], e);
    }
  }

  /** Some enumeration of a set: the order in which its container yields it. */
  method Enumerate(s: set<Octets>) returns (order: seq<Octets>)
    ensures Elements(order) == s && NoDup(order) && |order| == |s|
  {
    order := [];
    var todo := s;
    while todo != {}
      invariant todo <= s && forall x :: x in order <==> x in s && x !in todo
      invariant NoDup(order)
      decreases |todo|
    {
      var x :| x in todo;
      order, todo := order + [x], todo - {x};
    }
    assert Elements(order) == s;
    NoDupCardinality(order);
  }

  /** Appends every element of a set, in whatever order it is enumerated. */
  method AppendSet(buf: Octets, s: set<Octets>) returns (out: Octets, ghost order: seq<Octets>)
    requires forall x :: x in s ==> Short(x)
    ensures Elements(order) == s && |order| == |s| && (forall i :: 0 <= i < |order| ==> Short(order[i]))
    ensures out == buf + Strs(order)
  {
    var items := Enumerate(s);
    assert forall i :: 0 <= i < |items| ==> items[i] in s by {
      assert forall i :: 0 <= i < |items| ==> items[i] in Elements(items);
    }
    out := buf;
    for i := 0 to |items|
      invariant out == buf + Strs(items[..i])
    {
      StrsSnoc(items[..i], items[i]);
      assert items[..i + 1] == items[..i] + [items[i]];
      out := out + Str(items[i]);
    }
    assert items[..|items|] == items;
    order := items;
  }

  /** Lengths and numbers that fit their fields. */
  ghost predicate Encodable(m: Message) {
    && m.kind < TWO32 && Short(m.source) && m.timestamp < TWO64
    && |m.chunkMap| < TWO32 && |m.peers| < TWO32
    && (forall k :: k in m.chunkMap ==> Short(k) && SetFits(m.chunkMap[k]))
    && (forall k :: k in m.peers ==> Short(k) && RecordFits(m.peers[k]) && SetFits(m.peers[k].chunks))
  }

  ghost predicate SetFits(s: set<Octets>) {
    |s| < TWO32 && forall x :: x in s ==> Short(x)
  }

  /** The entries listed are those of the keys, in that order. */
  ghost predicate Follows(l: seq<Entry>, keys: seq<Octets>, m: map<Octets, set<Octets>>) {
    |l| <= |keys| && forall i :: 0 <= i < |l| ==>
      l[i].id == keys[i] && EntryFits(l[i]) && keys[i] in m && m[keys[i]] == Elements(l[i].chunks)
  }

  lemma FollowsAll(l: seq<Entry>, keys: seq<Octets>, m: map<Octets, set<Octets>>)
    requires Follows(l, keys, m) && |l| == |keys| && NoDup(keys) && Elements(keys) == m.Keys
    ensures EnumeratesMap(l, m) && forall i :: 0 <= i < |l| ==> EntryFits(l[i])
  {
    hide EntryFits;
    forall k | k in m
      ensures exists i :: 0 <= i < |l| && l[i].id == k
    {
      assert k in Elements(keys);
      var i :| 0 <= i < |keys| && keys[i] == k;
      assert l[i].id == k;
    }
  }

  method AppendEntries(buf: Octets, m: map<Octets, set<Octets>>) returns (out: Octets, ghost l: seq<Entry>)
    requires forall k :: k in m ==> Short(k) && SetFits(m[k])
    ensures (forall i :: 0 <= i < |l| ==> EntryFits(l[i])) && |l| == |m|
    ensures EnumeratesMap(l, m) && out == buf + EncEntries(l)
  {
    hide EntryFits, EncEntry, SetFits, Short, EnumeratesMap;
    var keys := Enumerate(m.Keys);
    out := buf;
    l := [];
    for n := 0 to |keys|
      invariant |l| == n && Follows(l, keys, m)
      invariant out == buf + EncEntries(l)
    {
      var k := keys[n];
      assert k in Elements(keys);
      hide Elements;
      ghost var order;
      out, order := AppendEntry(out, k, m[k]);
      EntriesSnoc(l, Entry(k, order));
      l := l + [Entry(k, order)];
    }
    FollowsAll(l, keys, m);
  }

  method AppendEntry(buf: Octets, id: Octets, chunks: set<Octets>) returns (out: Octets, ghost order: seq<Octets>)
    requires Short(id) && SetFits(chunks)
    ensures Elements(order) == chunks && EntryFits(Entry(id, order)) && out == buf + EncEntry(Entry(id, order))
  {
    out := buf + U32(|id|) + id + U32(|chunks|);
    ghost var head := out;
    out, order := AppendSet(out, chunks);
    assert head + Strs(order) == buf + EncEntry(Entry(id, order));
  }

  ghost predicate FollowsPeers(l: seq<PeerEntry>, keys: seq<Octets>, m: map<Octets, PeerRecord>) {
    |l| <= |keys| && forall i :: 0 <= i < |l| ==>
      l[i].id == keys[i] && PeerFits(l[i]) && keys[i] in m && m[keys[i]] == l[i].peer && Elements(l[i].chunks) == l[i].peer.chunks
  }

  lemma FollowsAllPeers(l: seq<PeerEntry>, keys: seq<Octets>, m: map<Octets, PeerRecord>)
    requires FollowsPeers(l, keys, m) && |l| == |keys| && NoDup(keys) && Elements(keys) == m.Keys
    ensures EnumeratesPeers(l, m) && forall i :: 0 <= i < |l| ==> PeerFits(l[i])
  {
    hide PeerFits;
    forall k | k in m
      ensures exists i :: 0 <= i < |l| && l[i].id == k
    {
      assert k in Elements(keys);
      var i :| 0 <= i < |keys| && keys[i] == k;
      assert l[i].id == k;
    }
  }

  method AppendPeer(buf: Octets, id: Octets, p: PeerRecord) returns (out: Octets, ghost order: seq<Octets>)
    requires Short(id) && RecordFits(p) && SetFits(p.chunks)
    ensures Elements(order) == p.chunks && PeerFits(PeerEntry(id, p, order)) && out == buf + EncPeer(PeerEntry(id, p, order))
  {
    hide U16, U32, U64;
    var fixed := U16(p.port) + U16(p.gossipPort) + U64(p.lastSeen) + U64(p.memoryMb) + U64(p.diskMb) + p.latency + p.throughput;
    assert fixed == Fixed(p);
    hide Fixed;
    out := buf + Str(id) + Str(p.address) + fixed + U32(|p.chunks|);
    ghost var head := out;
    out, order := AppendSet(out, p.chunks);
    assert head + Strs(order) == buf + EncPeer(PeerEntry(id, p, order));
  }

  method AppendPeers(buf: Octets, m: map<Octets, PeerRecord>) returns (out: Octets, ghost l: seq<PeerEntry>)
    requires forall k :: k in m ==> Short(k) && RecordFits(m[k]) && SetFits(m[k].chunks)
    ensures (forall i :: 0 <= i < |l| ==> PeerFits(l[i])) && |l| == |m|
    ensures EnumeratesPeers(l, m) && out == buf + EncPeers(l)
  {
    hide PeerFits, EncPeer, SetFits, Short, RecordFits, EnumeratesPeers;
    var keys := Enumerate(m.Keys);
    out := buf;
    l := [];
    for n := 0 to |keys|
      invariant |l| == n && FollowsPeers(l, keys, m)
      invariant out == buf + EncPeers(l)
    {
      var k := keys[n];
      assert k in Elements(keys);
      hide Elements;
      ghost var order;
      out, order := AppendPeer(out, k, m[k]);
      PeersSnoc(l, PeerEntry(k, m[k], order));
      l := l + [PeerEntry(k, m[k], order)];
    }
    FollowsAllPeers(l, keys, m);
  }

  /** `serialize_gossip_message`: the encoding of the message under some
      enumeration of its containers. */
  method Serialize(m: Message) returns (data: Octets, ghost l: Listing)
    requires Encodable(m)
    ensures Fits(m, l) && Enumerates(l, m) && data == Encode(m, l)
  {
    hide EntryFits, PeerFits, EnumeratesMap, EnumeratesPeers, U32, U64, Str, EncEntries, EncPeers;
    var head := U32(MAGIC) + U32(VERSION) + U32(m.kind) + Str(m.source) + U64(m.timestamp) + U32(|m.chunkMap|);
    ghost var entries, peers;
    data, entries := AppendEntries(head, m.chunkMap);
    var mid := data + U32(|m.peers|);
    data, peers := AppendPeers(mid, m.peers);
    l := Listing(entries, peers);
    Reassociate(U32(MAGIC), U32(VERSION), U32(m.kind), Str(m.source), U64(m.timestamp), U32(|entries|),
                EncEntries(entries), U32(|peers|), EncPeers(peers));
  }

  lemma Reassociate(a: Octets, b: Octets, c: Octets, d: Octets, e: Octets, f: Octets, g: Octets, h: Octets, i: Octets)
    ensures a + b + c + d + e + f + g + h + i == a + (b + (c + (d + (e + (f + (g + (h + i)))))))
  {
  }

  // -------------------------------------------------------------------- reading

  method ReadSet(n: nat, s: Octets) returns (r: Read<set<Octets>>)
    ensures r == ReadStrs(n, s, {})
  {
    hide ReadStr;
    var rest, acc := s, {};
    var i := 0;
    while i < n
      invariant 0 <= i <= n && ReadStrs(n - i, rest, acc) == ReadStrs(n, s, {})
    {
      var x := ReadStr(rest);
      match x {
        case Rejected => return Rejected;
        case OutOfBounds => return OutOfBounds;
        case Got(v, t) => acc, rest := acc + {v}, t;
      }
      i := i + 1;
    }
    r := Got(acc, rest);
  }

  method ReadOneEntry(s: Octets) returns (r: Read<(Octets, set<Octets>)>)
    ensures r == ReadEntry(s)
  {
    hide ReadStr, Read32, ReadStrs;
    var id := ReadStr(s);
    if !id.Got? {
      return if id.Rejected? then Rejected else OutOfBounds;
    }
    var count := Read32(id.rest);
    if !count.Got? {
      return if count.Rejected? then Rejected else OutOfBounds;
    }
    var chunks := ReadSet(count.value, count.rest);
    if !chunks.Got? {
      return if chunks.Rejected? then Rejected else OutOfBounds;
    }
    r := Got((id.value, chunks.value), chunks.rest);
  }

  method ReadChunkMap(n: nat, s: Octets) returns (r: Read<map<Octets, set<Octets>>>)
    ensures r == ReadEntries(n, s, map[])
  {
    hide ReadEntry;
    var rest, acc := s, map[];
    var i := 0;
    while i < n
      invariant 0 <= i <= n && ReadEntries(n - i, rest, acc) == ReadEntries(n, s, map[])
    {
      var e := ReadOneEntry(rest);
      match e {
        case Rejected => return Rejected;
        case OutOfBounds => return OutOfBounds;
        case Got(v, t) => acc, rest := acc[v.0 := v.1], t;
      }
      i := i + 1;
    }
    r := Got(acc, rest);
  }

  method ReadOnePeer(s: Octets) returns (r: Read<PeerRecord>)
    ensures r == ReadPeer(s)
  {
    hide ReadStr, Read32, ReadStrs, ReadFixed;
    var id := ReadStr(s);
    if !id.Got? {
      return if id.Rejected? then Rejected else OutOfBounds;
    }
    var address := ReadStr(id.rest);
    if !address.Got? {
      return if address.Rejected? then Rejected else OutOfBounds;
    }
    var fixed := ReadFixed(address.rest, id.value, address.value);
    if !fixed.Got? {
      return if fixed.Rejected? then Rejected else OutOfBounds;
    }
    var count := Read32(fixed.rest);
    if !count.Got? {
      return if count.Rejected? then Rejected else OutOfBounds;
    }
    var chunks := ReadSet(count.value, count.rest);
    if !chunks.Got? {
      return if chunks.Rejected? then Rejected else OutOfBounds;
    }
    r := Got(fixed.value.(chunks := chunks.value), chunks.rest);
  }

  method ReadPeerUpdates(n: nat, s: Octets) returns (r: Read<map<Octets, PeerRecord>>)
    ensures r == ReadPeers(n, s, map[])
  {
    hide ReadPeer;
    var rest, acc := s, map[];
    var i := 0;
    while i < n
      invariant 0 <= i <= n && ReadPeers(n - i, rest, acc) == ReadPeers(n, s, map[])
    {
      var p := ReadOnePeer(rest);
      match p {
        case Rejected => return Rejected;
        case OutOfBounds => return OutOfBounds;
        case Got(v, t) => acc, rest := acc[v.nodeId := v], t;
      }
      i := i + 1;
    }
    r := Got(acc, rest);
  }

  /** `deserialize_gossip_message`. */
  method Deserialize(data: Octets) returns (r: Read<Message>)
    ensures r == Decode(data)
  {
    hide ReadStr, Read32, Read64, ReadEntries, ReadPeers;
    if |data| < 12 || N32(data[..4]) != MAGIC || N32(data[4..8]) != VERSION {
      return Rejected;
    }
    var kind := N32(data[8..12]);
    var source := ReadStr(data[12..]);
    if !source.Got? {
      return if source.Rejected? then Rejected else OutOfBounds;
    }
    var timestamp := Read64(source.rest);
    if !timestamp.Got? {
      return if timestamp.Rejected? then Rejected else OutOfBounds;
    }
    var n := Read32(timestamp.rest);
    if !n.Got? {
      return if n.Rejected? then Rejected else OutOfBounds;
    }
    var chunkMap := ReadChunkMap(n.value, n.rest);
    if !chunkMap.Got? {
      return if chunkMap.Rejected? then Rejected else OutOfBounds;
    }
    var k := Read32(chunkMap.rest);
    if !k.Got? {
      return if k.Rejected? then Rejected else OutOfBounds;
    }
    var peers := ReadPeerUpdates(k.value, k.rest);
    if !peers.Got? {
      return if peers.Rejected? then Rejected else OutOfBounds;
    }
    r := Got(Message(kind, source.value, timestamp.value, chunkMap.value, peers.value), peers.rest);
  }

  /** What a receiver reads back is what the sender had, for every order in which
      the sender's containers were enumerated. */
  method SendAndReceive(m: Message) returns (r: Message)
    requires Encodable(m) && KeysAreIds(m)
    ensures r == m
  {
    hide Encode, Decode, Fits, Enumerates;
    ghost var l;
    var data;
    data, l := Serialize(m);
    GossipRoundTrip(m, l);
    var got := Deserialize(data);
    r := got.value;
  }
}

/** The gossip message format of src/p2p/node_discovery.cpp.  Sets and maps are
    written in whatever order the container yields them; a listing records that
    order.  IEEE doubles are eight opaque octets. */
module GossipCodec {
  import opened Base
  import opened Octets

  const MAGIC: nat := 0x47505350
  const VERSION: nat := 1

  datatype PeerRecord = PeerRecord(nodeId: Octets, address: Octets, port: nat, gossipPort: nat, lastSeen: nat,
                                   memoryMb: nat, diskMb: nat, latency: Octets, throughput: Octets,
                                   chunks: set<Octets>)

  datatype Message = Message(kind: nat, source: Octets, timestamp: nat,
                             chunkMap: map<Octets, set<Octets>>, peers: map<Octets, PeerRecord>)

  // ------------------------------------------------------------------- encoding

  predicate Short(s: Octets) {
    |s| < TWO32
  }

  function Str(s: Octets): Octets
    requires Short(s)
  {
    U32(|s|) + s
  }

  ghost predicate AllShort(l: seq<Octets>) {
    |l| < TWO32 && forall i :: 0 <= i < |l| ==> Short(l[i])
  }

  ghost function Strs(l: seq<Octets>): Octets
    requires forall i :: 0 <= i < |l| ==> Short(l[i])
  {
    if l == [] then [] else Str(l[0]) + Strs(l[1..])
  }

  /** A map entry: a key and its set in the order it is enumerated. */
  datatype Entry = Entry(id: Octets, chunks: seq<Octets>)

  ghost predicate EntryFits(e: Entry) {
    Short(e.id) && AllShort(e.chunks)
  }

  ghost function EncEntry(e: Entry): Octets
    requires EntryFits(e)
  {
    Str(e.id) + U32(|e.chunks|) + Strs(e.chunks)
  }

  ghost function EncEntries(l: seq<Entry>): Octets
    requires forall i :: 0 <= i < |l| ==> EntryFits(l[i])
  {
    if l == [] then [] else EncEntry(l[0]) + EncEntries(l[1..])
  }

  datatype PeerEntry = PeerEntry(id: Octets, peer: PeerRecord, chunks: seq<Octets>)

  ghost predicate RecordFits(p: PeerRecord) {
    Short(p.address) && p.port < TWO16 && p.gossipPort < TWO16 && p.lastSeen < TWO64 &&
    p.memoryMb < TWO64 && p.diskMb < TWO64 && |p.latency| == 8 && |p.throughput| == 8
  }

  ghost predicate PeerFits(e: PeerEntry) {
    Short(e.id) && RecordFits(e.peer) && AllShort(e.chunks)
  }

  function Fixed(p: PeerRecord): Octets
    requires p.port < TWO16 && p.gossipPort < TWO16 && p.lastSeen < TWO64 && p.memoryMb < TWO64 && p.diskMb < TWO64
  {
    U16(p.port) + (U16(p.gossipPort) + (U64(p.lastSeen) + (U64(p.memoryMb) + (U64(p.diskMb) + (p.latency + p.throughput)))))
  }

  ghost function EncPeer(e: PeerEntry): Octets
    requires PeerFits(e)
  {
    Str(e.id) + Str(e.peer.address) + Fixed(e.peer) + U32(|e.chunks|) + Strs(e.chunks)
  }

  ghost function EncPeers(l: seq<PeerEntry>): Octets
    requires forall i :: 0 <= i < |l| ==> PeerFits(l[i])
  {
    if l == [] then [] else EncPeer(l[0]) + EncPeers(l[1..])
  }

  /** One enumeration of a message's containers. */
  datatype Listing = Listing(entries: seq<Entry>, peers: seq<PeerEntry>)

  ghost predicate Fits(m: Message, l: Listing) {
    && m.kind < TWO32 && Short(m.source) && m.timestamp < TWO64
    && |l.entries| < TWO32 && |l.peers| < TWO32
    && (forall i :: 0 <= i < |l.entries| ==> EntryFits(l.entries[i]))
    && (forall i :: 0 <= i < |l.peers| ==> PeerFits(l.peers[i]))
  }

  ghost function Encode(m: Message, l: Listing): Octets
    requires Fits(m, l)
  {
    U32(MAGIC) + (U32(VERSION) + (U32(m.kind) + (Str(m.source) + (U64(m.timestamp) +
    (U32(|l.entries|) + (EncEntries(l.entries) + (U32(|l.peers|) + EncPeers(l.peers))))))))
  }

  ghost predicate EnumeratesMap(l: seq<Entry>, m: map<Octets, set<Octets>>) {
    && (forall i, j :: 0 <= i < j < |l| ==> l[i].id != l[j].id)
    && (forall i :: 0 <= i < |l| ==> l[i].id in m && m[l[i].id] == Elements(l[i].chunks))
    && (forall k :: k in m ==> exists i :: 0 <= i < |l| && l[i].id == k)
  }

  ghost predicate EnumeratesPeers(l: seq<PeerEntry>, m: map<Octets, PeerRecord>) {
    && (forall i, j :: 0 <= i < j < |l| ==> l[i].id != l[j].id)
    && (forall i :: 0 <= i < |l| ==> l[i].id in m && m[l[i].id] == l[i].peer && Elements(l[i].chunks) == l[i].peer.chunks)
    && (forall k :: k in m ==> exists i :: 0 <= i < |l| && l[i].id == k)
  }

  ghost predicate Enumerates(l: Listing, m: Message) {
    EnumeratesMap(l.entries, m.chunkMap) && EnumeratesPeers(l.peers, m.peers)
  }

  /** What the message must satisfy to survive: a peer's key is its node id. */
  ghost predicate KeysAreIds(m: Message) {
    Keyed(m.peers)
  }

  ghost predicate Keyed(peers: map<Octets, PeerRecord>) {
    forall k :: k in peers ==> peers[k].nodeId == k
  }

  // ------------------------------------------------------------------- decoding

  /** A read from the unread rest: a value, a refusal, or an unchecked read that
      leaves the buffer. */
  datatype Read<T> = Got(value: T, rest: Octets) | Rejected | OutOfBounds

  function Read32(s: Octets): Read<nat> {
    if |s| < 4 then OutOfBounds else Got(N32(s[..4]), s[4..])
  }

  function Read64(s: Octets): Read<nat> {
    if |s| < 8 then OutOfBounds else Got(N64(s[..8]), s[8..])
  }

  function ReadStr(s: Octets): Read<Octets> {
    match Read32(s)
    case Got(n, rest) => if |rest| < n then Rejected else Got(rest[..n], rest[n..])
    case Rejected => Rejected
    case OutOfBounds => OutOfBounds
  }

  function ReadStrs(n: nat, s: Octets, acc: set<Octets>): Read<set<Octets>> {
    if n == 0 then Got(acc, s)
    else
      match ReadStr(s)
      case Got(x, rest) => ReadStrs(n - 1, rest, acc + {x})
      case Rejected => Rejected
      case OutOfBounds => OutOfBounds
  }

  function ReadEntry(s: Octets): Read<(Octets, set<Octets>)> {
    match ReadStr(s)
    case Rejected => Rejected
    case OutOfBounds => OutOfBounds
    case Got(id, a) =>
      match Read32(a)
      case Rejected => Rejected
      case OutOfBounds => OutOfBounds
      case Got(n, b) =>
        match ReadStrs(n, b, {})
        case Rejected => Rejected
        case OutOfBounds => OutOfBounds
        case Got(chunks, rest) => Got((id, chunks), rest)
  }

  function ReadEntries(n: nat, s: Octets, acc: map<Octets, set<Octets>>): Read<map<Octets, set<Octets>>> {
    if n == 0 then Got(acc, s)
    else
      match ReadEntry(s)
      case Rejected => Rejected
      case OutOfBounds => OutOfBounds
      case Got(e, rest) => ReadEntries(n - 1, rest, acc[e.0 := e.1])
  }

  /** The fixed-size fields of a peer record. */
  function ReadFixed(s: Octets, id: Octets, address: Octets): Read<PeerRecord> {
    if |s| < 44 then OutOfBounds
    else
      Got(PeerRecord(id, address, N16(s[..2]), N16(s[2..4]), N64(s[4..12]), N64(s[12..20]), N64(s[20..28]),
                     s[28..36], s[36..44], {}), s[44..])
  }

  function ReadPeer(s: Octets): Read<PeerRecord> {
    match ReadStr(s)
    case Rejected => Rejected
    case OutOfBounds => OutOfBounds
    case Got(id, a) =>
      match ReadStr(a)
      case Rejected => Rejected
      case OutOfBounds => OutOfBounds
      case Got(address, b) =>
        match ReadFixed(b, id, address)
        case Rejected => Rejected
        case OutOfBounds => OutOfBounds
        case Got(p, c) =>
          match Read32(c)
          case Rejected => Rejected
          case OutOfBounds => OutOfBounds
          case Got(n, d) =>
            match ReadStrs(n, d, {})
            case Rejected => Rejected
            case OutOfBounds => OutOfBounds
            case Got(chunks, rest) => Got(p.(chunks := chunks), rest)
  }

  function ReadPeers(n: nat, s: Octets, acc: map<Octets, PeerRecord>): Read<map<Octets, PeerRecord>> {
    if n == 0 then Got(acc, s)
    else
      match ReadPeer(s)
      case Rejected => Rejected
      case OutOfBounds => OutOfBounds
      case Got(p, rest) => ReadPeers(n - 1, rest, acc[p.nodeId := p])
  }

  /** The fields after the source id. */
  function ReadBody(kind: nat, source: Octets, s: Octets): Read<Message> {
    match Read64(s)
    case Rejected => Rejected
    case OutOfBounds => OutOfBounds
    case Got(timestamp, a) =>
      match Read32(a)
      case Rejected => Rejected
      case OutOfBounds => OutOfBounds
      case Got(n, b) =>
        match ReadEntries(n, b, map[])
        case Rejected => Rejected
        case OutOfBounds => OutOfBounds
        case Got(chunkMap, c) =>
          match Read32(c)
          case Rejected => Rejected
          case OutOfBounds => OutOfBounds
          case Got(k, d) =>
            match ReadPeers(k, d, map[])
            case Rejected => Rejected
            case OutOfBounds => OutOfBounds
            case Got(peers, rest) => Got(Message(kind, source, timestamp, chunkMap, peers), rest)
  }

  /** `deserialize_gossip_message`, with the part of the buffer left unread. */
  function Decode(data: Octets): Read<Message> {
    if |data| < 12 || N32(data[..4]) != MAGIC || N32(data[4..8]) != VERSION then Rejected
    else
      match ReadStr(data[12..])
      case Rejected => Rejected
      case OutOfBounds => OutOfBounds
      case Got(source, rest) => ReadBody(N32(data[8..12]), source, rest)
  }

  // ----------------------------------------------------------------- round trip

  lemma Read32Of(n: nat, rest: Octets)
    requires n < TWO32
    ensures Read32(U32(n) + rest) == Got(n, rest)
  {
    Inverse32(n);
    assert (U32(n) + rest)[..4] == U32(n);
    assert (U32(n) + rest)[4..] == rest;
  }

  lemma Read64Of(n: nat, rest: Octets)
    requires n < TWO64
    ensures Read64(U64(n) + rest) == Got(n, rest)
  {
    Inverse64(n);
    assert (U64(n) + rest)[..8] == U64(n);
    assert (U64(n) + rest)[8..] == rest;
  }

  lemma ReadStrOf(s: Octets, rest: Octets)
    requires Short(s)
    ensures ReadStr(Str(s) + rest) == Got(s, rest)
  {
    hide Read32, U32;
    assert Str(s) + rest == U32(|s|) + (s + rest);
    Read32Of(|s|, s + rest);
    assert (s + rest)[..|s|] == s && (s + rest)[|s|..] == rest;
  }

  lemma {:induction false} ReadStrsOf(l: seq<Octets>, rest: Octets, acc: set<Octets>)
    requires forall i :: 0 <= i < |l| ==> Short(l[i])
    ensures ReadStrs(|l|, Strs(l) + rest, acc) == Got(acc + Elements(l), rest)
  {
    hide ReadStr, Str;
    if l == [] {
      assert Strs(l) + rest == rest;
      assert acc + Elements(l) == acc;
    } else {
      assert Strs(l) + rest == Str(l[0]) + (Strs(l[1..]) + rest);
      ReadStrOf(l[0], Strs(l[1..]) + rest);
      ReadStrsOf(l[1..], rest, acc + {l[0]});
      assert Elements(l) == {l[0]} + Elements(l[1..]);
      assert acc + {l[0]} + Elements(l[1..]) == acc + Elements(l);
    }
  }

  lemma ReadEntryOf(e: Entry, rest: Octets)
    requires EntryFits(e)
    ensures ReadEntry(EncEntry(e) + rest) == Got((e.id, Elements(e.chunks)), rest)
  {
    hide ReadStr, Read32, ReadStrs, Str, Strs, U32;
    assert EncEntry(e) + rest == Str(e.id) + (U32(|e.chunks|) + (Strs(e.chunks) + rest));
    ReadStrOf(e.id, U32(|e.chunks|) + (Strs(e.chunks) + rest));
    Read32Of(|e.chunks|, Strs(e.chunks) + rest);
    ReadStrsOf(e.chunks, rest, {});
    assert {} + Elements(e.chunks) == Elements(e.chunks);
  }

  ghost function FoldEntries(l: seq<Entry>, acc: map<Octets, set<Octets>>): map<Octets, set<Octets>> {
    if l == [] then acc else FoldEntries(l[1..], acc[l[0].id := Elements(l[0].chunks)])
  }

  lemma {:induction false} ReadEntriesOf(l: seq<Entry>, rest: Octets, acc: map<Octets, set<Octets>>)
    requires forall i :: 0 <= i < |l| ==> EntryFits(l[i])
    ensures ReadEntries(|l|, EncEntries(l) + rest, acc) == Got(FoldEntries(l, acc), rest)
  {
    hide ReadEntry, EncEntry, EntryFits;
    if l == [] {
      assert EncEntries(l) + rest == rest;
    } else {
      assert EncEntries(l) + rest == EncEntry(l[0]) + (EncEntries(l[1..]) + rest);
      ReadEntryOf(l[0], EncEntries(l[1..]) + rest);
      ReadEntriesOf(l[1..], rest, acc[l[0].id := Elements(l[0].chunks)]);
    }
  }

  lemma ReadFixedOf(p: PeerRecord, id: Octets, rest: Octets)
    requires RecordFits(p)
    ensures ReadFixed(Fixed(p) + rest, id, p.address) == Got(p.(nodeId := id, chunks := {}), rest)
  {
    Inverse64(p.lastSeen);
    Inverse64(p.memoryMb);
    Inverse64(p.diskMb);
    hide U64, N64, U16, N16;
    var s := Fixed(p) + rest;
    assert s[..2] == U16(p.port);
    assert s[2..4] == U16(p.gossipPort);
    assert s[4..12] == U64(p.lastSeen);
    assert s[12..20] == U64(p.memoryMb);
    assert s[20..28] == U64(p.diskMb);
    assert s[28..36] == p.latency;
    assert s[36..44] == p.throughput;
    assert s[44..] == rest;
  }

  lemma ReadPeerOf(e: PeerEntry, rest: Octets)
    requires PeerFits(e)
    ensures ReadPeer(EncPeer(e) + rest) == Got(e.peer.(nodeId := e.id, chunks := Elements(e.chunks)), rest)
  {
    hide ReadStr, Read32, ReadStrs, ReadFixed, Str, Strs, U32, Fixed;
    var a := U32(|e.chunks|) + (Strs(e.chunks) + rest);
    assert EncPeer(e) + rest == Str(e.id) + (Str(e.peer.address) + (Fixed(e.peer) + a));
    ReadStrOf(e.id, Str(e.peer.address) + (Fixed(e.peer) + a));
    ReadStrOf(e.peer.address, Fixed(e.peer) + a);
    ReadFixedOf(e.peer, e.id, a);
    Read32Of(|e.chunks|, Strs(e.chunks) + rest);
    ReadStrsOf(e.chunks, rest, {});
    assert {} + Elements(e.chunks) == Elements(e.chunks);
  }

  ghost function FoldPeers(l: seq<PeerEntry>, acc: map<Octets, PeerRecord>): map<Octets, PeerRecord> {
    if l == [] then acc
    else FoldPeers(l[1..], acc[l[0].id := l[0].peer.(nodeId := l[0].id, chunks := Elements(l[0].chunks))])
  }

  lemma {:induction false} ReadPeersOf(l: seq<PeerEntry>, rest: Octets, acc: map<Octets, PeerRecord>)
    requires forall i :: 0 <= i < |l| ==> PeerFits(l[i])
    ensures ReadPeers(|l|, EncPeers(l) + rest, acc) == Got(FoldPeers(l, acc), rest)
  {
    hide ReadPeer, EncPeer, PeerFits;
    if l == [] {
      assert EncPeers(l) + rest == rest;
    } else {
      assert EncPeers(l) + rest == EncPeer(l[0]) + (EncPeers(l[1..]) + rest);
      ReadPeerOf(l[0], EncPeers(l[1..]) + rest);
      ReadPeersOf(l[1..], rest, acc[l[0].id := l[0].peer.(nodeId := l[0].id, chunks := Elements(l[0].chunks))]);
    }
  }

  /** Folding a listing of distinct keys yields the listed map. */
  lemma {:induction false} FoldEntriesFacts(l: seq<Entry>, acc: map<Octets, set<Octets>>)
    requires forall i, j :: 0 <= i < j < |l| ==> l[i].id != l[j].id
    ensures var r := FoldEntries(l, acc);
            && (forall i :: 0 <= i < |l| ==> l[i].id in r && r[l[i].id] == Elements(l[i].chunks))
            && (forall k :: k in acc && (forall i :: 0 <= i < |l| ==> l[i].id != k) ==> k in r && r[k] == acc[k])
            && (forall k :: k in r ==> k in acc || exists i :: 0 <= i < |l| && l[i].id == k)
  {
    if l != [] {
      var t := l[1..];
      assert forall i :: 0 <= i < |t| ==> t[i] == l[i + 1];
      assert forall i :: 1 <= i < |l| ==> l[i] == t[i - 1];
      FoldEntriesFacts(t, acc[l[0].id := Elements(l[0].chunks)]);
      hide Elements;
    }
  }

  lemma {:induction false} FoldPeersFacts(l: seq<PeerEntry>, acc: map<Octets, PeerRecord>)
    requires forall i, j :: 0 <= i < j < |l| ==> l[i].id != l[j].id
    ensures var r := FoldPeers(l, acc);
            && (forall i :: 0 <= i < |l| ==> l[i].id in r && r[l[i].id] == l[i].peer.(nodeId := l[i].id, chunks := Elements(l[i].chunks)))
            && (forall k :: k in acc && (forall i :: 0 <= i < |l| ==> l[i].id != k) ==> k in r && r[k] == acc[k])
            && (forall k :: k in r ==> k in acc || exists i :: 0 <= i < |l| && l[i].id == k)
  {
    if l != [] {
      var t := l[1..];
      assert forall i :: 0 <= i < |t| ==> t[i] == l[i + 1];
      assert forall i :: 1 <= i < |l| ==> l[i] == t[i - 1];
      FoldPeersFacts(t, acc[l[0].id := l[0].peer.(nodeId := l[0].id, chunks := Elements(l[0].chunks))]);
      hide Elements;
    }
  }

  lemma FoldListedMap(l: seq<Entry>, m: map<Octets, set<Octets>>)
    requires EnumeratesMap(l, m)
    ensures FoldEntries(l, map[]) == m
  {
    FoldEntriesFacts(l, map[]);
    hide Elements, FoldEntries;
    var r := FoldEntries(l, map[]);
    assert forall k :: k in r <==> k in m;
    forall k | k in m
      ensures r[k] == m[k]
    {
      var i :| 0 <= i < |l| && l[i].id == k;
    }
  }

  lemma FoldListedPeers(l: seq<PeerEntry>, m: map<Octets, PeerRecord>)
    requires EnumeratesPeers(l, m) && forall k :: k in m ==> m[k].nodeId == k
    ensures FoldPeers(l, map[]) == m
  {
    FoldPeersFacts(l, map[]);
    hide Elements, FoldPeers;
    var r := FoldPeers(l, map[]);
    assert forall k :: k in r <==> k in m;
    forall k | k in m
      ensures r[k] == m[k]
    {
      var i :| 0 <= i < |l| && l[i].id == k;
    }
  }

  lemma ReadBodyOf(m: Message, l: Listing)
    requires Fits(m, l) && Enumerates(l, m) && KeysAreIds(m)
    ensures ReadBody(m.kind, m.source,
                     U64(m.timestamp) + (U32(|l.entries|) + (EncEntries(l.entries) + (U32(|l.peers|) + EncPeers(l.peers)))))
            == Got(m, [])
  {
    hide Read64, Read32, ReadEntries, ReadPeers, U64, U32, EncEntries, EncPeers, FoldEntries, FoldPeers;
    var d := EncPeers(l.peers);
    var c := U32(|l.peers|) + d;
    var b := EncEntries(l.entries) + c;
    var a := U32(|l.entries|) + b;
    Read64Of(m.timestamp, a);
    Read32Of(|l.entries|, b);
    ReadEntriesOf(l.entries, c, map[]);
    Read32Of(|l.peers|, d);
    ReadPeersOf(l.peers, [], map[]);
    assert d + [] == d;
    FoldListedMap(l.entries, m.chunkMap);
    FoldListedPeers(l.peers, m.peers);
  }

  /** Whatever order the containers were enumerated in, reading back what was
      written gives the message, leaves nothing unread and never reads outside the
      buffer. */
  lemma GossipRoundTrip(m: Message, l: Listing)
    requires Fits(m, l) && Enumerates(l, m) && KeysAreIds(m)
    ensures Decode(Encode(m, l)) == Got(m, [])
  {
    hide ReadStr, ReadBody, Str, U64, U32, N32, EncEntries, EncPeers, Fits, Enumerates;
    ReadBodyOf(m, l);
    FitsFields(m, l);
    var body := U64(m.timestamp) + (U32(|l.entries|) + (EncEntries(l.entries) + (U32(|l.peers|) + EncPeers(l.peers))));
    ReadStrOf(m.source, body);
    Inverse32(MAGIC);
    Inverse32(VERSION);
    Inverse32(m.kind);
    ThreeWords(U32(MAGIC), U32(VERSION), U32(m.kind), Str(m.source) + body);
  }

  lemma FitsFields(m: Message, l: Listing)
    requires Fits(m, l)
    ensures m.kind < TWO32 && Short(m.source) && m.timestamp < TWO64 && |l.entries| < TWO32 && |l.peers| < TWO32
    ensures forall i :: 0 <= i < |l.entries| ==> EntryFits(l.entries[i])
    ensures forall i :: 0 <= i < |l.peers| ==> PeerFits(l.peers[i])
  {
  }

  lemma ThreeWords(a: Octets, b: Octets, c: Octets, rest: Octets)
    requires |a| == |b| == |c| == 4
    ensures var s := a + (b + (c + rest)); |s| >= 12 && s[..4] == a && s[4..8] == b && s[8..12] == c && s[12..] == rest
  {
  }

  lemma {:induction false} ReadPeersKeyed(n: nat, s: Octets, acc: map<Octets, PeerRecord>)
    requires Keyed(acc)
    ensures ReadPeers(n, s, acc).Got? ==> Keyed(ReadPeers(n, s, acc).value)
    decreases n
  {
    hide ReadPeer;
    if n > 0 {
      var p := ReadPeer(s);
      if p.Got? {
        var next := acc[p.value.nodeId := p.value];
        assert Keyed(next);
        hide Keyed;
        assert ReadPeers(n, s, acc) == ReadPeers(n - 1, p.rest, next);
        ReadPeersKeyed(n - 1, p.rest, next);
      }
    }
  }

  /** Every message read has its peers under their own ids. */
  lemma ReadBodyKeyed(kind: nat, source: Octets, s: Octets)
    ensures ReadBody(kind, source, s).Got? ==> KeysAreIds(ReadBody(kind, source, s).value)
  {
    assert Keyed(map[]);
    hide Read64, Read32, ReadEntries, ReadPeers, Keyed;
    forall n: nat, d: Octets {:trigger ReadPeers(n, d, map[])}
      ensures ReadPeers(n, d, map[]).Got? ==> Keyed(ReadPeers(n, d, map[]).value)
    {
      ReadPeersKeyed(n, d, map[]);
    }
  }

  /** Exactly which messages survive: those whose peers are keyed by their ids. */
  lemma GossipRoundTripIff(m: Message, l: Listing)
    requires Fits(m, l) && Enumerates(l, m)
    ensures Decode(Encode(m, l)) == Got(m, []) <==> KeysAreIds(m)
  {
    hide Encode, Fits, Enumerates, ReadStr, ReadBody, N32, KeysAreIds;
    if KeysAreIds(m) {
      GossipRoundTrip(m, l);
    }
    var data := Encode(m, l);
    if Decode(data).Got? {
      var source := ReadStr(data[12..]);
      ReadBodyKeyed(N32(data[8..12]), source.value, source.rest);
    }
  }

  /** So two messages with the same bytes are the same message. */
  lemma GossipInjective(m: Message, l: Listing, m': Message, l': Listing)
    requires Fits(m, l) && Enumerates(l, m) && KeysAreIds(m)
    requires Fits(m', l') && Enumerates(l', m') && KeysAreIds(m')
    requires Encode(m, l) == Encode(m', l')
    ensures m == m'
  {
    hide Encode, Decode, Fits, Enumerates;
    GossipRoundTrip(m, l);
    GossipRoundTrip(m', l');
  }
}

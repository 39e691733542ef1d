/** What each gossip message of src/p2p/node_discovery.cpp teaches and makes forget,
    pair by pair, and that an announcement received is found by lookups. */
module GossipLaws {
  import opened Base
  import opened Gossip

  /** The node has the other id on record as a holder of the chunk. */
  ghost predicate Located(n: Node, c: Id, id: Id) {
    c in n.locations && id in n.locations[c]
  }

  /** The message lists the chunk under that id. */
  ghost predicate Lists(m: Message, id: Id, c: Id) {
    id in m.chunkMap && c in m.chunkMap[id]
  }

  ghost predicate KnownActive(n: Node, id: Id, now: nat) {
    id in n.peers && n.peers[id].lastSeen <= now < n.peers[id].lastSeen + 300
  }

  /** A lookup names exactly the known active peers on record for the chunk; active
      means seen within the last five minutes. */
  lemma LookupIs(n: Node, c: Id, id: Id, now: nat)
    ensures id in PeersWith(n, c, now) <==> Located(n, c, id) && KnownActive(n, id, now)
  {
  }

  lemma MergePairs(loc: Locations, cm: map<Id, set<Id>>, local: Id, c: Id, id: Id)
    ensures var z := Merge(loc, cm, local);
            (c in z && id in z[c]) <==> (c in loc && id in loc[c]) || (id in cm && id != local && c in cm[id])
  {
    if id in cm && id != local && c in cm[id] {
      assert c in Mentioned(cm, local) && id in Holders(cm, local, c);
    }
  }

  // -------------------------------------------------------------------- messages

  /** An announcement adds exactly the pairs it lists under other nodes, and adds the
      chunks to the records of the peers known. */
  lemma AnnouncementTeaches(n: Node, m: Message, now: nat, c: Id, id: Id)
    requires m.kind == ChunkAnnounce
    ensures var z := Handle(n, m, now);
            && z.local == n.local && z.peers.Keys == n.peers.Keys
            && (Located(z, c, id) <==> Located(n, c, id) || (id != n.local && Lists(m, id, c)))
            && (id in n.peers ==>
                  z.peers[id] == if id in m.chunkMap && id != n.local then Peer(n.peers[id].lastSeen, n.peers[id].chunks + m.chunkMap[id]) else n.peers[id])
  {
    MergePairs(n.locations, m.chunkMap, n.local, c, id);
    hide Merge;
  }

  /** A removal takes exactly the pairs it lists under other nodes. */
  lemma RemovalForgets(n: Node, m: Message, now: nat, c: Id, id: Id)
    requires m.kind == ChunkRemove
    ensures var z := Handle(n, m, now);
            && z.local == n.local && z.peers.Keys == n.peers.Keys
            && (Located(z, c, id) <==> Located(n, c, id) && !(id != n.local && Lists(m, id, c)))
            && (id in n.peers ==>
                  z.peers[id] == if id in m.chunkMap && id != n.local then Peer(n.peers[id].lastSeen, n.peers[id].chunks - m.chunkMap[id]) else n.peers[id])
  {
    if c in n.locations && id in m.chunkMap && id != n.local && c in m.chunkMap[id] {
      assert id in Holders(m.chunkMap, n.local, c);
    }
  }

  /** So lookups follow announcements and removals. */
  lemma LookupFollows(n: Node, m: Message, now: nat, c: Id, id: Id, then': nat)
    requires id != n.local && Lists(m, id, c)
    ensures m.kind == ChunkAnnounce ==> (id in PeersWith(Handle(n, m, now), c, then') <==> KnownActive(n, id, then'))
    ensures m.kind == ChunkRemove ==> id !in PeersWith(Handle(n, m, now), c, then')
  {
    var z := Handle(n, m, now);
    LookupIs(z, c, id, then');
    if m.kind == ChunkAnnounce {
      AnnouncementTeaches(n, m, now, c, id);
    } else if m.kind == ChunkRemove {
      RemovalForgets(n, m, now, c, id);
    }
    hide Handle, PeersWith;
  }

  /** Pairs a message does not name are as before. */
  lemma OtherPairsStay(n: Node, m: Message, now: nat, c: Id, id: Id)
    requires m.kind == ChunkAnnounce || m.kind == ChunkRemove || m.kind == StateSync
    requires !Lists(m, id, c)
    ensures Located(Handle(n, m, now), c, id) <==> Located(n, c, id)
  {
    match m.kind {
      case ChunkAnnounce => AnnouncementTeaches(n, m, now, c, id);
      case ChunkRemove => RemovalForgets(n, m, now, c, id);
      case StateSync => SyncMerges(n, m, now, c, id);
      case _ =>
    }
    hide Handle;
  }

  /** A join takes over the records of other nodes, seen now; nothing else changes. */
  lemma JoinAdopts(n: Node, m: Message, now: nat, id: Id)
    requires m.kind == NodeJoin
    ensures var z := Handle(n, m, now);
            && z.local == n.local && z.locations == n.locations
            && (id in z.peers <==> id in n.peers || (id in m.peers && id != n.local))
            && (id in z.peers ==>
                  z.peers[id] == if id in m.peers && id != n.local then Peer(now, m.peers[id].chunks) else n.peers[id])
  {
  }

  /** A leave of a known peer takes it from the peers and from every chunk; one of an
      unknown peer does nothing. */
  lemma LeaveDrops(n: Node, m: Message, now: nat, c: Id, id: Id)
    requires m.kind == NodeLeave
    ensures var z := Handle(n, m, now);
            && (m.source !in n.peers ==> z == n)
            && (m.source in n.peers ==>
                  && z.local == n.local && z.peers == n.peers - {m.source}
                  && (Located(z, c, id) <==> Located(n, c, id) && id != m.source))
            && m.source !in PeersWith(z, c, now)
  {
  }

  /** A sync takes over the records of other nodes as they are, adds the pairs listed
      under other nodes, and replaces the sender's own chunk list by the one listed
      under its id. */
  lemma SyncMerges(n: Node, m: Message, now: nat, c: Id, id: Id)
    requires m.kind == StateSync
    ensures var z := Handle(n, m, now);
            && z.local == n.local
            && (Located(z, c, id) <==> Located(n, c, id) || (id != n.local && Lists(m, id, c)))
            && (id in z.peers <==> id in n.peers || (id in m.peers && id != n.local))
            && (id in z.peers ==>
                  var before := if id in m.peers && id != n.local then m.peers[id] else n.peers[id];
                  z.peers[id] == if id == m.source && id in m.chunkMap then Peer(before.lastSeen, m.chunkMap[id]) else before)
  {
    MergePairs(n.locations, m.chunkMap, n.local, c, id);
    hide Merge;
  }

  // ---------------------------------------------------------------- a node's own part

  /** A registered node that announces has itself on record, and tells others so. */
  lemma AnnounceRecords(n: Node, c: Id, other: Id, id: Id)
    requires n.local != ""
    ensures var z, m := Announce(n, c), AnnounceMessage(n, c);
            && z.local == n.local && n.local in z.peers && c in z.peers[n.local].chunks
            && (Located(z, other, id) <==> Located(n, other, id) || (other == c && id == n.local))
            && m.kind == ChunkAnnounce && m.source == n.local && (Lists(m, id, other) <==> id == n.local && other == c)
  {
  }

  /** Retracting takes the node itself from the chunk, and the chunk from its record. */
  lemma RetractForgets(n: Node, c: Id, other: Id, id: Id)
    ensures var z := Retract(n, c);
            && z.local == n.local && z.peers.Keys == n.peers.Keys
            && (Located(z, other, id) <==> Located(n, other, id) && !(other == c && id == n.local))
            && (n.local in n.peers ==> z.peers[n.local].chunks == n.peers[n.local].chunks - {c})
  {
  }

  /** A message carries the sender's whole location table; a sync the active peers, a
      join or leave the sender's own record. */
  lemma MessageCarries(n: Node, kind: Kind, now: nat, id: Id)
    ensures var m := Create(n, kind, now);
            && m.kind == kind && m.source == n.local && m.chunkMap == n.locations
            && (id in m.peers <==>
                  (kind == StateSync && KnownActive(n, id, now)) ||
                  ((kind == NodeJoin || kind == NodeLeave) && id == n.local && id in n.peers))
            && (id in m.peers ==> m.peers[id] == n.peers[id])
  {
  }

  /** Cleaning up drops the peers not seen for five minutes, here and from every chunk. */
  lemma CleanupDrops(n: Node, now: nat, c: Id, id: Id)
    requires forall x :: x in n.peers ==> n.peers[x].lastSeen <= now
    ensures var z := Cleanup(n, now);
            && z.local == n.local && (id in z.peers <==> KnownActive(n, id, now))
            && (id in z.peers ==> z.peers[id] == n.peers[id])
            && (Located(z, c, id) <==> Located(n, c, id) && (id in n.peers ==> KnownActive(n, id, now)))
  {
  }

  lemma RemovePeerDrops(n: Node, gone: Id, c: Id, id: Id)
    ensures var z := RemovePeer(n, gone);
            && z.local == n.local && z.peers == n.peers - {gone}
            && (gone in n.peers ==> (Located(z, c, id) <==> Located(n, c, id) && id != gone))
            && (gone !in n.peers ==> z == n)
  {
  }

  // --------------------------------------------------------------------- in a run

  /** An announcement that arrives is found: after one node announces a chunk and
      another receives the message, a lookup at the other names the first, if it knows
      it as an active peer. */
  lemma AnnouncedIsFound(names: Names, net: Net, p: nat, q: nat, c: Id, now: nat, then': nat)
    requires Legal(names, net, p, DoAnnounce(c)) && q in net.nodes && p != q
    requires net.nodes[p].local != "" && net.nodes[q].local != net.nodes[p].local
    requires KnownActive(net.nodes[q], net.nodes[p].local, then')
    ensures var id := net.nodes[p].local;
            var told := Next(names, net, p, DoAnnounce(c));
            var receive := DoReceive(AnnounceMessage(net.nodes[p], c), now);
            Legal(names, told, q, receive) && q in Next(names, told, q, receive).nodes &&
            id in PeersWith(Next(names, told, q, receive).nodes[q], c, then')
  {
    var n, id := net.nodes[q], net.nodes[p].local;
    var m := AnnounceMessage(net.nodes[p], c);
    assert Lists(m, id, c) && m.kind == ChunkAnnounce;
    LookupFollows(n, m, now, c, id, then');
    hide Handle, PeersWith, Announce, AnnounceMessage;
  }
}

/** The node discovery object of src/p2p/node_discovery.cpp: its message handlers
    walk the message's containers in any order and update the tables in place.
    Each is proved against the functions of `Gossip`. */
module GossipNode {
  import opened Base
  import opened Gossip

  // ---------------------------------------------- one entry at a time

  ghost function Only(cm: map<Id, set<Id>>, done: set<Id>): map<Id, set<Id>> {
    map k | k in cm && k in done :: cm[k]
  }

  lemma OnlyAll(cm: map<Id, set<Id>>)
    ensures Only(cm, {}) == map[] && Only(cm, cm.Keys) == cm
  {
  }

  lemma AddOne(loc: Locations, done: set<Id>, c: Id, n: Id)
    ensures var l := AddAll(loc, done, n);
            AddAll(loc, done + {c}, n) == l[c := At(l, c) + {n}]
  {
    var l := AddAll(loc, done, n);
    var r := l[c := At(l, c) + {n}];
    var w := AddAll(loc, done + {c}, n);
    assert w.Keys == r.Keys;
    assert forall x :: x in w ==> w[x] == r[x];
  }

  lemma AddNone(loc: Locations, n: Id)
    ensures AddAll(loc, {}, n) == loc
  {
    var w := AddAll(loc, {}, n);
    assert w.Keys == loc.Keys;
    assert forall x :: x in w ==> w[x] == loc[x];
  }

  lemma MergeNone(loc: Locations, local: Id)
    ensures Merge(loc, map[], local) == loc
  {
    var w := Merge(loc, map[], local);
    assert w.Keys == loc.Keys;
    assert forall x :: x in w ==> w[x] == loc[x];
  }

  lemma HoldersMore(cm: map<Id, set<Id>>, done: set<Id>, k: Id, local: Id, c: Id)
    requires k in cm && k !in done
    ensures Holders(Only(cm, done + {k}), local, c) ==
            Holders(Only(cm, done), local, c) + if k != local && c in cm[k] then {k} else {}
  {
  }

  lemma MentionedIffHeld(cm: map<Id, set<Id>>, local: Id, c: Id)
    ensures c in Mentioned(cm, local) <==> Holders(cm, local, c) != {}
  {
    assert c in Mentioned(cm, local) <==> exists n :: n in cm && n != local && c in cm[n];
    assert forall n :: n in Holders(cm, local, c) <==> n in cm && n != local && c in cm[n];
  }

  lemma MergeAt(loc: Locations, cm: map<Id, set<Id>>, local: Id, c: Id)
    ensures c in Merge(loc, cm, local) <==> c in loc || Holders(cm, local, c) != {}
    ensures At(Merge(loc, cm, local), c) == At(loc, c) + Holders(cm, local, c)
  {
    MentionedIffHeld(cm, local, c);
    hide Holders, Mentioned;
  }

  lemma AddAllAt(loc: Locations, chunks: set<Id>, n: Id, c: Id)
    ensures c in AddAll(loc, chunks, n) <==> c in loc || c in chunks
    ensures At(AddAll(loc, chunks, n), c) == At(loc, c) + if c in chunks then {n} else {}
  {
  }

  lemma SameTable(a: Locations, b: Locations)
    requires forall c :: (c in a <==> c in b) && At(a, c) == At(b, c)
    ensures a == b
  {
    assert forall c :: c in a ==> a[c] == At(a, c) && b[c] == At(b, c);
  }

  /** Merging one more entry of the chunk map. */
  lemma MergeMore(loc: Locations, cm: map<Id, set<Id>>, done: set<Id>, k: Id, local: Id)
    requires k in cm && k !in done
    ensures var l := Merge(loc, Only(cm, done), local);
            Merge(loc, Only(cm, done + {k}), local) == if k == local then l else AddAll(l, cm[k], k)
  {
    hide *;
    var small, big := Only(cm, done), Only(cm, done + {k});
    var l := Merge(loc, small, local);
    var w := Merge(loc, big, local);
    var r := if k == local then l else AddAll(l, cm[k], k);
    forall c
      ensures (c in w <==> c in r) && At(w, c) == At(r, c)
    {
      MergeAt(loc, small, local, c);
      MergeAt(loc, big, local, c);
      HoldersMore(cm, done, k, local, c);
      AddAllAt(l, cm[k], k, c);
    }
    SameTable(w, r);
  }

  /** Erasing a node from the location sets of the chunks listed. */
  ghost function DropAll(loc: Locations, chunks: set<Id>, n: Id): Locations {
    map c | c in loc :: loc[c] - if c in chunks then {n} else {}
  }

  /** Subtracting one more entry of the chunk map. */
  lemma SubtractMore(loc: Locations, cm: map<Id, set<Id>>, done: set<Id>, k: Id, local: Id)
    requires k in cm && k !in done
    ensures var l := Subtract(loc, Only(cm, done), local);
            Subtract(loc, Only(cm, done + {k}), local) == if k == local then l else DropAll(l, cm[k], k)
  {
    var l := Subtract(loc, Only(cm, done), local);
    var w := Subtract(loc, Only(cm, done + {k}), local);
    var r := if k == local then l else DropAll(l, cm[k], k);
    hide Only, Holders;
    forall c | c in loc
      ensures w[c] == r[c]
    {
      HoldersMore(cm, done, k, local, c);
    }
  }

  lemma SubtractNone(loc: Locations, local: Id)
    ensures Subtract(loc, map[], local) == loc
  {
    assert forall c :: c in loc ==> Subtract(loc, map[], local)[c] == loc[c];
  }

  function Stamped(p: Peer, stamp: Option<nat>): Peer {
    if stamp.Some? then p.(lastSeen := stamp.value) else p
  }

  /** The peer table once the records of `done` have been taken over. */
  ghost function Adopted(peers: map<Id, Peer>, updates: map<Id, Peer>, stamp: Option<nat>, done: set<Id>, local: Id): map<Id, Peer>
  {
    peers + map id | id in updates && id in done && id != local :: Stamped(updates[id], stamp)
  }

  lemma AdoptNone(peers: map<Id, Peer>, updates: map<Id, Peer>, stamp: Option<nat>, local: Id)
    ensures Adopted(peers, updates, stamp, {}, local) == peers
  {
  }

  lemma AdoptOne(peers: map<Id, Peer>, updates: map<Id, Peer>, stamp: Option<nat>, done: set<Id>, k: Id, local: Id)
    requires k in updates
    ensures var w := Adopted(peers, updates, stamp, done, local);
            Adopted(peers, updates, stamp, done + {k}, local) == if k == local then w else w[k := Stamped(updates[k], stamp)]
  {
    hide Stamped;
  }

  lemma AdoptAll(peers: map<Id, Peer>, updates: map<Id, Peer>, stamp: Option<nat>, local: Id)
    ensures Adopted(peers, updates, stamp, updates.Keys, local) ==
            peers + map id | id in updates && id != local :: Stamped(updates[id], stamp)
  {
    hide Stamped;
    assert (map id | id in updates && id in updates.Keys && id != local :: Stamped(updates[id], stamp)) ==
           (map id | id in updates && id != local :: Stamped(updates[id], stamp));
  }

  class NodeDiscovery {
    var local: Id
    var peers: map<Id, Peer>
    var locations: Locations

    ghost function Abs(): Node
      reads this
    {
      Node(local, peers, locations)
    }

    constructor ()
      ensures Abs() == Node("", map[], map[])
    {
      local, peers, locations := "", map[], map[];
    }

    /** `chunk_locations[c].insert(n)` for every chunk listed. */
    method AddChunks(n: Id, chunks: set<Id>)
      modifies this`locations
      ensures locations == AddAll(old(locations), chunks, n)
    {
      AddNone(locations, n);
      hide *;
      var todo := chunks;
      ghost var done: set<Id> := {};
      while todo != {}
        invariant done + todo == chunks
        invariant locations == AddAll(old(locations), done, n)
        decreases |todo|
      {
        var c :| c in todo;
        AddOne(old(locations), done, c, n);
        locations := locations[c := At(locations, c) + {n}];
        todo, done := todo - {c}, done + {c};
      }
      assert done == chunks;
    }

    /** The location loop of the announce and sync handlers. */
    method MergeChunkMap(cm: map<Id, set<Id>>)
      modifies this`locations
      ensures locations == Merge(old(locations), cm, local)
    {
      MergeNone(locations, local);
      OnlyAll(cm);
      hide *;
      var todo := cm.Keys;
      ghost var done: set<Id> := {};
      while todo != {}
        invariant todo <= cm.Keys && done == cm.Keys - todo
        invariant locations == Merge(old(locations), Only(cm, done), local)
        decreases |todo|
      {
        var k :| k in todo;
        MergeMore(old(locations), cm, done, k, local);
        if k != local {
          AddChunks(k, cm[k]);
        }
        todo, done := todo - {k}, done + {k};
      }
      assert done == cm.Keys;
    }

    method EraseChunks(n: Id, chunks: set<Id>)
      modifies this`locations
      ensures locations == DropAll(old(locations), chunks, n)
    {
      var todo := chunks;
      while todo != {}
        invariant todo <= chunks && old(locations).Keys == locations.Keys
        invariant forall c :: c in locations ==>
                    locations[c] == old(locations)[c] - if c in chunks && c !in todo then {n} else {}
        decreases |todo|
      {
        var c :| c in todo;
        if c in locations {
          locations := locations[c := locations[c] - {n}];
        }
        todo := todo - {c};
      }
    }

    /** The location loop of the removal handler. */
    method SubtractChunkMap(cm: map<Id, set<Id>>)
      modifies this`locations
      ensures locations == Subtract(old(locations), cm, local)
    {
      SubtractNone(locations, local);
      OnlyAll(cm);
      hide *;
      var todo := cm.Keys;
      ghost var done: set<Id> := {};
      while todo != {}
        invariant todo <= cm.Keys && done == cm.Keys - todo
        invariant locations == Subtract(old(locations), Only(cm, done), local)
        decreases |todo|
      {
        var k :| k in todo;
        SubtractMore(old(locations), cm, done, k, local);
        if k != local {
          EraseChunks(k, cm[k]);
        }
        todo, done := todo - {k}, done + {k};
      }
      assert done == cm.Keys;
    }

    /** `locs.erase(id)` in every location set. */
    method DropFromLocations(id: Id)
      modifies this`locations
      ensures locations == DropNode(old(locations), id)
    {
      var todo := locations.Keys;
      while todo != {}
        invariant todo <= old(locations).Keys == locations.Keys
        invariant forall c :: c in locations ==> locations[c] == if c in todo then old(locations)[c] else old(locations)[c] - {id}
        decreases |todo|
      {
        var c :| c in todo;
        locations := locations[c := locations[c] - {id}];
        todo := todo - {c};
      }
      assert locations == DropNode(old(locations), id);
    }

    method AnnounceChunk(c: Id)
      modifies this
      ensures Abs() == Announce(old(Abs()), c)
    {
      if local == "" {
        return;
      }
      AddChunks(local, {c});
      var p := if local in peers then peers[local] else Peer(0, {});
      peers := peers[local := p.(chunks := p.chunks + {c})];
    }

    method RemoveChunkAnnouncement(c: Id)
      modifies this
      ensures Abs() == Retract(old(Abs()), c)
    {
      if c in locations {
        locations := locations[c := locations[c] - {local}];
      }
      if local in peers {
        peers := peers[local := peers[local].(chunks := peers[local].chunks - {c})];
      }
    }

    /** Takes over the peer records of a message, the local node's excepted. */
    method AdoptPeers(updates: map<Id, Peer>, stamp: Option<nat>)
      modifies this`peers
      ensures peers == Adopted(old(peers), updates, stamp, updates.Keys, local)
    {
      var todo := updates.Keys;
      ghost var done: set<Id> := {};
      hide *;
      AdoptNone(peers, updates, stamp, local);
      while todo != {}
        invariant todo <= updates.Keys && done == updates.Keys - todo
        invariant peers == Adopted(old(peers), updates, stamp, done, local)
        decreases |todo|
      {
        var id :| id in todo;
        AdoptOne(old(peers), updates, stamp, done, id, local);
        if id != local {
          peers := peers[id := Stamped(updates[id], stamp)];
        }
        todo, done := todo - {id}, done + {id};
      }
      assert done == updates.Keys;
    }

    method HandleNodeJoin(m: Message, now: nat)
      modifies this
      ensures Abs() == OnJoin(old(Abs()), m, now)
    {
      AdoptPeers(m.peers, Some(now));
      AdoptAll(old(peers), m.peers, Some(now), local);
    }

    method HandleNodeLeave(m: Message)
      modifies this
      ensures Abs() == OnLeave(old(Abs()), m)
    {
      if m.source in peers {
        peers := peers - {m.source};
        DropFromLocations(m.source);
      }
    }

    /** Adds or erases the listed chunks in the records of known peers. */
    method TouchPeers(cm: map<Id, set<Id>>, add: bool)
      modifies this`peers
      ensures peers == map id | id in old(peers) ::
                         if id in cm && id != local
                         then old(peers)[id].(chunks := if add then old(peers)[id].chunks + cm[id] else old(peers)[id].chunks - cm[id])
                         else old(peers)[id]
    {
      var todo := cm.Keys;
      while todo != {}
        invariant todo <= cm.Keys && peers.Keys == old(peers).Keys
        invariant forall id :: id in peers ==>
                    peers[id] == if id in cm && id !in todo && id != local
                                 then old(peers)[id].(chunks := if add then old(peers)[id].chunks + cm[id] else old(peers)[id].chunks - cm[id])
                                 else old(peers)[id]
        decreases |todo|
      {
        var id :| id in todo;
        if id != local && id in peers {
          peers := peers[id := peers[id].(chunks := if add then peers[id].chunks + cm[id] else peers[id].chunks - cm[id])];
        }
        todo := todo - {id};
      }
    }

    method HandleChunkAnnounce(m: Message)
      modifies this
      ensures Abs() == OnAnnounce(old(Abs()), m)
    {
      hide Merge;
      MergeChunkMap(m.chunkMap);
      TouchPeers(m.chunkMap, true);
      assert peers == OnAnnounce(old(Abs()), m).peers;
    }

    method HandleChunkRemove(m: Message)
      modifies this
      ensures Abs() == OnRemove(old(Abs()), m)
    {
      hide Subtract;
      SubtractChunkMap(m.chunkMap);
      TouchPeers(m.chunkMap, false);
      assert peers == OnRemove(old(Abs()), m).peers;
    }

    method HandleStateSync(m: Message)
      modifies this
      ensures Abs() == OnSync(old(Abs()), m)
    {
      hide Merge, Adopted;
      AdoptPeers(m.peers, None);
      assert peers == old(peers) + map id | id in m.peers && id != local :: m.peers[id] by {
        AdoptAll(old(peers), m.peers, None, local);
        assert (map id | id in m.peers && id != local :: m.peers[id]) ==
               (map id | id in m.peers && id != local :: Stamped(m.peers[id], None));
      }
      MergeChunkMap(m.chunkMap);
      if m.source in peers && m.source in m.chunkMap {
        peers := peers[m.source := peers[m.source].(chunks := m.chunkMap[m.source])];
      }
    }

    /** The dispatch on the message type. */
    method HandleMessage(m: Message, now: nat)
      modifies this
      ensures Abs() == Handle(old(Abs()), m, now)
    {
      hide OnJoin, OnLeave, OnAnnounce, OnRemove, OnSync;
      match m.kind {
        case NodeJoin => HandleNodeJoin(m, now);
        case NodeLeave => HandleNodeLeave(m);
        case ChunkAnnounce => HandleChunkAnnounce(m);
        case ChunkRemove => HandleChunkRemove(m);
        case StateSync => HandleStateSync(m);
      }
    }

    /** `get_peers_with_chunk`: the records returned, with their ids, in some order. */
    method GetPeersWithChunk(c: Id, now: nat) returns (found: seq<(Id, Peer)>)
      ensures NoDup(found)
      ensures forall id, p :: (id, p) in found <==> id in PeersWith(Abs(), c, now) && p == peers[id]
    {
      found := [];
      if c !in locations {
        return;
      }
      var todo := locations[c];
      while todo != {}
        invariant todo <= locations[c] && NoDup(found)
        invariant forall id, p :: (id, p) in found <==>
                    id in locations[c] && id !in todo && id in peers && p == peers[id] && Active(peers[id], now)
        decreases |todo|
      {
        var id :| id in todo;
        if id in peers && Active(peers[id], now) {
          found := found + [(id, peers[id])];
        }
        todo := todo - {id};
      }
    }
  }
}

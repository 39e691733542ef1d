/** Gossip state and its message handlers, src/p2p/node_discovery.cpp, and what
    any number of nodes can come to believe about who holds a chunk. */
module Gossip {
  import opened Base

  type Id = string
  type Locations = map<Id, set<Id>>

  datatype Peer = Peer(lastSeen: nat, chunks: set<Id>)

  const TIMEOUT: nat := 300

  predicate Active(p: Peer, now: nat) {
    p.lastSeen <= now < p.lastSeen + TIMEOUT
  }

  datatype Kind = NodeJoin | NodeLeave | ChunkAnnounce | ChunkRemove | StateSync

  /** `chunkMap` is meant to go from node to chunks; a state sync fills it with
      `chunk_locations`, which goes from chunk to nodes. */
  datatype Message = Message(kind: Kind, source: Id, chunkMap: map<Id, set<Id>>, peers: map<Id, Peer>)

  datatype Node = Node(local: Id, peers: map<Id, Peer>, locations: Locations)

  // ------------------------------------------------------------ location tables

  function At(loc: Locations, c: Id): set<Id> {
    if c in loc then loc[c] else {}
  }

  function AddAll(loc: Locations, chunks: set<Id>, n: Id): Locations {
    map c | c in loc.Keys + chunks :: At(loc, c) + if c in chunks then {n} else {}
  }

  /** Every chunk listed under a node other than the local one. */
  function Mentioned(cm: map<Id, set<Id>>, local: Id): set<Id> {
    set n, c | n in cm && n != local && c in cm[n] :: c
  }

  function Holders(cm: map<Id, set<Id>>, local: Id, c: Id): set<Id> {
    set n | n in cm && n != local && c in cm[n]
  }

  function Merge(loc: Locations, cm: map<Id, set<Id>>, local: Id): Locations {
    map c | c in loc.Keys + Mentioned(cm, local) :: At(loc, c) + Holders(cm, local, c)
  }

  function Subtract(loc: Locations, cm: map<Id, set<Id>>, local: Id): Locations {
    map c | c in loc :: loc[c] - Holders(cm, local, c)
  }

  function DropNode(loc: Locations, id: Id): Locations {
    map c | c in loc :: loc[c] - {id}
  }

  // ------------------------------------------------------------------- handlers

  function Announce(n: Node, c: Id): Node {
    if n.local == "" then n
    else
      var p := if n.local in n.peers then n.peers[n.local] else Peer(0, {});
      n.(locations := AddAll(n.locations, {c}, n.local), peers := n.peers[n.local := p.(chunks := p.chunks + {c})])
  }

  function AnnounceMessage(n: Node, c: Id): Message {
    Message(ChunkAnnounce, n.local, map[n.local := {c}], map[])
  }

  function Retract(n: Node, c: Id): Node {
    var loc := if c in n.locations then n.locations[c := n.locations[c] - {n.local}] else n.locations;
    var peers := if n.local in n.peers then n.peers[n.local := n.peers[n.local].(chunks := n.peers[n.local].chunks - {c})]
                 else n.peers;
    n.(locations := loc, peers := peers)
  }

  /** `create_gossip_message`. */
  function Create(n: Node, kind: Kind, now: nat): Message {
    Message(kind, n.local, n.locations,
            if kind == StateSync then map id | id in n.peers && Active(n.peers[id], now) :: n.peers[id]
            else if (kind == NodeJoin || kind == NodeLeave) && n.local in n.peers then map[n.local := n.peers[n.local]]
            else map[])
  }

  function OnJoin(n: Node, m: Message, now: nat): Node {
    n.(peers := n.peers + map id | id in m.peers && id != n.local :: m.peers[id].(lastSeen := now))
  }

  function OnLeave(n: Node, m: Message): Node {
    if m.source in n.peers then n.(peers := n.peers - {m.source}, locations := DropNode(n.locations, m.source)) else n
  }

  function OnAnnounce(n: Node, m: Message): Node {
    n.(locations := Merge(n.locations, m.chunkMap, n.local),
       peers := map id | id in n.peers ::
                  if id in m.chunkMap && id != n.local then n.peers[id].(chunks := n.peers[id].chunks + m.chunkMap[id])
                  else n.peers[id])
  }

  function OnRemove(n: Node, m: Message): Node {
    n.(locations := Subtract(n.locations, m.chunkMap, n.local),
       peers := map id | id in n.peers ::
                  if id in m.chunkMap && id != n.local then n.peers[id].(chunks := n.peers[id].chunks - m.chunkMap[id])
                  else n.peers[id])
  }

  function OnSync(n: Node, m: Message): Node {
    var peers := n.peers + map id | id in m.peers && id != n.local :: m.peers[id];
    n.(locations := Merge(n.locations, m.chunkMap, n.local),
       peers := if m.source in peers && m.source in m.chunkMap
                then peers[m.source := peers[m.source].(chunks := m.chunkMap[m.source])] else peers)
  }

  function Handle(n: Node, m: Message, now: nat): Node {
    match m.kind
    case NodeJoin => OnJoin(n, m, now)
    case NodeLeave => OnLeave(n, m)
    case ChunkAnnounce => OnAnnounce(n, m)
    case ChunkRemove => OnRemove(n, m)
    case StateSync => OnSync(n, m)
  }

  function RemovePeer(n: Node, id: Id): Node {
    if id in n.peers then n.(peers := n.peers - {id}, locations := DropNode(n.locations, id)) else n
  }

  /** `cleanup_stale_peers`. */
  function Cleanup(n: Node, now: nat): Node {
    var stale := set id | id in n.peers && !Active(n.peers[id], now);
    n.(peers := n.peers - stale, locations := map c | c in n.locations :: n.locations[c] - stale)
  }

  /** `get_peers_with_chunk`, as the set of the node ids returned. */
  function PeersWith(n: Node, c: Id, now: nat): set<Id> {
    set id | id in At(n.locations, c) && id in n.peers && Active(n.peers[id], now)
  }

  // ----------------------------------------------------------------- provenance

  /** Announcements made so far: node and chunk. */
  type Announced = set<(Id, Id)>

  /** One of the two announced the other. */
  ghost predicate Related(log: Announced, a: Id, b: Id) {
    (a, b) in log || (b, a) in log
  }

  ghost predicate Traceable(log: Announced, table: map<Id, set<Id>>) {
    forall a, b :: a in table && b in table[a] ==> Related(log, a, b)
  }

  lemma MergeTraceable(log: Announced, loc: Locations, cm: map<Id, set<Id>>, local: Id)
    requires Traceable(log, loc) && Traceable(log, cm)
    ensures Traceable(log, Merge(loc, cm, local))
  {
    var r := Merge(loc, cm, local);
    forall c, n | c in r && n in r[c]
      ensures Related(log, c, n)
    {
      if n !in At(loc, c) {
        assert n in Holders(cm, local, c);
        assert Related(log, n, c);
      }
    }
  }

  lemma TraceableGrows(log: Announced, log': Announced, table: map<Id, set<Id>>)
    requires Traceable(log, table) && log <= log'
    ensures Traceable(log', table)
  {
  }

  lemma ShrunkTraceable(log: Announced, loc: Locations, r: Locations)
    requires Traceable(log, loc) && forall c :: c in r ==> c in loc && r[c] <= loc[c]
    ensures Traceable(log, r)
  {
  }

  lemma HandleTraceable(log: Announced, n: Node, m: Message, now: nat)
    requires Traceable(log, n.locations) && Traceable(log, m.chunkMap)
    ensures Traceable(log, Handle(n, m, now).locations)
  {
    hide Traceable, Merge, Holders;
    match m.kind {
      case NodeJoin =>
      case NodeLeave => ShrunkTraceable(log, n.locations, OnLeave(n, m).locations);
      case ChunkAnnounce => MergeTraceable(log, n.locations, m.chunkMap, n.local);
      case ChunkRemove => ShrunkTraceable(log, n.locations, OnRemove(n, m).locations);
      case StateSync => MergeTraceable(log, n.locations, m.chunkMap, n.local);
    }
  }

  // ----------------------------------------------------------------- whole runs

  /** All nodes, every message ever sent (each may be lost, duplicated, delayed
      and reordered) and the announcements made. */
  datatype Net = Net(nodes: map<nat, Node>, sent: set<Message>, log: Announced)

  datatype Step =
    | DoRegister(id: Id, peer: Peer)
    | DoUnregister
    | DoAnnounce(chunk: Id)
    | DoRetract(chunk: Id)
    | DoSend(kind: Kind, now: nat)
    | DoReceive(message: Message, now: nat)
    | DoAddPeer(id: Id, peer: Peer)
    | DoRemovePeer(id: Id)
    | DoCleanup(now: nat)

  /** Node ids and chunk ids in use. */
  datatype Names = Names(nodes: iset<Id>, chunks: iset<Id>)

  ghost predicate Legal(names: Names, net: Net, p: nat, s: Step) {
    p in net.nodes &&
    match s
    case DoRegister(id, _) => id in names.nodes
    case DoAnnounce(c) => c in names.chunks
    case DoReceive(m, _) => m in net.sent
    case _ => true
  }

  ghost function Next(names: Names, net: Net, p: nat, s: Step): Net
    requires Legal(names, net, p, s)
  {
    var n := net.nodes[p];
    match s
    case DoRegister(id, peer) => net.(nodes := net.nodes[p := n.(local := id, peers := n.peers[id := peer])])
    case DoUnregister => net.(nodes := net.nodes[p := n.(local := "")])
    case DoAnnounce(c) =>
      if n.local == "" then net
      else Net(net.nodes[p := Announce(n, c)], net.sent + {AnnounceMessage(n, c)}, net.log + {(n.local, c)})
    case DoRetract(c) =>
      net.(nodes := net.nodes[p := Retract(n, c)], sent := net.sent + {Message(ChunkRemove, n.local, map[], map[])})
    case DoSend(kind, now) => net.(sent := net.sent + {Create(n, kind, now)})
    case DoReceive(m, now) => net.(nodes := net.nodes[p := Handle(n, m, now)])
    case DoAddPeer(id, peer) => net.(nodes := net.nodes[p := n.(peers := n.peers[id := peer])])
    case DoRemovePeer(id) => net.(nodes := net.nodes[p := RemovePeer(n, id)])
    case DoCleanup(now) => net.(nodes := net.nodes[p := Cleanup(n, now)])
  }

  ghost predicate Sound(names: Names, net: Net) {
    && (forall p :: p in net.nodes ==> Traceable(net.log, net.nodes[p].locations))
    && (forall p :: p in net.nodes ==> net.nodes[p].local == "" || net.nodes[p].local in names.nodes)
    && (forall m :: m in net.sent ==> Traceable(net.log, m.chunkMap))
    && (forall a :: a in net.log ==> a.0 in names.nodes && a.1 in names.chunks)
  }

  lemma AnnounceSound(names: Names, net: Net, p: nat, c: Id)
    requires Sound(names, net) && p in net.nodes && c in names.chunks
    ensures Sound(names, Next(names, net, p, DoAnnounce(c))) && net.log <= Next(names, net, p, DoAnnounce(c)).log
  {
    var n := net.nodes[p];
    var z := Next(names, net, p, DoAnnounce(c));
    if n.local != "" {
      assert Traceable(z.log, Announce(n, c).locations);
      assert Traceable(z.log, AnnounceMessage(n, c).chunkMap);
      forall q | q in net.nodes
        ensures Traceable(z.log, net.nodes[q].locations)
      {
        TraceableGrows(net.log, z.log, net.nodes[q].locations);
      }
      forall m | m in net.sent
        ensures Traceable(z.log, m.chunkMap)
      {
        TraceableGrows(net.log, z.log, m.chunkMap);
      }
      hide Traceable, Announce, AnnounceMessage;
    }
  }

  lemma NextSound(names: Names, net: Net, p: nat, s: Step)
    requires Sound(names, net) && Legal(names, net, p, s)
    ensures Sound(names, Next(names, net, p, s)) && net.log <= Next(names, net, p, s).log
  {
    var n := net.nodes[p];
    match s {
      case DoAnnounce(c) => AnnounceSound(names, net, p, c);
      case DoReceive(m, now) =>
        HandleTraceable(net.log, n, m, now);
        hide Traceable, Merge, Subtract, DropNode;
      case DoRetract(c) =>
        ShrunkTraceable(net.log, n.locations, Retract(n, c).locations);
        assert Traceable(net.log, map[]);
        hide Traceable;
      case DoRemovePeer(id) =>
        ShrunkTraceable(net.log, n.locations, RemovePeer(n, id).locations);
        hide Traceable;
      case DoCleanup(now) =>
        ShrunkTraceable(net.log, n.locations, Cleanup(n, now).locations);
        hide Traceable;
      case _ => hide Traceable;
    }
  }

  /** A run of the network. */
  ghost predicate Run(names: Names, states: seq<Net>, steps: seq<(nat, Step)>) {
    && |states| == |steps| + 1
    && forall i :: 0 <= i < |steps| ==>
         Legal(names, states[i], steps[i].0, steps[i].1) && states[i + 1] == Next(names, states[i], steps[i].0, steps[i].1)
  }

  lemma {:induction false} RunSound(names: Names, states: seq<Net>, steps: seq<(nat, Step)>, i: nat)
    requires Run(names, states, steps) && Sound(names, states[0]) && i < |states|
    ensures Sound(names, states[i])
  {
    if i > 0 {
      RunSound(names, states, steps, i - 1);
      NextSound(names, states[i - 1], steps[i - 1].0, steps[i - 1].1);
    }
  }

  ghost predicate Blank(net: Net) {
    net.sent == {} && net.log == {} && forall p :: p in net.nodes ==> net.nodes[p].locations == map[] && net.nodes[p].local == ""
  }

  /** Provenance.  In every run of any number of nodes, whatever messages were
      lost, duplicated or reordered, every pair in a location table or in a
      message joins a node and a chunk it announced, in one orientation or the
      other; and the lookup of a chunk whose id is no node's id names only nodes that
      announced it before. */
  lemma LookupsAreTraceable(names: Names, states: seq<Net>, steps: seq<(nat, Step)>, i: nat, p: nat, c: Id, now: nat)
    requires Run(names, states, steps) && Blank(states[0]) && i < |states| && p in states[i].nodes
    ensures Traceable(states[i].log, states[i].nodes[p].locations)
    ensures forall m :: m in states[i].sent ==> Traceable(states[i].log, m.chunkMap)
    ensures c !in names.nodes ==>
              forall id :: id in PeersWith(states[i].nodes[p], c, now) ==> (id, c) in states[i].log
  {
    assert Sound(names, states[0]);
    RunSound(names, states, steps, i);
    var net := states[i];
    if c !in names.nodes {
      forall id | id in PeersWith(net.nodes[p], c, now)
        ensures (id, c) in net.log
      {
        assert Related(net.log, c, id);
        assert (c, id) in net.log ==> (c, id).0 in names.nodes;
      }
    }
  }

  /** Every lookup of `c`, at any node in any state of any run, names only nodes that
      announced `c` before. */
  ghost predicate LookupsHonest(names: Names, c: Id) {
    forall states: seq<Net>, steps, i: nat, p, now ::
      Run(names, states, steps) && Blank(states[0]) && i < |states| && p in states[i].nodes ==>
        HonestAt(states[i], p, c, now)
  }

  ghost predicate HonestAt(net: Net, p: nat, c: Id, now: nat)
    requires p in net.nodes
  {
    forall id :: id in PeersWith(net.nodes[p], c, now) ==> (id, c) in net.log
  }

  /** No node announces before it has an id. */
  ghost predicate Named(net: Net) {
    forall a :: a in net.log ==> a.0 != ""
  }

  lemma {:induction false} RunNamed(names: Names, states: seq<Net>, steps: seq<(nat, Step)>, i: nat)
    requires Run(names, states, steps) && Blank(states[0]) && i < |states|
    ensures Named(states[i])
  {
    if i > 0 {
      RunNamed(names, states, steps, i - 1);
      var net, p, s := states[i - 1], steps[i - 1].0, steps[i - 1].1;
      assert Next(names, net, p, s).log == if s.DoAnnounce? && net.nodes[p].local != "" then net.log + {(net.nodes[p].local, s.chunk)} else net.log;
    }
  }

  /** What a caller can check: the id is no node's, or the empty one, or no other
      chunk id is in use. */
  ghost predicate Unambiguous(names: Names, c: Id) {
    c !in names.nodes || c == "" || forall x :: x in names.chunks ==> x == c
  }

  lemma UnambiguousIsHonest(names: Names, states: seq<Net>, steps: seq<(nat, Step)>, i: nat, p: nat, c: Id, now: nat)
    requires Run(names, states, steps) && Blank(states[0]) && i < |states| && p in states[i].nodes && Unambiguous(names, c)
    ensures HonestAt(states[i], p, c, now)
  {
    assert Sound(names, states[0]);
    RunSound(names, states, steps, i);
    RunNamed(names, states, steps, i);
    var net := states[i];
    hide Run, Blank;
    forall id | id in PeersWith(net.nodes[p], c, now)
      ensures (id, c) in net.log
    {
      assert Related(net.log, c, id);
      assert (c, id) in net.log ==> (c, id).0 in names.nodes && (c, id).1 in names.chunks && (c, id).0 != "";
    }
  }

  // -------------------------------------------------------- a run that misleads

  const SEEN := Peer(0, {})

  /** A node registered as `c` announces `x` and sends a sync; another, which knows a
      peer called `x`, receives it. */
  ghost function Misleading(c: Id, x: Id): seq<(nat, Step)> {
    [(0, DoRegister(c, SEEN)), (0, DoAnnounce(x)), (0, DoSend(StateSync, 0)),
     (1, if x == "" then DoRegister(c, SEEN) else DoUnregister), (1, DoAddPeer(x, SEEN)), (1, DoReceive(Flipped(c, x), 0))]
  }

  function Announcer(c: Id, x: Id): Node {
    Node(c, map[c := Peer(0, {x})], map[x := {c}])
  }

  /** The sync it sends: its table, from chunk to nodes, as a map from node to chunks. */
  function Flipped(c: Id, x: Id): Message {
    Message(StateSync, c, map[x := {c}], map[c := Peer(0, {x})])
  }

  function Listener(c: Id, x: Id): Node {
    if x == "" then Node(c, map[c := SEEN][x := SEEN], map[]) else Node("", map[x := SEEN], map[])
  }

  lemma AnnouncerIs(c: Id, x: Id)
    requires c != ""
    ensures Announce(Node(c, map[c := SEEN], map[]), x) == Announcer(c, x)
    ensures Create(Announcer(c, x), StateSync, 0) == Flipped(c, x)
  {
    var a := Announce(Node(c, map[c := SEEN], map[]), x);
    assert a.locations.Keys == {x} && a.locations[x] == {c};
    assert {} + {x} == {x};
    assert a.peers == map[c := SEEN][c := Peer(0, {x})] == map[c := Peer(0, {x})];
    var m := Create(Announcer(c, x), StateSync, 0);
    assert m.peers == map[c := Peer(0, {x})];
  }

  lemma ListenerMisled(c: Id, x: Id)
    requires x != c && c != ""
    ensures var z := Handle(Listener(c, x), Flipped(c, x), 0); x in PeersWith(z, c, 0)
  {
    var n, m := Listener(c, x), Flipped(c, x);
    var z := Handle(n, m, 0);
    assert x in Holders(m.chunkMap, n.local, c) && c in Mentioned(m.chunkMap, n.local);
    assert x in At(z.locations, c);
    assert z.peers[x] == SEEN;
  }

  ghost function NetOf(a: Node, b: Node, sent: set<Message>, log: Announced): Net {
    Net(map[0 := a, 1 := b], sent, log)
  }

  lemma SetNode(a: Node, b: Node, n: Node)
    ensures map[0 := a, 1 := b][0 := n] == map[0 := n, 1 := b] && map[0 := a, 1 := b][1 := n] == map[0 := a, 1 := n]
  {
  }

  ghost predicate Moves(names: Names, y: Net, p: nat, s: Step, z: Net) {
    Legal(names, y, p, s) && z == Next(names, y, p, s)
  }

  lemma MoveRegister(names: Names, b: Node, c: Id)
    requires c in names.nodes
    ensures Moves(names, NetOf(Node("", map[], map[]), b, {}, {}), 0, DoRegister(c, SEEN),
                  NetOf(Node(c, map[c := SEEN], map[]), b, {}, {}))
  {
    SetNode(Node("", map[], map[]), b, Node(c, map[c := SEEN], map[]));
  }

  lemma MoveAnnounce(names: Names, b: Node, c: Id, x: Id)
    requires c != "" && x in names.chunks
    ensures var reg := Node(c, map[c := SEEN], map[]);
            Moves(names, NetOf(reg, b, {}, {}), 0, DoAnnounce(x), NetOf(Announcer(c, x), b, {AnnounceMessage(reg, x)}, {(c, x)}))
  {
    var reg := Node(c, map[c := SEEN], map[]);
    AnnouncerIs(c, x);
    hide Announce, AnnounceMessage, Announcer;
    SetNode(reg, b, Announcer(c, x));
    assert {} + {AnnounceMessage(reg, x)} == {AnnounceMessage(reg, x)};
    assert {} + {(c, x)} == {(c, x)};
  }

  lemma MoveSync(names: Names, b: Node, c: Id, x: Id, said: Message)
    requires c != ""
    ensures Moves(names, NetOf(Announcer(c, x), b, {said}, {(c, x)}), 0, DoSend(StateSync, 0),
                  NetOf(Announcer(c, x), b, {said, Flipped(c, x)}, {(c, x)}))
  {
    AnnouncerIs(c, x);
    hide Create, Announcer, Flipped;
    assert {said} + {Flipped(c, x)} == {said, Flipped(c, x)};
  }

  lemma MoveListen(names: Names, a: Node, c: Id, x: Id, sent: set<Message>, log: Announced)
    requires c in names.nodes
    ensures var blank := Node("", map[], map[]);
            var b := if x == "" then Node(c, map[c := SEEN], map[]) else blank;
            && Moves(names, NetOf(a, blank, sent, log), 1, if x == "" then DoRegister(c, SEEN) else DoUnregister, NetOf(a, b, sent, log))
            && Moves(names, NetOf(a, b, sent, log), 1, DoAddPeer(x, SEEN), NetOf(a, Listener(c, x), sent, log))
  {
    var blank := Node("", map[], map[]);
    var b := if x == "" then Node(c, map[c := SEEN], map[]) else blank;
    SetNode(a, blank, b);
    SetNode(a, b, Listener(c, x));
  }

  lemma MoveReceive(names: Names, a: Node, b: Node, m: Message, sent: set<Message>, log: Announced)
    requires m in sent
    ensures Moves(names, NetOf(a, b, sent, log), 1, DoReceive(m, 0), NetOf(a, Handle(b, m, 0), sent, log))
  {
    hide Handle;
    SetNode(a, b, Handle(b, m, 0));
  }

  ghost function States(c: Id, x: Id): seq<Net> {
    var blank := Node("", map[], map[]);
    var reg := Node(c, map[c := SEEN], map[]);
    var said, sync := AnnounceMessage(reg, x), Flipped(c, x);
    var b := if x == "" then reg else blank;
    [NetOf(blank, blank, {}, {}),
     NetOf(reg, blank, {}, {}),
     NetOf(Announcer(c, x), blank, {said}, {(c, x)}),
     NetOf(Announcer(c, x), blank, {said, sync}, {(c, x)}),
     NetOf(Announcer(c, x), b, {said, sync}, {(c, x)}),
     NetOf(Announcer(c, x), Listener(c, x), {said, sync}, {(c, x)}),
     NetOf(Announcer(c, x), Handle(Listener(c, x), sync, 0), {said, sync}, {(c, x)})]
  }

  lemma MisleadingStep(names: Names, c: Id, x: Id, i: nat)
    requires c in names.nodes && x in names.chunks && c != "" && i < 6
    ensures Moves(names, States(c, x)[i], Misleading(c, x)[i].0, Misleading(c, x)[i].1, States(c, x)[i + 1])
  {
    var blank, reg := Node("", map[], map[]), Node(c, map[c := SEEN], map[]);
    var said, sync := AnnounceMessage(reg, x), Flipped(c, x);
    var sent, log := {said, sync}, {(c, x)};
    hide Moves, NetOf, Announcer, AnnounceMessage, Flipped, Listener, Handle;
    MoveRegister(names, blank, c);
    MoveAnnounce(names, blank, c, x);
    MoveSync(names, blank, c, x, said);
    MoveListen(names, Announcer(c, x), c, x, sent, log);
    MoveReceive(names, Announcer(c, x), Listener(c, x), sync, sent, log);
  }

  lemma MisleadingRun(names: Names, c: Id, x: Id)
    requires c in names.nodes && x in names.chunks && x != c && c != ""
    ensures !LookupsHonest(names, c)
  {
    var s, t := States(c, x), Misleading(c, x);
    assert |s| == 7 && |t| == 6 && Blank(s[0]);
    assert s[6].nodes[1] == Handle(Listener(c, x), Flipped(c, x), 0) && s[6].log == {(c, x)};
    ListenerMisled(c, x);
    hide States, Misleading, Handle, PeersWith, Next, Legal, Blank;
    forall i | 0 <= i < |t|
      ensures Legal(names, s[i], t[i].0, t[i].1) && s[i + 1] == Next(names, s[i], t[i].0, t[i].1)
    {
      MisleadingStep(names, c, x, i);
    }
    assert Run(names, s, t);
    assert !HonestAt(s[6], 1, c, 0);
  }

  /** Exactly for which chunk ids lookups can be trusted. */
  lemma LookupsHonestIff(names: Names, c: Id)
    ensures LookupsHonest(names, c) <==> Unambiguous(names, c)
  {
    if Unambiguous(names, c) {
      hide Run, Blank, HonestAt, Unambiguous;
      forall states: seq<Net>, steps, i: nat, p, now |
        Run(names, states, steps) && Blank(states[0]) && i < |states| && p in states[i].nodes
        ensures HonestAt(states[i], p, c, now)
      {
        UnambiguousIsHonest(names, states, steps, i, p, c, now);
      }
    } else {
      hide LookupsHonest;
      var x :| x in names.chunks && x != c;
      MisleadingRun(names, c, x);
    }
  }

  /** One node called as a chunk, one other chunk: already too much. */
  lemma FlippedSync()
    ensures !LookupsHonest(Names(iset{"n"}, iset{"c"}), "n")
  {
    LookupsHonestIff(Names(iset{"n"}, iset{"c"}), "n");
    assert "c" in iset{"c"};
  }
}

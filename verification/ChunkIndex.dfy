/** The control server's inverted index from chunk to nodes, and the registration
    and report handlers that keep it, src/control/server.cpp. */
module ChunkIndex {
  import opened Base

  type Id = string
  type Index = map<Id, set<Id>>

  predicate Listed(idx: Index, c: Id, n: Id) {
    c in idx && n in idx[c]
  }

  function AddOne(idx: Index, n: Id, c: Id): Index {
    idx[c := (if c in idx then idx[c] else {}) + {n}]
  }

  function RemoveOne(idx: Index, n: Id, c: Id): Index {
    if c !in idx then idx
    else if idx[c] - {n} == {} then idx - {c}
    else idx[c := idx[c] - {n}]
  }

  /** `update_chunk_index_locked`. */
  function Update(idx: Index, n: Id, ids: seq<Id>, add: bool): Index {
    if ids == [] then idx
    else
      var before, c := Update(idx, n, ids[..|ids| - 1], add), ids[|ids| - 1];
      if add then AddOne(before, n, c) else RemoveOne(before, n, c)
  }

  ghost predicate NoEmptyEntry(idx: Index) {
    forall c :: c in idx ==> idx[c] != {}
  }

  /** An update changes the membership of one node in the chunks listed, and
      nothing else. */
  lemma {:induction false} UpdateListed(idx: Index, n: Id, ids: seq<Id>, add: bool, c: Id, m: Id)
    ensures Listed(Update(idx, n, ids, add), c, m) <==>
            if m == n && c in ids then add else Listed(idx, c, m)
  {
    if ids != [] {
      var init, d := ids[..|ids| - 1], ids[|ids| - 1];
      assert ids == init + [d];
      UpdateListed(idx, n, init, add, c, m);
      assert Update(idx, n, ids, add) ==
             if add then AddOne(Update(idx, n, init, add), n, d) else RemoveOne(Update(idx, n, init, add), n, d);
      hide Update;
      OneListed(Update(idx, n, init, add), n, d, c, m);
      hide AddOne, RemoveOne, Listed;
    }
  }

  lemma OneListed(idx: Index, n: Id, d: Id, c: Id, m: Id)
    ensures Listed(AddOne(idx, n, d), c, m) <==> (m == n && c == d) || Listed(idx, c, m)
    ensures Listed(RemoveOne(idx, n, d), c, m) <==> Listed(idx, c, m) && !(m == n && c == d)
  {
    if c == d && c in idx {
      assert m in idx[c] - {n} <==> m in idx[c] && m != n;
    }
  }

  lemma {:induction false} UpdateNoEmpty(idx: Index, n: Id, ids: seq<Id>, add: bool)
    requires NoEmptyEntry(idx)
    ensures NoEmptyEntry(Update(idx, n, ids, add))
  {
    if ids != [] {
      var init, d := ids[..|ids| - 1], ids[|ids| - 1];
      UpdateNoEmpty(idx, n, init, add);
      var before := Update(idx, n, init, add);
      if add {
        assert n in AddOne(before, n, d)[d];
      }
      assert Update(idx, n, ids, add) == if add then AddOne(before, n, d) else RemoveOne(before, n, d);
      hide Update;
    }
  }

  // ------------------------------------------------------------------ handlers

  /** Each registered node with its latest report, and the index. */
  datatype Registry = Registry(nodes: map<Id, seq<Id>>, index: Index)

  datatype Step =
    | DoRegister(node: Id, chunks: seq<Id>)
    | DoReport(node: Id, chunks: seq<Id>)

  function Latest(r: Registry, n: Id): seq<Id> {
    if n in r.nodes then r.nodes[n] else []
  }

  predicate Accepted(r: Registry, limit: nat, s: Step) {
    match s
    case DoRegister(n, _) => n in r.nodes || |r.nodes| < limit
    case DoReport(n, _) => n != "" && n in r.nodes
  }

  function Next(r: Registry, limit: nat, s: Step): Registry {
    if !Accepted(r, limit, s) then r
    else
      match s
      case DoRegister(n, ids) => Registry(r.nodes[n := Latest(r, n)], Update(r.index, n, ids, true))
      case DoReport(n, ids) =>
        Registry(r.nodes[n := ids], Update(Update(r.index, n, r.nodes[n], false), n, ids, true))
  }

  ghost predicate Sound(r: Registry) {
    NoEmptyEntry(r.index) && forall c, n :: Listed(r.index, c, n) ==> n in r.nodes
  }

  lemma NextSound(r: Registry, limit: nat, s: Step)
    requires Sound(r)
    ensures Sound(Next(r, limit, s))
  {
    var z := Next(r, limit, s);
    hide Listed, NoEmptyEntry, Update;
    if Accepted(r, limit, s) {
      var n, ids := s.node, s.chunks;
      var base := if s.DoReport? then Update(r.index, n, r.nodes[n], false) else r.index;
      if s.DoReport? {
        UpdateNoEmpty(r.index, n, r.nodes[n], false);
      }
      UpdateNoEmpty(base, n, ids, true);
      forall c, m | Listed(z.index, c, m)
        ensures m in z.nodes
      {
        UpdateListed(base, n, ids, true, c, m);
        if s.DoReport? {
          UpdateListed(r.index, n, r.nodes[n], false, c, m);
        }
      }
    }
  }

  /** What one step does to one node's entries: a registration only adds, a report
      replaces the previous report. */
  lemma NextListed(r: Registry, limit: nat, s: Step, c: Id, m: Id)
    ensures Listed(Next(r, limit, s).index, c, m) <==>
            if !Accepted(r, limit, s) || m != s.node then Listed(r.index, c, m)
            else c in s.chunks || (Listed(r.index, c, m) && !(s.DoReport? && c in Latest(r, m)))
  {
    hide Listed, Update;
    if Accepted(r, limit, s) {
      var n, ids := s.node, s.chunks;
      if s.DoReport? {
        UpdateListed(r.index, n, r.nodes[n], false, c, m);
        UpdateListed(Update(r.index, n, r.nodes[n], false), n, ids, true, c, m);
      } else {
        UpdateListed(r.index, n, ids, true, c, m);
      }
    }
  }

  // ----------------------------------------------------------------- whole runs

  ghost predicate Run(states: seq<Registry>, steps: seq<Step>, limit: nat) {
    && |states| == |steps| + 1 && states[0] == Registry(map[], map[])
    && forall i :: 0 <= i < |steps| ==> states[i + 1] == Next(states[i], limit, steps[i])
  }

  /** In every run no entry of the index is empty and every node in it is
      registered. */
  lemma {:induction false} RunSound(states: seq<Registry>, steps: seq<Step>, limit: nat, i: nat)
    requires Run(states, steps, limit) && i < |states|
    ensures Sound(states[i])
  {
    if i > 0 {
      RunSound(states, steps, limit, i - 1);
      hide Sound, Next;
      NextSound(states[i - 1], limit, steps[i - 1]);
    }
  }

  /** The index lists a node under exactly the chunks of its latest report. */
  ghost predicate Agrees(r: Registry, n: Id) {
    forall c :: Listed(r.index, c, n) <==> c in Latest(r, n)
  }

  /** The registration names no chunk outside the node's latest report; an empty
      list always qualifies. */
  ghost predicate Modest(r: Registry, limit: nat, s: Step, n: Id) {
    s.DoRegister? && s.node == n && Accepted(r, limit, s) ==> forall c :: c in s.chunks ==> c in Latest(r, n)
  }

  lemma NextAgreesIff(r: Registry, limit: nat, s: Step, n: Id)
    requires Agrees(r, n)
    ensures Agrees(Next(r, limit, s), n) <==> Modest(r, limit, s, n)
  {
    var z := Next(r, limit, s);
    forall c
      ensures Listed(z.index, c, n) <==>
              if !Accepted(r, limit, s) || n != s.node then Listed(r.index, c, n)
              else c in s.chunks || (Listed(r.index, c, n) && !(s.DoReport? && c in Latest(r, n)))
    {
      NextListed(r, limit, s, c, n);
    }
    assert Latest(z, n) == if Accepted(r, limit, s) && s.DoReport? && s.node == n then s.chunks else Latest(r, n);
    hide Next, Latest, Listed, Accepted;
    if s.DoRegister? && s.node == n && Accepted(r, limit, s) {
      assert Agrees(z, n) <==> forall c :: (c in s.chunks || c in Latest(r, n)) <==> c in Latest(r, n);
    }
  }

  lemma {:induction false} AgreesWhileModest(states: seq<Registry>, steps: seq<Step>, limit: nat, n: Id, i: nat)
    requires Run(states, steps, limit) && i < |states|
    requires forall k :: 0 <= k < i ==> Modest(states[k], limit, steps[k], n)
    ensures Agrees(states[i], n)
  {
    if i > 0 {
      AgreesWhileModest(states, steps, limit, n, i - 1);
      hide Agrees, Modest, Next;
      NextAgreesIff(states[i - 1], limit, steps[i - 1], n);
    }
  }

  /** Exactly when index and reports agree about a node throughout a run: every
      registration of that node lists only chunks it has reported. */
  lemma AgreesThroughoutIff(states: seq<Registry>, steps: seq<Step>, limit: nat, n: Id)
    requires Run(states, steps, limit)
    ensures (forall i :: 0 <= i < |states| ==> Agrees(states[i], n)) <==>
            (forall i :: 0 <= i < |steps| ==> Modest(states[i], limit, steps[i], n))
  {
    hide Agrees, Modest, Next;
    if forall i :: 0 <= i < |steps| ==> Modest(states[i], limit, steps[i], n) {
      forall i | 0 <= i < |states|
        ensures Agrees(states[i], n)
      {
        AgreesWhileModest(states, steps, limit, n, i);
      }
    }
    if forall i :: 0 <= i < |states| ==> Agrees(states[i], n) {
      forall i | 0 <= i < |steps|
        ensures Modest(states[i], limit, steps[i], n)
      {
        assert Agrees(states[i], n) && Agrees(states[i + 1], n);
        NextAgreesIff(states[i], limit, steps[i], n);
      }
    }
  }

  /** A node whose registrations list nothing is always indexed as it reports. */
  lemma SilentRegistrationsAgree(states: seq<Registry>, steps: seq<Step>, limit: nat, n: Id, i: nat)
    requires Run(states, steps, limit) && i < |states|
    requires forall k :: 0 <= k < |steps| ==> (steps[k].DoRegister? && steps[k].node == n ==> steps[k].chunks == [])
    ensures Agrees(states[i], n)
  {
    hide Next;
    assert forall k :: 0 <= k < |steps| ==> Modest(states[k], limit, steps[k], n);
    hide Modest;
    AgreesWhileModest(states, steps, limit, n, i);
  }

  /** A chunk listed at registration and never reported stays in the index, also
      after the node has reported that it holds nothing. */
  lemma RegisteredChunkSticks(c: Id, n: Id, limit: nat)
    requires n != "" && limit > 0
    ensures var r := Next(Next(Registry(map[], map[]), limit, DoRegister(n, [c])), limit, DoReport(n, []));
            Latest(r, n) == [] && Listed(r.index, c, n)
  {
    var r0 := Registry(map[], map[]);
    var r1 := Next(r0, limit, DoRegister(n, [c]));
    NextListed(r0, limit, DoRegister(n, [c]), c, n);
    NextListed(r1, limit, DoReport(n, []), c, n);
  }

  /** In every run at most `limit` nodes are registered; a registration is refused only
      for a new node when the limit is reached, and a report only from an unknown one. */
  lemma {:induction false} RunWithinLimit(states: seq<Registry>, steps: seq<Step>, limit: nat, i: nat)
    requires Run(states, steps, limit) && i < |states|
    ensures |states[i].nodes| <= limit
    ensures i < |steps| ==>
              (!Accepted(states[i], limit, steps[i]) <==>
                 if steps[i].DoRegister? then steps[i].node !in states[i].nodes && |states[i].nodes| == limit
                 else steps[i].node == "" || steps[i].node !in states[i].nodes)
  {
    if i > 0 {
      RunWithinLimit(states, steps, limit, i - 1);
      var r, s := states[i - 1], steps[i - 1];
      assert states[i] == Next(r, limit, s);
      hide Update;
      if Accepted(r, limit, s) {
        assert states[i].nodes.Keys == r.nodes.Keys + {s.node};
        assert |states[i].nodes.Keys| <= |r.nodes.Keys| + (if s.node in r.nodes then 0 else 1);
        assert |r.nodes| == |r.nodes.Keys| && |states[i].nodes| == |states[i].nodes.Keys|;
      }
    }
  }
}

/** The index as the server keeps it, updated in place. */
module ChunkIndexImpl {
  import opened ChunkIndex

  class Server {
    var nodes: map<Id, seq<Id>>
    var index: Index
    const limit: nat

    ghost function Abs(): Registry
      reads this
    {
      Registry(nodes, index)
    }

    constructor (maxNodes: nat)
      ensures Abs() == Registry(map[], map[]) && limit == maxNodes
    {
      nodes, index, limit := map[], map[], maxNodes;
    }

    method UpdateChunkIndex(n: Id, ids: seq<Id>, add: bool)
      modifies this`index
      ensures index == Update(old(index), n, ids, add)
    {
      for i := 0 to |ids|
        invariant index == Update(old(index), n, ids[..i], add)
      {
        assert ids[..i + 1][..i] == ids[..i];
        var c := ids[i];
        if add {
          index := index[c := (if c in index then index[c] else {}) + {n}];
        } else if c in index {
          var left := index[c] - {n};
          index := if left == {} then index - {c} else index[c := left];
        }
      }
      assert ids[..|ids|] == ids;
    }

    method HandleRegister(n: Id, chunks: seq<Id>) returns (accepted: bool)
      modifies this
      ensures Abs() == Next(old(Abs()), limit, DoRegister(n, chunks))
      ensures accepted == Accepted(old(Abs()), limit, DoRegister(n, chunks))
    {
      hide Update;
      if n !in nodes {
        if |nodes| >= limit {
          return false;
        }
        nodes := nodes[n := []];
      }
      UpdateChunkIndex(n, chunks, true);
      assert nodes == old(nodes)[n := Latest(old(Abs()), n)];
      return true;
    }

    method HandleReport(n: Id, chunks: seq<Id>) returns (accepted: bool)
      modifies this
      ensures Abs() == Next(old(Abs()), limit, DoReport(n, chunks))
      ensures accepted == Accepted(old(Abs()), limit, DoReport(n, chunks))
    {
      hide Update;
      if n == "" || n !in nodes {
        return false;
      }
      UpdateChunkIndex(n, nodes[n], false);
      UpdateChunkIndex(n, chunks, true);
      nodes := nodes[n := chunks];
      return true;
    }
  }
}

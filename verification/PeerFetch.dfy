/** From the wire to the cluster: what a hedged download, src/p2p/transfer.cpp,
    returns when its candidates are nodes answering from their caches is one of the
    answers those nodes sent, which is what the request handler's peer step,
    src/proxy/request_handler.cpp, takes. */
module PeerFetch {
  import opened Base
  import opened Octets
  import W = ChunkWire
  import H = Hedged
  import A = Assembly
  import C = Cluster
  import D = World
  import L = LruSpec
  import O = LruOps
  import S = ChunkStore
  import T = Text

  // ------------------------------------------------------------ octets and text

  function Text(o: Octets): (t: Bytes)
    ensures |t| == |o| && forall i :: 0 <= i < |o| ==> t[i] == o[i] as char
  {
    if o == [] then "" else [o[0] as char] + Text(o[1..])
  }

  function Raw(t: Bytes): (o: Octets)
    ensures |o| == |t| && forall i :: 0 <= i < |t| ==> o[i] == t[i] as int % 256
  {
    if t == "" then [] else [t[0] as int % 256] + Raw(t[1..])
  }

  lemma RawText(o: Octets)
    ensures Raw(Text(o)) == o
  {
  }

  lemma TextPrefix(o: Octets, n: nat)
    requires n <= |o|
    ensures Text(o)[..n] == Text(o[..n])
  {
  }

  lemma TextRaw(t: Bytes)
    requires forall i :: 0 <= i < |t| ==> t[i] as int < 256
    ensures Text(Raw(t)) == t
  {
    var u := Text(Raw(t));
    hide Text, Raw;
    assert |u| == |t| && forall i :: 0 <= i < |t| ==> u[i] == t[i];
  }

  function HexDigit(n: nat): (c: char)
    requires n < 16
    ensures T.DigitValue(c) == n && !T.IsSpace(c)
  {
    if n < 10 then ('0' as int + n) as char else ('a' as int + n - 10) as char
  }

  /** Lower-case hexadecimal, two digits an octet. */
  function Hex(o: Octets): (t: string)
    ensures |t| == 2 * |o| && T.Blankless(t)
  {
    if o == [] then "" else [HexDigit(o[0] / 16), HexDigit(o[0] % 16)] + Hex(o[1..])
  }

  lemma {:induction false} HexInjective(a: Octets, b: Octets)
    ensures Hex(a) == Hex(b) <==> a == b
  {
    if a != [] && b != [] {
      HexInjective(a[1..], b[1..]);
      var s, t := Hex(a), Hex(b);
      assert s[2..] == Hex(a[1..]) && t[2..] == Hex(b[1..]);
      assert T.DigitValue(s[0]) == a[0] / 16 && T.DigitValue(s[1]) == a[0] % 16;
      assert T.DigitValue(t[0]) == b[0] / 16 && T.DigitValue(t[1]) == b[0] % 16;
      assert s == t ==> a[0] == b[0] && a[1..] == b[1..];
      assert a[0] == b[0] && a[1..] == b[1..] ==> a == [a[0]] + a[1..] == [b[0]] + b[1..] == b;
    } else {
      assert |Hex(a)| == 2 * |a| && |Hex(b)| == 2 * |b|;
    }
  }

  /** The hash of a chunk held as text, in the hexadecimal of the meta line. */
  function Digest(sha: Octets -> Octets): Bytes -> string {
    t => Hex(sha(Raw(t)))
  }

  /** Digests are words, as an ordered world asks of its hash. */
  lemma DigestIsAWord(sha: Octets -> Octets, t: Bytes)
    requires W.HashOk(sha)
    ensures Digest(sha)(t) != "" && T.Blankless(Digest(sha)(t))
  {
    var o := sha(Raw(t));
    assert |o| == 32 && Digest(sha)(t) == Hex(o) && |Hex(o)| == 64;
    hide Hex;
  }

  function Wanted(expected: Option<Octets>): string {
    if expected.Some? then Hex(expected.value) else ""
  }

  // -------------------------------------------------------- one peer's connection

  /** What a download finds on a connection that delivers these octets. */
  function AnswerOf(input: Octets): H.Answer {
    if |input| < W.HEADER then H.Refuses
    else
      var h := W.FromWire(input[..W.HEADER]);
      if h.magic != W.MAGIC || h.kind != W.RESPONSE then H.Refuses
      else
        match W.AfterEcho(h, input[W.HEADER..])
        case None => H.Refuses
        case Some(rest) => H.Sends(h.dataLength, Hex(h.hash), Text(rest))
  }

  /** A race's view of a peer and the wire's view of its connection agree. */
  lemma ViewsAgree(input: Octets, sha: Octets -> Octets, expected: Option<Octets>, p: H.Peer)
    requires W.HashOk(sha) && p.answer == AnswerOf(input) && (expected.Some? ==> expected.value != [])
    ensures H.Verified(p, H.Check(Wanted(expected), Digest(sha))) ==
            match W.Downloaded(input, sha, expected)
            case None => None
            case Some(d) => Some(Text(d))
  {
    hide W.FromWire;
    if p.answer.Sends? {
      var h := W.FromWire(input[..W.HEADER]);
      var rest := W.AfterEcho(h, input[W.HEADER..]).value;
      if h.dataLength <= |rest| {
        var data := rest[..h.dataLength];
        TextPrefix(rest, h.dataLength);
        RawText(data);
        HexInjective(sha(data), h.hash);
        if expected.Some? {
          HexInjective(sha(data), expected.value);
        }
      }
    }
  }

  /** A candidate: a node that serves the chunk from `host`, over a connection that
      carries `up` octets of the request and `down` octets of the answer. */
  datatype Link = Link(host: W.Host, up: nat, down: nat)

  ghost predicate Serves(l: Link, p: H.Peer, id: Octets, resume: bool, sha: Octets -> Octets) {
    && l.host.sha == sha && W.HashOk(sha) && l.up <= |W.RequestBytes(id, resume)|
    && (l.host.provide(id).Some? ==> |l.host.provide(id).value| < TWO32)
    && var out := W.Serve(W.RequestBytes(id, resume)[..l.up], l.host).output;
       l.down <= |out| && p.answer == AnswerOf(out[..l.down])
  }

  /** What verifies is the serving node's own nonempty chunk. */
  lemma ServedVerifies(l: Link, p: H.Peer, id: Octets, resume: bool, sha: Octets -> Octets, expected: Option<Octets>, d: Bytes)
    requires Serves(l, p, id, resume, sha) && |id| < TWO32 && (expected.Some? ==> expected.value != [])
    requires H.Verified(p, H.Check(Wanted(expected), Digest(sha))) == Some(d)
    ensures l.host.provide(id).Some? && d == Text(l.host.provide(id).value) && d != ""
    ensures expected.Some? ==> Digest(sha)(d) == Wanted(expected)
  {
    hide W.RequestBytes, W.Serve, W.Downloaded, AnswerOf;
    var out := W.Serve(W.RequestBytes(id, resume)[..l.up], l.host).output;
    ViewsAgree(out[..l.down], sha, expected, p);
    W.DownloadEndToEnd(id, resume, l.host, expected, l.up, l.down);
    RawText(l.host.provide(id).value);
  }

  // ------------------------------------------------------------- a whole download

  /** Every candidate is a node that provides only what is on the network. */
  ghost predicate Candidates(peers: seq<H.Peer>, links: seq<Link>, id: Octets, resume: bool, sha: Octets -> Octets, net: set<(S.Id, Bytes)>)
  {
    && |links| == |peers|
    && forall i :: 0 <= i < |peers| ==>
         && Serves(links[i], peers[i], id, resume, sha)
         && (links[i].host.provide(id).Some? && links[i].host.provide(id).value != [] ==>
               (Text(id), Text(links[i].host.provide(id).value)) in net)
  }

  /** Under every schedule, cancelled or not, a hedged download that returns bytes
      returns an answer that some candidate sent for this very chunk. */
  lemma FetchedIsOnTheNet(selected: seq<H.Peer>, fallback: seq<H.Peer>, links: seq<Link>, id: Octets, resume: bool,
                          sha: Octets -> Octets, expected: Option<Octets>, net: set<(S.Id, Bytes)>,
                          stop: bool, schedule: seq<H.Step>)
    requires Candidates(selected + fallback, links, id, resume, sha, net)
    requires |id| < TWO32 && (expected.Some? ==> expected.value != [])
    ensures H.Safe(H.Start(selected, fallback, H.Check(Wanted(expected), Digest(sha)), stop))
    ensures var end := H.Run(H.Start(selected, fallback, H.Check(Wanted(expected), Digest(sha)), stop), schedule).caller;
            end.Returned? && end.result.Some? ==>
              && (Text(id), end.result.value) in net && end.result.value != ""
              && (Wanted(expected) == "" || Digest(sha)(end.result.value) == Wanted(expected))
  {
    var check := H.Check(Wanted(expected), Digest(sha));
    H.StartSafe(selected, fallback, check, stop);
    var start := H.Start(selected, fallback, check, stop);
    H.RunSame(start, schedule);
    var r := H.Run(start, schedule);
    hide H.Run, H.WorkersOk, Serves, H.Verified, Digest, Wanted, Text, Raw, Hex;
    if r.caller.Returned? && r.caller.result.Some? {
      var d := r.caller.result.value;
      assert H.SomeVerified(r, d);
      var p :| p in selected + fallback && H.Verified(p, check) == Some(d);
      var i :| 0 <= i < |selected + fallback| && (selected + fallback)[i] == p;
      ServedVerifies(links[i], p, id, resume, sha, expected, d);
      WantedNone(expected);
    }
  }

  lemma WantedNone(expected: Option<Octets>)
    ensures expected == None ==> Wanted(expected) == ""
  {
  }

  // ------------------------------------------------- what serving nodes provide

  function Provided(got: Option<Bytes>): Option<Octets> {
    if got.Some? then Some(Raw(got.value)) else None
  }

  /** A node answering for a chunk: its get, in one critical section or two, as steps
      of the cluster. */
  ghost function Answered(w: D.World, node: C.Node, net: set<(S.Id, Bytes)>, id: S.Id, clock: L.Clock): (C.Node, set<(S.Id, Bytes)>)
    requires w.chunkSize > 0 && L.Valid(node.store.mem) && id in D.Ids(w) && id != ""
  {
    O.GetFacts(node.store.mem, id, clock);
    var (n, after) := C.Act(w, node, net, C.ServeFast(id), clock);
    if S.GetFast(node.store, id, clock).1.Some? then (n, after) else C.Act(w, n, after, C.ServeSlow(id), clock)
  }

  /** Its answer is what its store's get returns, and is on the network. */
  lemma AnsweredIsOnTheNet(w: D.World, node: C.Node, net: set<(S.Id, Bytes)>, id: S.Id, clock: L.Clock)
    requires w.chunkSize > 0 && L.Valid(node.store.mem) && id in D.Ids(w) && id != ""
    ensures var (r, got) := S.GetChunk(node.store, id, clock);
            var (n, after) := Answered(w, node, net, id, clock);
            && n == node.(store := r) && net <= after
            && (got.Some? && got.value != "" ==> (id, got.value) in after)
  {
    O.GetFacts(node.store.mem, id, clock);
    hide L.Valid, O.Get, S.GetSlow, D.Ids;
  }

  ghost predicate OctetText(t: Bytes) {
    forall i :: 0 <= i < |t| ==> t[i] as int < 256
  }

  /** The host of a link provides what the node's store gets for the chunk. */
  ghost predicate FromNode(l: Link, node: C.Node, id: Octets, clock: L.Clock)
    requires L.Valid(node.store.mem) && id != []
  {
    var got := S.GetChunk(node.store, Text(id), clock).1;
    l.host.provide(id) == Provided(got) && (got.Some? ==> OctetText(got.value))
  }

  /** A node that has answered, as the cluster's steps have it, and a link to it. */
  datatype Server = Server(node: C.Node, net: set<(S.Id, Bytes)>, clock: L.Clock)

  ghost predicate HasAnswered(w: D.World, v: Server, l: Link, id: Octets, net: set<(S.Id, Bytes)>) {
    && w.chunkSize > 0 && L.Valid(v.node.store.mem) && id != [] && Text(id) in D.Ids(w)
    && FromNode(l, v.node, id, v.clock) && Answered(w, v.node, v.net, Text(id), v.clock).1 <= net
  }

  lemma AnswerProvided(w: D.World, v: Server, l: Link, id: Octets, net: set<(S.Id, Bytes)>)
    requires HasAnswered(w, v, l, id, net) && l.host.provide(id).Some? && l.host.provide(id).value != []
    ensures (Text(id), Text(l.host.provide(id).value)) in net
  {
    hide L.Valid, D.Ids, Answered, S.GetChunk;
    AnsweredIsOnTheNet(w, v.node, v.net, Text(id), v.clock);
    TextRaw(S.GetChunk(v.node.store, Text(id), v.clock).1.value);
  }

  /** Nodes that answer by the cluster's own steps are candidates. */
  lemma CandidatesFromNodes(w: D.World, peers: seq<H.Peer>, links: seq<Link>, servers: seq<Server>, id: Octets, resume: bool,
                            sha: Octets -> Octets, net: set<(S.Id, Bytes)>)
    requires |links| == |peers| == |servers|
    requires forall i :: 0 <= i < |peers| ==> Serves(links[i], peers[i], id, resume, sha) && HasAnswered(w, servers[i], links[i], id, net)
    ensures Candidates(peers, links, id, resume, sha, net)
  {
    hide HasAnswered, Serves, Text;
    forall i | 0 <= i < |peers| && links[i].host.provide(id).Some? && links[i].host.provide(id).value != []
      ensures (Text(id), Text(links[i].host.provide(id).value)) in net
    {
      AnswerProvided(w, servers[i], links[i], id, net);
    }
  }

  /** So the request handler's peer step takes it: the chunk is stored and appended. */
  lemma FetchedIsAPeerStep(w: D.World, s: S.Store, task: C.Task, d: Bytes, net: set<(S.Id, Bytes)>, clock: L.Clock)
    requires w.chunkSize > 0 && L.Valid(s.mem) && task.stage.Fetching? && task.stage.at.Peers?
    requires (A.IndexedId(task.req.key, task.stage.job.idx), d) in net && d != ""
    requires C.Expected(task.stage.job) == "" || w.hash(d) == C.Expected(task.stage.job)
    ensures var id, job := A.IndexedId(task.req.key, task.stage.job.idx), task.stage.job;
            && id != ""
            && C.FetchStep(w, s, task, C.FromPeer(d), net, clock) == (C.Store(s, id, d, clock), C.Advance(w, job, d))
  {
    hide L.Valid, C.Store, C.Advance;
  }

  /** The two together: whatever a hedged download over serving nodes returns, under
      any schedule, the request that asked for it moves as the cluster's peer step. */
  lemma DownloadIsAPeerStep(w: D.World, s: S.Store, task: C.Task, clock: L.Clock, selected: seq<H.Peer>, fallback: seq<H.Peer>,
                            links: seq<Link>, id: Octets, sha: Octets -> Octets, expected: Option<Octets>,
                            net: set<(S.Id, Bytes)>, stop: bool, schedule: seq<H.Step>)
    requires w.chunkSize > 0 && L.Valid(s.mem) && task.stage.Fetching? && task.stage.at.Peers?
    requires Text(id) == A.IndexedId(task.req.key, task.stage.job.idx) && |id| < TWO32
    requires (forall d :: w.hash(d) == Digest(sha)(d)) && C.Expected(task.stage.job) == Wanted(expected)
    requires (expected.Some? ==> expected.value != []) && Candidates(selected + fallback, links, id, false, sha, net)
    ensures H.Safe(H.Start(selected, fallback, H.Check(Wanted(expected), Digest(sha)), stop))
    ensures var end := H.Run(H.Start(selected, fallback, H.Check(Wanted(expected), Digest(sha)), stop), schedule).caller;
            end.Returned? && end.result.Some? ==>
              && A.IndexedId(task.req.key, task.stage.job.idx) != ""
              && C.FetchStep(w, s, task, C.FromPeer(end.result.value), net, clock) ==
                 (C.Store(s, A.IndexedId(task.req.key, task.stage.job.idx), end.result.value, clock),
                  C.Advance(w, task.stage.job, end.result.value))
  {
    hide L.Valid, C.FetchStep, C.Store, C.Advance, Candidates, Digest, Wanted, H.Run, H.Start, C.Expected, A.IndexedId;
    FetchedIsOnTheNet(selected, fallback, links, id, false, sha, expected, net, stop, schedule);
    var end := H.Run(H.Start(selected, fallback, H.Check(Wanted(expected), Digest(sha)), stop), schedule).caller;
    hide H.Safe;
    if end.Returned? && end.result.Some? {
      FetchedIsAPeerStep(w, s, task, end.result.value, net, clock);
    }
  }
}

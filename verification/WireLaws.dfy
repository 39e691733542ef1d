/** The octets that src/p2p/transfer.cpp and src/p2p/node_discovery.cpp put on the
    wire, and what they refuse to take from it. */
module WireLaws {
  import opened Base
  import opened Octets
  import W = ChunkWire
  import G = GossipCodec

  // ------------------------------------------------------------------- printed octets

  lemma HeaderParts(h: W.Header)
    requires W.InRange(h)
    ensures var w := W.ToWire(h);
            && |w| == 57 && w[0..4] == U32(h.magic) && w[4..8] == U32(h.version) && w[8..12] == U32(h.kind)
            && w[12..16] == U32(h.idLength) && w[16..20] == U32(h.dataLength) && w[20..52] == h.hash
            && w[52..56] == U32(h.sequence) && w[56] == h.flags
  {
    hide U32;
  }

  lemma SmallNumber(n: nat)
    requires n < TWO16
    ensures U32(n) == [0, 0, n / 0x100, n % 0x100]
  {
    PrintedOctets(n);
    hide U32;
  }

  lemma SliceOf(s: Octets, t: Octets, i: nat, j: nat)
    requires i <= j <= |s|
    ensures (s + t)[i..j] == s[i..j]
  {
  }

  /** "CHKP", version 1, type 1, the id's length, no data, an empty hash, no sequence
      number, the resume flag. */
  ghost predicate RequestHeader(b: Octets, n: nat, flag: int) {
    && |b| >= 57
    && b[0..4] == [0x43, 0x48, 0x4B, 0x50] && b[4..8] == [0, 0, 0, 1] && b[8..12] == [0, 0, 0, 1]
    && b[12..16] == [0, 0, n / 0x100, n % 0x100] && b[16..20] == [0, 0, 0, 0]
    && (forall x :: x in b[20..52] ==> x == 0) && b[52..56] == [0, 0, 0, 0] && b[56] == flag
  }

  lemma PlainFields(n: nat, flag: Octet)
    requires n <= 256
    ensures var h := W.Plain(W.REQUEST, n).(flags := flag);
            && W.InRange(h) && h.magic == 0x43484B50 && h.version == 1 && h.kind == 1 && h.idLength == n && h.dataLength == 0
            && |h.hash| == 32 && (forall x :: x in h.hash ==> x == 0) && h.sequence == 0 && h.flags == flag
  {
  }

  lemma PlainRequest(n: nat, flag: Octet)
    requires n <= 256
    ensures RequestHeader(W.ToWire(W.Plain(W.REQUEST, n).(flags := flag)), n, flag)
  {
    hide W.ToWire, U32, W.Plain, W.ZeroHash, RequestHeader, W.InRange;
    PlainFields(n, flag);
    var h := W.Plain(W.REQUEST, n).(flags := flag);
    HeaderParts(h);
    FixedNumbers();
    SmallNumber(n);
    Assembled(W.ToWire(h), h, n, flag);
  }

  lemma FixedNumbers()
    ensures U32(0) == [0, 0, 0, 0] && U32(1) == [0, 0, 0, 1] && U32(0x43484B50) == [0x43, 0x48, 0x4B, 0x50]
  {
    PrintedOctets(0);
    PrintedOctets(1);
    PrintedOctets(0x43484B50);
    hide U32;
  }

  lemma Assembled(w: Octets, h: W.Header, n: nat, flag: int)
    requires |w| == 57 && w[0..4] == [0x43, 0x48, 0x4B, 0x50] && w[4..8] == [0, 0, 0, 1] && w[8..12] == [0, 0, 0, 1]
    requires w[12..16] == [0, 0, n / 0x100, n % 0x100] && w[16..20] == [0, 0, 0, 0] && w[20..52] == h.hash
    requires (forall x :: x in h.hash ==> x == 0) && w[52..56] == [0, 0, 0, 0] && w[56] == flag
    ensures RequestHeader(w, n, flag)
  {
  }

  lemma RequestIs(id: Octets, resume: bool)
    requires |id| <= 256
    ensures W.RequestBytes(id, resume) == W.ToWire(W.Plain(W.REQUEST, |id|).(flags := if resume then 1 else 0)) + id
  {
    hide W.ToWire, W.Plain;
    assert W.Cast32(|id|) == |id|;
  }

  lemma HeaderStays(w: Octets, id: Octets, n: nat, flag: int)
    requires RequestHeader(w, n, flag) && |w| == 57
    ensures RequestHeader(w + id, n, flag) && (w + id)[57..] == id
  {
    var b := w + id;
    assert b[0..4] == w[0..4] && b[4..8] == w[4..8] && b[8..12] == w[8..12] && b[12..16] == w[12..16];
    assert b[16..20] == w[16..20] && b[20..52] == w[20..52] && b[52..56] == w[52..56];
  }

  /** A request is its header and the id. */
  lemma RequestLayout(id: Octets, resume: bool)
    requires |id| <= 256
    ensures var b := W.RequestBytes(id, resume);
            RequestHeader(b, |id|, if resume then 1 else 0) && b[57..] == id
  {
    var h := W.Plain(W.REQUEST, |id|).(flags := if resume then 1 else 0);
    hide *;
    RequestIs(id, resume);
    PlainRequest(|id|, if resume then 1 else 0);
    HeaderStays(W.ToWire(h), id, |id|, if resume then 1 else 0);
  }

  /** A gossip message opens with "GPSP", version 1 and its kind. */
  lemma GossipOpening(m: G.Message, l: G.Listing)
    requires G.Fits(m, l) && m.kind < 0x100
    ensures var s := G.Encode(m, l);
            |s| >= 12 && s[..4] == [0x47, 0x50, 0x53, 0x50] && s[4..8] == [0, 0, 0, 1] && s[8..12] == [0, 0, 0, m.kind]
  {
    hide U32, G.Str, G.EncEntries, G.EncPeers, U64;
    PrintedOctets(0x47505350);
    SmallNumber(1);
    SmallNumber(m.kind);
    var rest := G.Str(m.source) + (U64(m.timestamp) + (U32(|l.entries|) + (G.EncEntries(l.entries) + (U32(|l.peers|) + G.EncPeers(l.peers)))));
    G.ThreeWords(U32(G.MAGIC), U32(G.VERSION), U32(m.kind), rest);
  }

  // ---------------------------------------------------------------------- refusals

  /** A connection that does not open with the magic number, names an id that is too
      long, or ends within header or id, gets no answer and stores nothing. */
  lemma ServerIgnores(input: Octets, host: W.Host)
    requires W.HashOk(host.sha)
    requires |input| < 57 || N32(input[..4]) != 0x43484B50 || N32(input[12..16]) > 256 || |input| < 57 + N32(input[12..16])
    ensures W.Serve(input, host) == W.Reply([], None)
  {
    if |input| >= 57 {
      var raw, rest := input[..57], input[57..];
      assert input == raw + rest;
      SliceOf(raw, rest, 0, 4);
      SliceOf(raw, rest, 12, 16);
    }
    hide N32;
  }

  /** An upload whose data does not hash to what its header says is answered with an
      error and not stored. */
  lemma CorruptUploadRefused(h: W.Header, id: Octets, data: Octets, host: W.Host)
    requires W.HashOk(host.sha) && W.InRange(h) && h.magic == W.MAGIC && h.kind == W.UPLOAD
    requires h.idLength == |id| <= 256 && 0 < h.dataLength == |data| <= 64 * 1024 * 1024 && host.sha(data) != h.hash
    ensures W.Serve(W.ToWire(h) + id + data, host) == W.Reply(W.ToWire(W.Plain(W.ERROR, |id|)) + id, None)
  {
    hide W.ToWire, W.FromWire, U32;
    var input := W.ToWire(h) + id + data;
    W.HeaderRoundTrip(h, id + data);
    assert input == W.ToWire(h) + (id + data);
    assert (id + data)[..|id|] == id && (id + data)[|id|..] == data && data[..|data|] == data;
    hide W.ToWire, W.FromWire;
  }

  /** A downloader takes only a response, opened by the magic number, whose data is
      complete and hashes to what the header says. */
  lemma DownloaderTakes(input: Octets, sha: Octets -> Octets, expected: Option<Octets>, d: Octets)
    requires W.Downloaded(input, sha, expected) == Some(d)
    ensures |input| >= 57 && N32(input[..4]) == 0x43484B50 && N32(input[8..12]) == 2 && N32(input[16..20]) == |d|
    ensures sha(d) == input[20..52] && (expected.Some? ==> sha(d) == expected.value)
  {
    var raw, rest := input[..57], input[57..];
    assert input == raw + rest;
    SliceOf(raw, rest, 0, 4);
    SliceOf(raw, rest, 8, 12);
    SliceOf(raw, rest, 16, 20);
    SliceOf(raw, rest, 20, 52);
    hide N32;
  }

  /** A buffer that does not open with the gossip magic number and version is refused. */
  lemma GossipRefuses(data: Octets)
    requires |data| < 12 || N32(data[..4]) != 0x47505350 || N32(data[4..8]) != 1
    ensures G.Decode(data) == G.Rejected
  {
    hide N32, G.ReadStr, G.ReadBody;
  }
}

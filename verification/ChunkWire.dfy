/** The chunk transfer protocol of src/p2p/transfer.cpp on the level of bytes:
    the packed header, what the server answers, what the downloader and the
    uploader make of the answer. */
module ChunkWire {
  import opened Base
  import opened Octets

  // -------------------------------------------------------------------- header

  const MAGIC: nat := 0x43484B50
  const VERSION: nat := 1
  const REQUEST: nat := 1
  const RESPONSE: nat := 2
  const ERROR: nat := 3
  const ACK: nat := 4
  const UPLOAD: nat := 5
  const HEADER: nat := 57
  const MAX_ID: nat := 256
  const MAX_UPLOAD: nat := 64 * 1024 * 1024
  const FLAG_LAST_PART: Octet := 4

  datatype Header = Header(magic: nat, version: nat, kind: nat, idLength: nat, dataLength: nat,
                           hash: Octets, sequence: nat, flags: Octet)

  ghost predicate InRange(h: Header) {
    h.magic < TWO32 && h.version < TWO32 && h.kind < TWO32 && h.idLength < TWO32 && h.dataLength < TWO32 &&
    |h.hash| == 32 && h.sequence < TWO32
  }

  /** `header_to_wire` and the packed layout. */
  function ToWire(h: Header): (r: Octets)
    requires InRange(h)
    ensures |r| == HEADER
  {
    U32(h.magic) + U32(h.version) + U32(h.kind) + U32(h.idLength) + U32(h.dataLength) + h.hash + U32(h.sequence) + [h.flags]
  }

  /** The packed layout and `header_from_wire`. */
  function FromWire(s: Octets): (h: Header)
    requires |s| == HEADER
    ensures InRange(h)
  {
    Header(N32(s[0..4]), N32(s[4..8]), N32(s[8..12]), N32(s[12..16]), N32(s[16..20]), s[20..52], N32(s[52..56]), s[56])
  }

  /** A header survives the wire, whatever follows it. */
  lemma HeaderRoundTrip(h: Header, rest: Octets)
    requires InRange(h)
    ensures FromWire((ToWire(h) + rest)[..HEADER]) == h
    ensures (ToWire(h) + rest)[HEADER..] == rest
  {
    hide U32, N32;
    Inverse32(h.magic);
    Inverse32(h.version);
    Inverse32(h.kind);
    Inverse32(h.idLength);
    Inverse32(h.dataLength);
    Inverse32(h.sequence);
    var w := ToWire(h);
    assert (w + rest)[..HEADER] == w && (w + rest)[HEADER..] == rest;
    assert w[0..4] == U32(h.magic);
    assert w[4..8] == U32(h.version);
    assert w[8..12] == U32(h.kind);
    assert w[12..16] == U32(h.idLength);
    assert w[16..20] == U32(h.dataLength);
    assert w[20..52] == h.hash;
    assert w[52..56] == U32(h.sequence);
  }

  // ------------------------------------------------------------------ messages

  function ZeroHash(): (r: Octets)
    ensures |r| == 32
  {
    [0, 0, 0, 0, 0, 0, 0, 0, 0, 0, 0, 0, 0, 0, 0, 0, 0, 0, 0, 0, 0, 0, 0, 0, 0, 0, 0, 0, 0, 0, 0, 0]
  }

  /** The hash, the local chunks and the upload callback of the serving node. */
  datatype Host = Host(sha: Octets -> Octets, provide: Octets -> Option<Octets>, accept: (Octets, Octets) -> bool)

  ghost predicate HashOk(sha: Octets -> Octets) {
    forall x :: |sha(x)| == 32
  }

  function Plain(kind: nat, idLength: nat): (h: Header)
    requires kind < TWO32 && idLength < TWO32
    ensures InRange(h)
  {
    Header(MAGIC, VERSION, kind, idLength, 0, ZeroHash(), 0, 0)
  }

  /** A header announcing `data`; the length is cast to 32 bits. */
  function Announcing(kind: nat, idLength: nat, data: Octets, sha: Octets -> Octets): (h: Header)
    requires kind < TWO32 && idLength < TWO32 && HashOk(sha)
    ensures InRange(h)
  {
    Header(MAGIC, VERSION, kind, idLength, |data| % TWO32, sha(data), 0, FLAG_LAST_PART)
  }

  function Cast32(n: nat): (r: nat)
    ensures r < TWO32
  {
    n % TWO32
  }

  /** What a downloader sends. */
  function RequestBytes(id: Octets, resume: bool): Octets {
    ToWire(Plain(REQUEST, Cast32(|id|)).(flags := if resume then 1 else 0)) + id
  }

  /** What an uploader sends. */
  function UploadBytes(id: Octets, data: Octets, sha: Octets -> Octets): Octets
    requires HashOk(sha)
  {
    ToWire(Announcing(UPLOAD, Cast32(|id|), data, sha)) + id + data
  }

  // -------------------------------------------------------------------- server

  /** The bytes written back, and the chunk stored by an accepted upload. */
  datatype Reply = Reply(output: Octets, stored: Option<(Octets, Octets)>)

  /** `handle_chunk_request` on all the bytes the connection delivers. */
  function Serve(input: Octets, host: Host): Reply
    requires HashOk(host.sha)
  {
    if |input| < HEADER then Reply([], None)
    else
      var h := FromWire(input[..HEADER]);
      var rest := input[HEADER..];
      if h.magic != MAGIC || h.idLength > MAX_ID || |rest| < h.idLength then Reply([], None)
      else
        var id := rest[..h.idLength];
        if h.kind == UPLOAD then ServeUpload(h, id, rest[h.idLength..], host) else ServeRequest(h, id, host)
  }

  function ServeUpload(h: Header, id: Octets, rest: Octets, host: Host): Reply
    requires InRange(h) && HashOk(host.sha)
  {
    if h.dataLength == 0 || h.dataLength > MAX_UPLOAD || |rest| < h.dataLength then Reply([], None)
    else
      var data := rest[..h.dataLength];
      var accepted := host.sha(data) == h.hash && host.accept(id, data);
      Reply(ToWire(if accepted then Plain(ACK, h.idLength).(hash := host.sha(data)) else Plain(ERROR, h.idLength)) + id,
            if accepted then Some((id, data)) else None)
  }

  function ServeRequest(h: Header, id: Octets, host: Host): Reply
    requires InRange(h) && HashOk(host.sha)
  {
    var chunk := host.provide(id);
    if chunk == None || chunk.value == [] then Reply(ToWire(Plain(ERROR, h.idLength)) + id, None)
    else Reply(ToWire(Announcing(RESPONSE, h.idLength, chunk.value, host.sha)) + id + chunk.value, None)
  }

  // ------------------------------------------------------------------- clients

  /** The part of a response that follows the echoed chunk id. */
  function AfterEcho(h: Header, rest: Octets): Option<Octets> {
    if 0 < h.idLength <= MAX_ID then
      if |rest| < h.idLength then None else Some(rest[h.idLength..])
    else Some(rest)
  }

  /** `download_from_peer` on all the bytes the connection delivers. */
  function Downloaded(input: Octets, sha: Octets -> Octets, expected: Option<Octets>): Option<Octets> {
    if |input| < HEADER then None
    else
      var h := FromWire(input[..HEADER]);
      if h.magic != MAGIC || h.kind != RESPONSE then None
      else
        match AfterEcho(h, input[HEADER..])
        case None => None
        case Some(rest) =>
          if |rest| < h.dataLength then None
          else
            var data := rest[..h.dataLength];
            if sha(data) != h.hash then None
            else if expected.Some? && sha(data) != expected.value then None
            else Some(data)
  }

  /** `upload_chunk`'s verdict on the answer. */
  predicate Acknowledged(input: Octets, data: Octets, sha: Octets -> Octets) {
    |input| >= HEADER &&
    var h := FromWire(input[..HEADER]);
    h.magic == MAGIC && h.kind == ACK && h.hash == sha(data)
  }

  // ---------------------------------------------------------------- end to end

  /** The server sees the id the downloader asked for, or answers nothing. */
  lemma ServeSeesRequest(id: Octets, resume: bool, up: nat, host: Host)
    requires HashOk(host.sha) && up <= |RequestBytes(id, resume)| && |id| < TWO32
    ensures Serve(RequestBytes(id, resume)[..up], host) ==
            if |id| > MAX_ID || up < |RequestBytes(id, resume)| then Reply([], None)
            else ServeRequest(Plain(REQUEST, |id|).(flags := if resume then 1 else 0), id, host)
  {
    hide ToWire, FromWire;
    var h := Plain(REQUEST, |id|).(flags := if resume then 1 else 0);
    var full := ToWire(h) + id;
    assert full == RequestBytes(id, resume);
    var input := full[..up];
    if up >= HEADER {
      HeaderRoundTrip(h, id[..up - HEADER]);
      assert input == ToWire(h) + id[..up - HEADER];
      assert id[..|id|] == id;
    }
  }

  /** What the downloader makes of any prefix of a response carrying `chunk`. */
  lemma DownloadedFromResponse(idLength: nat, id: Octets, chunk: Octets, sha: Octets -> Octets, expected: Option<Octets>, down: nat)
    requires HashOk(sha) && |id| == idLength <= MAX_ID && |chunk| < TWO32
    requires down <= HEADER + idLength + |chunk|
    ensures var full := ToWire(Announcing(RESPONSE, idLength, chunk, sha)) + id + chunk;
            Downloaded(full[..down], sha, expected) ==
            if down == |full| && (expected == None || expected.value == sha(chunk)) then Some(chunk) else None
  {
    hide ToWire, FromWire;
    var h := Announcing(RESPONSE, idLength, chunk, sha);
    var full := ToWire(h) + id + chunk;
    var input := full[..down];
    if down >= HEADER {
      var body := (id + chunk)[..down - HEADER];
      assert full == ToWire(h) + (id + chunk);
      assert input == ToWire(h) + body;
      HeaderRoundTrip(h, body);
      if |body| >= idLength {
        assert body[idLength..] == chunk[..down - HEADER - idLength];
        assert chunk[..|chunk|] == chunk;
        assert idLength == 0 ==> body == chunk[..down - HEADER];
      }
    }
  }

  lemma DownloadedFromError(idLength: nat, id: Octets, sha: Octets -> Octets, expected: Option<Octets>, down: nat)
    requires idLength < TWO32 && down <= HEADER + |id|
    ensures Downloaded((ToWire(Plain(ERROR, idLength)) + id)[..down], sha, expected) == None
  {
    hide ToWire, FromWire;
    var h := Plain(ERROR, idLength);
    if down >= HEADER {
      HeaderRoundTrip(h, id[..down - HEADER]);
      assert (ToWire(h) + id)[..down] == ToWire(h) + id[..down - HEADER];
    }
  }

  /** Download end to end.  However much of the request (`up`) and of the answer
      (`down`) gets through before the connection ends, the downloader returns the
      provider's own bytes or nothing, and exactly those bytes when everything
      gets through and a known content hash agrees. */
  lemma DownloadEndToEnd(id: Octets, resume: bool, host: Host, expected: Option<Octets>, up: nat, down: nat)
    requires HashOk(host.sha) && |id| < TWO32 && up <= |RequestBytes(id, resume)|
    requires host.provide(id).Some? ==> |host.provide(id).value| < TWO32
    requires down <= |Serve(RequestBytes(id, resume)[..up], host).output|
    ensures var out := Serve(RequestBytes(id, resume)[..up], host).output;
            var got := Downloaded(out[..down], host.sha, expected);
            got == if |id| <= MAX_ID && up == |RequestBytes(id, resume)| && down == |out|
                      && host.provide(id).Some? && host.provide(id).value != []
                      && (expected == None || expected.value == host.sha(host.provide(id).value))
                   then host.provide(id) else None
  {
    hide ToWire, FromWire, RequestBytes, Downloaded;
    ServeSeesRequest(id, resume, up, host);
    hide Serve;
    var out := Serve(RequestBytes(id, resume)[..up], host).output;
    if |id| > MAX_ID || up < |RequestBytes(id, resume)| {
      NothingDownloaded(host.sha, expected);
      assert out[..down] == [];
    } else if host.provide(id) == None || host.provide(id).value == [] {
      DownloadedFromError(|id|, id, host.sha, expected, down);
    } else {
      DownloadedFromResponse(|id|, id, host.provide(id).value, host.sha, expected, down);
    }
  }

  lemma NothingDownloaded(sha: Octets -> Octets, expected: Option<Octets>)
    ensures Downloaded([], sha, expected) == None
  {
  }

  /** The server sees the upload whole, or neither stores nor answers. */
  lemma ServeSeesUpload(id: Octets, data: Octets, up: nat, host: Host)
    requires HashOk(host.sha) && up <= |UploadBytes(id, data, host.sha)| && |id| < TWO32 && |data| < TWO32
    ensures Serve(UploadBytes(id, data, host.sha)[..up], host) ==
            if |id| > MAX_ID || data == [] || |data| > MAX_UPLOAD || up < |UploadBytes(id, data, host.sha)| then Reply([], None)
            else if host.accept(id, data) then
              Reply(ToWire(Plain(ACK, |id|).(hash := host.sha(data))) + id, Some((id, data)))
            else Reply(ToWire(Plain(ERROR, |id|)) + id, None)
  {
    hide ToWire, FromWire;
    var h := Announcing(UPLOAD, |id|, data, host.sha);
    var full := ToWire(h) + id + data;
    assert full == UploadBytes(id, data, host.sha);
    var input := full[..up];
    if up >= HEADER {
      var body := (id + data)[..up - HEADER];
      assert full == ToWire(h) + (id + data);
      assert input == ToWire(h) + body;
      HeaderRoundTrip(h, body);
      if |id| <= MAX_ID && |body| >= |id| {
        assert body[..|id|] == id;
        assert body[|id|..] == data[..up - HEADER - |id|];
        assert data[..|data|] == data;
      }
    }
  }

  lemma AckIff(h: Header, id: Octets, down: nat, data: Octets, sha: Octets -> Octets)
    requires InRange(h) && down <= HEADER + |id|
    ensures Acknowledged((ToWire(h) + id)[..down], data, sha) <==>
            down >= HEADER && h.magic == MAGIC && h.kind == ACK && h.hash == sha(data)
  {
    hide ToWire, FromWire;
    if down >= HEADER {
      HeaderRoundTrip(h, id[..down - HEADER]);
      assert (ToWire(h) + id)[..down] == ToWire(h) + id[..down - HEADER];
    }
  }

  /** Upload end to end.  The uploader reports success exactly when the receiver
      stored those very bytes under that id and its acknowledgement header got
      back; what the receiver stores is never anything else. */
  lemma UploadEndToEnd(id: Octets, data: Octets, host: Host, up: nat, down: nat)
    requires HashOk(host.sha) && |id| < TWO32 && |data| < TWO32 && up <= |UploadBytes(id, data, host.sha)|
    requires down <= |Serve(UploadBytes(id, data, host.sha)[..up], host).output|
    ensures var reply := Serve(UploadBytes(id, data, host.sha)[..up], host);
            && (reply.stored.Some? ==> reply.stored.value == (id, data) && host.accept(id, data))
            && (Acknowledged(reply.output[..down], data, host.sha) <==> reply.stored.Some? && down >= HEADER)
    ensures var reply := Serve(UploadBytes(id, data, host.sha)[..up], host);
            reply.stored.Some? <==> host.accept(id, data) && |id| <= MAX_ID && 0 < |data| <= MAX_UPLOAD
                                    && up == |UploadBytes(id, data, host.sha)|
  {
    ServeSeesUpload(id, data, up, host);
    hide ToWire, FromWire, UploadBytes, Serve, Acknowledged;
    var reply := Serve(UploadBytes(id, data, host.sha)[..up], host);
    if reply.output == [] {
      NotAcknowledged(data, host.sha);
      assert reply.output[..down] == [];
    } else if host.accept(id, data) {
      AckIff(Plain(ACK, |id|).(hash := host.sha(data)), id, down, data, host.sha);
    } else {
      AckIff(Plain(ERROR, |id|), id, down, data, host.sha);
    }
  }

  lemma NotAcknowledged(data: Octets, sha: Octets -> Octets)
    ensures !Acknowledged([], data, sha)
  {
  }
}

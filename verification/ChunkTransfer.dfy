/** The socket loops of src/p2p/transfer.cpp.  A stream may split reads and writes
    anywhere; every method is proved to produce what `ChunkWire` says about the
    whole byte strings. */
module ChunkTransfer {
  import opened Base
  import opened Octets
  import opened ChunkWire

  const SLICE: nat := 256 * 1024

  /** The flag is seen set before some slice of the payload. */
  ghost predicate Stopped(stops: nat -> bool, total: nat) {
    exists j: nat :: j * SLICE < total && stops(j)
  }

  lemma Seen(stops: nat -> bool, total: nat, k: nat)
    requires stops(k)
    ensures k * SLICE < total ==> Stopped(stops, total)
  {
  }

  lemma Unseen(stops: nat -> bool, total: nat, k: nat)
    requires k * SLICE >= total && forall j: nat :: j < k ==> !stops(j)
    ensures !Stopped(stops, total)
  {
  }

  lemma Later(k: nat)
    ensures (k + 1) * SLICE == k * SLICE + SLICE && SLICE > 0
  {
  }

  ghost predicate Interrupted(input: Octets, stops: nat -> bool) {
    |input| >= HEADER && Stopped(stops, FromWire(input[..HEADER]).dataLength)
  }

  /** One end of a TCP connection: `incoming` arrives before end of stream, and
      the other side takes `quota` more bytes before the connection breaks. */
  class TcpStream {
    var incoming: Octets
    var outgoing: Octets
    var quota: nat

    /** A read returns any nonempty part of what was asked for, or nothing at the end. */
    method Read(max: nat) returns (got: Octets)
      modifies this`incoming
      ensures |got| <= max && old(incoming) == got + incoming
      ensures got == [] <==> max == 0 || old(incoming) == []
    {
      if max == 0 || incoming == [] {
        return [];
      }
      var n: nat :| 1 <= n <= max && n <= |incoming|;
      got, incoming := incoming[..n], incoming[n..];
    }

    /** A write takes any nonempty part of the buffer, or nothing once broken. */
    method Write(buf: Octets) returns (taken: nat)
      modifies this`outgoing, this`quota
      ensures taken <= |buf| && taken <= old(quota)
      ensures taken == 0 <==> buf == [] || old(quota) == 0
      ensures outgoing == old(outgoing) + buf[..taken] && quota == old(quota) - taken
    {
      if buf == [] || quota == 0 {
        return 0;
      }
      taken :| 1 <= taken <= |buf| && taken <= quota;
      outgoing, quota := outgoing + buf[..taken], quota - taken;
    }

    method ReadExact(n: nat) returns (buf: Octets)
      modifies this`incoming
      ensures buf == old(incoming)[..Min(n, |old(incoming)|)]
      ensures incoming == old(incoming)[Min(n, |old(incoming)|)..]
    {
      buf := [];
      while |buf| < n
        invariant |buf| <= n && buf + incoming == old(incoming)
        decreases n - |buf|
      {
        var got := Read(n - |buf|);
        if got == [] {
          break;
        }
        buf := buf + got;
      }
    }

    /** The slice loop of a download into its private buffer; `stops(k)` is the stop
        flag at the k-th poll. */
    method ReadPayload(total: nat, stops: nat -> bool) returns (data: Option<Octets>)
      modifies this`incoming
      ensures data == if |old(incoming)| < total || Stopped(stops, total) then None else Some(old(incoming)[..total])
    {
      hide Stopped, SLICE;
      var buf, polls: nat := [], 0;
      ghost var goal: nat := 0;
      while |buf| < total
        invariant |buf| <= total && buf + incoming == old(incoming)
        invariant goal == polls * SLICE && (|buf| == Min(total, goal) || |old(incoming)| < total)
        invariant forall j: nat :: j < polls ==> !stops(j)
        decreases total - |buf|
      {
        if stops(polls) {
          Seen(stops, total, polls);
          return None;
        }
        Later(polls);
        polls, goal := polls + 1, goal + SLICE;
        var got := ReadExact(Min(SLICE, total - |buf|));
        if got == [] {
          return None;
        }
        buf := buf + got;
      }
      if |old(incoming)| >= total {
        Unseen(stops, total, polls);
        assert buf == old(incoming)[..total];
      }
      data := Some(buf);
    }

    method WriteExact(buf: Octets) returns (ok: bool)
      modifies this`outgoing, this`quota
      ensures ok <==> |buf| <= old(quota)
      ensures outgoing == old(outgoing) + buf[..Min(|buf|, old(quota))]
      ensures quota == old(quota) - Min(|buf|, old(quota))
    {
      var total := 0;
      while total < |buf|
        invariant 0 <= total <= |buf| && total <= old(quota)
        invariant outgoing == old(outgoing) + buf[..total] && quota == old(quota) - total
      {
        var taken := Write(buf[total..]);
        if taken == 0 {
          return false;
        }
        assert buf[..total + taken] == buf[..total] + buf[total..][..taken];
        total := total + taken;
      }
      assert buf[..|buf|] == buf;
      ok := true;
    }

    /** Payload is written slice by slice. */
    method WriteSliced(data: Octets) returns (ok: bool)
      modifies this`outgoing, this`quota
      ensures ok <==> |data| <= old(quota)
      ensures outgoing == old(outgoing) + data[..Min(|data|, old(quota))]
      ensures quota == old(quota) - Min(|data|, old(quota))
    {
      var sent := 0;
      while sent < |data|
        invariant 0 <= sent <= |data| && sent <= old(quota)
        invariant outgoing == old(outgoing) + data[..sent] && quota == old(quota) - sent
      {
        var size := Min(SLICE, |data| - sent);
        var part := data[sent..sent + size];
        ghost var take := Min(size, quota);
        ok := WriteExact(part);
        assert data[..sent + take] == data[..sent] + part[..take];
        if !ok {
          return false;
        }
        assert part[..take] == part;
        sent := sent + size;
      }
      assert data[..|data|] == data;
      ok := true;
    }

    /** Header, chunk id and payload in turn; stops at the first short write. */
    method Send(header: Octets, id: Octets, data: Octets) returns (ok: bool)
      modifies this`outgoing, this`quota
      ensures var all := header + id + data;
              && (ok <==> |all| <= old(quota))
              && outgoing == old(outgoing) + all[..Min(|all|, old(quota))]
              && quota == old(quota) - Min(|all|, old(quota))
    {
      ghost var all := header + id + data;
      ok := WriteExact(header);
      if !ok {
        assert all[..Min(|all|, old(quota))] == header[..Min(|header|, old(quota))];
        return;
      }
      assert header[..|header|] == header;
      ghost var q := quota;
      ok := WriteExact(id);
      if !ok {
        assert all[..Min(|all|, old(quota))] == header + id[..q];
        return;
      }
      assert id[..|id|] == id;
      ok := WriteSliced(data);
      assert all[..Min(|all|, old(quota))] == header + id + data[..Min(|data|, old(quota) - |header| - |id|)];
    }
  }

  /** The bytes a method wrote: all of `output`, cut off only by a broken connection. */
  twostate predicate Wrote(s: TcpStream, output: Octets)
    reads s
  {
    s.outgoing == old(s.outgoing) + output[..Min(|output|, old(s.quota))]
  }

  /** `handle_chunk_request`. */
  method HandleChunkRequest(s: TcpStream, host: Host) returns (stored: Option<(Octets, Octets)>)
    requires HashOk(host.sha)
    modifies s
    ensures stored == Serve(old(s.incoming), host).stored
    ensures Wrote(s, Serve(old(s.incoming), host).output)
  {
    hide ToWire, FromWire;
    ghost var input := s.incoming;
    stored := None;
    var raw := s.ReadExact(HEADER);
    if |raw| < HEADER {
      return;
    }
    var h := FromWire(raw);
    if h.magic != MAGIC || h.idLength > MAX_ID {
      return;
    }
    var id := s.ReadExact(h.idLength);
    if |id| < h.idLength {
      return;
    }
    if h.kind == UPLOAD {
      if h.dataLength == 0 || h.dataLength > MAX_UPLOAD {
        return;
      }
      var data := s.ReadExact(h.dataLength);
      if |data| < h.dataLength {
        return;
      }
      assert input[HEADER..][h.idLength..][..h.dataLength] == data;
      var accepted := host.sha(data) == h.hash && host.accept(id, data);
      if accepted {
        stored := Some((id, data));
      }
      var ack := ToWire(if accepted then Plain(ACK, h.idLength).(hash := host.sha(data)) else Plain(ERROR, h.idLength));
      assert ack + id + [] == ack + id;
      var _ := s.Send(ack, id, []);
      return;
    }
    var chunk := host.provide(id);
    if chunk == None || chunk.value == [] {
      var no := ToWire(Plain(ERROR, h.idLength));
      assert no + id + [] == no + id;
      var _ := s.Send(no, id, []);
      return;
    }
    var _ := s.Send(ToWire(Announcing(RESPONSE, h.idLength, chunk.value, host.sha)), id, chunk.value);
  }

  /** `download_from_peer`; `stops(k)` is the stop flag at its k-th poll. */
  method DownloadFromPeer(s: TcpStream, id: Octets, resume: bool, sha: Octets -> Octets, expected: Option<Octets>, stops: nat -> bool)
    returns (result: Option<Octets>)
    requires HashOk(sha)
    modifies s
    ensures Wrote(s, RequestBytes(id, resume))
    ensures result == if |RequestBytes(id, resume)| <= old(s.quota) && !Interrupted(old(s.incoming), stops)
                      then Downloaded(old(s.incoming), sha, expected) else None
  {
    hide ToWire, FromWire;
    ghost var input := s.incoming;
    var request := ToWire(Plain(REQUEST, Cast32(|id|)).(flags := if resume then 1 else 0));
    assert request + id + [] == RequestBytes(id, resume);
    var sent := s.Send(request, id, []);
    if !sent {
      return None;
    }
    var raw := s.ReadExact(HEADER);
    if |raw| < HEADER {
      return None;
    }
    var h := FromWire(raw);
    if h.magic != MAGIC || h.kind != RESPONSE {
      return None;
    }
    if 0 < h.idLength <= MAX_ID {
      var echo := s.ReadExact(h.idLength);
      if |echo| < h.idLength {
        return None;
      }
    }
    assert AfterEcho(h, input[HEADER..]) == Some(s.incoming);
    var data := s.ReadPayload(h.dataLength, stops);
    if data == None || sha(data.value) != h.hash || (expected.Some? && sha(data.value) != expected.value) {
      return None;
    }
    result := data;
  }

  /** `upload_chunk`. */
  method UploadChunk(s: TcpStream, id: Octets, data: Octets, sha: Octets -> Octets) returns (ok: bool)
    requires HashOk(sha)
    modifies s
    ensures Wrote(s, UploadBytes(id, data, sha))
    ensures ok <==> |UploadBytes(id, data, sha)| <= old(s.quota) && Acknowledged(old(s.incoming), data, sha)
  {
    hide ToWire, FromWire;
    ok := s.Send(ToWire(Announcing(UPLOAD, Cast32(|id|), data, sha)), id, data);
    if !ok {
      return;
    }
    var raw := s.ReadExact(HEADER);
    if |raw| < HEADER {
      return false;
    }
    var h := FromWire(raw);
    if 0 < h.idLength <= MAX_ID {
      var _ := s.ReadExact(h.idLength);
    }
    ok := h.magic == MAGIC && h.kind == ACK && sha(data) == h.hash;
  }
}

/** The receiving half of `http_request`, src/control/client.cpp: a buffer that
    grows by whatever `recv` returns, and a position moving through it. */
module HttpClient {
  import opened Base
  import opened Text
  import opened HttpFraming
  import opened HttpSplits

  // ------------------------------------------------- pieces taken and bytes reached

  lemma TakenPrefix(whole: seq<string>, t: nat)
    requires t <= |whole|
    ensures Flat(whole[..t]) <= Flat(whole)
  {
    FlatAppend(whole[..t], whole[t..]);
    assert whole[..t] + whole[t..] == whole;
  }

  lemma TakeOne(whole: seq<string>, t: nat)
    requires t < |whole|
    ensures Flat(whole[..t + 1]) == Flat(whole[..t]) + whole[t]
  {
    FlatAppend(whole[..t], [whole[t]]);
    assert whole[..t + 1] == whole[..t] + [whole[t]];
    assert Flat([whole[t]]) == whole[t] + "";
  }

  lemma TakeAll(whole: seq<string>)
    ensures Flat(whole[..|whole|]) == Flat(whole) && Flat(whole[..0]) == ""
  {
    assert whole[..|whole|] == whole;
  }

  /** Enough pieces taken reach what is asked for. */
  lemma {:induction false} ReachLeast(whole: seq<string>, t: nat, need: nat)
    requires t <= |whole| && need <= |Flat(whole[..t])|
    ensures Reach(whole, need) <= |Flat(whole[..t])|
  {
    if t > 0 && need > 0 {
      var rest, k := whole[1..], |whole[0]|;
      assert whole[..t][1..] == rest[..t - 1];
      ReachLeast(rest, t - 1, if need <= k then 0 else need - k);
    }
  }

  /** One piece more than too few is not too many. */
  lemma {:induction false} ReachNext(whole: seq<string>, t: nat, need: nat)
    requires t < |whole| && |Flat(whole[..t])| < need
    ensures |Flat(whole[..t + 1])| <= Reach(whole, need)
  {
    var rest, k := whole[1..], |whole[0]|;
    assert whole[..t + 1][1..] == rest[..t];
    if t == 0 {
      assert rest[..0] == [];
    } else {
      assert whole[..t][1..] == rest[..t - 1];
      ReachNext(rest, t - 1, if need <= k then 0 else need - k);
    }
  }

  lemma ReachMax(whole: seq<string>, a: nat, b: nat)
    ensures Max(Reach(whole, a), Reach(whole, b)) == Reach(whole, Max(a, b))
  {
    hide Reach, Flat;
    if a <= b {
      ReachMonotone(whole, a, b);
    } else {
      ReachMonotone(whole, b, a);
    }
  }

  class Connection {
    /** What `recv` has still to return before it reports the end. */
    var pieces: seq<string>
    var buffer: string
    /** Everything the peer sends, and how many pieces of it have been taken. */
    ghost const whole: seq<string>
    ghost var taken: nat

    ghost predicate Valid()
      reads this
    {
      taken <= |whole| && pieces == whole[taken..] && buffer == Flat(whole[..taken]) && buffer <= Flat(whole)
    }

    constructor (incoming: seq<string>)
      ensures Valid() && buffer == "" && whole == incoming
    {
      pieces, buffer, whole, taken := incoming, "", incoming, 0;
    }

    method ReadMore() returns (more: bool)
      requires Valid()
      modifies this
      ensures Valid() && old(buffer) <= buffer
      ensures more == (old(pieces) != [])
      ensures !more ==> taken == old(taken) && pieces == [] && buffer == Flat(whole)
      ensures more ==> taken == old(taken) + 1 && |pieces| == |old(pieces)| - 1
    {
      more := pieces != [];
      TakeAll(whole);
      if more {
        TakeOne(whole, taken);
        TakenPrefix(whole, taken + 1);
        buffer, pieces, taken := buffer + pieces[0], pieces[1..], taken + 1;
      }
      hide Flat;
    }

    /** Buffers at least `need` bytes, if the stream has them, and reads no piece
        more than that takes. */
    method EnsureBuffered(need: nat) returns (ok: bool)
      requires Valid()
      modifies this
      ensures Valid() && old(buffer) <= buffer
      ensures ok == (need <= |Flat(whole)|)
      ensures ok ==> |buffer| == Max(old(|buffer|), Reach(whole, need)) && need <= |buffer|
    {
      hide Flat, Reach;
      while |buffer| < need
        invariant Valid() && old(buffer) <= buffer
        invariant |buffer| <= Max(old(|buffer|), Reach(whole, need))
        decreases |pieces|
      {
        if taken < |whole| {
          ReachNext(whole, taken, need);
        }
        var more := ReadMore();
        if !more {
          return false;
        }
      }
      ReachLeast(whole, taken, need);
      ok := true;
    }

    /** Reads until `pat` occurs at `from` or later. */
    method ReadUntil(pat: string, from: nat) returns (at: nat, found: bool)
      requires Valid() && pat != "" && from <= |buffer|
      modifies this
      ensures Valid() && old(buffer) <= buffer && at == Find(Flat(whole), pat, from)
      ensures found == (at < |Flat(whole)|)
      ensures found ==> at + |pat| <= |buffer| == Max(old(|buffer|), Reach(whole, at + |pat|)) && at == Find(buffer, pat, from)
    {
      hide Flat, Reach, Find, Matches;
      ghost var s := Flat(whole);
      at := Find(buffer, pat, from);
      while at == |buffer|
        invariant Valid() && old(buffer) <= buffer && from <= |buffer| && at == Find(buffer, pat, from)
        invariant Find(s, pat, from) < |s| ==> |buffer| <= Max(old(|buffer|), Reach(whole, Find(s, pat, from) + |pat|))
        decreases |pieces|
      {
        NotYetFound(buffer, s, pat, from);
        if taken < |whole| && Find(s, pat, from) < |s| {
          ReachNext(whole, taken, Find(s, pat, from) + |pat|);
        }
        var more := ReadMore();
        if !more {
          return at, false;
        }
        at := Find(buffer, pat, from);
      }
      FindStable(buffer, s, pat, from);
      MatchFits(buffer, pat, at);
      ReachLeast(whole, taken, at + |pat|);
      found := true;
    }

    /** The size line at `pos`, as far as a round gets without data. */
    method ReadSizeLine(pos: nat, ghost mark: nat) returns (r: Round)
      requires Valid() && pos <= |buffer| && mark <= |Flat(whole)| && |buffer| == Reach(whole, mark)
      modifies this
      ensures Valid() && r == SizeLineAt(Flat(whole), pos)
      ensures r.Goes? ==> r.data <= |buffer| == Reach(whole, Max(mark, r.data))
    {
      hide Flat, Reach, Find, Matches, ChunkSize;
      var eol, found := ReadUntil(CRLF, pos);
      if !found {
        return Cut;
      }
      ReachMax(whole, mark, eol + 2);
      SliceArrived(buffer, Flat(whole), pos, eol);
      var size := ChunkSize(buffer[pos..eol]);
      if size == None {
        return Bad;
      }
      if size.value == 0 {
        return Last;
      }
      r := Goes(eol + 2, size.value, (eol + 2 + size.value + 2) % TWO64);
    }

    /** One round of the chunk loop: what it finds, and the bytes it appends. */
    method ReadRound(pos: nat, ghost mark: nat) returns (r: Round, appended: string)
      requires Valid() && pos <= |buffer| && mark <= |Flat(whole)| && |buffer| == Reach(whole, mark)
      modifies this
      ensures Valid() && r == RoundAt(Flat(whole), pos)
      ensures r.Goes? ==> appended == Appended(whole, mark, r) && r.next <= |buffer| == Reach(whole, Mark(mark, r))
    {
      hide Flat, Reach, RoundAt, Appended, SizeLineAt;
      appended := "";
      r := ReadSizeLine(pos, mark);
      RoundCases(Flat(whole), pos);
      if !r.Goes? {
        return;
      }
      var enough := EnsureBuffered(r.next);
      if !enough {
        return Short, appended;
      }
      ReachMax(whole, Max(mark, r.data), r.next);
      var last := Min(r.data + r.size, |buffer|);
      AppendedIs(whole, mark, r, last);
      SliceArrived(buffer, Flat(whole), r.data, last);
      appended := buffer[r.data..last];
    }

    /** The chunk loop from `start`, `asked` bytes having been asked for so far.  It
        need not end: `None` is a loop still going after so many rounds. */
    method ReadChunks(start: nat, status: int, rounds: nat, ghost asked: nat) returns (r: Option<Outcome>)
      requires Valid() && start <= |buffer| && asked <= |Flat(whole)| && |buffer| == Reach(whole, asked)
      modifies this
      ensures r == Chunks(whole, start, asked, status, "", rounds)
    {
      hide Flat, Reach, Chunks, RoundAt, Appended;
      var pos: nat, body := start, "";
      ghost var mark: nat := asked;
      for k := 0 to rounds
        invariant Valid() && pos <= |buffer| && mark <= |Flat(whole)| && |buffer| == Reach(whole, mark)
        invariant Chunks(whole, pos, mark, status, body, rounds - k) == Chunks(whole, start, asked, status, "", rounds)
      {
        ChunksStep(whole, pos, mark, status, body, rounds - k);
        var round, appended := ReadRound(pos, mark);
        match round {
          case Cut => return Some(Reply(500, CUT_SIZE));
          case Bad => return Some(Reply(500, BAD_SIZE));
          case Short => return Some(Reply(500, CUT_CHUNK));
          case Last => return Some(Reply(status, body));
          case Goes(_, _, next) =>
            body, pos := body + appended, next;
            mark := Mark(mark, round);
        }
      }
      NoRounds(whole, pos, mark, status, body);
      r := None;
    }

    /** A counted body from `start` on. */
    method ReadCounted(start: nat, length: nat, status: int) returns (r: Outcome)
      requires Valid() && start <= |buffer| && length < TWO64
      modifies this
      ensures r == Counted(Flat(whole), old(|buffer|), start, length, status)
    {
      hide Flat, Reach;
      ghost var s := Flat(whole);
      WrappedNeed(start, length);
      var need := (start + length) % TWO64;
      if need <= |buffer| {
        ReachLeast(whole, taken, need);
      }
      var enough := EnsureBuffered(need);
      if !enough {
        return Reply(500, CUT_BODY);
      }
      var last := Min(start + length, |buffer|);
      assert buffer[start..last] == s[start..last];
      r := Reply(status, buffer[start..last]);
    }

    /** The loop over the header lines of the block that ends at `end`. */
    method ReadFields(end: nat) returns (fields: map<string, string>)
      requires end <= |buffer|
      ensures fields == HeaderFields(buffer, end)
    {
      hide Find, Matches, AddField;
      fields := map[];
      var from := Find(buffer, CRLF, 0) + 2;
      while from < end
        invariant Fields(buffer, from, end, fields) == HeaderFields(buffer, end)
        decreases end - from
      {
        var eol := Min(Find(buffer, CRLF, from), end);
        FieldsStep(buffer, from, end, fields);
        fields := AddField(fields, buffer[from..eol]);
        from := eol + 2;
      }
    }
  }

  lemma SliceArrived(b: string, s: string, i: nat, j: nat)
    requires b <= s && i <= j <= |b|
    ensures s[i..j] == b[i..j]
  {
  }

  /** What has arrived holds no match, so the stream's match reaches beyond it. */
  lemma NotYetFound(b: string, s: string, pat: string, from: nat)
    requires b <= s && pat != "" && from <= |b| && Find(b, pat, from) == |b|
    ensures Find(s, pat, from) < |s| ==> |b| < Find(s, pat, from) + |pat|
  {
    var i := Find(s, pat, from);
    if i + |pat| <= |b| {
      MatchesPrefix(b, s, pat, i);
      hide Find;
    }
  }

  /** A length whose end leaves 64 bits asks for fewer bytes than have arrived. */
  lemma WrappedNeed(start: nat, n: nat)
    requires n < TWO64
    ensures if start + n < TWO64 then (start + n) % TWO64 == start + n else (start + n) % TWO64 <= start
  {
  }

  lemma ChunksStep(whole: seq<string>, pos: nat, mark: nat, status: int, body: string, rounds: nat)
    requires pos <= |Flat(whole)| && mark <= |Flat(whole)| && rounds > 0
    ensures var r := RoundAt(Flat(whole), pos);
            Chunks(whole, pos, mark, status, body, rounds) ==
            match r
            case Cut => Some(Reply(500, CUT_SIZE))
            case Bad => Some(Reply(500, BAD_SIZE))
            case Short => Some(Reply(500, CUT_CHUNK))
            case Last => Some(Reply(status, body))
            case Goes(_, _, next) =>
              Chunks(whole, next, Mark(mark, r), status, body + Appended(whole, mark, r), rounds - 1)
  {
    hide RoundAt, Appended, Flat;
  }

  lemma NoRounds(whole: seq<string>, pos: nat, mark: nat, status: int, body: string)
    requires pos <= |Flat(whole)| && mark <= |Flat(whole)|
    ensures Chunks(whole, pos, mark, status, body, 0) == None
  {
  }

  /** A round before it looks for its data. */
  ghost function SizeLineAt(s: string, pos: nat): (r: Round)
    requires pos <= |s|
  {
    var eol := Find(s, CRLF, pos);
    if eol == |s| then Cut
    else
      match ChunkSize(s[pos..eol])
      case None => Bad
      case Some(n) => if n == 0 then Last else Goes(eol + 2, n, (eol + 2 + n + 2) % TWO64)
  }

  lemma RoundCases(s: string, pos: nat)
    requires pos <= |s|
    ensures var r := SizeLineAt(s, pos); RoundAt(s, pos) == if r.Goes? && r.next > |s| then Short else r
  {
    hide Find, Matches, ChunkSize;
  }

  lemma AppendedIs(whole: seq<string>, mark: nat, r: Round, last: nat)
    requires r.Goes? && mark <= |Flat(whole)| && r.data <= |Flat(whole)| && r.next <= |Flat(whole)|
    requires last == Min(r.data + r.size, Reach(whole, Mark(mark, r)))
    ensures r.data <= last <= |Flat(whole)| && Appended(whole, mark, r) == Flat(whole)[r.data..last]
  {
    hide Flat, Reach;
  }

  /** Reads one response, in at most so many rounds of the chunk loop. */
  method ReadResponse(incoming: seq<string>, rounds: nat) returns (r: Option<Outcome>)
    ensures r == Decode(incoming, rounds)
  {
    hide Flat, Find, Matches, Chunks, Status, HeaderFields, Fields, Chunked, Stoull, Counted, Reach;
    var c := new Connection(incoming);
    ghost var s := Flat(incoming);
    var end, found := c.ReadUntil(BLANK_LINE, 0);
    if !found {
      return Some(Reply(500, INCOMPLETE));
    }
    HeadStable(c.buffer, s);
    var status := Status(c.buffer);
    if status == None {
      return Some(Reply(500, BAD_STATUS));
    }
    var fields := c.ReadFields(end);
    var start := end + 4;
    if Chunked(fields) {
      r := c.ReadChunks(start, status.value, rounds, start);
    } else if "content-length" in fields {
      var length := Stoull(fields["content-length"], 10);
      if length == None {
        return Some(Reply(500, BAD_LENGTH));
      }
      StoullBound(fields["content-length"], 10);
      var reply := c.ReadCounted(start, length.value, status.value);
      r := Some(reply);
    } else {
      var more := c.ReadMore();
      while more
        invariant c.Valid() && c.whole == incoming && start <= |c.buffer| && (!more ==> c.buffer == s)
        decreases |c.pieces|, more
      {
        more := c.ReadMore();
      }
      r := Some(Reply(status.value, c.buffer[start..]));
    }
  }

  lemma StoullBound(text: string, base: nat)
    ensures Stoull(text, base).Some? ==> Stoull(text, base).value < TWO64
  {
    hide Span, Value, SkipSpace, SkipHexPrefix;
  }
}

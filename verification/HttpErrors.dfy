/** Responses that end too early or cannot be read, against the decoder of
    src/control/client.cpp: every split of such a stream is answered 500. */
module HttpErrors {
  import opened Base
  import opened Text
  import opened HttpFraming
  import opened HttpSplits
  import opened HttpBodies

  // -------------------------------------------------------------- counted bodies

  /** A body that ends short of its announced length is an error, in every split. */
  lemma CountedCut(pieces: seq<string>, head: string, status: int, body: string, n: nat)
    requires Head(head, status) && Flat(pieces) == head + body && |body| < n && |head| + n < TWO64
    requires var fields := HeaderFields(head, |head| - 4);
             !Chunked(fields) && "content-length" in fields && Stoull(fields["content-length"], 10) == Some(n)
    ensures Returns(pieces, Reply(500, "Invalid response: truncated body"))
  {
    hide Find, HttpFraming.Status, HeaderFields, Chunked, Flat, Stoull, Decode, Head, Reach;
    HeadOf(head, Flat(pieces), status);
    DecodeCounted(pieces, 0);
  }

  /** A length that is no number is an error. */
  lemma BadLength(pieces: seq<string>, head: string, status: int, body: string)
    requires Head(head, status) && Flat(pieces) == head + body
    requires var fields := HeaderFields(head, |head| - 4);
             !Chunked(fields) && "content-length" in fields && Stoull(fields["content-length"], 10) == None
    ensures Returns(pieces, Reply(500, "Invalid response: malformed Content-Length"))
  {
    hide Find, HttpFraming.Status, HeaderFields, Chunked, Flat, Stoull, Head, Reach, Matches;
    HeadOf(head, Flat(pieces), status);
    assert Decode(pieces, 0) == Some(Reply(500, BAD_LENGTH));
  }

  /** Without either field the body is all that follows the header. */
  lemma UncountedBody(pieces: seq<string>, head: string, status: int, body: string)
    requires Head(head, status) && Flat(pieces) == head + body
    requires var fields := HeaderFields(head, |head| - 4); !Chunked(fields) && "content-length" !in fields
    ensures Returns(pieces, Reply(status, body))
  {
    hide Find, HttpFraming.Status, HeaderFields, Chunked, Flat, Stoull, Head, Reach, Matches;
    HeadOf(head, Flat(pieces), status);
    assert (head + body)[|head|..] == body;
    assert Decode(pieces, 0) == Some(Reply(status, body));
  }

  // ------------------------------------------------------------------ header block

  /** A stream that ends before its header block is an error. */
  lemma HeaderCut(pieces: seq<string>)
    requires forall j :: !Matches(Flat(pieces), BLANK_LINE, j)
    ensures Returns(pieces, Reply(500, "Invalid response: incomplete headers"))
  {
    var s := Flat(pieces);
    assert !Matches(s, BLANK_LINE, Find(s, BLANK_LINE, 0));
    hide Find, Matches, Flat;
    assert Decode(pieces, 0) == Some(Reply(500, INCOMPLETE));
  }

  /** A status field that is no number is an error; a first line without a blank counts
      as 500. */
  lemma BadStatus(pieces: seq<string>)
    requires Find(Flat(pieces), BLANK_LINE, 0) < |Flat(pieces)| && HttpFraming.Status(Flat(pieces)) == None
    ensures Returns(pieces, Reply(500, "Invalid response: malformed status line"))
  {
    hide Find, Matches, Flat, HttpFraming.Status;
    assert Decode(pieces, 0) == Some(Reply(500, BAD_STATUS));
  }

  lemma StatusWithoutBlank(first: string, rest: string)
    requires ' ' !in first && '\r' !in first
    ensures HttpFraming.Status(first + CRLF + rest) == Some(500)
  {
    var s := first + CRLF + rest;
    assert s[|first|..|first| + 2] == CRLF;
    assert forall j :: 0 <= j < |first| ==> s[j] == first[j];
    FirstBreak(s, CRLF, 0, |first|);
    BlankStable(first, s, ' ', |first|);
    hide Find, Stoi;
    assert FindChar(first, ' ') == |first|;
  }

  /** Of two header lines with one name, in any case and padding, the later counts; a
      line without a colon is passed over. */
  lemma LaterFieldCounts(fields: map<string, string>, name: string, value: string, name': string, value': string)
    requires ':' !in name && ':' !in name' && Lower(Trim(name)) == Lower(Trim(name'))
    ensures AddField(AddField(fields, name + ":" + value), name' + ":" + value') ==
            fields[Lower(Trim(name)) := Trim(value')]
  {
    FieldAdded(fields, name, value);
    FieldAdded(AddField(fields, name + ":" + value), name', value');
    hide AddField, Lower, Trim;
    var key := Lower(Trim(name));
    assert fields[key := Trim(value)][key := Trim(value')] == fields[key := Trim(value')];
  }

  lemma FieldAdded(fields: map<string, string>, name: string, value: string)
    requires ':' !in name
    ensures AddField(fields, name + ":" + value) == fields[Lower(Trim(name)) := Trim(value)]
  {
    var line := name + ":" + value;
    assert line == name + (":" + value);
    FindCharAt(name, ':', ":" + value);
    assert line[..|name|] == name && line[|name| + 1..] == value;
    hide Lower, Trim;
  }

  lemma NoColonNoField(fields: map<string, string>, line: string)
    requires ':' !in line
    ensures AddField(fields, line) == fields
  {
    assert FindChar(line, ':') == |line|;
  }

  // ------------------------------------------------------------------ chunked bodies

  /** What is left of an encoding when the stream ends inside it. */
  ghost function Encoding(cs: seq<Chunk>, last: Chunk): string {
    EncodeChunks(cs) + (last.digits + last.pad + last.ext + CRLF)
  }

  lemma NoBreakInLine(digits: string, pad: string, ext: string, n: nat, j: nat)
    requires SizeLine(digits, pad, ext, n)
    ensures !Matches(digits + pad + ext + "\r", CRLF, j)
  {
    var line := digits + pad + ext;
    var s := line + "\r";
    if j + 2 <= |s| {
      assert s[j..j + 2] == [s[j], s[j + 1]];
      if j < |digits| {
        assert DigitValue(digits[j]) < 16 && s[j] == digits[j];
      } else if j < |digits| + |pad| {
        assert Blank(pad[j - |digits|]) && s[j] == pad[j - |digits|];
      } else {
        var e := j - |digits| - |pad|;
        assert !Matches(ext, CRLF, e);
        assert s[j] == ext[e];
        if e + 1 < |ext| {
          assert ext[e..e + 2] == [ext[e], ext[e + 1]] && s[j + 1] == ext[e + 1];
        }
      }
    }
  }

  /** As long as a size line and its break have not come, no break is found. */
  lemma NoBreakYet(before: string, digits: string, pad: string, ext: string, n: nat, cut: string)
    requires SizeLine(digits, pad, ext, n) && cut <= digits + pad + ext + "\r"
    ensures RoundAt(before + cut, |before|) == Cut
  {
    var s, at := before + cut, Find(before + cut, CRLF, |before|);
    if at < |s| {
      assert Matches(s, CRLF, at);
      var j: nat := at - |before|;
      assert s[at..at + 2] == cut[j..j + 2] == (digits + pad + ext + "\r")[j..j + 2];
      assert Matches(digits + pad + ext + "\r", CRLF, j);
      NoBreakInLine(digits, pad, ext, n, j);
    }
    hide Find, Matches, SizeLine;
  }

  /** A chunk whose data has not all come. */
  lemma DataShort(before: string, c: Chunk, tail: string)
    requires WellFormed(c) && |tail| < |c.data| + 2 && |before| + |EncodeChunk(c)| < TWO64
    ensures RoundAt(before + (c.digits + c.pad + c.ext + CRLF + tail), |before|) == Short
  {
    var line := c.digits + c.pad + c.ext;
    var s := before + line + CRLF + tail;
    var eol := |before| + |line|;
    hide Find, Matches, ChunkSize, SizeLine, RoundAt;
    Regroup(before, line, CRLF, tail);
    LineEnds(before, c.digits, c.pad, c.ext, |c.data|, tail);
    SizeRead(c.digits, c.pad, c.ext, |c.data|);
    RoundShort(s, |before|, eol, |c.data|);
  }

  lemma RoundShort(s: string, pos: nat, eol: nat, n: nat)
    requires pos <= |s| && Find(s, CRLF, pos) == eol && eol + 2 <= |s| && ChunkSize(s[pos..eol]) == Some(n)
    requires n > 0 && |s| < eol + n + 4 < TWO64
    ensures RoundAt(s, pos) == Short
  {
    hide Find, ChunkSize, Matches;
  }

  lemma PrefixSplit(a: string, b: string, cut: string)
    requires cut <= a + b
    ensures if |cut| <= |a| then cut <= a else cut == a + cut[|a|..] && cut[|a|..] <= b
  {
    assert cut == (a + b)[..|cut|];
  }

  /** What a first round makes of an encoding cut short within its first chunk. */
  lemma CutInFirst(before: string, c: Chunk, cut: string)
    requires WellFormed(c) && cut <= EncodeChunk(c) && |cut| < |EncodeChunk(c)| && |before| + |EncodeChunk(c)| < TWO64
    ensures RoundAt(before + cut, |before|) == Cut || RoundAt(before + cut, |before|) == Short
  {
    var line := c.digits + c.pad + c.ext;
    var rest := c.data + CRLF;
    assert EncodeChunk(c) == (line + CRLF) + rest;
    PrefixSplit(line + CRLF, rest, cut);
    hide RoundAt, EncodeChunk;
    if |cut| < |line| + 2 {
      assert line + CRLF == line + "\r" + "\n";
      PrefixSplit(line + "\r", "\n", cut);
      NoBreakYet(before, c.digits, c.pad, c.ext, |c.data|, cut);
    } else {
      var tail := cut[|line| + 2..];
      assert cut == line + CRLF + tail;
      DataShort(before, c, tail);
    }
  }

  ghost predicate Truncated(r: Option<Outcome>) {
    r == Some(Reply(500, "Invalid response: truncated chunk header")) || r == Some(Reply(500, "Invalid response: truncated chunk data"))
  }

  lemma RoundTruncates(pieces: seq<string>, pos: nat, mark: nat, status: int, body: string, rounds: nat)
    requires pos <= |Flat(pieces)| && mark <= |Flat(pieces)| && rounds > 0
    requires RoundAt(Flat(pieces), pos) == Cut || RoundAt(Flat(pieces), pos) == Short
    ensures Truncated(Chunks(pieces, pos, mark, status, body, rounds))
  {
    hide RoundAt, Flat, Appended;
  }

  lemma LastProper(last: Chunk, cut: string)
    requires cut <= Encoding([], last) && |cut| < |Encoding([], last)|
    ensures cut <= last.digits + last.pad + last.ext + "\r"
  {
    var line := last.digits + last.pad + last.ext;
    assert Encoding([], last) == "" + (line + CRLF) == line + "\r" + "\n";
    PrefixSplit(line + "\r", "\n", cut);
  }

  lemma EncodingCons(cs: seq<Chunk>, last: Chunk)
    requires cs != []
    ensures Encoding(cs, last) == EncodeChunk(cs[0]) + Encoding(cs[1..], last)
    ensures |EncodeChunks(cs)| == |EncodeChunk(cs[0])| + |EncodeChunks(cs[1..])|
  {
    var line := last.digits + last.pad + last.ext + CRLF;
    assert EncodeChunk(cs[0]) + EncodeChunks(cs[1..]) + line == EncodeChunk(cs[0]) + (EncodeChunks(cs[1..]) + line);
  }

  /** Wherever an encoding is cut before its last size line is complete, the chunk loop
      ends in an error, in every split. */
  lemma {:induction false} ChunksCut(pieces: seq<string>, before: string, cs: seq<Chunk>, last: Chunk, cut: string,
                                     mark: nat, status: int, body: string, rounds: nat)
    requires forall i :: 0 <= i < |cs| ==> WellFormed(cs[i])
    requires SizeLine(last.digits, last.pad, last.ext, 0) && |before| + |EncodeChunks(cs)| < TWO64 && rounds > |cs|
    requires cut <= Encoding(cs, last) && |cut| < |Encoding(cs, last)| && Flat(pieces) == before + cut && mark <= |Flat(pieces)|
    ensures Truncated(Chunks(pieces, |before|, mark, status, body, rounds))
    decreases |cs|
  {
    hide SizeLine, WellFormed, EncodeChunk, EncodeChunks, RoundAt, Flat, Chunks, Encoding, Truncated;
    if cs == [] {
      LastProper(last, cut);
      NoBreakYet(before, last.digits, last.pad, last.ext, 0, cut);
      RoundTruncates(pieces, |before|, mark, status, body, rounds);
    } else {
      var c, rest := cs[0], cs[1..];
      EncodingCons(cs, last);
      PrefixSplit(EncodeChunk(c), Encoding(rest, last), cut);
      if |cut| < |EncodeChunk(c)| {
        CutInFirst(before, c, cut);
        RoundTruncates(pieces, |before|, mark, status, body, rounds);
      } else {
        var tail := cut[|EncodeChunk(c)|..];
        assert cut == EncodeChunk(c) + tail && tail <= Encoding(rest, last);
        assert before + cut == before + EncodeChunk(c) + tail;
        ChunkTaken(pieces, before, c, tail, mark, status, body, rounds);
        var next := |before| + |EncodeChunk(c)|;
        ChunksCut(pieces, before + EncodeChunk(c), rest, last, tail, Max(mark, next), status, body + c.data, rounds - 1);
      }
    }
  }

  /** So for a whole response: a chunked body cut short never comes back as a success. */
  lemma ChunkedCut(pieces: seq<string>, head: string, status: int, cs: seq<Chunk>, last: Chunk, cut: string)
    requires Head(head, status) && Chunked(HeaderFields(head, |head| - 4))
    requires forall i :: 0 <= i < |cs| ==> WellFormed(cs[i])
    requires SizeLine(last.digits, last.pad, last.ext, 0) && |head| + |EncodeChunks(cs)| < TWO64
    requires cut <= Encoding(cs, last) && |cut| < |Encoding(cs, last)| && Flat(pieces) == head + cut
    ensures Returns(pieces, Reply(500, "Invalid response: truncated chunk header")) ||
            Returns(pieces, Reply(500, "Invalid response: truncated chunk data"))
  {
    var s := Flat(pieces);
    hide Find, HttpFraming.Status, HeaderFields, SizeLine, WellFormed, EncodeChunks, Chunks, Chunked, Flat, Head, Decode, Encoding;
    HeadOf(head, s, status);
    var rounds := |cs| + 1;
    ChunksCut(pieces, head, cs, last, cut, |head|, status, "", rounds);
    DecodeChunked(pieces, rounds);
  }

  /** A size line that is no number is an error wherever it is reached. */
  lemma BadSizeLine(pieces: seq<string>, head: string, status: int, line: string, rest: string)
    requires Head(head, status) && Chunked(HeaderFields(head, |head| - 4))
    requires Flat(pieces) == head + (line + CRLF + rest) && '\r' !in line && ChunkSize(line) == None
    ensures Returns(pieces, Reply(500, "Invalid response: malformed chunk size"))
  {
    var s := Flat(pieces);
    hide HttpFraming.Status, HeaderFields, Chunks, Chunked, Flat, Head, Decode, ChunkSize;
    HeadOf(head, s, status);
    LineBad(head, line, rest);
    hide Find, RoundAt;
    DecodeChunked(pieces, 1);
    OneBadRound(pieces, |head|, status);
  }

  lemma PlainLine(head: string, line: string, rest: string)
    requires '\r' !in line
    ensures Find(head + line + CRLF + rest, CRLF, |head|) == |head| + |line|
  {
    var s := head + line + CRLF + rest;
    var eol := |head| + |line|;
    assert s[eol..eol + 2] == CRLF;
    assert forall j :: |head| <= j < eol ==> s[j] == line[j - |head|];
    FirstBreak(s, CRLF, |head|, eol);
    hide Find;
  }

  lemma LineBad(head: string, line: string, rest: string)
    requires '\r' !in line && ChunkSize(line) == None
    ensures RoundAt(head + (line + CRLF + rest), |head|) == Bad
  {
    hide Find, Matches, ChunkSize, RoundAt;
    PlainLine(head, line, rest);
    Regroup(head, line, CRLF, rest);
    RoundBad(head + line + CRLF + rest, |head|, |head| + |line|);
  }

  lemma RoundBad(s: string, pos: nat, eol: nat)
    requires pos <= |s| && Find(s, CRLF, pos) == eol < |s| && ChunkSize(s[pos..eol]) == None
    ensures RoundAt(s, pos) == Bad
  {
    hide Find, Matches, ChunkSize;
  }

  lemma OneBadRound(pieces: seq<string>, pos: nat, status: int)
    requires pos <= |Flat(pieces)| && RoundAt(Flat(pieces), pos) == Bad
    ensures Chunks(pieces, pos, pos, status, "", 1) == Some(Reply(500, BAD_SIZE))
  {
    hide RoundAt, Flat, Appended;
  }

  // -------------------------------------------------------------------- field values

  /** Trimming takes the blanks around and nothing else. */
  lemma TrimIs(before: string, core: string, after: string)
    requires (forall c :: c in before + after ==> c == ' ' || c == '\t')
    requires core != "" && core[0] != ' ' && core[0] != '\t' && core[|core| - 1] != ' ' && core[|core| - 1] != '\t'
    ensures Trim(before + core + after) == core
  {
    assert forall c :: c in before ==> c in before + after;
    assert forall c :: c in after ==> c in before + after;
    LeftBlanks(before, core + after);
    assert before + core + after == before + (core + after);
    RightBlanks(core, after);
  }

  lemma {:induction false} LeftBlanks(before: string, rest: string)
    requires (forall c :: c in before ==> Blank(c)) && rest != "" && !Blank(rest[0])
    ensures TrimLeft(before + rest) == rest
  {
    if before == "" {
      assert before + rest == rest;
    } else {
      assert (before + rest)[1..] == before[1..] + rest && Blank(before[0]);
      LeftBlanks(before[1..], rest);
    }
  }

  lemma {:induction false} RightBlanks(core: string, after: string)
    requires (forall c :: c in after ==> Blank(c)) && core != "" && !Blank(core[|core| - 1])
    ensures TrimRight(core + after) == core
  {
    var s := core + after;
    if after == "" {
      assert s == core;
    } else {
      assert s[..|s| - 1] == core + after[..|after| - 1] && s[|s| - 1] == after[|after| - 1] && after[|after| - 1] in after;
      RightBlanks(core, after[..|after| - 1]);
    }
  }

  /** A transfer coding list that names "chunked" anywhere, in any case, is chunked. */
  lemma ChunkedAnywhere(fields: map<string, string>, before: string, name: string, after: string)
    requires "transfer-encoding" in fields && fields["transfer-encoding"] == before + name + after && Lower(name) == "chunked"
    ensures Chunked(fields)
  {
    var v := Lower(fields["transfer-encoding"]);
    var i := |before|;
    assert |name| == 7 && v[i..i + 7] == Lower(name);
    assert Matches(v, "chunked", i);
    var at := Find(v, "chunked", 0);
    hide Find;
  }

  /** And one that does not, is not. */
  lemma NotChunked(fields: map<string, string>)
    requires "transfer-encoding" in fields ==> forall j :: !Matches(Lower(fields["transfer-encoding"]), "chunked", j)
    ensures !Chunked(fields)
  {
    hide Find, Lower;
  }
}

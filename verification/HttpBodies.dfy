/** Chunked and counted bodies as senders write them, against the decoder of
    src/control/client.cpp: sections 6.3 and 7.1 of RFC 9112 as a partner. */
module HttpBodies {
  import opened Base
  import opened Text
  import opened HttpFraming
  import opened HttpSplits

  /** A chunk as a sender writes it: hexadecimal digits of the length, blanks, an
      extension, and the data. */
  datatype Chunk = Chunk(digits: string, pad: string, ext: string, data: string)

  ghost predicate SizeLine(digits: string, pad: string, ext: string, n: nat) {
    && IsNumeral(digits, 16) && Value(digits, 16) == n < TWO64
    && (forall i :: 0 <= i < |pad| ==> Blank(pad[i]))
    && (ext == "" || ext[0] == ';') && (forall j :: !Matches(ext, CRLF, j))
  }

  ghost predicate WellFormed(c: Chunk) {
    c.data != "" && SizeLine(c.digits, c.pad, c.ext, |c.data|)
  }

  function EncodeChunk(c: Chunk): string {
    c.digits + c.pad + c.ext + CRLF + c.data + CRLF
  }

  function EncodeChunks(cs: seq<Chunk>): string {
    if cs == [] then "" else EncodeChunk(cs[0]) + EncodeChunks(cs[1..])
  }

  function Data(cs: seq<Chunk>): string {
    if cs == [] then "" else cs[0].data + Data(cs[1..])
  }

  lemma {:induction false} TrimPad(digits: string, pad: string)
    requires IsNumeral(digits, 16) && forall i :: 0 <= i < |pad| ==> Blank(pad[i])
    ensures TrimRight(digits + pad) == digits
  {
    var s := digits + pad;
    if pad == "" {
      assert s == digits && DigitValue(digits[|digits| - 1]) < 16;
    } else {
      assert s[..|s| - 1] == digits + pad[..|pad| - 1];
      TrimPad(digits, pad[..|pad| - 1]);
    }
  }

  /** The size line is read as its number. */
  lemma SizeRead(digits: string, pad: string, ext: string, n: nat)
    requires SizeLine(digits, pad, ext, n)
    ensures ChunkSize(digits + pad + ext) == Some(n)
  {
    var line, head := digits + pad + ext, digits + pad;
    assert ';' !in head by {
      assert forall i :: 0 <= i < |digits| ==> DigitValue(digits[i]) < 16;
    }
    FindCharAt(head, ';', ext);
    assert line == head + ext && line[..|head|] == head;
    assert head[0] == digits[0] && DigitValue(digits[0]) < 16;
    assert TrimLeft(head) == head;
    TrimPad(digits, pad);
    NoHexPrefix(digits);
    ParseNumeral(digits, "", 16);
    assert digits + "" == digits;
  }

  lemma NoHexPrefix(digits: string)
    requires IsNumeral(digits, 16)
    ensures |digits| < 2 || (digits[1] != 'x' && digits[1] != 'X')
  {
    assert |digits| >= 2 ==> DigitValue(digits[1]) < 16;
  }

  /** No line break before the end of a size line. */
  lemma LineEnds(before: string, digits: string, pad: string, ext: string, n: nat, after: string)
    requires SizeLine(digits, pad, ext, n)
    ensures var line := digits + pad + ext;
            Find(before + line + CRLF + after, CRLF, |before|) == |before| + |line|
  {
    var line := digits + pad + ext;
    var s := before + line + CRLF + after;
    assert s[|before| + |line|..|before| + |line| + 2] == CRLF;
    forall j | |before| <= j < |before| + |line|
      ensures !Matches(s, CRLF, j)
    {
      var k := j - |before|;
      assert s[j] == line[k];
      if k < |digits| {
        assert DigitValue(line[k]) < 16;
      } else if k < |digits| + |pad| {
        assert Blank(line[k]);
      } else {
        var e := k - |digits| - |pad|;
        assert line[k] == ext[e];
        assert !Matches(ext, CRLF, e);
        assert s[j + 1] == if e + 1 < |ext| then ext[e + 1] else '\r';
        if e + 1 < |ext| {
          assert ext[e..e + 2] == [ext[e], ext[e + 1]];
        }
        assert s[j..j + 2] == [s[j], s[j + 1]];
      }
    }
    FindIs(s, CRLF, |before|, |before| + |line|);
  }

  lemma RoundIs(s: string, pos: nat, eol: nat, n: nat)
    requires pos <= |s| && Find(s, CRLF, pos) == eol < |s| && ChunkSize(s[pos..eol]) == Some(n)
    ensures n == 0 ==> RoundAt(s, pos) == Last
    ensures 0 < n && eol + n + 4 <= |s| && eol + n + 4 < TWO64 ==> RoundAt(s, pos) == Goes(eol + 2, n, eol + n + 4)
  {
    hide Find, ChunkSize, Matches;
  }

  lemma ChunkShape(before: string, c: Chunk, after: string)
    ensures var line := c.digits + c.pad + c.ext;
            var s := before + EncodeChunk(c) + after;
            var eol := |before| + |line|;
            && s == before + line + CRLF + (c.data + CRLF + after) && |EncodeChunk(c)| == |line| + |c.data| + 4
            && s[|before|..eol] == line && s[eol + 2..eol + 2 + |c.data|] == c.data
  {
    var line := c.digits + c.pad + c.ext;
    var s := before + EncodeChunk(c) + after;
    var t := before + line + CRLF;
    assert s == t + c.data + (CRLF + after);
    assert s[|t|..|t| + |c.data|] == c.data;
  }

  /** A well-formed chunk makes one round, which covers it. */
  lemma ChunkRound(before: string, c: Chunk, after: string)
    requires WellFormed(c) && |before| + |EncodeChunk(c)| < TWO64
    ensures var s := before + EncodeChunk(c) + after;
            var r := RoundAt(s, |before|);
            && r.Goes? && r.size == |c.data| && r.next == |before| + |EncodeChunk(c)| == r.data + r.size + 2
            && s[r.data..r.data + r.size] == c.data
  {
    hide EncodeChunk, ChunkSize, Find, SizeLine, Matches, RoundAt;
    ChunkShape(before, c, after);
    LineEnds(before, c.digits, c.pad, c.ext, |c.data|, c.data + CRLF + after);
    SizeRead(c.digits, c.pad, c.ext, |c.data|);
    var line := c.digits + c.pad + c.ext;
    RoundIs(before + EncodeChunk(c) + after, |before|, |before| + |line|, |c.data|);
  }

  lemma AppendedWhole(pieces: seq<string>, mark: nat, r: Round)
    requires r.Goes? && mark <= |Flat(pieces)| && r.data + r.size + 2 == r.next <= |Flat(pieces)|
    ensures Appended(pieces, mark, r) == Flat(pieces)[r.data..r.data + r.size]
  {
    hide Flat, Reach;
    assert r.next <= Mark(mark, r);
  }

  /** One chunk is taken off whole, in any split. */
  lemma ChunkTaken(pieces: seq<string>, before: string, c: Chunk, after: string, mark: nat, status: int, body: string, rounds: nat)
    requires WellFormed(c) && |before| + |EncodeChunk(c)| < TWO64 && rounds > 0
    requires Flat(pieces) == before + EncodeChunk(c) + after && mark <= |Flat(pieces)|
    ensures var next := |before| + |EncodeChunk(c)|;
            Chunks(pieces, |before|, mark, status, body, rounds) ==
            Chunks(pieces, next, Max(mark, next), status, body + c.data, rounds - 1)
  {
    hide EncodeChunk, WellFormed, Flat, RoundAt, Appended;
    ChunkRound(before, c, after);
    AppendedWhole(pieces, mark, RoundAt(Flat(pieces), |before|));
  }

  lemma Regroup(a: string, b: string, c: string, d: string)
    ensures a + (b + c + d) == a + b + c + d && (a + b + c + d)[|a|..|a| + |b|] == b
  {
  }

  lemma LastTaken(before: string, last: Chunk, trailer: string)
    requires SizeLine(last.digits, last.pad, last.ext, 0)
    ensures RoundAt(before + (last.digits + last.pad + last.ext + CRLF + trailer), |before|) == Last
  {
    hide SizeLine, Matches, Find, ChunkSize, RoundAt;
    var line := last.digits + last.pad + last.ext;
    var s := before + line + CRLF + trailer;
    LineEnds(before, last.digits, last.pad, last.ext, 0, trailer);
    SizeRead(last.digits, last.pad, last.ext, 0);
    Regroup(before, line, CRLF, trailer);
    RoundIs(s, |before|, |before| + |line|, 0);
  }

  /** Decoding any encoding of nonempty chunks yields their concatenation, in any
      split and in one round per size line. */
  lemma {:induction false} ChunksDecoded(pieces: seq<string>, before: string, cs: seq<Chunk>, last: Chunk, trailer: string,
                                         mark: nat, status: int, body: string, rounds: nat)
    requires forall i :: 0 <= i < |cs| ==> WellFormed(cs[i])
    requires SizeLine(last.digits, last.pad, last.ext, 0)
    requires |before| + |EncodeChunks(cs)| < TWO64 && rounds > |cs|
    requires Flat(pieces) == before + EncodeChunks(cs) + (last.digits + last.pad + last.ext + CRLF + trailer)
    requires mark <= |Flat(pieces)|
    ensures Chunks(pieces, |before|, mark, status, body, rounds) == Some(Reply(status, body + Data(cs)))
    decreases |cs|
  {
    hide SizeLine, WellFormed, EncodeChunk, RoundAt, Flat, Appended;
    var end := last.digits + last.pad + last.ext + CRLF + trailer;
    if cs == [] {
      assert before + EncodeChunks(cs) + end == before + end;
      LastTaken(before, last, trailer);
      assert body + Data(cs) == body;
    } else {
      var c, rest := cs[0], cs[1..];
      assert before + EncodeChunks(cs) + end == before + EncodeChunk(c) + (EncodeChunks(rest) + end)
          == before + EncodeChunk(c) + EncodeChunks(rest) + end;
      assert body + Data(cs) == body + c.data + Data(rest);
      hide EncodeChunks, Data, Chunks;
      ChunkTaken(pieces, before, c, EncodeChunks(rest) + end, mark, status, body, rounds);
      var next := |before| + |EncodeChunk(c)|;
      ChunksDecoded(pieces, before + EncodeChunk(c), rest, last, trailer, Max(mark, next), status, body + c.data, rounds - 1);
    }
  }

  /** The header block `head` ends where it should and carries this status. */
  ghost predicate Head(head: string, status: int) {
    |head| >= 4 && Find(head, BLANK_LINE, 0) == |head| - 4 && HttpFraming.Status(head) == Some(status)
  }

  lemma HeadOf(head: string, s: string, status: int)
    requires Head(head, status) && head <= s
    ensures Headed(s) && Start(s) == |head| && Code(s) == status
    ensures HeaderFields(s, |head| - 4) == HeaderFields(head, |head| - 4)
  {
    hide Find, HttpFraming.Status, HeaderFields;
    HeadStable(head, s);
  }

  /** A chunked response: whatever the chunk sizes, the extensions, the trailer and
      the split into `recv` results, the body is the chunks' concatenation. */
  lemma ChunkedRoundTrip(pieces: seq<string>, head: string, status: int, cs: seq<Chunk>, last: Chunk, trailer: string)
    requires Head(head, status) && Chunked(HeaderFields(head, |head| - 4))
    requires forall i :: 0 <= i < |cs| ==> WellFormed(cs[i])
    requires SizeLine(last.digits, last.pad, last.ext, 0) && |head| + |EncodeChunks(cs)| < TWO64
    requires Flat(pieces) == head + EncodeChunks(cs) + (last.digits + last.pad + last.ext + CRLF + trailer)
    ensures Returns(pieces, Reply(status, Data(cs)))
  {
    var s := Flat(pieces);
    hide Find, HttpFraming.Status, HeaderFields, SizeLine, WellFormed, EncodeChunks, Chunks, Chunked, Flat, Data, Head, Decode;
    assert head <= s;
    HeadOf(head, s, status);
    var rounds := |cs| + 1;
    ChunksDecoded(pieces, head, cs, last, trailer, |head|, status, "", rounds);
    DecodeChunked(pieces, rounds);
    assert "" + Data(cs) == Data(cs);
  }

  /** A counted response: the body is the announced number of bytes. */
  lemma CountedRoundTrip(pieces: seq<string>, head: string, status: int, body: string, rest: string)
    requires Head(head, status) && |head| + |body| < TWO64 && Flat(pieces) == head + body + rest
    requires var fields := HeaderFields(head, |head| - 4);
             !Chunked(fields) && "content-length" in fields && fields["content-length"] == Dec(|body|)
    ensures Returns(pieces, Reply(status, body))
  {
    hide Find, HttpFraming.Status, HeaderFields, Chunked, Flat, Stoull, Dec, IsNumeral, Value, Decode, Head, Reach;
    var s := Flat(pieces);
    assert head <= s;
    HeadOf(head, s, status);
    DecValue(|body|);
    StoullNumeral(Dec(|body|));
    assert s[|head|..|head| + |body|] == body;
    DecodeCounted(pieces, 0);
  }

  // ------------------------------------------------- a head as a server writes it

  /** A status line and one header line, without their line breaks. */
  function HeadText(first: string, line: string): string {
    first + CRLF + line + BLANK_LINE
  }

  lemma MatchHead(s: string, pat: string, j: nat)
    requires pat != "" && Matches(s, pat, j)
    ensures s[j] == pat[0]
  {
    assert s[j..j + |pat|][0] == s[j];
  }

  /** Without a carriage return before it, a line break found is the first. */
  lemma FirstBreak(s: string, pat: string, from: nat, i: nat)
    requires pat != "" && pat[0] == '\r' && from <= i && Matches(s, pat, i)
    requires forall j :: from <= j < i ==> s[j] != '\r'
    ensures Find(s, pat, from) == i
  {
    forall j | from <= j < i
      ensures !Matches(s, pat, j)
    {
      if Matches(s, pat, j) {
        MatchHead(s, pat, j);
      }
    }
    FindIs(s, pat, from, i);
  }

  lemma HeadShape(first: string, line: string)
    requires line != ""
    ensures var s, end := HeadText(first, line), |first| + 2 + |line|;
            && |s| == end + 4 && s[..|first|] == first && s[|first| + 2..end] == line
            && Matches(s, CRLF, |first|) && Matches(s, CRLF, end) && Matches(s, BLANK_LINE, end)
            && (forall j :: 0 <= j < |first| ==> s[j] == first[j])
            && (forall j :: |first| + 2 <= j < end ==> s[j] == line[j - |first| - 2])
            && s[|first| + 1] == '\n' && s[|first| + 2] == line[0]
  {
  }

  /** Two line breaks at once: a carriage return and another two places on. */
  lemma TwoBreaks(s: string, j: nat)
    requires Matches(s, BLANK_LINE, j)
    ensures s[j] == '\r' && s[j + 2] == '\r'
  {
    assert s[j..j + 4][0] == s[j] && s[j..j + 4][2] == s[j + 2];
  }

  lemma HeadBreaks(first: string, line: string)
    requires '\r' !in first && '\r' !in line && line != ""
    ensures var s, end := HeadText(first, line), |first| + 2 + |line|;
            && |s| == end + 4 && s[..|first|] == first && s[|first| + 2..end] == line
            && Find(s, CRLF, 0) == |first| && Find(s, CRLF, |first| + 2) == end && Find(s, BLANK_LINE, 0) == end
  {
    var s, end := HeadText(first, line), |first| + 2 + |line|;
    HeadShape(first, line);
    hide Matches, Find, HeadText;
    FirstBreak(s, CRLF, 0, |first|);
    FirstBreak(s, CRLF, |first| + 2, end);
    forall j | 0 <= j < end
      ensures !Matches(s, BLANK_LINE, j)
    {
      if Matches(s, BLANK_LINE, j) {
        TwoBreaks(s, j);
      }
    }
    FindIs(s, BLANK_LINE, 0, end);
  }

  lemma StatusNumeral(code: string)
    requires IsNumeral(code, 10) && Value(code, 10) < 0x8000_0000
    ensures Stoi(code) == Some(Value(code, 10))
  {
    assert code + "" == code && code[..|code|] == code;
    SpanNumeral(code, "", 10);
    assert DigitValue(code[0]) < 10;
    assert SkipSpace(code) == code;
    hide Value, Span;
  }

  lemma HeadFields(first: string, line: string)
    requires '\r' !in first && '\r' !in line && line != ""
    ensures var s := HeadText(first, line); |s| >= 4 && HeaderFields(s, |s| - 4) == AddField(map[], line)
  {
    var s := HeadText(first, line);
    hide Find, Matches, HeadText, AddField;
    HeadBreaks(first, line);
    FieldsStep(s, |first| + 2, |s| - 4, map[]);
  }

  lemma HeadStatus(proto: string, code: string, line: string)
    requires '\r' !in proto && ' ' !in proto && '\r' !in code && '\r' !in line && line != ""
    requires IsNumeral(code, 10) && Value(code, 10) < 0x8000_0000
    ensures Head(HeadText(proto + " " + code, line), Value(code, 10))
  {
    var first := proto + " " + code;
    var s := HeadText(first, line);
    hide Find, Matches, HeadText, Stoi, FindChar, Value, IsNumeral;
    HeadBreaks(first, line);
    BlankIn(proto, code, s);
    StatusNumeral(code);
  }

  lemma NumeralPlain(code: string)
    requires IsNumeral(code, 10)
    ensures '\r' !in code
  {
    assert forall i :: 0 <= i < |code| ==> DigitValue(code[i]) < 10;
  }

  /** The head is read as what it says. */
  lemma HeadRead(proto: string, code: string, name: string, value: string)
    requires '\r' !in proto && ' ' !in proto && IsNumeral(code, 10) && Value(code, 10) < 0x8000_0000
    requires '\r' !in name && ':' !in name && '\r' !in value
    ensures var s := HeadText(proto + " " + code, name + ":" + value);
            && Head(s, Value(code, 10)) && |s| >= 4
            && HeaderFields(s, |s| - 4) == map[Lower(Trim(name)) := Trim(value)]
  {
    hide IsNumeral, Value, HeadText, Head, HeaderFields, AddField, Lower, Trim;
    NumeralPlain(code);
    HeadStatus(proto, code, name + ":" + value);
    HeadFields(proto + " " + code, name + ":" + value);
    FieldRead(name, value);
  }

  lemma BlankIn(proto: string, code: string, s: string)
    requires ' ' !in proto && |proto| + 1 + |code| <= |s| && s[..|proto| + 1 + |code|] == proto + " " + code
    ensures FindChar(s, ' ') == |proto| && s[|proto| + 1..|proto| + 1 + |code|] == code
  {
    var t := s[..|proto| + 1 + |code|];
    assert t[|proto|] == ' ' && forall j :: 0 <= j < |proto| ==> t[j] == proto[j];
    assert forall j :: 0 <= j < |t| ==> s[j] == t[j];
    assert s[|proto| + 1..|t|] == t[|proto| + 1..];
  }

  lemma FieldRead(name: string, value: string)
    requires ':' !in name
    ensures AddField(map[], name + ":" + value) == map[Lower(Trim(name)) := Trim(value)]
  {
    var line := name + ":" + value;
    assert line == name + (":" + value);
    FindCharAt(name, ':', ":" + value);
    assert line[..|name|] == name && line[|name| + 1..] == value;
    hide Lower, Trim;
  }

  lemma PlainName()
    ensures Lower(Trim("Transfer-Encoding")) == "transfer-encoding"
  {
  }

  lemma PlainValue()
    ensures Find(Lower(Trim("chunked")), "chunked", 0) == 0 && Lower(Trim("chunked")) == "chunked" == Trim("chunked")
  {
    assert Lower("chunked") == "chunked";
  }

  lemma PlainFields()
    ensures Chunked(map[Lower(Trim("Transfer-Encoding")) := Trim("chunked")])
  {
    hide Lower, Trim, Find;
    PlainName();
    PlainValue();
  }

  ghost function Plain(): string {
    HeadText("HTTP/1.1" + " " + "200", "Transfer-Encoding" + ":" + "chunked")
  }

  lemma PlainCode()
    ensures IsNumeral("200", 10) && Value("200", 10) == 200
  {
    assert "200"[..2] == "20" && "20"[..1] == "2" && "2"[..0] == "";
    assert Value("", 10) == 0;
    assert Value("2", 10) == 2;
    assert Value("20", 10) == 20;
  }

  lemma PlainHead()
    ensures Head(Plain(), 200) && Chunked(HeaderFields(Plain(), |Plain()| - 4))
  {
    hide Value, IsNumeral, Head, HeaderFields, Chunked, HeadText, Lower, Trim;
    PlainCode();
    PlainFields();
    HeadRead("HTTP/1.1", "200", "Transfer-Encoding", "chunked");
  }

  // ------------------------------------------------ a size line that wraps

  lemma BareSize(digits: string, n: nat)
    requires SizeLine(digits, "", "", n)
    ensures ChunkSize(digits) == Some(n)
  {
    hide ChunkSize, SizeLine;
    SizeRead(digits, "", "", n);
    assert digits + "" + "" == digits;
  }

  lemma BareLine(before: string, digits: string, n: nat, after: string)
    requires SizeLine(digits, "", "", n)
    ensures Find(before + digits + CRLF + after, CRLF, |before|) == |before| + |digits|
  {
    hide Find, SizeLine;
    LineEnds(before, digits, "", "", n, after);
    assert digits + "" + "" == digits;
  }

  /** A size of 2^64 - 2 leaves the position at the end of its line. */
  lemma HugeRound(head: string, digits: string, tail: string)
    requires |head| + |digits| + 2 < TWO64 && SizeLine(digits, "", "", TWO64 - 2)
    ensures var pos := |head| + |digits| + 2;
            RoundAt(head + digits + CRLF + tail, |head|) == Goes(pos, TWO64 - 2, pos)
  {
    hide Find, Matches, ChunkSize, SizeLine, RoundAt;
    BareLine(head, digits, TWO64 - 2, tail);
    BareSize(digits, TWO64 - 2);
    Regroup(head, digits, CRLF, tail);
    RoundStays(head + digits + CRLF + tail, |head|, |head| + |digits|);
  }

  lemma RoundStays(s: string, pos: nat, eol: nat)
    requires pos <= |s| && Find(s, CRLF, pos) == eol && eol + 2 <= |s| && eol + 2 < TWO64
    requires ChunkSize(s[pos..eol]) == Some(TWO64 - 2)
    ensures RoundAt(s, pos) == Goes(eol + 2, TWO64 - 2, eol + 2)
  {
    hide Find, ChunkSize, Matches;
    assert (eol + 2 + TWO64) % TWO64 == eol + 2;
  }

  lemma LastRound(before: string, zero: string)
    requires SizeLine(zero, "", "", 0)
    ensures RoundAt(before + (zero + CRLF), |before|) == Last
  {
    hide RoundAt, SizeLine;
    LastTaken(before, Chunk(zero, "", "", ""), "");
    assert zero + "" + "" + CRLF + "" == zero + CRLF;
  }

  lemma Tails(line: string, end: string)
    requires line != ""
    ensures Flat([line, end]) == line + end == Flat([line + end])
    ensures Reach([line, end], |line|) == |line| && Reach([line + end], |line|) == |line| + |end|
  {
    assert [line, end][1..] == [end] && [end][1..] == [] && [line + end][1..] == [];
    assert Flat([end]) == end + "" == end;
    assert Flat([line + end]) == line + end + "" == line + end;
    assert Reach([end], 0) == 0 && Reach([], 0) == 0;
  }

  /** The rest of a stream in two pieces, or in one. */
  lemma OneOrTwoPieces(front: seq<string>, line: string, end: string)
    requires line != ""
    ensures var p, q, need := front + [line, end], front + [line + end], |Flat(front)| + |line|;
            && Flat(p) == Flat(q) == Flat(front) + (line + end)
            && Reach(p, need) == need && Reach(q, need) == need + |end|
  {
    hide Flat, Reach;
    var need := |Flat(front)| + |line|;
    Tails(line, end);
    FlatAppend(front, [line, end]);
    FlatAppend(front, [line + end]);
    ReachAppend(front, [line, end], need);
    ReachAppend(front, [line + end], need);
  }

  lemma TwoRounds(pieces: seq<string>, start: nat, pos: nat, status: int)
    requires start <= pos <= |Flat(pieces)| < TWO64 - 2
    requires RoundAt(Flat(pieces), start) == Goes(pos, TWO64 - 2, pos) && RoundAt(Flat(pieces), pos) == Last
    ensures Chunks(pieces, start, start, status, "", 2) == Some(Reply(status, Flat(pieces)[pos..Reach(pieces, pos)]))
  {
    hide Flat, Reach, RoundAt;
    var r := RoundAt(Flat(pieces), start);
    assert Mark(start, r) == pos;
    assert "" + Appended(pieces, start, r) == Flat(pieces)[pos..Reach(pieces, pos)];
  }

  /** The stream around a wrapping size line and a last one. */
  lemma HugeStream(head: string, digits: string, zero: string)
    requires SizeLine(digits, "", "", TWO64 - 2) && SizeLine(zero, "", "", 0) && |head| + |digits| + 2 < TWO64
    ensures var s, pos := head + (digits + CRLF + (zero + CRLF)), |head| + |digits| + 2;
            && RoundAt(s, |head|) == Goes(pos, TWO64 - 2, pos) && RoundAt(s, pos) == Last
            && head <= s && s[pos..] == zero + CRLF
  {
    hide RoundAt, SizeLine;
    var before, end := head + digits + CRLF, zero + CRLF;
    HugeRound(head, digits, end);
    LastRound(before, zero);
    assert head + (digits + CRLF + end) == before + end;
  }

  /** One stream, two bodies: a size of 2^64 - 2 leaves the position where it is, and
      appends nothing when `recv` stopped after the size line, but the rest of the
      stream when that came with it. */
  lemma WrappingSizeSplits(front: seq<string>, head: string, status: int, digits: string, zero: string)
    requires Head(head, status) && Chunked(HeaderFields(head, |head| - 4)) && Flat(front) == head
    requires SizeLine(digits, "", "", TWO64 - 2) && SizeLine(zero, "", "", 0) && |head| + |digits| + |zero| < TWO64 - 6
    ensures var line, end := digits + CRLF, zero + CRLF;
            && Flat(front + [line, end]) == Flat(front + [line + end]) == head + (line + end)
            && Returns(front + [line, end], Reply(status, ""))
            && Returns(front + [line + end], Reply(status, end))
  {
    hide Flat, Reach, RoundAt, Head, Decode, HeaderFields, Chunked, Chunks, SizeLine;
    var line, end := digits + CRLF, zero + CRLF;
    var p, q := front + [line, end], front + [line + end];
    var s := head + (line + end);
    var pos := |head| + |line|;
    OneOrTwoPieces(front, line, end);
    HugeStream(head, digits, zero);
    HeadOf(head, s, status);
    TwoRounds(p, |head|, pos, status);
    TwoRounds(q, |head|, pos, status);
    DecodeChunked(p, 2);
    DecodeChunked(q, 2);
    assert s[pos..pos] == "" && s[pos..|s|] == end;
  }

  const HUGE := "fffffffffffffffe"

  lemma {:induction false} RepeatedF(n: nat, s: string)
    requires |s| == n && forall i :: 0 <= i < n ==> s[i] == 'f'
    ensures Value(s, 16) == Power16(n) - 1
  {
    if n > 0 {
      RepeatedF(n - 1, s[..n - 1]);
    }
  }

  ghost function Power16(n: nat): nat {
    if n == 0 then 1 else 16 * Power16(n - 1)
  }

  lemma HugeLines()
    ensures SizeLine("0", "", "", 0) && SizeLine(HUGE, "", "", TWO64 - 2)
  {
    RepeatedF(15, HUGE[..15]);
    assert Power16(15) == 0x1000_0000_0000_0000;
    assert forall i :: 0 <= i < |HUGE| ==> DigitValue(HUGE[i]) < 16;
    assert Value("0"[..0], 16) == 0;
  }

  /** So the split decides the body. */
  lemma SplitsDiffer(head: string, status: int, digits: string, zero: string)
    requires Head(head, status) && Chunked(HeaderFields(head, |head| - 4)) && |head| < TWO64 - 10000
    requires SizeLine(digits, "", "", TWO64 - 2) && SizeLine(zero, "", "", 0) && |digits| + |zero| + 4 <= RECV
    ensures !SplitIndependent(head + (digits + CRLF + (zero + CRLF)))
  {
    var line, end := digits + CRLF, zero + CRLF;
    var front := Singles(head);
    var p, q, s := front + [line, end], front + [line + end], head + (line + end);
    assert Received([line, end]) && Received([line + end]);
    hide Flat, Head, HeaderFields, Chunked, Received, Returns, Singles, SizeLine, SplitIndependent;
    WrappingSizeSplits(front, head, status, digits, zero);
    ReceivedAppend(front, [line, end]);
    ReceivedAppend(front, [line + end]);
    Apart(s, p, q, Reply(status, ""), Reply(status, end));
  }

  /** A response, down to its last byte, whose body depends on the split. */
  lemma SplitsDifferHere()
    ensures !SplitIndependent(Plain() + (HUGE + CRLF + ("0" + CRLF)))
  {
    assert |Plain()| < 100 && |HUGE| + |"0"| + 4 <= RECV;
    hide Head, HeaderFields, Chunked, SizeLine, Plain, SplitIndependent;
    PlainHead();
    HugeLines();
    SplitsDiffer(Plain(), 200, HUGE, "0");
  }
}

/** The response framing inside `http_request`, src/control/client.cpp: the header
    block, then a chunked body, a counted body, or everything up to the end. */
module HttpFraming {
  import opened Base
  import opened Text

  const CRLF := "\r\n"
  const BLANK_LINE := "\r\n\r\n"

  // ------------------------------------------------------------------ search

  predicate Matches(s: string, pat: string, i: nat) {
    i + |pat| <= |s| && s[i..i + |pat|] == pat
  }

  /** `std::string::find`: the first match at `from` or later, else the length. */
  function Find(s: string, pat: string, from: nat): (i: nat)
    requires pat != "" && from <= |s|
    ensures from <= i <= |s| && (i < |s| ==> Matches(s, pat, i))
    ensures forall j {:trigger Matches(s, pat, j)} :: from <= j < i ==> !Matches(s, pat, j)
    decreases |s| - from
  {
    if from == |s| || Matches(s, pat, from) then from else Find(s, pat, from + 1)
  }

  lemma MatchesPrefix(b: string, s: string, pat: string, i: nat)
    requires b <= s && i + |pat| <= |b|
    ensures Matches(b, pat, i) <==> Matches(s, pat, i)
  {
    assert b[i..i + |pat|] == s[i..i + |pat|];
  }

  lemma FindIs(s: string, pat: string, from: nat, i: nat)
    requires pat != "" && from <= i && Matches(s, pat, i)
    requires forall j {:trigger Matches(s, pat, j)} :: from <= j < i ==> !Matches(s, pat, j)
    ensures Find(s, pat, from) == i
  {
  }

  /** A match found in what has arrived is the match in the whole stream. */
  lemma FindStable(b: string, s: string, pat: string, from: nat)
    requires b <= s && pat != "" && from <= |b| && Find(b, pat, from) < |b|
    ensures Find(s, pat, from) == Find(b, pat, from)
  {
    var i := Find(b, pat, from);
    hide Find, Matches;
    assert i + |pat| <= |b| by { MatchFits(b, pat, i); }
    forall j | from <= j <= i
      ensures Matches(b, pat, j) <==> Matches(s, pat, j)
    {
      MatchesPrefix(b, s, pat, j);
    }
    FindIs(s, pat, from, i);
  }

  lemma MatchFits(s: string, pat: string, i: nat)
    requires Matches(s, pat, i)
    ensures i + |pat| <= |s|
  {
  }

  // ----------------------------------------------------------- small text pieces

  predicate Blank(c: char) {
    c == ' ' || c == '\t'
  }

  function TrimLeft(s: string): string {
    if s != "" && Blank(s[0]) then TrimLeft(s[1..]) else s
  }

  function TrimRight(s: string): string {
    if s != "" && Blank(s[|s| - 1]) then TrimRight(s[..|s| - 1]) else s
  }

  function Trim(s: string): string {
    TrimRight(TrimLeft(s))
  }

  function Lower(s: string): string {
    seq(|s|, i requires 0 <= i < |s| => if 'A' <= s[i] <= 'Z' then (s[i] as int + 32) as char else s[i])
  }

  /** `std::stoi`. */
  function Stoi(text: string): Option<int> {
    var s := SkipSpace(text);
    var u := if s != "" && (s[0] == '-' || s[0] == '+') then s[1..] else s;
    var n := Span(u, 10);
    var v: int := if s != "" && s[0] == '-' then 0 - Value(u[..n], 10) else Value(u[..n], 10);
    if n == 0 || !(-0x8000_0000 <= v < 0x8000_0000) then None else Some(v)
  }

  // ------------------------------------------------------------- header block

  /** The status code, 500 when the first line has no blank; `None` is the error
      of a field that is no number. */
  function Status(s: string): Option<int> {
    var eol := Find(s, CRLF, 0);
    var blank := FindChar(s, ' ');
    if blank < eol then Stoi(s[blank + 1..eol]) else Some(500)
  }

  /** The header fields between `from` and the blank line at `end`; of several with
      one name the last counts. */
  function Fields(s: string, from: nat, end: nat, acc: map<string, string>): map<string, string>
    requires end <= |s|
    decreases end - from
  {
    if from >= end then acc
    else
      var eol := Min(Find(s, CRLF, from), end);
      Fields(s, eol + 2, end, AddField(acc, s[from..eol]))
  }

  function AddField(acc: map<string, string>, line: string): map<string, string> {
    var colon := FindChar(line, ':');
    if colon == |line| then acc else acc[Lower(Trim(line[..colon])) := Trim(line[colon + 1..])]
  }

  function HeaderFields(s: string, end: nat): map<string, string>
    requires end <= |s|
  {
    Fields(s, Find(s, CRLF, 0) + 2, end, map[])
  }

  predicate Chunked(fields: map<string, string>) {
    "transfer-encoding" in fields &&
    var v := Lower(fields["transfer-encoding"]);
    Find(v, "chunked", 0) < |v|
  }

  // ----------------------------------------------------------------- outcomes

  const INCOMPLETE := "Invalid response: incomplete headers"
  const BAD_STATUS := "Invalid response: malformed status line"
  const CUT_SIZE := "Invalid response: truncated chunk header"
  const BAD_SIZE := "Invalid response: malformed chunk size"
  const CUT_CHUNK := "Invalid response: truncated chunk data"
  const BAD_LENGTH := "Invalid response: malformed Content-Length"
  const CUT_BODY := "Invalid response: truncated body"

  datatype Outcome = Reply(status: int, body: string)

  // ---------------------------------------- the header block in a partial stream

  lemma HeadLine(s: string)
    requires Find(s, BLANK_LINE, 0) < |s|
    ensures Find(s, CRLF, 0) <= Find(s, BLANK_LINE, 0)
  {
    LineBefore(s, 0, Find(s, BLANK_LINE, 0));
  }

  lemma LineBefore(s: string, from: nat, end: nat)
    requires from <= end && Matches(s, BLANK_LINE, end)
    ensures Find(s, CRLF, from) <= end
  {
    assert s[end..end + 2] == s[end..end + 4][..2];
    assert Matches(s, CRLF, end);
  }

  lemma BlankStable(b: string, s: string, c: char, limit: nat)
    requires b <= s && limit <= |b|
    ensures if FindChar(b, c) < limit then FindChar(s, c) == FindChar(b, c) else FindChar(s, c) >= limit
  {
    assert forall j :: 0 <= j < |b| ==> b[j] == s[j];
  }

  lemma StatusStable(b: string, s: string)
    requires b <= s && Find(b, BLANK_LINE, 0) < |b|
    ensures Status(s) == Status(b)
  {
    hide Find, Stoi, FindChar, Matches;
    HeadLine(b);
    FindStable(b, s, CRLF, 0);
    var eol, blank := Find(b, CRLF, 0), FindChar(b, ' ');
    BlankStable(b, s, ' ', eol);
    if blank < eol {
      assert b[blank + 1..eol] == s[blank + 1..eol];
    }
  }

  lemma FieldsStep(s: string, from: nat, end: nat, acc: map<string, string>)
    requires from < end <= |s|
    ensures var eol := Min(Find(s, CRLF, from), end);
            Fields(s, from, end, acc) == Fields(s, eol + 2, end, AddField(acc, s[from..eol]))
  {
  }

  lemma LineStable(b: string, s: string, from: nat, end: nat) returns (eol: nat)
    requires b <= s && Matches(b, BLANK_LINE, end) && from < end <= |b|
    ensures from <= eol <= end && eol == Find(b, CRLF, from) == Find(s, CRLF, from) && b[from..eol] == s[from..eol]
  {
    MatchFits(b, BLANK_LINE, end);
    LineBefore(b, from, end);
    hide Find, Matches;
    FindStable(b, s, CRLF, from);
    eol := Find(b, CRLF, from);
    assert b[from..eol] == s[from..eol];
  }

  lemma {:induction false} FieldsStable(b: string, s: string, from: nat, end: nat, acc: map<string, string>)
    requires b <= s && end <= |b| && Matches(b, BLANK_LINE, end)
    ensures Fields(s, from, end, acc) == Fields(b, from, end, acc)
    decreases end - from
  {
    hide Find, Matches, AddField;
    if from < end {
      var eol := LineStable(b, s, from, end);
      FieldsStep(b, from, end, acc);
      FieldsStep(s, from, end, acc);
      FieldsStable(b, s, eol + 2, end, AddField(acc, b[from..eol]));
      hide Fields;
    }
  }

  lemma HeadStable(b: string, s: string)
    requires b <= s && Find(b, BLANK_LINE, 0) < |b|
    ensures Find(s, BLANK_LINE, 0) == Find(b, BLANK_LINE, 0) && Find(b, BLANK_LINE, 0) + 4 <= |b|
    ensures Status(s) == Status(b)
    ensures HeaderFields(s, Find(s, BLANK_LINE, 0)) == HeaderFields(b, Find(b, BLANK_LINE, 0))
  {
    FindStable(b, s, BLANK_LINE, 0);
    StatusStable(b, s);
    HeadLine(b);
    FindStable(b, s, CRLF, 0);
    var end := Find(b, BLANK_LINE, 0);
    MatchFits(b, BLANK_LINE, end);
    FieldsStable(b, s, Find(b, CRLF, 0) + 2, end, map[]);
    hide Find, Matches, Fields, Status;
  }

  // ------------------------------------------------------- splits of the stream

  function Flat(pieces: seq<string>): string {
    if pieces == [] then "" else pieces[0] + Flat(pieces[1..])
  }

  const RECV: nat := 4096

  /** What successive calls of `recv` may return before the end of the stream. */
  ghost predicate Received(pieces: seq<string>) {
    forall i :: 0 <= i < |pieces| ==> 0 < |pieces[i]| <= RECV
  }

  /** How many bytes have arrived once at least `need` were asked for: whole pieces,
      and no more of them than necessary. */
  ghost function Reach(pieces: seq<string>, need: nat): (r: nat)
    ensures r <= |Flat(pieces)| && (need <= |Flat(pieces)| ==> need <= r) && (need >= |Flat(pieces)| ==> r == |Flat(pieces)|)
  {
    if pieces == [] || need == 0 then 0
    else |pieces[0]| + Reach(pieces[1..], if need <= |pieces[0]| then 0 else need - |pieces[0]|)
  }

  // ------------------------------------------------------------ the chunk loop

  function ChunkSize(line: string): Option<nat> {
    Stoull(Trim(line[..FindChar(line, ';')]), 16)
  }

  /** What one round finds at `pos`: no size line, a malformed one, the last one,
      too little data, or a chunk at `data` of announced `size`, after which the
      position is `next`, computed in 64 bits. */
  datatype Round = Cut | Bad | Last | Short | Goes(data: nat, size: nat, next: nat)

  ghost function RoundAt(s: string, pos: nat): (r: Round)
    requires pos <= |s|
    ensures r.Goes? ==> r.data <= |s| && r.next <= |s|
  {
    var eol := Find(s, CRLF, pos);
    if eol == |s| then Cut
    else
      assert Matches(s, CRLF, eol);
      match ChunkSize(s[pos..eol])
      case None => Bad
      case Some(n) =>
        var next := (eol + 2 + n + 2) % TWO64;
        if n == 0 then Last else if next > |s| then Short else Goes(eol + 2, n, next)
  }

  /** The bytes asked for by the end of a round, when `mark` were asked for before. */
  ghost function Mark(mark: nat, r: Round): nat
    requires r.Goes?
  {
    Max(mark, Max(r.data, r.next))
  }

  /** What a round appends: the announced bytes, as far as they have arrived. */
  ghost function Appended(pieces: seq<string>, mark: nat, r: Round): string
    requires r.Goes? && mark <= |Flat(pieces)| && r.data <= |Flat(pieces)| && r.next <= |Flat(pieces)|
  {
    Flat(pieces)[r.data..Min(r.data + r.size, Reach(pieces, Mark(mark, r)))]
  }

  /** The chunk loop from `pos`, `mark` bytes having been asked for so far; `None`
      when it is still going after so many rounds. */
  ghost function Chunks(pieces: seq<string>, pos: nat, mark: nat, status: int, body: string, rounds: nat): Option<Outcome>
    requires pos <= |Flat(pieces)| && mark <= |Flat(pieces)|
    decreases rounds
  {
    if rounds == 0 then None
    else
      var r := RoundAt(Flat(pieces), pos);
      match r
      case Cut => Some(Reply(500, CUT_SIZE))
      case Bad => Some(Reply(500, BAD_SIZE))
      case Short => Some(Reply(500, CUT_CHUNK))
      case Last => Some(Reply(status, body))
      case Goes(_, _, next) =>
        Chunks(pieces, next, Mark(mark, r), status, body + Appended(pieces, mark, r), rounds - 1)
  }

  /** A counted body.  When `start + length` leaves 64 bits the test for enough
      bytes always succeeds, and the body is whatever had arrived. */
  ghost function Counted(s: string, arrived: nat, start: nat, length: nat, status: int): Outcome
    requires start <= arrived <= |s|
  {
    if start + length >= TWO64 then Reply(status, s[start..Min(start + length, arrived)])
    else if start + length > |s| then Reply(500, CUT_BODY)
    else Reply(status, s[start..start + length])
  }

  /** The result for a stream received in these pieces; `None` when the chunk loop
      is still going after so many rounds. */
  ghost function Decode(pieces: seq<string>, rounds: nat): Option<Outcome> {
    var s := Flat(pieces);
    var end := Find(s, BLANK_LINE, 0);
    if end == |s| then Some(Reply(500, INCOMPLETE))
    else
      assert Matches(s, BLANK_LINE, end);
      match Status(s)
      case None => Some(Reply(500, BAD_STATUS))
      case Some(status) =>
        var fields := HeaderFields(s, end);
        if Chunked(fields) then Chunks(pieces, end + 4, end + 4, status, "", rounds)
        else if "content-length" in fields then
          match Stoull(fields["content-length"], 10)
          case None => Some(Reply(500, BAD_LENGTH))
          case Some(n) => Some(Counted(s, Reach(pieces, end + 4), end + 4, n, status))
        else Some(Reply(status, s[end + 4..]))
  }
}

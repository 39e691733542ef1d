/** When the result of `http_request`, src/control/client.cpp, depends on how
    `recv` split the stream: exactly for which streams. */
module HttpSplits {
  import opened Base
  import opened Text
  import opened HttpFraming

  // -------------------------------------------------------------- what arrives

  lemma {:induction false} FlatAppend(p: seq<string>, q: seq<string>)
    ensures Flat(p + q) == Flat(p) + Flat(q)
  {
    if p == [] {
      assert p + q == q;
    } else {
      assert (p + q)[1..] == p[1..] + q;
      FlatAppend(p[1..], q);
    }
  }

  lemma {:induction false} ReachMonotone(pieces: seq<string>, m: nat, n: nat)
    requires m <= n
    ensures Reach(pieces, m) <= Reach(pieces, n)
  {
    if pieces != [] && m > 0 {
      var k := |pieces[0]|;
      ReachMonotone(pieces[1..], if m <= k then 0 else m - k, if n <= k then 0 else n - k);
    }
  }

  lemma {:induction false} ReachAppend(p: seq<string>, q: seq<string>, m: nat)
    ensures Reach(p + q, m) == if m <= |Flat(p)| then Reach(p, m) else |Flat(p)| + Reach(q, m - |Flat(p)|)
  {
    if p == [] {
      assert p + q == q;
    } else if m > 0 {
      assert (p + q)[1..] == p[1..] + q;
      var k := |p[0]|;
      ReachAppend(p[1..], q, if m <= k then 0 else m - k);
    }
  }

  /** One byte at a time. */
  ghost function Singles(s: string): (r: seq<string>)
    ensures Flat(r) == s && Received(r)
  {
    if s == "" then []
    else
      var rest := Singles(s[1..]);
      assert ([s[..1]] + rest)[1..] == rest && s[..1] + s[1..] == s;
      [s[..1]] + rest
  }

  lemma {:induction false} ReachSingles(s: string, m: nat)
    ensures Reach(Singles(s), m) == Min(m, |s|)
  {
    hide Received;
    if s != "" && m > 0 {
      assert Singles(s)[1..] == Singles(s[1..]);
      ReachSingles(s[1..], m - 1);
    }
  }

  /** Single bytes, but for the two that follow the first `k`. */
  ghost function Pair(s: string, k: nat): seq<string>
    requires k + 2 <= |s|
  {
    Singles(s[..k]) + ([s[k..k + 2]] + Singles(s[k + 2..]))
  }

  lemma FlatOne(piece: string, rest: seq<string>)
    ensures Flat([piece] + rest) == piece + Flat(rest)
  {
    assert ([piece] + rest)[1..] == rest;
  }

  lemma ReceivedAppend(p: seq<string>, q: seq<string>)
    requires Received(p) && Received(q)
    ensures Received(p + q)
  {
  }

  lemma ThreeParts(s: string, k: nat, m: nat)
    requires k <= m <= |s|
    ensures s[..k] + (s[k..m] + s[m..]) == s
  {
  }

  lemma PairFlat(s: string, k: nat)
    requires k + 2 <= |s|
    ensures Flat(Pair(s, k)) == s && Received(Pair(s, k))
  {
    var front, mid, back := Singles(s[..k]), [s[k..k + 2]], Singles(s[k + 2..]);
    assert Received(mid);
    hide Singles, Flat, Received;
    FlatAppend(front, mid + back);
    FlatOne(s[k..k + 2], back);
    ThreeParts(s, k, k + 2);
    ReceivedAppend(mid, back);
    ReceivedAppend(front, mid + back);
  }

  /** Asking for one of the two brings both. */
  lemma ReachPair(s: string, k: nat)
    requires k + 2 <= |s|
    ensures Reach(Pair(s, k), k + 1) == k + 2
  {
    var front, mid, back := Singles(s[..k]), [s[k..k + 2]], Singles(s[k + 2..]);
    hide Singles;
    ReachAppend(front, mid + back, k + 1);
    assert (mid + back)[0] == s[k..k + 2] && (mid + back)[1..] == back;
    assert Reach(mid + back, 1) == 2 + Reach(back, 0);
  }

  // ------------------------------------------------------ rounds and their bodies

  /** The chunk loop ends normally within so many rounds.  Positions depend on the
      stream alone, so this does too. */
  ghost predicate Ends(s: string, pos: nat, rounds: nat)
    requires pos <= |s|
    decreases rounds
  {
    rounds > 0 &&
    var r := RoundAt(s, pos);
    r.Last? || (r.Goes? && Ends(s, r.next, rounds - 1))
  }

  /** A round whose size wraps, with `m` bytes asked for and more announced and to
      come: what it appends is whatever happens to have arrived. */
  ghost predicate OpenRound(s: string, mark: nat, r: Round, m: nat) {
    r.Goes? && r.data + r.size + 2 >= TWO64 && m == Mark(mark, r) && m < |s| && m < r.data + r.size
  }

  ghost predicate OpenAt(s: string, pos: nat, mark: nat, rounds: nat, m: nat)
    requires pos <= |s|
    decreases rounds
  {
    rounds > 0 &&
    var r := RoundAt(s, pos);
    r.Goes? && (OpenRound(s, mark, r, m) || OpenAt(s, r.next, Mark(mark, r), rounds - 1, m))
  }

  lemma RoundSize(s: string, pos: nat)
    requires pos <= |s| && RoundAt(s, pos).Goes?
    ensures var r := RoundAt(s, pos);
            r.size > 0 && r.next == (r.data + r.size + 2) % TWO64 && (r.data + r.size + 2 < TWO64 ==> r.next == r.data + r.size + 2)
  {
    hide Find, ChunkSize, Matches;
  }

  /** Appended bytes differ between splits only in an open round. */
  lemma SameAppended(p: seq<string>, q: seq<string>, pos: nat, mark: nat)
    requires Flat(p) == Flat(q) && pos <= |Flat(p)| && mark <= |Flat(p)| && RoundAt(Flat(p), pos).Goes?
    requires var r := RoundAt(Flat(p), pos); !OpenRound(Flat(p), mark, r, Mark(mark, r))
    ensures var r := RoundAt(Flat(p), pos); Appended(p, mark, r) == Appended(q, mark, r)
  {
    RoundSize(Flat(p), pos);
    hide RoundAt, Flat, Reach;
  }

  lemma {:induction false} SameUnlessEnds(p: seq<string>, q: seq<string>, pos: nat, mark: nat, status: int, b: string, c: string, rounds: nat)
    requires Flat(p) == Flat(q) && pos <= |Flat(p)| && mark <= |Flat(p)| && !Ends(Flat(p), pos, rounds)
    ensures Chunks(p, pos, mark, status, b, rounds) == Chunks(q, pos, mark, status, c, rounds)
    decreases rounds
  {
    hide RoundAt, Appended, Flat;
    if rounds > 0 {
      var r := RoundAt(Flat(p), pos);
      if r.Goes? {
        SameUnlessEnds(p, q, r.next, Mark(mark, r), status, b + Appended(p, mark, r), c + Appended(q, mark, r), rounds - 1);
      }
    }
  }

  lemma {:induction false} SameUnlessOpen(p: seq<string>, q: seq<string>, pos: nat, mark: nat, status: int, b: string, rounds: nat)
    requires Flat(p) == Flat(q) && pos <= |Flat(p)| && mark <= |Flat(p)|
    requires forall m :: !OpenAt(Flat(p), pos, mark, rounds, m)
    ensures Chunks(p, pos, mark, status, b, rounds) == Chunks(q, pos, mark, status, b, rounds)
    decreases rounds
  {
    hide RoundAt, Appended, Flat;
    if rounds > 0 {
      var r := RoundAt(Flat(p), pos);
      if r.Goes? {
        var s, mark', left := Flat(p), Mark(mark, r), rounds - 1;
        assert !OpenAt(Flat(p), pos, mark, rounds, mark');
        SameAppended(p, q, pos, mark);
        forall m
          ensures !OpenAt(s, r.next, mark', left, m)
        {
          assert !OpenAt(Flat(p), pos, mark, rounds, m);
        }
        SameUnlessOpen(p, q, r.next, mark', status, b + Appended(p, mark, r), left);
      }
    }
  }

  /** `q` never has fewer bytes than `p`, and has more when `m` are asked for. */
  ghost predicate Ahead(p: seq<string>, q: seq<string>, m: nat) {
    && Flat(p) == Flat(q)
    && (forall n: nat :: n <= |Flat(p)| ==> Reach(p, n) == n)
    && m < Reach(q, m)
  }

  lemma LongerAppended(p: seq<string>, q: seq<string>, pos: nat, mark: nat, m: nat)
    requires Ahead(p, q, m) && pos <= |Flat(p)| && mark <= |Flat(p)| && RoundAt(Flat(p), pos).Goes?
    ensures var r := RoundAt(Flat(p), pos);
            && |Appended(p, mark, r)| <= |Appended(q, mark, r)|
            && (OpenRound(Flat(p), mark, r, m) ==> |Appended(p, mark, r)| < |Appended(q, mark, r)|)
  {
    var r := RoundAt(Flat(p), pos);
    var n := Mark(mark, r);
    hide RoundAt, Flat;
    assert Reach(p, n) == n <= Reach(q, n);
  }

  /** Having more bytes in an open round makes the body longer. */
  lemma {:induction false} LongerBody(p: seq<string>, q: seq<string>, pos: nat, mark: nat, status: int, b: string, c: string, rounds: nat, m: nat)
    requires Ahead(p, q, m) && pos <= |Flat(p)| && mark <= |Flat(p)| && Ends(Flat(p), pos, rounds)
    requires |b| <= |c| && (|b| < |c| || OpenAt(Flat(p), pos, mark, rounds, m))
    ensures var x, y := Chunks(p, pos, mark, status, b, rounds), Chunks(q, pos, mark, status, c, rounds);
            x.Some? && y.Some? && |x.value.body| < |y.value.body|
    decreases rounds
  {
    var r := RoundAt(Flat(p), pos);
    if r.Goes? {
      LongerAppended(p, q, pos, mark, m);
      hide RoundAt, Appended, Flat, Ahead, OpenRound;
      LongerBody(p, q, r.next, Mark(mark, r), status, b + Appended(p, mark, r), c + Appended(q, mark, r), rounds - 1, m);
    }
  }

  /** More rounds do not change a result. */
  lemma {:induction false} RoundsAgree(p: seq<string>, pos: nat, mark: nat, status: int, b: string, j: nat, k: nat)
    requires pos <= |Flat(p)| && mark <= |Flat(p)| && j <= k && Chunks(p, pos, mark, status, b, j).Some?
    ensures Chunks(p, pos, mark, status, b, k) == Chunks(p, pos, mark, status, b, j)
    decreases j
  {
    hide RoundAt, Appended, Flat;
    var r := RoundAt(Flat(p), pos);
    if r.Goes? {
      RoundsAgree(p, r.next, Mark(mark, r), status, b + Appended(p, mark, r), j - 1, k - 1);
    }
  }

  /** While no size wraps the position only grows, so the loop ends. */
  ghost predicate WrapsWithin(s: string, pos: nat, rounds: nat)
    requires pos <= |s|
    decreases rounds
  {
    rounds > 0 &&
    var r := RoundAt(s, pos);
    r.Goes? && (r.data + r.size + 2 >= TWO64 || WrapsWithin(s, r.next, rounds - 1))
  }

  lemma RoundGrows(s: string, pos: nat)
    requires pos <= |s| && RoundAt(s, pos).Goes? && RoundAt(s, pos).data + RoundAt(s, pos).size + 2 < TWO64
    ensures pos < RoundAt(s, pos).next
  {
    RoundSize(s, pos);
    hide Matches, ChunkSize;
  }

  lemma {:induction false} EndsUnlessWraps(p: seq<string>, pos: nat, mark: nat, status: int, b: string, rounds: nat)
    requires pos <= |Flat(p)| && mark <= |Flat(p)| && rounds > |Flat(p)| - pos && !WrapsWithin(Flat(p), pos, rounds)
    ensures Chunks(p, pos, mark, status, b, rounds).Some?
    decreases rounds
  {
    hide RoundAt, Appended, Flat, Mark;
    var r := RoundAt(Flat(p), pos);
    if r.Goes? {
      RoundGrows(Flat(p), pos);
      MarkFits(Flat(p), mark, r);
      EndsUnlessWraps(p, r.next, Mark(mark, r), status, b + Appended(p, mark, r), rounds - 1);
    }
  }

  lemma MarkFits(s: string, mark: nat, r: Round)
    requires r.Goes? && mark <= |s| && r.data <= |s| && r.next <= |s|
    ensures Mark(mark, r) <= |s|
  {
  }

  // ------------------------------------------- within the length, or never

  /** The chunk loop returns, normally or not, within so many rounds. */
  ghost predicate Stops(s: string, pos: nat, rounds: nat)
    requires pos <= |s|
    decreases rounds
  {
    rounds > 0 &&
    var r := RoundAt(s, pos);
    r.Goes? ==> Stops(s, r.next, rounds - 1)
  }

  lemma {:induction false} StopsLater(s: string, pos: nat, j: nat, k: nat)
    requires pos <= |s| && j <= k && Stops(s, pos, j)
    ensures Stops(s, pos, k)
    decreases j
  {
    hide RoundAt;
    var r := RoundAt(s, pos);
    if r.Goes? {
      StopsLater(s, r.next, j - 1, k - 1);
    }
  }

  /** The positions of a loop that needs all of its `rounds` are all different. */
  lemma {:induction false} Visited(s: string, pos: nat, rounds: nat) returns (path: set<nat>)
    requires pos <= |s| && rounds > 0 && Stops(s, pos, rounds) && !Stops(s, pos, rounds - 1)
    ensures |path| == rounds && forall x :: x in path ==> x <= |s| && Stops(s, x, rounds)
    decreases rounds
  {
    hide RoundAt;
    var r := RoundAt(s, pos);
    if rounds == 1 {
      path := {pos};
    } else {
      var rest := Visited(s, r.next, rounds - 1);
      path := {pos} + rest;
      forall x | x in path
        ensures x <= |s| && Stops(s, x, rounds)
      {
        if x != pos {
          StopsLater(s, x, rounds - 1, rounds);
        }
      }
    }
  }

  lemma {:induction false} UpTo(path: set<nat>, n: nat)
    requires forall x :: x in path ==> x <= n
    ensures |path| <= n + 1
    decreases n
  {
    var rest := path - {n};
    if n == 0 {
      assert rest == {};
    } else {
      UpTo(rest, n - 1);
    }
    assert |path| <= |rest| + 1 by {
      assert n in path ==> path == rest + {n};
      assert n !in path ==> path == rest;
    }
  }

  /** A loop that stops at all, stops within one round more than there are bytes. */
  lemma {:induction false} StopsSoon(s: string, pos: nat, rounds: nat)
    requires pos <= |s| && Stops(s, pos, rounds)
    ensures Stops(s, pos, |s| + 1)
    decreases rounds
  {
    hide Stops, RoundAt;
    if rounds <= |s| + 1 {
      StopsLater(s, pos, rounds, |s| + 1);
    } else if Stops(s, pos, rounds - 1) {
      StopsSoon(s, pos, rounds - 1);
    } else {
      var path := Visited(s, pos, rounds);
      UpTo(path, |s|);
    }
  }

  lemma {:induction false} StopsIffSome(p: seq<string>, pos: nat, mark: nat, status: int, b: string, rounds: nat)
    requires pos <= |Flat(p)| && mark <= |Flat(p)|
    ensures Chunks(p, pos, mark, status, b, rounds).Some? <==> Stops(Flat(p), pos, rounds)
    decreases rounds
  {
    hide RoundAt, Appended, Flat;
    if rounds > 0 {
      var r := RoundAt(Flat(p), pos);
      if r.Goes? {
        StopsIffSome(p, r.next, Mark(mark, r), status, b + Appended(p, mark, r), rounds - 1);
      }
    }
  }

  lemma ReturnsSoon(p: seq<string>, pos: nat, mark: nat, status: int, b: string, rounds: nat)
    requires pos <= |Flat(p)| && mark <= |Flat(p)| && Chunks(p, pos, mark, status, b, rounds).Some?
    ensures Chunks(p, pos, mark, status, b, |Flat(p)| + 1) == Chunks(p, pos, mark, status, b, rounds)
  {
    hide Chunks, Stops, Flat;
    var soon := |Flat(p)| + 1;
    StopsIffSome(p, pos, mark, status, b, rounds);
    StopsSoon(Flat(p), pos, rounds);
    StopsIffSome(p, pos, mark, status, b, soon);
    if rounds <= soon {
      RoundsAgree(p, pos, mark, status, b, rounds, soon);
    } else {
      RoundsAgree(p, pos, mark, status, b, soon, rounds);
    }
  }

  // ------------------------------------------------------------ whole responses

  /** The result of a response received in these pieces, if it has one. */
  ghost predicate Returns(pieces: seq<string>, o: Outcome) {
    exists rounds :: Decode(pieces, rounds) == Some(o)
  }

  ghost function Enough(s: string): nat {
    |s| + 1
  }

  /** The header block is read, and with this status. */
  ghost predicate Headed(s: string) {
    Find(s, BLANK_LINE, 0) < |s| && Status(s).Some?
  }

  ghost function Start(s: string): (n: nat)
    requires Headed(s)
    ensures 4 <= n <= |s|
  {
    assert Matches(s, BLANK_LINE, Find(s, BLANK_LINE, 0));
    Find(s, BLANK_LINE, 0) + 4
  }

  ghost function Code(s: string): int
    requires Headed(s)
  {
    Status(s).value
  }

  ghost predicate ChunkedBody(s: string)
    requires Headed(s)
  {
    Chunked(HeaderFields(s, Start(s) - 4))
  }

  ghost function Length(s: string): Option<nat>
    requires Headed(s)
  {
    var fields := HeaderFields(s, Start(s) - 4);
    if !Chunked(fields) && "content-length" in fields then Stoull(fields["content-length"], 10) else None
  }

  /** What a caller would have to rule out.  A counted body whose end leaves 64
      bits, with bytes after the header; or a chunk loop that ends normally after a
      round whose size leaves 64 bits, with bytes still to come. */
  ghost predicate SplitDependent(s: string) {
    && Headed(s)
    && var start := Start(s);
    if ChunkedBody(s) then Ends(s, start, Enough(s)) && exists m :: OpenAt(s, start, start, Enough(s), m)
    else Length(s).Some? && Length(s).value > 0 && start + Length(s).value >= TWO64 && start < |s|
  }

  lemma DecodeChunked(p: seq<string>, rounds: nat)
    requires Headed(Flat(p)) && ChunkedBody(Flat(p))
    ensures var s := Flat(p);
            Decode(p, rounds) == Chunks(p, Start(s), Start(s), Code(s), "", rounds)
  {
    hide Find, Matches, Status, HeaderFields, Chunked, Chunks, Flat, Stoull;
  }

  lemma DecodeCounted(p: seq<string>, rounds: nat)
    requires Headed(Flat(p)) && Length(Flat(p)).Some?
    ensures var s := Flat(p);
            Decode(p, rounds) == Some(Counted(s, Reach(p, Start(s)), Start(s), Length(s).value, Code(s)))
  {
    hide Find, Matches, Status, HeaderFields, Chunked, Chunks, Flat, Stoull, Counted;
  }

  lemma DecodeOther(p: seq<string>, q: seq<string>, rounds: nat)
    requires Flat(p) == Flat(q) && (Headed(Flat(p)) ==> !ChunkedBody(Flat(p)) && Length(Flat(p)) == None)
    ensures Decode(p, rounds) == Decode(q, rounds)
  {
    hide Find, Matches, Status, HeaderFields, Chunked, Chunks, Flat, Stoull, Counted;
  }

  lemma DecodeSteady(p: seq<string>, j: nat, k: nat)
    requires !(Headed(Flat(p)) && ChunkedBody(Flat(p)))
    ensures Decode(p, j) == Decode(p, k)
  {
    hide Find, Matches, Status, HeaderFields, Chunked, Chunks, Flat, Stoull, Counted;
  }

  /** A response returns within one round more than it has bytes, or never. */
  lemma ReturnsIff(p: seq<string>, o: Outcome)
    ensures Returns(p, o) <==> Decode(p, Enough(Flat(p))) == Some(o)
  {
    hide Decode, Chunks, Flat, Headed, ChunkedBody, Reach;
    var s := Flat(p);
    if Returns(p, o) {
      var k :| Decode(p, k) == Some(o);
      if Headed(s) && ChunkedBody(s) {
        DecodeChunked(p, k);
        DecodeChunked(p, Enough(s));
        ReturnsSoon(p, Start(s), Start(s), Code(s), "", k);
      } else {
        DecodeSteady(p, k, Enough(s));
      }
    }
  }

  lemma SameResult(p: seq<string>, q: seq<string>)
    requires Flat(p) == Flat(q) && !SplitDependent(Flat(p))
    ensures Decode(p, Enough(Flat(p))) == Decode(q, Enough(Flat(p)))
  {
    var s := Flat(p);
    var k := Enough(s);
    hide Find, Matches, Status, Decode, Chunks, Flat, Headed, ChunkedBody, Length, Ends, OpenAt, Enough;
    if !Headed(s) || (!ChunkedBody(s) && Length(s) == None) {
      DecodeOther(p, q, k);
    } else if ChunkedBody(s) {
      DecodeChunked(p, k);
      DecodeChunked(q, k);
      var start := Start(s);
      if Ends(s, start, k) {
        assert forall m :: !OpenAt(s, start, start, k, m);
        SameUnlessOpen(p, q, start, start, Code(s), "", k);
      } else {
        SameUnlessEnds(p, q, start, start, Code(s), "", "", k);
      }
    } else {
      DecodeCounted(p, k);
      DecodeCounted(q, k);
    }
  }

  lemma ReachEverySingle(s: string)
    ensures forall n: nat :: n <= |s| ==> Reach(Singles(s), n) == n
  {
    hide Singles, Reach, Flat, Received;
    forall n: nat | n <= |s|
      ensures Reach(Singles(s), n) == n
    {
      ReachSingles(s, n);
    }
  }

  /** Single bytes against one pair that comes together. */
  lemma SinglesAndPair(s: string, m: nat)
    requires 0 < m < |s|
    ensures var p, q := Singles(s), Pair(s, m - 1);
            Received(p) && Received(q) && Flat(p) == s && Flat(q) == s && Ahead(p, q, m)
  {
    hide Singles, Pair, Received, Flat, Reach;
    PairFlat(s, m - 1);
    ReachPair(s, m - 1);
    ReachEverySingle(s);
  }

  lemma {:induction false} OpenMark(s: string, pos: nat, mark: nat, rounds: nat, m: nat)
    requires pos <= |s| && OpenAt(s, pos, mark, rounds, m)
    ensures mark <= m < |s|
    decreases rounds
  {
    hide RoundAt;
    var r := RoundAt(s, pos);
    if !OpenRound(s, mark, r, m) {
      OpenMark(s, r.next, Mark(mark, r), rounds - 1, m);
    }
  }

  lemma TwoBodies(s: string, rounds: nat, m: nat) returns (p: seq<string>, q: seq<string>, x: Outcome, y: Outcome)
    requires Headed(s) && ChunkedBody(s) && Ends(s, Start(s), rounds) && OpenAt(s, Start(s), Start(s), rounds, m)
    ensures Received(p) && Received(q) && Flat(p) == s && Flat(q) == s
    ensures Decode(p, rounds) == Some(x) && Decode(q, rounds) == Some(y) && x != y
  {
    hide Find, Matches, Status, Decode, Chunks, Flat, Headed, ChunkedBody, Ends, OpenAt, Received, Ahead;
    var start := Start(s);
    OpenMark(s, start, start, rounds, m);
    SinglesAndPair(s, m);
    p, q := Singles(s), Pair(s, m - 1);
    LongerBody(p, q, start, start, Code(s), "", "", rounds, m);
    DecodeChunked(p, rounds);
    DecodeChunked(q, rounds);
    x, y := Decode(p, rounds).value, Decode(q, rounds).value;
  }

  lemma TwoCounts(s: string) returns (p: seq<string>, q: seq<string>, x: Outcome, y: Outcome)
    requires Headed(s) && Length(s).Some? && Length(s).value > 0 && Start(s) + Length(s).value >= TWO64 && Start(s) < |s|
    ensures Received(p) && Received(q) && Flat(p) == s && Flat(q) == s
    ensures Decode(p, Enough(s)) == Some(x) && Decode(q, Enough(s)) == Some(y) && x != y
  {
    hide Find, Matches, Status, Decode, Chunks, Flat, Headed, Length, Received, Reach;
    var start := Start(s);
    SinglesAndPair(s, start);
    p, q := Singles(s), Pair(s, start - 1);
    DecodeCounted(p, Enough(s));
    DecodeCounted(q, Enough(s));
    x, y := Decode(p, Enough(s)).value, Decode(q, Enough(s)).value;
    assert |x.body| < |y.body|;
  }

  /** Every split of the stream has the same result, or none has any. */
  ghost predicate SplitIndependent(s: string) {
    forall p, q, o :: Received(p) && Received(q) && Flat(p) == s && Flat(q) == s && Returns(p, o) ==> Returns(q, o)
  }

  lemma Apart(s: string, p: seq<string>, q: seq<string>, x: Outcome, y: Outcome)
    requires Received(p) && Received(q) && Flat(p) == s && Flat(q) == s && Returns(p, x) && Returns(q, y) && x != y
    ensures !SplitIndependent(s)
  {
    hide Decode, Flat, Received, Returns, Enough;
    ReturnsIff(q, x);
    ReturnsIff(q, y);
  }

  /** Exactly which streams decode alike however `recv` splits them. */
  lemma SplitIndependentIff(s: string)
    ensures SplitIndependent(s) <==> !SplitDependent(s)
  {
    hide Decode, Flat, Received, Returns, Enough, Headed, ChunkedBody, Length, Ends, OpenAt;
    if SplitDependent(s) {
      hide SplitIndependent;
      if ChunkedBody(s) {
        var m :| OpenAt(s, Start(s), Start(s), Enough(s), m);
        var p, q, x, y := TwoBodies(s, Enough(s), m);
        ReturnsIff(p, x);
        ReturnsIff(q, y);
        Apart(s, p, q, x, y);
      } else {
        var p, q, x, y := TwoCounts(s);
        ReturnsIff(p, x);
        ReturnsIff(q, y);
        Apart(s, p, q, x, y);
      }
    } else {
      hide SplitDependent;
      forall p, q, o | Received(p) && Received(q) && Flat(p) == s && Flat(q) == s && Returns(p, o)
        ensures Returns(q, o)
      {
        ReturnsIff(p, o);
        ReturnsIff(q, o);
        SameResult(p, q);
      }
    }
  }
}

/** When the chunk loop of `http_request`, src/control/client.cpp, never ends:
    exactly when a size line leads back to a position already visited. */
module HttpLoops {
  import opened Base
  import opened Text
  import opened HttpFraming
  import opened HttpSplits
  import opened HttpBodies

  // --------------------------------------------------------------- positions

  /** The position after `k` rounds from `pos`, if the loop gets that far. */
  ghost function After(s: string, pos: nat, k: nat): (r: Option<nat>)
    requires pos <= |s|
    ensures r.Some? ==> r.value <= |s|
    decreases k
  {
    if k == 0 then Some(pos)
    else
      var r := RoundAt(s, pos);
      if r.Goes? then After(s, r.next, k - 1) else None
  }

  /** A size line leads back to a position already visited. */
  ghost predicate Revisits(s: string, pos: nat)
    requires pos <= |s|
  {
    exists j: nat, k: nat :: j < k && After(s, pos, j).Some? && After(s, pos, k) == After(s, pos, j)
  }

  ghost predicate NeverStops(s: string, pos: nat)
    requires pos <= |s|
  {
    forall rounds :: !Stops(s, pos, rounds)
  }

  lemma {:induction false} AfterAdd(s: string, pos: nat, j: nat, d: nat)
    requires pos <= |s| && After(s, pos, j).Some?
    ensures After(s, pos, j + d) == After(s, After(s, pos, j).value, d)
    decreases j
  {
    hide RoundAt;
    if j > 0 {
      AfterAdd(s, RoundAt(s, pos).next, j - 1, d);
    }
  }

  /** A loop that stops has fewer rounds left at every position it passes. */
  lemma {:induction false} StopsAfter(s: string, pos: nat, j: nat, rounds: nat)
    requires pos <= |s| && After(s, pos, j).Some? && Stops(s, pos, rounds)
    ensures j < rounds && Stops(s, After(s, pos, j).value, rounds - j)
    decreases j
  {
    hide RoundAt;
    if j > 0 {
      StopsAfter(s, RoundAt(s, pos).next, j - 1, rounds - 1);
    }
  }

  lemma {:induction false} CycleGoesOn(s: string, x: nat, d: nat, rounds: nat)
    requires x <= |s| && d > 0 && After(s, x, d) == Some(x)
    ensures !Stops(s, x, rounds)
    decreases rounds
  {
    if Stops(s, x, rounds) {
      StopsAfter(s, x, d, rounds);
      CycleGoesOn(s, x, d, rounds - d);
    }
  }

  lemma {:induction false} VisitedTwice(s: string, pos: nat, j: nat, k: nat, rounds: nat)
    requires pos <= |s| && j < k && After(s, pos, j).Some? && After(s, pos, k) == After(s, pos, j)
    ensures !Stops(s, pos, rounds)
  {
    hide After, Stops, RoundAt;
    AfterAdd(s, pos, j, k - j);
    if Stops(s, pos, rounds) {
      StopsAfter(s, pos, j, rounds);
      CycleGoesOn(s, After(s, pos, j).value, k - j, rounds - j);
    }
  }

  lemma {:induction false} RevisitNeverStops(s: string, pos: nat)
    requires pos <= |s| && Revisits(s, pos)
    ensures NeverStops(s, pos)
  {
    hide After, Stops, RoundAt;
    var j: nat, k: nat :| j < k && After(s, pos, j).Some? && After(s, pos, k) == After(s, pos, j);
    forall rounds
      ensures !Stops(s, pos, rounds)
    {
      VisitedTwice(s, pos, j, k, rounds);
    }
  }

  lemma {:induction false} GoesOn(s: string, pos: nat, k: nat)
    requires pos <= |s| && !Stops(s, pos, k)
    ensures After(s, pos, k).Some?
    decreases k
  {
    hide RoundAt;
    if k > 0 {
      GoesOn(s, RoundAt(s, pos).next, k - 1);
    }
  }

  /** Among more positions than the stream has, two are the same. */
  lemma {:induction false} NeverStopsRevisits(s: string, pos: nat)
    requires pos <= |s| && NeverStops(s, pos)
    ensures Revisits(s, pos)
  {
    hide Stops, RoundAt, After;
    var n := |s| + 2;
    forall k: nat
      ensures After(s, pos, k).Some?
    {
      GoesOn(s, pos, k);
    }
    var path := seq(n, k requires 0 <= k < n => After(s, pos, k).value);
    if NoDup(path) {
      NoDupCardinality(path);
      assert forall x :: x in Elements(path) ==> x <= |s|;
      UpTo(Elements(path), |s|);
    }
    var j, k :| 0 <= j < k < n && path[j] == path[k];
    assert After(s, pos, j).Some? && After(s, pos, k) == After(s, pos, j);
  }

  /** Exactly when the chunk loop never ends. */
  lemma NeverStopsIff(s: string, pos: nat)
    requires pos <= |s|
    ensures NeverStops(s, pos) <==> Revisits(s, pos)
  {
    hide NeverStops, Revisits;
    if NeverStops(s, pos) {
      NeverStopsRevisits(s, pos);
    }
    if Revisits(s, pos) {
      RevisitNeverStops(s, pos);
    }
  }

  // ---------------------------------------------------------- whole responses

  ghost predicate NeverReturns(pieces: seq<string>) {
    forall o :: !Returns(pieces, o)
  }

  /** A response that is not chunked returns at once. */
  lemma DecodeAtOnce(p: seq<string>, k: nat)
    requires !(Headed(Flat(p)) && ChunkedBody(Flat(p)))
    ensures Decode(p, k).Some?
  {
    hide Find, Matches, Status, HeaderFields, Chunked, Chunks, Flat, Stoull, Counted;
  }

  lemma NeverReturnsChunked(p: seq<string>)
    requires Headed(Flat(p)) && ChunkedBody(Flat(p))
    ensures NeverReturns(p) <==> NeverStops(Flat(p), Start(Flat(p)))
  {
    var s := Flat(p);
    var start := Start(s);
    forall rounds
      ensures Decode(p, rounds).Some? <==> Stops(s, start, rounds)
    {
      hide Decode, Chunks, Stops, Flat, Headed, ChunkedBody;
      DecodeChunked(p, rounds);
      StopsIffSome(p, start, start, Code(s), "", rounds);
    }
    hide Decode, Stops, Flat, Headed, ChunkedBody;
    if rounds :| Stops(s, start, rounds) {
      assert Returns(p, Decode(p, rounds).value);
    }
  }

  /** Exactly which responses never return, however `recv` splits them: chunked ones
      in which a size line leads back to a position already visited. */
  lemma NeverReturnsIff(p: seq<string>)
    ensures NeverReturns(p) <==> var s := Flat(p); Headed(s) && ChunkedBody(s) && Revisits(s, Start(s))
  {
    var s := Flat(p);
    hide Decode, Flat, Headed, ChunkedBody, Revisits, NeverStops;
    if Headed(s) && ChunkedBody(s) {
      hide NeverReturns;
      NeverReturnsChunked(p);
      NeverStopsIff(s, Start(s));
    } else {
      DecodeAtOnce(p, 0);
      assert Returns(p, Decode(p, 0).value);
    }
  }

  // -------------------------------------------------- a size line back to itself

  lemma RoundBack(s: string, pos: nat, eol: nat, n: nat)
    requires pos <= |s| < TWO64 && Find(s, CRLF, pos) == eol && eol + 2 <= |s|
    requires ChunkSize(s[pos..eol]) == Some(n) && n > 0 && eol + n + 4 == pos + TWO64
    ensures RoundAt(s, pos) == Goes(eol + 2, n, pos)
  {
    hide Find, ChunkSize, Matches;
    assert (pos + TWO64) % TWO64 == pos;
  }

  /** A size of 2^64 less the length of its own line leads back to that line. */
  lemma LineBack(head: string, digits: string, tail: string)
    requires |head + digits + CRLF + tail| < TWO64 && |digits| + 4 < TWO64
    requires SizeLine(digits, "", "", TWO64 - |digits| - 4)
    ensures var s := head + digits + CRLF + tail;
            RoundAt(s, |head|) == Goes(|head| + |digits| + 2, TWO64 - |digits| - 4, |head|)
  {
    hide Find, Matches, ChunkSize, SizeLine, RoundAt;
    BareLine(head, digits, TWO64 - |digits| - 4, tail);
    BareSize(digits, TWO64 - |digits| - 4);
    Regroup(head, digits, CRLF, tail);
    RoundBack(head + digits + CRLF + tail, |head|, |head| + |digits|, TWO64 - |digits| - 4);
  }

  lemma BackRevisits(s: string, pos: nat)
    requires pos <= |s| && RoundAt(s, pos).Goes? && RoundAt(s, pos).next == pos
    ensures Revisits(s, pos)
  {
    hide RoundAt;
    assert After(s, pos, 0) == Some(pos);
    assert After(s, pos, 1) == After(s, pos, 0);
  }

  lemma HeadFirst(a: string, b: string, c: string, d: string)
    ensures a <= a + b + c + d
  {
  }

  lemma ChunkedHead(head: string, s: string, status: int)
    requires Head(head, status) && Chunked(HeaderFields(head, |head| - 4)) && head <= s
    ensures Headed(s) && ChunkedBody(s) && Start(s) == |head|
  {
    hide Head, HeaderFields, Chunked;
    HeadOf(head, s, status);
  }

  /** A chunked response whose first size line leads back to itself never returns,
      whatever follows and in every split. */
  lemma LineBackNeverReturns(pieces: seq<string>, head: string, status: int, digits: string, tail: string)
    requires Head(head, status) && Chunked(HeaderFields(head, |head| - 4))
    requires |digits| + 4 < TWO64 && SizeLine(digits, "", "", TWO64 - |digits| - 4)
    requires Flat(pieces) == head + digits + CRLF + tail && |Flat(pieces)| < TWO64
    ensures NeverReturns(pieces)
  {
    var s := Flat(pieces);
    hide Flat, Head, HeaderFields, Chunked, SizeLine, RoundAt, NeverReturns, Revisits, Headed, ChunkedBody;
    HeadFirst(head, digits, CRLF, tail);
    ChunkedHead(head, s, status);
    LineBack(head, digits, tail);
    BackRevisits(s, |head|);
    NeverReturnsIff(pieces);
  }

  const BACK := "ffffffffffffffec"

  lemma BackSize()
    ensures SizeLine(BACK, "", "", TWO64 - 20)
  {
    RepeatedF(14, BACK[..14]);
    assert Power16(14) == 0x100_0000_0000_0000;
    assert BACK[..15][..14] == BACK[..14];
    assert Value(BACK[..15], 16) == 16 * Value(BACK[..14], 16) + 14;
    assert forall i :: 0 <= i < |BACK| ==> DigitValue(BACK[i]) < 16;
  }

  /** A response that never returns. */
  lemma NeverReturnsHere(pieces: seq<string>)
    requires Flat(pieces) == Plain() + BACK + CRLF
    ensures NeverReturns(pieces)
  {
    assert |BACK| == 16 && |Plain() + BACK + CRLF| < 200;
    hide Head, HeaderFields, Chunked, SizeLine, Plain, NeverReturns, Flat, BACK;
    PlainHead();
    BackSize();
    assert Plain() + BACK + CRLF + "" == Plain() + BACK + CRLF;
    LineBackNeverReturns(pieces, Plain(), 200, BACK, "");
  }
}

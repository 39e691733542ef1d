/** The `<key>#meta` line of src/proxy/request_handler.cpp: object size, etag and
    the chunk hashes learned so far. */
module MetaCodec {
  import opened Base
  import opened Text

  datatype ObjectInfo = ObjectInfo(size: nat, etag: string, hashes: seq<string>)

  /** Each token preceded by a blank. */
  function Spaced(tokens: seq<string>): string {
    if tokens == [] then "" else " " + tokens[0] + Spaced(tokens[1..])
  }

  function Serialize(o: ObjectInfo): string {
    Dec(o.size) + Spaced([o.etag] + o.hashes)
  }

  function Parse(content: string): Option<ObjectInfo> {
    match ParseUll(content, 10)
    case None => None
    case Some(r) =>
      var tokens := Tokens(r.1);
      if tokens == [] then Some(ObjectInfo(r.0, "", []))
      else Some(ObjectInfo(r.0, tokens[0], tokens[1..]))
  }

  // ------------------------------------------------------- the source's loops

  lemma {:induction false} SpacedSnoc(tokens: seq<string>, t: string)
    ensures Spaced(tokens + [t]) == Spaced(tokens) + " " + t
  {
    if tokens == [] {
      assert tokens + [t] == [t];
      assert Spaced([t]) == " " + t + Spaced([t][1..]);
    } else {
      assert (tokens + [t])[1..] == tokens[1..] + [t];
      SpacedSnoc(tokens[1..], t);
    }
  }

  method SerializeMeta(o: ObjectInfo) returns (s: string)
    ensures s == Serialize(o)
  {
    s := Dec(o.size) + " " + o.etag;
    SpacedSnoc([], o.etag);
    assert [] + [o.etag] == [o.etag];
    for i := 0 to |o.hashes|
      invariant s == Dec(o.size) + Spaced([o.etag] + o.hashes[..i])
    {
      SpacedSnoc([o.etag] + o.hashes[..i], o.hashes[i]);
      assert [o.etag] + o.hashes[..i + 1] == [o.etag] + o.hashes[..i] + [o.hashes[i]];
      s := s + " " + o.hashes[i];
    }
    assert o.hashes[..|o.hashes|] == o.hashes;
  }

  method ParseMeta(content: string) returns (o: Option<ObjectInfo>)
    ensures o == Parse(content)
  {
    var head := ParseUll(content, 10);
    if head == None {
      return None;
    }
    var rest := head.value.1;
    var words := [];
    var n := Word(SkipSpace(rest));
    while n > 0
      invariant n == Word(SkipSpace(rest))
      invariant words + Tokens(rest) == Tokens(head.value.1)
      decreases |rest|
    {
      SkipSpaceFacts(rest);
      var s := SkipSpace(rest);
      words, rest := words + [s[..n]], s[n..];
      n := Word(SkipSpace(rest));
    }
    assert words == Tokens(head.value.1);
    o := Some(if words == [] then ObjectInfo(head.value.0, "", [])
              else ObjectInfo(head.value.0, words[0], words[1..]));
  }

  // -------------------------------------------------------------- round trips

  function NonEmpty(tokens: seq<string>): seq<string> {
    if tokens == [] then []
    else (if tokens[0] == "" then [] else [tokens[0]]) + NonEmpty(tokens[1..])
  }

  /** What is left of an object's info once printed and read again. */
  function Reread(o: ObjectInfo): ObjectInfo {
    var t := NonEmpty([o.etag] + o.hashes);
    if t == [] then ObjectInfo(o.size, "", []) else ObjectInfo(o.size, t[0], t[1..])
  }

  ghost predicate AllBlankless(tokens: seq<string>) {
    forall i :: 0 <= i < |tokens| ==> Blankless(tokens[i])
  }

  lemma {:induction false} TokensOfSpaced(tokens: seq<string>)
    requires AllBlankless(tokens)
    ensures Tokens(Spaced(tokens)) == NonEmpty(tokens)
  {
    if tokens != [] {
      TokensOfSpaced(tokens[1..]);
      TokensStep(tokens[0], Spaced(tokens[1..]));
    }
  }

  lemma HeadOfSerialized(o: ObjectInfo)
    requires o.size < TWO64
    ensures ParseUll(Serialize(o), 10) == Some((o.size, Spaced([o.etag] + o.hashes)))
  {
    DecValue(o.size);
    var rest := Spaced([o.etag] + o.hashes);
    assert rest[0] == ' ';
    ParseNumeral(Dec(o.size), rest, 10);
  }

  /** The size survives whatever the etag and the hashes contain. */
  lemma SizeSurvives(o: ObjectInfo)
    requires o.size < TWO64
    ensures Parse(Serialize(o)).Some? && Parse(Serialize(o)).value.size == o.size
  {
    HeadOfSerialized(o);
  }

  /** Reading back gives the info with its empty tokens dropped. */
  lemma ParseSerialize(o: ObjectInfo)
    requires o.size < TWO64 && AllBlankless([o.etag] + o.hashes)
    ensures Parse(Serialize(o)) == Some(Reread(o))
  {
    HeadOfSerialized(o);
    TokensOfSpaced([o.etag] + o.hashes);
  }

  lemma {:induction false} NonEmptyFull(tokens: seq<string>)
    ensures |NonEmpty(tokens)| <= |tokens|
    ensures NonEmpty(tokens) == tokens <==> "" !in tokens
    ensures |NonEmpty(tokens)| == |tokens| <==> "" !in tokens
  {
    if tokens != [] {
      NonEmptyFull(tokens[1..]);
      assert "" in tokens <==> tokens[0] == "" || "" in tokens[1..];
      if tokens[0] != "" {
        assert NonEmpty(tokens) == [tokens[0]] + NonEmpty(tokens[1..]);
        assert NonEmpty(tokens)[1..] == NonEmpty(tokens[1..]);
        assert tokens == [tokens[0]] + tokens[1..];
      }
    }
  }

  /** The line is lossless exactly when no token is empty, or all there is is an
      empty etag. */
  lemma RoundTripIff(o: ObjectInfo)
    requires o.size < TWO64 && AllBlankless([o.etag] + o.hashes)
    ensures Parse(Serialize(o)) == Some(o) <==>
            ((o.etag != "" && "" !in o.hashes) || (o.etag == "" && o.hashes == []))
  {
    ParseSerialize(o);
    var tokens := [o.etag] + o.hashes;
    NonEmptyFull(tokens);
    assert tokens[0] == o.etag && tokens[1..] == o.hashes;
    assert "" in tokens <==> o.etag == "" || "" in o.hashes;
    var t := NonEmpty(tokens);
    if Reread(o) == o && t != [] {
      assert t == [t[0]] + t[1..];
    }
  }

  // ---------------------------------------------------------------- anchoring

  function Padding(n: nat): (r: seq<string>)
    ensures |r| == n && forall i :: 0 <= i < n ==> r[i] == ""
  {
    seq(n, _ => "")
  }

  /** The anchoring step of `fetch_chunk`: grow the hash list to hold slot `i`
      and fill the slot if it is empty. */
  function Anchor(o: ObjectInfo, i: nat, hash: string): ObjectInfo {
    var grown := if |o.hashes| <= i then o.hashes + Padding(i + 1 - |o.hashes|) else o.hashes;
    o.(hashes := if grown[i] == "" then grown[i := hash] else grown)
  }

  /** Every hash listed is the one of the chunk at its position. */
  ghost predicate Anchored(o: ObjectInfo, truth: nat -> string) {
    forall i: nat :: i < |o.hashes| ==> o.hashes[i] == truth(i)
  }

  /** Chunk hashes and etags as they occur: one nonempty word each. */
  ghost predicate Wordy(o: ObjectInfo, truth: nat -> string) {
    && o.size < TWO64 && o.etag != "" && Blankless(o.etag)
    && forall i: nat :: truth(i) != "" && Blankless(truth(i))
  }

  lemma {:induction false} NonEmptyConcat(a: seq<string>, b: seq<string>)
    ensures NonEmpty(a + b) == NonEmpty(a) + NonEmpty(b)
  {
    if a == [] {
      assert a + b == b;
    } else {
      assert (a + b)[1..] == a[1..] + b && (a + b)[0] == a[0];
      NonEmptyConcat(a[1..], b);
    }
  }

  lemma {:induction false} NonEmptyPadding(n: nat)
    ensures NonEmpty(Padding(n)) == []
  {
    if n > 0 {
      assert Padding(n)[1..] == Padding(n - 1);
      NonEmptyPadding(n - 1);
    }
  }

  lemma AnchorShape(o: ObjectInfo, i: nat, truth: nat -> string)
    requires Anchored(o, truth) && Wordy(o, truth)
    ensures var a := Anchor(o, i, truth(i));
            && a.size == o.size && AllBlankless([a.etag] + a.hashes)
            && [a.etag] + a.hashes == [o.etag] + o.hashes +
               (if i < |o.hashes| then [] else Padding(i - |o.hashes|) + [truth(i)])
  {
  }

  lemma AnchorTokens(o: ObjectInfo, i: nat, truth: nat -> string)
    requires Anchored(o, truth) && Wordy(o, truth)
    ensures var a := Anchor(o, i, truth(i));
            NonEmpty([a.etag] + a.hashes) ==
            [o.etag] + (if i < |o.hashes| then o.hashes else o.hashes + [truth(i)])
  {
    AnchorShape(o, i, truth);
    var known := [o.etag] + o.hashes;
    assert "" !in known;
    NonEmptyFull(known);
    hide Anchor, Anchored, AllBlankless, Blankless, Padding;
    if i < |o.hashes| {
      assert known + [] == known;
    } else {
      var pad := Padding(i - |o.hashes|);
      NonEmptyConcat(known, pad + [truth(i)]);
      NonEmptyConcat(pad, [truth(i)]);
      NonEmptyPadding(i - |o.hashes|);
      assert NonEmpty([truth(i)]) == [truth(i)];
    }
  }

  /** Anchoring past the end of the list does not leave the hash in its own
      slot: what is read back has it directly after the known ones. */
  lemma AnchorReread(o: ObjectInfo, i: nat, truth: nat -> string)
    requires Anchored(o, truth) && Wordy(o, truth)
    ensures Parse(Serialize(Anchor(o, i, truth(i)))) ==
            Some(if i < |o.hashes| then o else o.(hashes := o.hashes + [truth(i)]))
  {
    hide Parse, Serialize, Anchored, AllBlankless, Blankless, NonEmpty;
    AnchorShape(o, i, truth);
    AnchorTokens(o, i, truth);
    ParseSerialize(Anchor(o, i, truth(i)));
  }

  /** The stored list stays anchored exactly when the chunk's index is at most the
      list's length, or the chunk has the same hash as the one it displaces. */
  lemma AnchorKeepsIff(o: ObjectInfo, i: nat, truth: nat -> string)
    requires Anchored(o, truth) && Wordy(o, truth)
    ensures Parse(Serialize(Anchor(o, i, truth(i)))).Some?
    ensures Anchored(Parse(Serialize(Anchor(o, i, truth(i)))).value, truth) <==>
            (i <= |o.hashes| || truth(i) == truth(|o.hashes|))
  {
    AnchorReread(o, i, truth);
    if i >= |o.hashes| {
      var r := o.(hashes := o.hashes + [truth(i)]);
      assert r.hashes[|o.hashes|] == truth(i);
    }
  }

  /** A range request for chunk 1 before chunk 0: its hash is read back as chunk 0's. */
  lemma OutOfOrderAnchorShifts()
    ensures Parse(Serialize(Anchor(ObjectInfo(20, "e", []), 1, "h1"))) == Some(ObjectInfo(20, "e", ["h1"]))
  {
    hide Parse, Serialize, Anchor;
    var truth := (i: nat) => if i == 1 then "h1" else "h0";
    assert Wordy(ObjectInfo(20, "e", []), truth);
    AnchorReread(ObjectInfo(20, "e", []), 1, truth);
    assert [] + [truth(1)] == ["h1"];
  }

  /** A line as it is spelled. */
  lemma LineSpelled()
    ensures Serialize(ObjectInfo(20, "e", ["h0", "h1"])) == "20 e h0 h1"
  {
    assert Dec(20) == Dec(2) + "0" && Dec(2) == "2";
    assert Spaced(["e", "h0", "h1"]) == " " + "e" + Spaced(["h0", "h1"]);
    assert Spaced(["h0", "h1"]) == " " + "h0" + Spaced(["h1"]);
    assert Spaced(["h1"]) == " " + "h1" + Spaced([]);
    assert ["e"] + ["h0", "h1"] == ["e", "h0", "h1"];
  }
}

/** Canonical query strings for request signing, src/storage/s3_client.cpp. */
module CanonicalQuery {
  import opened Base
  import opened Text

  // ---------------------------------------------------------- percent-encoding

  ghost predicate Octets(s: string) {
    forall i :: 0 <= i < |s| ==> s[i] as int < 256
  }

  predicate Unreserved(c: char) {
    'a' <= c <= 'z' || 'A' <= c <= 'Z' || '0' <= c <= '9' || c == '-' || c == '_' || c == '.' || c == '~'
  }

  function HexDigit(n: nat): (c: char)
    requires n < 16
    ensures DigitValue(c) == n && Unreserved(c)
  {
    if n < 10 then ('0' as int + n) as char else ('A' as int + n - 10) as char
  }

  function EncodeChar(c: char): string {
    if Unreserved(c) then [c] else ['%', HexDigit(c as int / 16 % 16), HexDigit(c as int % 16)]
  }

  function Encode(s: string): string {
    if s == "" then "" else Encode(s[..|s| - 1]) + EncodeChar(s[|s| - 1])
  }

  /** Percent-decoding as section 2.1 of RFC 3986 defines it. */
  function Decode(s: string): string {
    if s == "" then ""
    else if s[0] == '%' && |s| >= 3 && DigitValue(s[1]) < 16 && DigitValue(s[2]) < 16 then
      [(16 * DigitValue(s[1]) + DigitValue(s[2])) as char] + Decode(s[3..])
    else [s[0]] + Decode(s[1..])
  }

  lemma DecodeChar(c: char, rest: string)
    requires c as int < 256
    ensures Decode(EncodeChar(c) + rest) == [c] + Decode(rest)
  {
    var s := EncodeChar(c) + rest;
    if Unreserved(c) {
      assert s[0] == c && s[1..] == rest;
    } else {
      var n := c as int;
      assert s[0] == '%' && s[1] == HexDigit(n / 16 % 16) && s[2] == HexDigit(n % 16) && s[3..] == rest;
      assert 16 * (n / 16 % 16) + n % 16 == n;
    }
  }

  /** Decoding undoes encoding. */
  lemma {:induction false} DecodeEncode(s: string, rest: string)
    requires Octets(s)
    ensures Decode(Encode(s) + rest) == s + Decode(rest)
    decreases |s|
  {
    hide Decode, EncodeChar;
    if s == "" {
      assert Encode(s) + rest == rest && s + Decode(rest) == Decode(rest);
    } else {
      var init, c := s[..|s| - 1], s[|s| - 1];
      assert Encode(s) + rest == Encode(init) + (EncodeChar(c) + rest);
      DecodeEncode(init, EncodeChar(c) + rest);
      DecodeChar(c, rest);
      assert s == init + [c];
      assert init + ([c] + Decode(rest)) == s + Decode(rest);
    }
  }

  lemma RoundTrip(s: string)
    requires Octets(s)
    ensures Decode(Encode(s)) == s
  {
    DecodeEncode(s, "");
    assert Encode(s) + "" == Encode(s) && s + Decode("") == s;
  }

  lemma {:induction false} EncodeClean(s: string)
    ensures forall i :: 0 <= i < |Encode(s)| ==> Unreserved(Encode(s)[i]) || Encode(s)[i] == '%'
  {
    if s != "" {
      EncodeClean(s[..|s| - 1]);
    }
  }

  // --------------------------------------------------------------------- order

  /** `std::string`'s order. */
  predicate Less(a: string, b: string) {
    b != "" && (a == "" || a[0] < b[0] || (a[0] == b[0] && Less(a[1..], b[1..])))
  }

  lemma {:induction false} LessTrans(a: string, b: string, c: string)
    requires Less(a, b) && Less(b, c)
    ensures Less(a, c)
    decreases |a|
  {
    if a != "" && a[0] == b[0] && b[0] == c[0] {
      LessTrans(a[1..], b[1..], c[1..]);
    }
  }

  lemma {:induction false} LessIrreflexive(a: string)
    ensures !Less(a, a)
  {
    if a != "" {
      LessIrreflexive(a[1..]);
    }
  }

  lemma {:induction false} LessTotal(a: string, b: string)
    ensures a == b || Less(a, b) || Less(b, a)
  {
    if a != "" && b != "" && a[0] == b[0] {
      LessTotal(a[1..], b[1..]);
      assert a[1..] == b[1..] ==> a == [a[0]] + a[1..] == [b[0]] + b[1..] == b;
    }
  }

  // ---------------------------------------------------------- names and values

  datatype Param = Param(name: string, value: string)

  function Split(piece: string): Param {
    var eq := FindChar(piece, '=');
    Param(piece[..eq], if eq < |piece| then piece[eq + 1..] else "")
  }

  /** The parameters of a raw query string, in order. */
  function Params(query: string): seq<Param>
    decreases |query|
  {
    if query == "" then []
    else
      var i := FindChar(query, '&');
      var rest := if i < |query| then query[i + 1..] else "";
      (if i == 0 then [] else [Split(query[..i])]) + Params(rest)
  }

  /** What a list of parameters means: of several with one name the last counts. */
  function Meaning(ps: seq<Param>): map<string, string> {
    if ps == [] then map[] else map[ps[0].name := ps[0].value] + Meaning(ps[1..])
  }

  ghost predicate AllOctets(ps: seq<Param>) {
    forall i :: 0 <= i < |ps| ==> Octets(ps[i].name) && Octets(ps[i].value)
  }

  function EncodeParam(p: Param): Param {
    Param(Encode(p.name), Encode(p.value))
  }

  function EncodeAll(ps: seq<Param>): (r: seq<Param>)
    ensures |r| == |ps| && forall i :: 0 <= i < |ps| ==> r[i] == EncodeParam(ps[i])
  {
    if ps == [] then [] else [EncodeParam(ps[0])] + EncodeAll(ps[1..])
  }

  function DecodeAll(ps: seq<Param>): (r: seq<Param>)
    ensures |r| == |ps| && forall i :: 0 <= i < |ps| ==> r[i] == Param(Decode(ps[i].name), Decode(ps[i].value))
  {
    if ps == [] then [] else [Param(Decode(ps[0].name), Decode(ps[0].value))] + DecodeAll(ps[1..])
  }

  lemma DecodeEncodeAll(ps: seq<Param>)
    requires AllOctets(ps)
    ensures DecodeAll(EncodeAll(ps)) == ps
  {
    hide Decode, Encode;
    forall i | 0 <= i < |ps|
      ensures DecodeAll(EncodeAll(ps))[i] == ps[i]
    {
      RoundTrip(ps[i].name);
      RoundTrip(ps[i].value);
    }
  }

  // ------------------------------------------------------------ the sorted map

  /** Strictly sorted by encoded name: what a `std::map` enumerates. */
  ghost predicate Sorted(ps: seq<Param>) {
    forall i, j :: 0 <= i < j < |ps| ==> Less(ps[i].name, ps[j].name)
  }

  /** `params[name] = value` on the enumeration of the map. */
  function Insert(ps: seq<Param>, p: Param): seq<Param> {
    if ps == [] || Less(p.name, ps[0].name) then [p] + ps
    else if ps[0].name == p.name then [p] + ps[1..]
    else [ps[0]] + Insert(ps[1..], p)
  }

  lemma {:induction false} InsertMembers(ps: seq<Param>, p: Param, q: Param)
    requires q in Insert(ps, p)
    ensures q == p || q in ps
  {
    if ps != [] && !Less(p.name, ps[0].name) && ps[0].name != p.name && q != ps[0] {
      InsertMembers(ps[1..], p, q);
    }
  }

  lemma {:induction false} InsertSorted(ps: seq<Param>, p: Param)
    requires Sorted(ps)
    ensures Sorted(Insert(ps, p))
  {
    if ps != [] {
      LessTotal(p.name, ps[0].name);
      if Less(p.name, ps[0].name) {
        forall j | 0 <= j < |ps|
          ensures Less(p.name, ps[j].name)
        {
          if j > 0 {
            LessTrans(p.name, ps[0].name, ps[j].name);
          }
        }
      } else if ps[0].name != p.name {
        var tail := Insert(ps[1..], p);
        InsertSorted(ps[1..], p);
        forall j | 0 <= j < |tail|
          ensures Less(ps[0].name, tail[j].name)
        {
          InsertMembers(ps[1..], p, tail[j]);
        }
      }
      hide Less;
    }
  }

  lemma {:induction false} MeaningNames(ps: seq<Param>, name: string)
    ensures name in Meaning(ps) <==> exists i :: 0 <= i < |ps| && ps[i].name == name
  {
    if ps != [] {
      var rest := ps[1..];
      MeaningNames(rest, name);
      assert forall i :: 0 <= i < |rest| ==> rest[i] == ps[i + 1];
    }
  }

  /** The map the source fills: one insertion per parameter, in order. */
  function Collected(ps: seq<Param>): seq<Param> {
    if ps == [] then [] else Insert(Collected(ps[..|ps| - 1]), EncodeParam(ps[|ps| - 1]))
  }

  function Join(ps: seq<Param>): string {
    if ps == [] then ""
    else if |ps| == 1 then ps[0].name + "=" + ps[0].value
    else ps[0].name + "=" + ps[0].value + "&" + Join(ps[1..])
  }

  function Canonical(query: string): string {
    Join(Collected(Params(query)))
  }

  // ----------------------------------------------- meaning before encoding

  /** The map before encoding: the same insertions, on raw names. */
  ghost function Place(ps: seq<Param>, p: Param): seq<Param> {
    if ps == [] || Less(Encode(p.name), Encode(ps[0].name)) then [p] + ps
    else if ps[0].name == p.name then [p] + ps[1..]
    else [ps[0]] + Place(ps[1..], p)
  }

  ghost function Placed(ps: seq<Param>): seq<Param> {
    if ps == [] then [] else Place(Placed(ps[..|ps| - 1]), ps[|ps| - 1])
  }

  lemma EncodeInjective(a: string, b: string)
    requires Octets(a) && Octets(b) && Encode(a) == Encode(b)
    ensures a == b
  {
    RoundTrip(a);
    RoundTrip(b);
  }

  lemma {:induction false} PlaceEncodes(ps: seq<Param>, p: Param)
    requires AllOctets(ps) && Octets(p.name) && Octets(p.value)
    ensures EncodeAll(Place(ps, p)) == Insert(EncodeAll(ps), EncodeParam(p)) && AllOctets(Place(ps, p))
    decreases |ps|
  {
    hide Encode, Less, Octets;
    if ps == [] || Less(Encode(p.name), Encode(ps[0].name)) {
      assert EncodeAll([p] + ps) == [EncodeParam(p)] + EncodeAll(ps);
    } else if ps[0].name == p.name {
      assert EncodeAll([p] + ps[1..]) == [EncodeParam(p)] + EncodeAll(ps)[1..];
    } else {
      if Encode(ps[0].name) == Encode(p.name) {
        EncodeInjective(ps[0].name, p.name);
      }
      PlaceEncodes(ps[1..], p);
      assert EncodeAll(ps)[1..] == EncodeAll(ps[1..]);
      assert EncodeAll([ps[0]] + Place(ps[1..], p)) == [EncodeParam(ps[0])] + EncodeAll(Place(ps[1..], p));
    }
  }

  lemma {:induction false} PlacedEncodes(ps: seq<Param>)
    requires AllOctets(ps)
    ensures EncodeAll(Placed(ps)) == Collected(ps) && AllOctets(Placed(ps))
  {
    if ps != [] {
      PlacedEncodes(ps[..|ps| - 1]);
      PlaceEncodes(Placed(ps[..|ps| - 1]), ps[|ps| - 1]);
    }
  }

  lemma {:induction false} CollectedSorted(ps: seq<Param>)
    ensures Sorted(Collected(ps))
  {
    if ps != [] {
      CollectedSorted(ps[..|ps| - 1]);
      InsertSorted(Collected(ps[..|ps| - 1]), EncodeParam(ps[|ps| - 1]));
    }
  }

  lemma {:induction false} MeaningSnoc(ps: seq<Param>, p: Param)
    ensures Meaning(ps + [p]) == Meaning(ps)[p.name := p.value]
  {
    if ps == [] {
      assert [] + [p] == [p];
    } else {
      assert (ps + [p])[1..] == ps[1..] + [p];
      MeaningSnoc(ps[1..], p);
    }
  }

  lemma MeaningCons(p: Param, rest: seq<Param>)
    ensures Meaning([p] + rest) == map[p.name := p.value] + Meaning(rest)
  {
    assert ([p] + rest)[1..] == rest;
  }

  lemma PlaceCases(h: Param, rest: seq<Param>, p: Param)
    ensures Place([h] + rest, p) ==
            if Less(Encode(p.name), Encode(h.name)) then [p] + ([h] + rest)
            else if h.name == p.name then [p] + rest
            else [h] + Place(rest, p)
  {
    assert ([h] + rest)[1..] == rest;
    hide Less, Encode;
  }

  /** An insertion into a sorted list is a map update. */
  lemma {:induction false} PlaceMeans(ps: seq<Param>, p: Param)
    requires Sorted(EncodeAll(ps))
    ensures Meaning(Place(ps, p)) == Meaning(ps)[p.name := p.value]
    decreases |ps|
  {
    if ps == [] {
      assert Place(ps, p) == [p];
    } else {
      hide Less, Encode, EncodeAll, Sorted, Meaning, Place;
      var h, rest := ps[0], ps[1..];
      assert ps == [h] + rest;
      PlaceCases(h, rest, p);
      MeaningCons(h, rest);
      if Less(Encode(p.name), Encode(h.name)) {
        NotAmong(ps, p.name);
        MeaningCons(p, ps);
        UpdateNew(Meaning(ps), p.name, p.value, p.value);
      } else if h.name == p.name {
        AboveHead(ps, p.name);
        MeaningCons(p, rest);
        UpdateNew(Meaning(rest), p.name, p.value, h.value);
      } else {
        TailSorted(ps);
        PlaceMeans(rest, p);
        MeaningCons(h, Place(rest, p));
        UpdateUnder(Meaning(rest), h.name, h.value, p.name, p.value);
      }
    }
  }

  lemma UpdateNew(m: map<string, string>, k: string, v: string, w: string)
    requires k !in m
    ensures map[k := v] + m == m[k := v] == (map[k := w] + m)[k := v]
  {
  }

  lemma UpdateUnder(m: map<string, string>, h: string, w: string, k: string, v: string)
    requires h != k
    ensures map[h := w] + m[k := v] == (map[h := w] + m)[k := v]
  {
  }

  lemma TailSorted(ps: seq<Param>)
    requires ps != [] && Sorted(EncodeAll(ps))
    ensures Sorted(EncodeAll(ps[1..]))
  {
    assert forall i :: 0 <= i < |ps| - 1 ==> EncodeAll(ps[1..])[i] == EncodeAll(ps)[i + 1];
  }

  /** A name below the first is not among them. */
  lemma NotAmong(ps: seq<Param>, name: string)
    requires ps != [] && Sorted(EncodeAll(ps)) && Less(Encode(name), Encode(ps[0].name))
    ensures name !in Meaning(ps)
  {
    MeaningNames(ps, name);
    var es := EncodeAll(ps);
    hide Encode, Less, Meaning;
    forall i | 0 <= i < |ps|
      ensures ps[i].name != name
    {
      if i > 0 {
        LessTrans(Encode(name), es[0].name, es[i].name);
      }
      LessIrreflexive(Encode(name));
    }
  }

  lemma AboveHead(ps: seq<Param>, name: string)
    requires ps != [] && Sorted(EncodeAll(ps)) && ps[0].name == name
    ensures name !in Meaning(ps[1..])
  {
    MeaningNames(ps[1..], name);
    var es := EncodeAll(ps);
    hide Encode, Less, Meaning;
    forall i | 0 <= i < |ps[1..]|
      ensures ps[1..][i].name != name
    {
      assert Less(es[0].name, es[i + 1].name);
      LessIrreflexive(es[0].name);
    }
  }

  lemma {:induction false} PlacedMeans(ps: seq<Param>)
    requires AllOctets(ps)
    ensures Meaning(Placed(ps)) == Meaning(ps)
  {
    if ps != [] {
      var init, p := ps[..|ps| - 1], ps[|ps| - 1];
      assert ps == init + [p];
      PlacedMeans(init);
      PlacedEncodes(init);
      CollectedSorted(init);
      PlaceMeans(Placed(init), p);
      MeaningSnoc(init, p);
    }
  }

  lemma MeaningEmpty(ps: seq<Param>)
    ensures ps == [] <==> Meaning(ps) == map[]
  {
    if ps != [] {
      assert ps[0].name in Meaning(ps);
    }
  }

  /** A sorted list is determined by its meaning. */
  lemma {:induction false} SortedUnique(a: seq<Param>, b: seq<Param>)
    requires Sorted(EncodeAll(a)) && Sorted(EncodeAll(b)) && Meaning(a) == Meaning(b)
    ensures a == b
    decreases |a|
  {
    hide Encode, EncodeAll, Sorted, Less;
    MeaningEmpty(a);
    MeaningEmpty(b);
    if a != [] {
      SameHead(a, b);
      TailSorted(a);
      TailSorted(b);
      AboveHead(a, a[0].name);
      AboveHead(b, b[0].name);
      assert Meaning(a)[a[0].name] == a[0].value && Meaning(b)[b[0].name] == b[0].value;
      assert Meaning(a[1..]) == Meaning(a) - {a[0].name};
      assert Meaning(b[1..]) == Meaning(b) - {b[0].name};
      SortedUnique(a[1..], b[1..]);
      assert a == [a[0]] + a[1..] && b == [b[0]] + b[1..];
    }
  }

  lemma SameHead(a: seq<Param>, b: seq<Param>)
    requires a != [] && b != [] && Sorted(EncodeAll(a)) && Sorted(EncodeAll(b)) && Meaning(a) == Meaning(b)
    ensures a[0].name == b[0].name
  {
    assert a[0].name in Meaning(a) && b[0].name in Meaning(b);
    if Less(Encode(a[0].name), Encode(b[0].name)) {
      NotAmong(b, a[0].name);
    } else if Less(Encode(b[0].name), Encode(a[0].name)) {
      NotAmong(a, b[0].name);
    } else {
      MeaningNames(b, a[0].name);
      var es := EncodeAll(b);
      assert forall j :: 0 < j < |b| ==> Less(es[0].name, es[j].name) && es[j].name == Encode(b[j].name);
    }
  }

  // ---------------------------------------------------------------- the output

  /** Encoded text: no separator of a query string occurs in it. */
  ghost predicate Clean(p: Param) {
    '&' !in p.name && '=' !in p.name && '&' !in p.value
  }

  lemma EncodedClean(p: Param)
    ensures Clean(EncodeParam(p))
  {
    EncodeClean(p.name);
    EncodeClean(p.value);
    hide Encode;
  }

  lemma SplitClean(p: Param)
    requires Clean(p)
    ensures Split(p.name + "=" + p.value) == p
  {
    var s := p.name + "=" + p.value;
    assert s == p.name + ("=" + p.value);
    FindCharAt(p.name, '=', "=" + p.value);
    assert s[..|p.name|] == p.name && s[|p.name| + 1..] == p.value;
  }

  /** One parameter off the front of a query string. */
  lemma ParamsFirst(p: Param, rest: string)
    requires Clean(p)
    ensures Params(p.name + "=" + p.value) == [p]
    ensures Params(p.name + "=" + p.value + "&" + rest) == [p] + Params(rest)
  {
    var s := p.name + "=" + p.value;
    SplitClean(p);
    hide Split;
    FindCharAt(s, '&', "");
    assert s + "" == s && s[..|s|] == s;
    var t := s + "&" + rest;
    assert t == s + ("&" + rest);
    FindCharAt(s, '&', "&" + rest);
    assert t[..|s|] == s && t[|s| + 1..] == rest;
  }

  /** Reading back what was joined. */
  lemma {:induction false} JoinReads(ps: seq<Param>)
    requires forall i :: 0 <= i < |ps| ==> Clean(ps[i])
    ensures Params(Join(ps)) == ps
  {
    if ps != [] {
      JoinReads(ps[1..]);
      hide Params, Clean;
      assert ps == [ps[0]] + ps[1..];
      ParamsFirst(ps[0], Join(ps[1..]));
    }
  }

  lemma CanonicalReads(query: string)
    requires AllOctets(Params(query))
    ensures Params(Canonical(query)) == EncodeAll(Placed(Params(query)))
  {
    hide Params, Encode, Join;
    var ps := Placed(Params(query));
    PlacedEncodes(Params(query));
    forall i | 0 <= i < |ps|
      ensures Clean(EncodeAll(ps)[i])
    {
      EncodedClean(ps[i]);
    }
    JoinReads(EncodeAll(ps));
  }

  /** Everything after the first separator. */
  function After(query: string): (rest: string)
    ensures |rest| <= |query| && (query != "" ==> |rest| < |query|)
  {
    var i := FindChar(query, '&');
    if i < |query| then query[i + 1..] else ""
  }

  lemma ParamsStep(query: string)
    requires query != ""
    ensures var i := FindChar(query, '&');
            Params(query) == (if i == 0 then [] else [Split(query[..i])]) + Params(After(query))
  {
    hide FindChar, Split;
  }

  lemma SplitOctets(piece: string)
    requires Octets(piece)
    ensures Octets(Split(piece).name) && Octets(Split(piece).value)
  {
    hide FindChar;
  }

  lemma {:induction false} ParamsOctets(query: string)
    requires Octets(query)
    ensures AllOctets(Params(query))
    decreases |query|
  {
    if query != "" {
      var i := FindChar(query, '&');
      assert Octets(query[..i]) && Octets(After(query));
      hide Params, FindChar, Split, Octets, After;
      ParamsStep(query);
      SplitOctets(query[..i]);
      ParamsOctets(After(query));
    }
  }

  /** The canonical string, read as a query string: its names are strictly sorted
      in their encoded form, and percent-decoding gives back exactly the names and
      values of the input. */
  lemma CanonicalMeans(query: string)
    requires Octets(query)
    ensures Sorted(Params(Canonical(query)))
    ensures Meaning(DecodeAll(Params(Canonical(query)))) == Meaning(Params(query))
  {
    ParamsOctets(query);
    CanonicalReads(query);
    var ps := Params(query);
    PlacedEncodes(ps);
    CollectedSorted(ps);
    PlacedMeans(ps);
    DecodeEncodeAll(Placed(ps));
    hide *;
  }

  /** Two query strings have one canonical form exactly when they mean the same. */
  lemma CanonicalIff(a: string, b: string)
    requires Octets(a) && Octets(b)
    ensures Canonical(a) == Canonical(b) <==> Meaning(Params(a)) == Meaning(Params(b))
  {
    CanonicalMeans(a);
    CanonicalMeans(b);
    if Meaning(Params(a)) == Meaning(Params(b)) {
      ParamsOctets(a);
      ParamsOctets(b);
      PlacedMeans(Params(a));
      PlacedMeans(Params(b));
      PlacedEncodes(Params(a));
      PlacedEncodes(Params(b));
      CollectedSorted(Params(a));
      CollectedSorted(Params(b));
      SortedUnique(Placed(Params(a)), Placed(Params(b)));
    }
    hide Params, Meaning, Placed, Collected, Sorted, EncodeAll, DecodeAll, Join;
  }

  ghost predicate DistinctNames(ps: seq<Param>) {
    forall i, j :: 0 <= i < j < |ps| ==> ps[i].name != ps[j].name
  }

  /** With distinct names the meaning is the set of parameters. */
  lemma {:induction false} MeaningOfDistinct(ps: seq<Param>, name: string, value: string)
    requires DistinctNames(ps)
    ensures (name in Meaning(ps) && Meaning(ps)[name] == value) <==> Param(name, value) in ps
  {
    if ps != [] {
      var rest := ps[1..];
      assert ps == [ps[0]] + rest;
      MeaningOfDistinct(rest, name, value);
      MeaningNames(rest, name);
    }
  }

  lemma PermutedMeaning(a: seq<Param>, b: seq<Param>)
    requires DistinctNames(a) && DistinctNames(b) && forall p :: p in a <==> p in b
    ensures Meaning(a) == Meaning(b)
  {
    forall name | name in Meaning(a)
      ensures name in Meaning(b) && Meaning(b)[name] == Meaning(a)[name]
    {
      MeaningOfDistinct(a, name, Meaning(a)[name]);
      MeaningOfDistinct(b, name, Meaning(a)[name]);
    }
    forall name | name in Meaning(b)
      ensures name in Meaning(a)
    {
      MeaningOfDistinct(b, name, Meaning(b)[name]);
      MeaningOfDistinct(a, name, Meaning(b)[name]);
    }
  }

  /** The order of distinctly named parameters does not matter. */
  lemma OrderIrrelevant(a: string, b: string)
    requires Octets(a) && Octets(b) && DistinctNames(Params(a)) && multiset(Params(a)) == multiset(Params(b))
    ensures Canonical(a) == Canonical(b)
  {
    var ps, qs := Params(a), Params(b);
    hide Params, Canonical, Octets;
    assert forall p :: p in ps <==> p in multiset(ps);
    assert forall p :: p in qs <==> p in multiset(qs);
    DistinctPermuted(ps, qs);
    PermutedMeaning(ps, qs);
    CanonicalIff(a, b);
  }

  lemma DistinctPermuted(ps: seq<Param>, qs: seq<Param>)
    requires DistinctNames(ps) && multiset(ps) == multiset(qs)
    ensures DistinctNames(qs)
  {
    forall i, j | 0 <= i < j < |qs|
      ensures qs[i].name != qs[j].name
    {
      if qs[i].name == qs[j].name {
        assert qs[i] in multiset(qs) && qs[j] in multiset(qs);
        assert qs[i] in ps && qs[j] in ps;
        assert qs[i] == qs[j];
        TwiceIn(qs, i, j);
        OnceIn(ps, qs[i]);
      }
    }
  }

  lemma TwiceIn(qs: seq<Param>, i: nat, j: nat)
    requires i < j < |qs| && qs[i] == qs[j]
    ensures multiset(qs)[qs[i]] >= 2
  {
    assert qs == qs[..j] + qs[j..];
    assert qs[i] in qs[..j] && qs[i] in qs[j..];
    assert multiset(qs) == multiset(qs[..j]) + multiset(qs[j..]);
  }

  lemma {:induction false} OnceIn(ps: seq<Param>, p: Param)
    requires DistinctNames(ps)
    ensures multiset(ps)[p] <= 1
  {
    if ps != [] {
      var rest := ps[1..];
      OnceIn(rest, p);
      assert ps == [ps[0]] + rest;
      assert multiset(ps) == multiset{ps[0]} + multiset(rest);
      assert p == ps[0] ==> p !in rest;
    }
  }

  // ------------------------------------------------------- the source's loops

  method UrlEncodeQuery(value: string) returns (out: string)
    ensures out == Encode(value)
  {
    out := "";
    for i := 0 to |value|
      invariant out == Encode(value[..i])
    {
      assert value[..i + 1][..i] == value[..i];
      var c := value[i];
      if Unreserved(c) {
        out := out + [c];
      } else {
        out := out + ['%', HexDigit(c as int / 16 % 16), HexDigit(c as int % 16)];
      }
    }
    assert value[..|value|] == value;
  }

  lemma {:induction false} JoinSnoc(ps: seq<Param>, p: Param)
    ensures Join(ps + [p]) == Join(ps) + (if ps == [] then "" else "&") + p.name + "=" + p.value
  {
    if ps == [] {
      assert ps + [p] == [p];
      assert "" + p.name + "=" + p.value == p.name + "=" + p.value;
    } else {
      assert (ps + [p])[1..] == ps[1..] + [p];
      JoinSnoc(ps[1..], p);
      if |ps| > 1 {
        var h := ps[0].name + "=" + ps[0].value + "&";
        assert h + (Join(ps[1..]) + "&" + p.name + "=" + p.value) == h + Join(ps[1..]) + "&" + p.name + "=" + p.value;
      } else {
        assert ps[1..] == [];
        assert Join([]) == "";
        var h := ps[0].name + "=" + ps[0].value;
        assert h + "&" + ("" + "" + p.name + "=" + p.value) == h + "&" + p.name + "=" + p.value;
      }
    }
  }

  lemma CollectedSnoc(seen: seq<Param>, p: Param)
    ensures Collected(seen + [p]) == Insert(Collected(seen), EncodeParam(p))
  {
    assert (seen + [p])[..|seen|] == seen;
    hide Insert;
  }

  /** The loop that fills the sorted map. */
  method Collect(query: string) returns (params: seq<Param>)
    ensures params == Collected(Params(query))
  {
    hide Encode, Split, Insert, Collected, FindChar;
    ParamsNone();
    hide Params;
    params := [];
    ghost var seen: seq<Param> := [];
    var rest := query;
    while rest != ""
      invariant seen + Params(rest) == Params(query) && params == Collected(seen)
      decreases |rest|
    {
      ParamsStep(rest);
      var piece := rest[..FindChar(rest, '&')];
      if piece != "" {
        var p := Split(piece);
        var name := UrlEncodeQuery(p.name);
        var value := UrlEncodeQuery(p.value);
        params := Insert(params, Param(name, value));
        CollectedSnoc(seen, p);
        assert seen + ([p] + Params(After(rest))) == seen + [p] + Params(After(rest));
        seen := seen + [p];
      } else {
        assert [] + Params(After(rest)) == Params(After(rest));
      }
      rest := After(rest);
    }
    assert seen + [] == seen;
  }

  lemma ParamsNone()
    ensures Params("") == [] && Collected([]) == []
  {
  }

  /** Collects in a sorted map, then prints it. */
  method CanonicalizeQueryString(query: string) returns (out: string)
    ensures out == Canonical(query)
  {
    hide Join, Collected, Params;
    var params := Collect(query);
    out := "";
    JoinNone();
    for k := 0 to |params|
      invariant out == Join(params[..k])
    {
      JoinSnoc(params[..k], params[k]);
      assert params[..k + 1] == params[..k] + [params[k]];
      out := out + (if k == 0 then "" else "&") + params[k].name + "=" + params[k].value;
    }
    assert params[..|params|] == params;
  }

  lemma JoinNone()
    ensures Join([]) == ""
  {
  }

  // ------------------------------------------------------------ what is printed

  ghost predicate UpperHex(c: char) {
    ('0' <= c <= '9') || ('A' <= c <= 'F')
  }

  /** Letters, digits, '-', '_', '.' and '~' stand for themselves; every other octet is
      a percent sign and two upper-case hexadecimal digits of its value. */
  lemma EncodeCharIs(c: char)
    requires c as int < 256
    ensures var r := EncodeChar(c);
            if ('a' <= c <= 'z') || ('A' <= c <= 'Z') || ('0' <= c <= '9') || c in {'-', '_', '.', '~'} then r == [c]
            else |r| == 3 && r[0] == '%' && UpperHex(r[1]) && UpperHex(r[2]) &&
                 16 * DigitValue(r[1]) + DigitValue(r[2]) == c as int
  {
    var n := c as int;
    assert 16 * (n / 16 % 16) + n % 16 == n;
  }

  /** `a` ends at `i`, or has the smaller character there, and is `b` before. */
  ghost predicate SmallerAt(a: string, b: string, i: nat) {
    i <= |a| && i < |b| && (forall j :: 0 <= j < i ==> a[j] == b[j]) && (i == |a| || a[i] < b[i])
  }

  lemma {:induction false} LessHasPlace(a: string, b: string) returns (i: nat)
    requires Less(a, b)
    ensures SmallerAt(a, b, i)
    decreases |a|
  {
    if a == "" || a[0] < b[0] {
      i := 0;
    } else {
      var j := LessHasPlace(a[1..], b[1..]);
      i := j + 1;
      assert forall k :: 0 < k < i ==> a[k] == a[1..][k - 1] && b[k] == b[1..][k - 1];
    }
  }

  lemma {:induction false} PlaceMakesLess(a: string, b: string, i: nat)
    requires SmallerAt(a, b, i)
    ensures Less(a, b)
    decreases i
  {
    if i > 0 {
      assert a[0] == b[0];
      assert SmallerAt(a[1..], b[1..], i - 1);
      PlaceMakesLess(a[1..], b[1..], i - 1);
    }
  }

  /** The order is the lexicographic one: a proper prefix, or the smaller character at
      the first difference. */
  lemma LessIsLexicographic(a: string, b: string)
    ensures Less(a, b) <==> exists i: nat :: SmallerAt(a, b, i)
  {
    hide SmallerAt;
    if Less(a, b) {
      var i := LessHasPlace(a, b);
    }
    if i: nat :| SmallerAt(a, b, i) {
      PlaceMakesLess(a, b, i);
    }
  }

  /** A piece is split at its first '='; the value may hold more of them, and without
      one the value is empty. */
  lemma SplitIs(name: string, value: string)
    requires '=' !in name
    ensures Split(name + "=" + value) == Param(name, value) && Split(name) == Param(name, "")
  {
    var s := name + "=" + value;
    assert s == name + ("=" + value);
    FindCharAt(name, '=', "=" + value);
    FindCharAt(name, '=', "");
    assert name + "" == name && name[..|name|] == name;
    assert s[..|name|] == name && s[|name| + 1..] == value;
  }

  /** Pieces between '&' are taken in order, and empty ones leave no trace. */
  lemma ParamsPieces(piece: string, rest: string)
    requires '&' !in piece
    ensures Params(piece + "&" + rest) == (if piece == "" then [] else [Split(piece)]) + Params(rest)
    ensures Params(piece) == if piece == "" then [] else [Split(piece)]
  {
    hide Params, Split;
    PieceCut(piece, rest);
    ParamsStep(piece + "&" + rest);
    if piece == "" {
      ParamsNone();
    } else {
      LastPiece(piece);
      ParamsStep(piece);
      ParamsNone();
    }
  }

  lemma PieceCut(piece: string, rest: string)
    requires '&' !in piece
    ensures var t := piece + "&" + rest;
            t != "" && FindChar(t, '&') == |piece| && t[..|piece|] == piece && After(t) == rest
  {
    var t := piece + "&" + rest;
    assert t == piece + ("&" + rest);
    FindCharAt(piece, '&', "&" + rest);
    hide FindChar;
    assert t[..|piece|] == piece && t[|piece| + 1..] == rest;
  }

  lemma LastPiece(piece: string)
    requires '&' !in piece
    ensures FindChar(piece, '&') == |piece| && piece[..|piece|] == piece && After(piece) == ""
  {
    FindCharAt(piece, '&', "");
    assert piece + "" == piece;
  }
}

/** Chunk ids and body assembly: src/cache/chunk_manager.cpp and the loop of
    `handle_request` in src/proxy/request_handler.cpp. */
module Assembly {
  import opened Base
  import opened Text
  import opened RangeHeader

  type Key = string

  // ---------------------------------------------------------------- chunk ids

  /** `compute_chunk_id`. */
  function ChunkId(key: Key, offset: nat, chunkSize: nat): string
    requires chunkSize > 0
  {
    key + "_" + Dec(offset / chunkSize)
  }

  function IndexedId(key: Key, i: nat): string {
    key + "_" + Dec(i)
  }

  function MetaKey(key: Key): string {
    key + "#meta"
  }

  lemma ChunkIdOfIndex(key: Key, i: nat, chunkSize: nat)
    requires chunkSize > 0
    ensures ChunkId(key, i * chunkSize, chunkSize) == IndexedId(key, i)
  {
    DivUnique(i * chunkSize, i, 0, chunkSize);
  }

  lemma SplitUnique(k: string, d: string, k': string, d': string)
    requires k + "_" + d == k' + "_" + d' && '_' !in d && '_' !in d'
    ensures k == k' && d == d'
  {
    var s := k + "_" + d;
    assert s[|k|] == '_' && s[|k'|] == '_';
    assert s[|k| + 1..] == d && s[|k'| + 1..] == d';
    assert forall j :: |k| < j < |s| ==> s[j] == d[j - |k| - 1];
    assert forall j :: |k'| < j < |s| ==> s[j] == d'[j - |k'| - 1];
    assert |k| == |k'|;
    assert s[..|k|] == k && s[..|k'|] == k';
  }

  /** Chunk ids are injective in key and index. */
  lemma ChunkIdInjective(key: Key, i: nat, key': Key, i': nat)
    requires IndexedId(key, i) == IndexedId(key', i')
    ensures key == key' && i == i'
  {
    hide Dec, Value;
    DecValue(i);
    DecValue(i');
    SplitUnique(key, Dec(i), key', Dec(i'));
  }

  lemma ChunkIdIsNotMeta(key: Key, i: nat, key': Key)
    ensures IndexedId(key, i) != MetaKey(key')
  {
    DecValue(i);
    var s, t := IndexedId(key, i), MetaKey(key');
    assert s[|s| - 1] == Dec(i)[|Dec(i)| - 1];
    assert t[|t| - 1] == 'a';
  }

  lemma MetaKeyInjective(key: Key, key': Key)
    requires MetaKey(key) == MetaKey(key')
    ensures key == key'
  {
    assert key == MetaKey(key)[..|key|];
    assert key' == MetaKey(key')[..|key'|];
  }

  // ----------------------------------------------------------------- assembly

  function ChunkOf(position: nat, chunkSize: nat): nat
    requires chunkSize > 0
  {
    position / chunkSize
  }

  function SliceAt(content: Bytes, base: nat, size: nat): Bytes {
    content[Min(base, |content|)..Min(base + size, |content|)]
  }

  /** The i-th chunk of an object; empty past its end. */
  function Slice(content: Bytes, i: nat, chunkSize: nat): Bytes {
    SliceAt(content, i * chunkSize, chunkSize)
  }

  function Cut(data: Bytes, begin: int, end: int): Bytes {
    if 0 <= begin < end <= |data| then data[begin..end] else ""
  }

  /** The part of chunk `i` that belongs to the requested span. */
  function Trim(data: Bytes, i: nat, span: Span, chunkSize: nat): Bytes
    requires chunkSize > 0
  {
    var begin := if i == span.first / chunkSize then span.first % chunkSize else 0;
    var end := if i == span.last / chunkSize then span.last % chunkSize + 1 else |data|;
    Cut(data, begin, end)
  }

  /** The position body assembly has reached before chunk `i`. */
  function Reached(i: nat, span: Span, chunkSize: nat): (r: nat)
    ensures span.first <= r
  {
    Max(span.first, i * chunkSize)
  }

  lemma DivFacts(x: nat, c: nat)
    requires c > 0
    ensures x == x / c * c + x % c && x % c < c
  {
  }

  lemma ScaleLe(a: nat, b: nat, c: nat)
    requires a <= b
    ensures a * c <= b * c
  {
  }

  lemma ScaleNext(a: nat, c: nat)
    ensures (a + 1) * c == a * c + c
  {
  }

  /** Quotient and remainder are unique. */
  lemma DivUnique(x: nat, q: nat, r: nat, c: nat)
    requires c > 0 && x == q * c + r && r < c
    ensures x / c == q && x % c == r
  {
    DivFacts(x, c);
    var d := x / c;
    if d < q {
      ScaleNext(d, c);
      ScaleLe(d + 1, q, c);
    } else if q < d {
      ScaleNext(q, c);
      ScaleLe(q + 1, d, c);
    }
  }

  lemma DivOrder(a: nat, b: nat, c: nat)
    requires a <= b && c > 0
    ensures a / c <= b / c
  {
    DivFacts(a, c);
    DivFacts(b, c);
    var p, q := a / c, b / c;
    if q < p {
      ScaleNext(q, c);
      ScaleLe(q + 1, p, c);
    }
  }

  /** The bounds of chunk `i`, at offset `base`, in a span that covers it. */
  lemma ChunkBounds(i: nat, base: nat, span: Span, c: nat)
    requires c > 0 && base == i * c && span.first / c <= i <= span.last / c
    ensures base <= span.last && span.first < base + c
    ensures if i == span.first / c then span.first == base + span.first % c else span.first < base
    ensures if i == span.last / c then span.last == base + span.last % c && span.last < base + c else base + c <= span.last
  {
    var f, l := span.first / c, span.last / c;
    DivFacts(span.first, c);
    DivFacts(span.last, c);
    if f < i {
      ScaleNext(f, c);
      ScaleLe(f + 1, i, c);
    }
    if i < l {
      ScaleNext(i, c);
      ScaleLe(i + 1, l, c);
    }
  }

  lemma CutExtends(content: Bytes, base: nat, c: nat, span: Span, begin: int, end: int)
    requires span.first <= span.last < |content| && base <= span.last && span.first < base + c
    requires base + begin == Max(span.first, base)
    requires base + end == Min(span.last + 1, base + c)
    ensures content[span.first..base + begin] + Cut(SliceAt(content, base, c), begin, end) == content[span.first..base + end]
  {
    SliceCut(content, base, Min(base + c, |content|), begin, end);
    Adjoin(content, span.first, base + begin, base + end);
    assert 0 <= begin <= end && (begin == end ==> content[base + begin..base + end] == "");
  }

  lemma SliceCut(content: Bytes, base: nat, stop: nat, begin: nat, end: nat)
    requires begin <= end && base + end <= stop <= |content|
    ensures content[base..stop][begin..end] == content[base + begin..base + end]
  {
    var s, t := content[base..stop][begin..end], content[base + begin..base + end];
    assert |s| == |t| && forall j :: 0 <= j < |s| ==> s[j] == content[base..stop][begin + j] == content[base + begin + j] == t[j];
  }

  lemma Adjoin(content: Bytes, a: nat, b: nat, c: nat)
    requires a <= b <= c <= |content|
    ensures content[a..b] + content[b..c] == content[a..c]
  {
  }

  /** One round of the loop: appending the trimmed chunk `i` extends the body by
      exactly the next bytes of the object. */
  lemma TrimExtends(content: Bytes, i: nat, span: Span, c: nat)
    requires c > 0 && span.first <= span.last < |content|
    requires span.first / c <= i <= span.last / c
    ensures var from := Reached(i, span, c);
            var to := if i == span.last / c then span.last + 1 else Reached(i + 1, span, c);
            && from <= to <= |content|
            && content[span.first..from] + Trim(Slice(content, i, c), i, span, c) == content[span.first..to]
  {
    hide Cut, SliceAt;
    var base := i * c;
    ChunkBounds(i, base, span, c);
    ScaleNext(i, c);
    var begin := Max(span.first, base) - base;
    var end := Min(span.last + 1, base + c) - base;
    SliceLength(content, base, c);
    CutExtends(content, base, c, span, begin, end);
  }

  lemma SliceLength(content: Bytes, base: nat, c: nat)
    ensures |SliceAt(content, base, c)| == Min(base + c, |content|) - Min(base, |content|)
  {
  }

  lemma ReachedStart(span: Span, c: nat)
    requires c > 0
    ensures Reached(span.first / c, span, c) == span.first
  {
    DivFacts(span.first, c);
  }

  /** Body assembly in `handle_request`, over the chunks `fetch` delivers; `None`
      is the 502 of a chunk that could not be fetched.  When every chunk fetched
      is the object's own slice the body is exactly the requested bytes. */
  method Assemble(ghost content: Bytes, fetch: nat -> Option<Bytes>, span: Span, chunkSize: nat)
    returns (body: Option<Bytes>)
    requires chunkSize > 0 && span.first <= span.last < |content|
    requires forall i: nat :: fetch(i).Some? ==> fetch(i).value == Slice(content, i, chunkSize)
    ensures body.Some? ==> body.value == content[span.first..span.last + 1]
    ensures body == None <==> exists i: nat :: span.first / chunkSize <= i <= span.last / chunkSize && fetch(i) == None
  {
    hide Reached, Trim, Slice;
    var first, last := span.first / chunkSize, span.last / chunkSize;
    var acc := "";
    DivOrder(span.first, span.last, chunkSize);
    ReachedStart(span, chunkSize);
    var idx := first;
    while idx <= last
      invariant first <= idx <= last + 1
      invariant idx <= last ==> Reached(idx, span, chunkSize) <= |content| && acc == content[span.first..Reached(idx, span, chunkSize)]
      invariant idx == last + 1 ==> acc == content[span.first..span.last + 1]
      invariant forall i: nat :: first <= i < idx ==> fetch(i).Some?
    {
      var data := fetch(idx);
      if data == None {
        return None;
      }
      TrimExtends(content, idx, span, chunkSize);
      acc := acc + Trim(data.value, idx, span, chunkSize);
      idx := idx + 1;
    }
    body := Some(acc);
  }

  /** The names as the source spells them. */
  lemma IdsSpelled()
    ensures IndexedId("b/k", 12) == "b/k_12" && MetaKey("b/k") == "b/k#meta"
  {
    assert Dec(12) == Dec(1) + "2" && Dec(1) == "1";
  }
}

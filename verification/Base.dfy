/** Types and sequence facts shared by every component. */
module Base {
  datatype Option<+T> = None | Some(value: T)

  /** A byte string: one `char` per octet, as the C++ code uses `std::string`
      and `std::vector<uint8_t>` interchangeably. */
  type Bytes = string

  /** 2^64, the modulus of the source's `uint64_t`. */
  const TWO64: int := 0x1_0000_0000_0000_0000

  function Min(a: int, b: int): int {
    if a <= b then a else b
  }

  function Max(a: int, b: int): int {
    if a <= b then b else a
  }

  ghost predicate NoDup<T>(s: seq<T>) {
    forall i, j :: 0 <= i < j < |s| ==> s[i] != s[j]
  }

  /** The set of elements of a sequence. */
  function Elements<T>(s: seq<T>): set<T> {
    set x | x in s
  }

  lemma {:induction false} NoDupCardinality<T>(s: seq<T>)
    requires NoDup(s)
    ensures |Elements(s)| == |s|
  {
    if s != [] {
      var rest := s[1..];
      NoDupCardinality(rest);
      assert s[0] !in rest;
      assert Elements(s) == {s[0]} + Elements(rest);
    }
  }
}

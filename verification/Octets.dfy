/** Octet strings and big-endian integers, shared by the binary protocols. */
module Octets {
  import opened Base

  type Octet = n: int | 0 <= n < 256
  type Octets = seq<Octet>

  const TWO16: int := 0x1_0000
  const TWO32: int := 0x1_0000_0000

  function U16(n: nat): (r: Octets)
    requires n < TWO16
    ensures |r| == 2 && N16(r) == n
  {
    [n / 0x100, n % 0x100]
  }

  function N16(s: Octets): (n: nat)
    requires |s| == 2
    ensures n < TWO16
  {
    s[0] as int * 0x100 + s[1] as int
  }

  function U32(n: nat): (r: Octets)
    requires n < TWO32
    ensures |r| == 4
  {
    U16(n / TWO16) + U16(n % TWO16)
  }

  function N32(s: Octets): (n: nat)
    requires |s| == 4
    ensures n < TWO32
  {
    N16(s[..2]) * TWO16 + N16(s[2..])
  }

  function U64(n: nat): (r: Octets)
    requires n < TWO64
    ensures |r| == 8
  {
    U32(n / TWO32) + U32(n % TWO32)
  }

  function N64(s: Octets): (n: nat)
    requires |s| == 8
    ensures n < TWO64
  {
    N32(s[..4]) * TWO32 + N32(s[4..])
  }

  /** Reading back what was written. */
  lemma Inverse32(n: nat)
    requires n < TWO32
    ensures N32(U32(n)) == n
  {
    var s := U32(n);
    assert s[..2] == U16(n / TWO16) && s[2..] == U16(n % TWO16);
  }

  lemma Inverse64(n: nat)
    requires n < TWO64
    ensures N64(U64(n)) == n
  {
    var s := U64(n);
    assert s[..4] == U32(n / TWO32) && s[4..] == U32(n % TWO32);
    Inverse32(n / TWO32);
    Inverse32(n % TWO32);
  }

  /** Network order, octet by octet. */
  lemma PrintedOctets(n: nat)
    ensures n < TWO16 ==> U16(n) == [n / 0x100, n % 0x100]
    ensures n < TWO32 ==> U32(n) == [n / 0x100_0000, n / 0x1_0000 % 0x100, n / 0x100 % 0x100, n % 0x100]
  {
    if n < TWO32 {
      var hi, lo := n / TWO16, n % TWO16;
      assert hi / 0x100 == n / 0x100_0000;
      assert hi % 0x100 == n / 0x1_0000 % 0x100;
      assert lo / 0x100 == n / 0x100 % 0x100;
      assert lo % 0x100 == n % 0x100;
    }
  }

  lemma PrintedOctets64(n: nat)
    requires n < TWO64
    ensures var hi, lo := n / TWO32, n % TWO32;
            U64(n) == [hi / 0x100_0000, hi / 0x1_0000 % 0x100, hi / 0x100 % 0x100, hi % 0x100,
                       lo / 0x100_0000, lo / 0x1_0000 % 0x100, lo / 0x100 % 0x100, lo % 0x100]
  {
    PrintedOctets(n / TWO32);
    PrintedOctets(n % TWO32);
    hide U32;
  }
}

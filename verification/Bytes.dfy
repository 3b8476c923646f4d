/** Machine integers and their little-endian byte images (the i686 build is little-endian). */
module Bytes {
  type u8 = x: int | 0 <= x < 0x100
  type u16 = x: int | 0 <= x < 0x1_0000
  type u32 = x: int | 0 <= x < 0x1_0000_0000
  type u64 = x: int | 0 <= x < 0x1_0000_0000_0000_0000

  const TWO32 := 0x1_0000_0000
  const TWO64 := 0x1_0000_0000_0000_0000

  function Pow256(n: nat): (r: nat)
    ensures r >= 1
  {
    if n == 0 then 1 else 256 * Pow256(n - 1)
  }

  /** The `n` low bytes of `x` in memory order. */
  function LE(x: nat, n: nat): (r: seq<u8>)
    ensures |r| == n
  {
    if n == 0 then [] else [x % 256] + LE(x / 256, n - 1)
  }

  /** The value of bytes read in memory order. */
  function FromLE(b: seq<u8>): (r: nat)
    ensures r < Pow256(|b|)
  {
    if b == [] then 0 else b[0] + 256 * FromLE(b[1..])
  }

  /** The value of bytes read in network order. */
  function FromBE(b: seq<u8>): (r: nat)
    ensures r < Pow256(|b|)
  {
    if b == [] then 0 else FromBE(b[..|b| - 1]) * 256 + b[|b| - 1]
  }

  function BE(x: nat, n: nat): (r: seq<u8>)
    ensures |r| == n
  {
    if n == 0 then [] else BE(x / 256, n - 1) + [x % 256]
  }

  lemma {:induction false} FromLEInvertsLE(x: nat, n: nat)
    requires x < Pow256(n)
    ensures FromLE(LE(x, n)) == x
  {
    if n > 0 {
      FromLEInvertsLE(x / 256, n - 1);
      assert LE(x, n)[1..] == LE(x / 256, n - 1);
    }
  }

  lemma {:induction false} LEInvertsFromLE(b: seq<u8>)
    ensures LE(FromLE(b), |b|) == b
  {
    if b != [] {
      LEInvertsFromLE(b[1..]);
      assert FromLE(b) / 256 == FromLE(b[1..]) && FromLE(b) % 256 == b[0];
    }
  }

  lemma Reassociate<T>(a: seq<T>, b: seq<T>, c: seq<T>)
    ensures (a + b) + c == a + (b + c)
  {
  }

  function Reverse(b: seq<u8>): (r: seq<u8>)
    ensures |r| == |b|
  {
    if b == [] then [] else Reverse(b[1..]) + [b[0]]
  }

  lemma {:induction false} ReverseReadsBE(b: seq<u8>)
    ensures FromLE(Reverse(b)) == FromBE(b)
  {
    if b != [] {
      ReverseReadsBE(b[..|b| - 1]);
      ReverseSnoc(b[..|b| - 1], b[|b| - 1]);
      assert b == b[..|b| - 1] + [b[|b| - 1]];
    }
  }

  lemma {:induction false} ReverseSnoc(b: seq<u8>, x: u8)
    ensures Reverse(b + [x]) == [x] + Reverse(b)
  {
    if b == [] {
      assert Reverse([x]) == Reverse([]) + [x];
    } else {
      ReverseSnoc(b[1..], x);
      assert (b + [x])[1..] == b[1..] + [x];
    }
  }

  lemma {:induction false} ReverseTwice(b: seq<u8>)
    ensures Reverse(Reverse(b)) == b
  {
    if b != [] {
      ReverseTwice(b[1..]);
      ReverseSnoc(Reverse(b[1..]), b[0]);
    }
  }

  lemma {:induction false} BEIsReversedLE(x: nat, n: nat)
    ensures BE(x, n) == Reverse(LE(x, n))
  {
    if n > 0 {
      BEIsReversedLE(x / 256, n - 1);
      assert LE(x, n)[1..] == LE(x / 256, n - 1);
    }
  }

  /**
   Bytes read in memory order, packed in network order and read again in memory order
   give their network-order value: the client's "swipe endianness" step.
   */
  lemma SwapGivesNetworkOrder(b: seq<u8>)
    ensures FromLE(BE(FromLE(b), |b|)) == FromBE(b)
  {
    BEIsReversedLE(FromLE(b), |b|);
    LEInvertsFromLE(b);
    ReverseReadsBE(b);
  }

  lemma FourBytes()
    ensures Pow256(4) == TWO32
  {
    assert Pow256(2) == 65536;
  }

  function FromBEWord(b: seq<u8>): (r: u32)
    requires |b| == 4
    ensures r == FromBE(b)
  {
    FourBytes();
    FromBE(b)
  }

  /** `htonl` and `ntohl` on a little-endian machine. */
  function Htonl(x: u32): (r: u32)
  {
    FromBEWord(LE(x, 4))
  }

  lemma HtonlTwice(x: u32)
    ensures Htonl(Htonl(x)) == x
  {
    var b := LE(x, 4);
    FourBytes();
    FromLEInvertsLE(x, 4);
    LEInvertsFromLE(Reverse(b));
    ReverseReadsBE(b);
    ReverseTwice(b);
    ReverseReadsBE(Reverse(b));
  }

  lemma HtonlInjective(x: u32, y: u32)
    ensures Htonl(x) == Htonl(y) <==> x == y
  {
    HtonlTwice(x);
    HtonlTwice(y);
  }

  /** The four bytes of a word in reverse order. */
  lemma HtonlBytes(a: u8, b: u8, c: u8, d: u8)
    ensures Htonl(a + 0x100 * b + 0x1_0000 * c + 0x100_0000 * d) == d + 0x100 * c + 0x1_0000 * b + 0x100_0000 * a
  {
    var x := a + 0x100 * b + 0x1_0000 * c + 0x100_0000 * d;
    LEOfWord(a, b, c, d);
    assert [a, b, c, d][..3] == [a, b, c] && [a, b, c][..2] == [a, b] && [a, b][..1] == [a] && [a][..0] == [];
    assert FromBE([a]) == a;
    assert FromBE([a, b]) == a * 256 + b;
    assert FromBE([a, b, c]) == FromBE([a, b]) * 256 + c;
    assert FromBE(LE(x, 4)) == FromBE([a, b, c]) * 256 + d;
  }

  /** In memory the lowest byte comes first. */
  lemma LEOfWord(a: u8, b: u8, c: u8, d: u8)
    ensures LE(a + 0x100 * b + 0x1_0000 * c + 0x100_0000 * d, 4) == [a, b, c, d]
  {
    var z: nat := d;
    var y: nat := c + 0x100 * z;
    var x: nat := b + 0x100 * y;
    assert a + 0x100 * b + 0x1_0000 * c + 0x100_0000 * d == a + 0x100 * x;
    LECons(a, x, 3);
    LECons(b, y, 2);
    LECons(c, z, 1);
    LECons(d, 0, 0);
  }

  lemma LECons(a: u8, x: nat, n: nat)
    ensures LE(a + 0x100 * x, n + 1) == [a] + LE(x, n)
  {
    assert (a + 0x100 * x) % 256 == a && (a + 0x100 * x) / 256 == x;
  }
}

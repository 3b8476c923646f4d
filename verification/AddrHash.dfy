/** Flow keys and their hash: `addr_hash.c`. */
module AddrHash {
  import opened Bytes

  /** The addresses are `in_addr.s_addr` words: network-order bytes read as an i686 integer. */
  datatype AddrPair = AddrPair(protocol: u16, srcPort: u16, src: u32, dstPort: u16, dst: u32)

  const HASH_TABLE_SIZE: nat := 4096

  /** `compare`: the five key fields, one by one. */
  predicate Compare(a: AddrPair, b: AddrPair)
  {
    && a.src == b.src && a.srcPort == b.srcPort
    && a.dst == b.dst && a.dstPort == b.dstPort
    && a.protocol == b.protocol
  }

  /** The sum of the four bytes of a word. */
  function HashUint32(n: u32): (h: int)
    ensures 0 <= h <= 4 * 255
  {
    n % 0x100 + n / 0x100 % 0x100 + n / 0x1_0000 % 0x100 + n / 0x100_0000
  }

  function Hash(ap: AddrPair): (h: int)
    ensures 0 <= h < 0xFFF
  {
    var h1 := (HashUint32(ap.src) + ap.srcPort) % 0xFFF;
    (h1 + HashUint32(ap.dst) + ap.dstPort) % 0xFFF
  }

  /** The table may use key equality for `compare`, and every key has a bucket. */
  lemma KeyFunctionsFit(a: AddrPair, b: AddrPair)
    ensures Compare(a, b) <==> a == b
    ensures 0 <= Hash(a) < HASH_TABLE_SIZE
  {
  }

  lemma HashUint32Bytes(a: u8, b: u8, c: u8, d: u8)
    ensures HashUint32(a + 0x100 * b + 0x1_0000 * c + 0x100_0000 * d) == a + b + c + d
  {
    var z: nat := c + 0x100 * d;
    var y: nat := b + 0x100 * z;
    var x: nat := a + 0x100 * y;
    LowByte(a, y);
    LowByte(b, z);
    LowByte(c, d);
    assert x / 0x1_0000 == z && x / 0x100_0000 == d;
  }

  lemma LowByte(a: u8, x: nat)
    ensures (a + 0x100 * x) % 0x100 == a && (a + 0x100 * x) / 0x100 == x
  {
  }

  /** The hash is the sum of all address bytes and both ports, so it does not tell the two directions apart. */
  lemma HashIsSum(ap: AddrPair)
    ensures Hash(ap) == (HashUint32(ap.src) + ap.srcPort + HashUint32(ap.dst) + ap.dstPort) % 4095
    ensures Hash(AddrPair(ap.protocol, ap.dstPort, ap.dst, ap.srcPort, ap.src)) == Hash(ap)
  {
    hide HashUint32;
    ModTwice(HashUint32(ap.src) + ap.srcPort, HashUint32(ap.dst) + ap.dstPort);
    ModTwice(HashUint32(ap.dst) + ap.dstPort, HashUint32(ap.src) + ap.srcPort);
  }

  lemma ModTwice(x: nat, y: nat)
    ensures (x % 0xFFF + y) % 0xFFF == (x + y) % 0xFFF
  {
  }
}

/** The 38-byte record that the monitor sends for each approved flow and the client unpacks. */
module Report {
  import opened Bytes
  import opened Flows

  const STRUCT_SIZE: nat := 38

  /** A `time_t` is a 32-bit word on the build machine; the client reads it as unsigned. */
  function Time32(t: int): u32
  {
    t % TWO32
  }

  /** The fields in the order in which `construct_MQTT_msg` copies them. */
  function EncodeOne(e: Entry): (b: seq<u8>)
    ensures |b| == STRUCT_SIZE
  {
    LE(e.key.src, 4) + LE(e.key.srcPort, 2) + LE(e.key.dst, 4) + LE(e.key.dstPort, 2) + LE(e.key.protocol, 2)
    + LE(e.flow.totalSent, 8) + LE(e.flow.totalRecv, 8)
    + LE(Time32(e.flow.createTime), 4) + LE(Time32(e.flow.lastUpdate), 4)
  }

  function EncodeAll(es: seq<Entry>): (b: seq<u8>)
    ensures |b| == STRUCT_SIZE * |es|
  {
    if es == [] then [] else EncodeAll(es[..|es| - 1]) + EncodeOne(es[|es| - 1])
  }

  /** What the client makes of a record, with its addresses in host order. */
  datatype Conn = Conn(
    outerIp: u32, outerPort: u16, innerIp: u32, innerPort: u16, protocol: u16,
    recv: u64, send: u64, create: u32, end: u32)

  function Word(b: seq<u8>, at: nat, n: nat): (w: nat)
    requires at + n <= |b|
    ensures w < Pow256(n)
  {
    FromLE(b[at..at + n])
  }

  /** The client's byte swap: packed big-endian, unpacked little-endian. */
  function Swap(w: u32): u32
  {
    FourBytes();
    FromLE(BE(w, 4))
  }

  lemma Widths()
    ensures Pow256(2) == 0x1_0000 && Pow256(4) == TWO32 && Pow256(8) == TWO64
  {
    assert Pow256(3) == 256 * 0x1_0000;
    assert Pow256(5) == 256 * Pow256(4);
    assert Pow256(6) == 256 * Pow256(5);
    assert Pow256(7) == 256 * Pow256(6);
  }

  function DecodeOne(b: seq<u8>): Conn
    requires |b| == STRUCT_SIZE
  {
    Widths();
    Conn(Swap(Word(b, 0, 4)), Word(b, 4, 2), Swap(Word(b, 6, 4)), Word(b, 10, 2), Word(b, 12, 2),
         Word(b, 14, 8), Word(b, 22, 8), Word(b, 30, 4), Word(b, 34, 4))
  }

  /** All whole records of a message; a shorter tail makes the client's `unpack` raise. */
  function DecodeAll(b: seq<u8>): seq<Conn>
  {
    if |b| < STRUCT_SIZE then [] else [DecodeOne(b[..STRUCT_SIZE])] + DecodeAll(b[STRUCT_SIZE..])
  }

  /** The report of a flow, said directly in terms of the flow. */
  function ConnOf(e: Entry): Conn
  {
    Conn(Htonl(e.key.src), e.key.srcPort, Htonl(e.key.dst), e.key.dstPort, e.key.protocol,
         e.flow.totalSent, e.flow.totalRecv, Time32(e.flow.createTime), Time32(e.flow.lastUpdate))
  }

  function ConnsOf(es: seq<Entry>): seq<Conn>
  {
    if es == [] then [] else ConnsOf(es[..|es| - 1]) + [ConnOf(es[|es| - 1])]
  }

  lemma {:induction false} ConnsAt(es: seq<Entry>, i: nat)
    requires i < |es|
    ensures |ConnsOf(es)| == |es| && ConnsOf(es)[i] == ConnOf(es[i])
  {
    hide ConnOf;
    var n := |es| - 1;
    if i < n {
      ConnsAt(es[..n], i);
    } else if n > 0 {
      ConnsAt(es[..n], 0);
    }
  }

  lemma SwapIsHtonl(x: u32)
    ensures Swap(x) == Htonl(x)
  {
    FourBytes();
    FromLEInvertsLE(x, 4);
    SwapGivesNetworkOrder(LE(x, 4));
  }

  lemma WordAt(before: seq<u8>, x: nat, n: nat, after: seq<u8>)
    requires x < Pow256(n)
    ensures Word(before + LE(x, n) + after, |before|, n) == x
  {
    assert (before + LE(x, n) + after)[|before|..|before| + n] == LE(x, n);
    FromLEInvertsLE(x, n);
  }

  lemma DecodeInvertsEncodeOne(e: Entry)
    ensures DecodeOne(EncodeOne(e)) == ConnOf(e)
  {
    Widths();
    hide LE, Pow256, FromLE, BE, Htonl, Swap, Time32;
    var b := EncodeOne(e);
    var k, f := e.key, e.flow;
    var c, l := Time32(f.createTime), Time32(f.lastUpdate);
    assert Word(b, 0, 4) == k.src by {
      assert b == [] + LE(k.src, 4) + b[4..];
      WordAt([], k.src, 4, b[4..]);
    }
    assert Word(b, 4, 2) == k.srcPort by {
      assert b == b[..4] + LE(k.srcPort, 2) + b[6..];
      WordAt(b[..4], k.srcPort, 2, b[6..]);
    }
    assert Word(b, 6, 4) == k.dst by {
      assert b == b[..6] + LE(k.dst, 4) + b[10..];
      WordAt(b[..6], k.dst, 4, b[10..]);
    }
    assert Word(b, 10, 2) == k.dstPort by {
      assert b == b[..10] + LE(k.dstPort, 2) + b[12..];
      WordAt(b[..10], k.dstPort, 2, b[12..]);
    }
    assert Word(b, 12, 2) == k.protocol by {
      assert b == b[..12] + LE(k.protocol, 2) + b[14..];
      WordAt(b[..12], k.protocol, 2, b[14..]);
    }
    assert Word(b, 14, 8) == f.totalSent by {
      assert b == b[..14] + LE(f.totalSent, 8) + b[22..];
      WordAt(b[..14], f.totalSent, 8, b[22..]);
    }
    assert Word(b, 22, 8) == f.totalRecv by {
      assert b == b[..22] + LE(f.totalRecv, 8) + b[30..];
      WordAt(b[..22], f.totalRecv, 8, b[30..]);
    }
    assert Word(b, 30, 4) == c by {
      assert b == b[..30] + LE(c, 4) + b[34..];
      WordAt(b[..30], c, 4, b[34..]);
    }
    assert Word(b, 34, 4) == l by {
      assert b == b[..34] + LE(l, 4) + [];
      WordAt(b[..34], l, 4, []);
    }
    SwapIsHtonl(k.src);
    SwapIsHtonl(k.dst);
  }

  lemma {:induction false} DecodeConcat(es: seq<Entry>, tail: seq<u8>)
    ensures DecodeAll(EncodeAll(es) + tail) == ConnsOf(es) + DecodeAll(tail)
  {
    hide EncodeOne, DecodeOne, ConnOf;
    if es == [] {
      assert EncodeAll(es) + tail == tail;
    } else {
      var n := |es| - 1;
      var one := EncodeOne(es[n]);
      assert EncodeAll(es) + tail == EncodeAll(es[..n]) + (one + tail);
      DecodeConcat(es[..n], one + tail);
      assert (one + tail)[..STRUCT_SIZE] == one && (one + tail)[STRUCT_SIZE..] == tail;
      DecodeInvertsEncodeOne(es[n]);
    }
  }

  /** The client recovers exactly the reported flows, in order. */
  lemma DecodeInvertsEncode(es: seq<Entry>)
    ensures DecodeAll(EncodeAll(es)) == ConnsOf(es)
  {
    DecodeConcat(es, []);
    assert EncodeAll(es) + [] == EncodeAll(es);
  }

  /** The times survive the trip whenever they fit the word the client reads. */
  lemma TimesSurvive(e: Entry)
    requires 0 <= e.flow.createTime < TWO32 && 0 <= e.flow.lastUpdate < TWO32
    ensures DecodeOne(EncodeOne(e)).create == e.flow.createTime && DecodeOne(EncodeOne(e)).end == e.flow.lastUpdate
  {
    DecodeInvertsEncodeOne(e);
  }

  /** Where the fields of a record lie; every field has its lowest byte first. */
  lemma RecordLayout(e: Entry)
    ensures var b := EncodeOne(e);
            && |b| == 38
            && b[0..4] == LE(e.key.src, 4) && b[4..6] == LE(e.key.srcPort, 2)
            && b[6..10] == LE(e.key.dst, 4) && b[10..12] == LE(e.key.dstPort, 2) && b[12..14] == LE(e.key.protocol, 2)
            && b[14..22] == LE(e.flow.totalSent, 8) && b[22..30] == LE(e.flow.totalRecv, 8)
            && b[30..34] == LE(e.flow.createTime % 0x1_0000_0000, 4) && b[34..38] == LE(e.flow.lastUpdate % 0x1_0000_0000, 4)
  {
    hide LE;
  }

  /** What the client makes of 38 bytes: addresses with their highest byte first, all else with the lowest first. */
  lemma RecordRead(b: seq<u8>)
    requires |b| == STRUCT_SIZE
    ensures var c := DecodeOne(b);
            && c.outerIp == FromBE(b[0..4]) && c.outerPort == FromLE(b[4..6])
            && c.innerIp == FromBE(b[6..10]) && c.innerPort == FromLE(b[10..12]) && c.protocol == FromLE(b[12..14])
            && c.recv == FromLE(b[14..22]) && c.send == FromLE(b[22..30])
            && c.create == FromLE(b[30..34]) && c.end == FromLE(b[34..38])
  {
    hide FromLE, BE, FromBE;
    SwapGivesNetworkOrder(b[0..4]);
    SwapGivesNetworkOrder(b[6..10]);
  }
}

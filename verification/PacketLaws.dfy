/** What the classification of a packet gives, said in the fields of the packet and of its key. */
module PacketLaws {
  import opened Wrappers
  import opened Bytes
  import opened AddrHash
  import opened Packets
  import NetFilter

  /** The ports of a packet; only TCP and UDP have any. */
  function Ports(p: Packet): (u16, u16)
  {
    if p.proto in {6, 17} then (p.sport, p.dport) else (0, 0)
  }

  /** Ephemeral ports, from 49152 on, are all recorded as 0. */
  function Recorded(port: u16): u16
  {
    if port < 49152 then port else 0
  }

  predicate OwnAddr(cfg: Config, addr: u32)
  {
    cfg.haveIpAddr && addr == cfg.ifIpAddr
  }

  /** The word of the address, as it is stored, lies in the range that the macro tests. */
  predicate InMulticastRange(addr: u32)
  {
    0xe000_0000 <= addr <= 0xefff_ffff
  }

  predicate Inside(cfg: Config, addr: u32)
  {
    NetFilter.And(addr, cfg.filterMask) == cfg.filterNet
  }

  /** Whether the sender becomes the source of the flow; the hardware decides, then own addresses, then the addresses. */
  predicate SenderIsSource(p: Packet, hwDir: int, cfg: Config)
  {
    if cfg.netfilter then Inside(cfg, p.src)
    else
      || hwDir == 1
      || (hwDir != 0 && (OwnAddr(cfg, p.src) || (!OwnAddr(cfg, p.dst) && !InMulticastRange(p.dst) && p.src >= p.dst)))
  }

  /** Whether the packet has no direction at all: both ends on one side of the net filter, or junk. */
  predicate NoDirection(p: Packet, hwDir: int, cfg: Config)
  {
    if cfg.netfilter then Inside(cfg, p.src) == Inside(cfg, p.dst)
    else
      && cfg.promiscuousButChoosy && hwDir != 0 && hwDir != 1
      && !OwnAddr(cfg, p.src) && !OwnAddr(cfg, p.dst) && !InMulticastRange(p.dst)
  }

  /** A port list is read up to its terminator, and port 0 is never listed. */
  lemma PortListed(a: seq<int>, b: seq<int>, port: int)
    requires -1 !in a && port != -1
    ensures InPortList(a, port) <==> port != 0 && port in a
    ensures InPortList(a + [-1] + b, port) <==> port != 0 && port in a
  {
    var list := a + [-1] + b;
    assert list[|a|] == -1;
    if port != 0 && port in a {
      var i :| 0 <= i < |a| && a[i] == port;
      assert list[i] == port;
    }
  }

  /** So is the list of blocked protocols. */
  lemma ProtocolBlocked(a: seq<int>, b: seq<int>, proto: int)
    requires -1 !in a && proto != -1
    ensures Blocked(a + [-1] + b, proto) <==> proto in a
  {
    var list := a + [-1] + b;
    assert list[|a|] == -1;
    if proto in a {
      var i :| 0 <= i < |a| && a[i] == proto;
      assert list[i] == proto;
    }
  }

  /**
   The whole classification.  The key has the protocol, and the two ends of the packet with
   the sender first or last; the second port is 0 if it is ephemeral.  A packet is dropped
   exactly if its protocol is blocked, if it has no direction, if the source would be the
   router 172.16.64.31, or if a port is listed, unless the second one is ephemeral.  It counts
   as outgoing exactly if the hardware, the net filter or the own address of its sender says so.
   */
  lemma ClassifyInFields(p: Packet, hwDir: int, cfg: Config)
    ensures var (sp, dp) := Ports(p);
            var first := SenderIsSource(p, hwDir, cfg);
            var (src, srcPort, dst, dstPort) := if first then (p.src, sp, p.dst, dp) else (p.dst, dp, p.src, sp);
            var o := Classify(p, hwDir, cfg);
            && (o.None? <==>
                  || Blocked(cfg.blockProtocols, p.proto)
                  || NoDirection(p, hwDir, cfg)
                  || src == 172 + 16 * 0x100 + 64 * 0x1_0000 + 31 * 0x100_0000
                  || (dstPort < 49152 && (InPortList(cfg.portList, srcPort) || InPortList(cfg.portList, dstPort))))
            && (o.Some? ==>
                  && o.value.key == AddrPair(p.proto, srcPort, src, Recorded(dstPort), dst)
                  && (o.value.outgoing <==>
                        first && (cfg.netfilter || hwDir == 1 || (hwDir != 0 && OwnAddr(cfg, p.src)))))
  {
    hide InPortList, Blocked, NetFilter.And;
  }

  /**
   Ephemeral ports at the far end do not tell flows apart: replacing one by another changes
   nothing, whichever end of the packet is the far one.
   */
  lemma EphemeralPortsAreOne(p: Packet, hwDir: int, cfg: Config, x: u16)
    requires x >= 49152 && p.src != p.dst && Classify(p, hwDir, cfg).Some?
    ensures var o := Classify(p, hwDir, cfg);
            && (o.value.key.src == p.src && p.dport >= 49152 ==> Classify(p.(dport := x), hwDir, cfg) == o)
            && (o.value.key.src == p.dst && p.sport >= 49152 ==> Classify(p.(sport := x), hwDir, cfg) == o)
  {
    hide Classify, InPortList, Blocked, NetFilter.And;
    ClassifyInFields(p, hwDir, cfg);
    ClassifyInFields(p.(dport := x), hwDir, cfg);
    ClassifyInFields(p.(sport := x), hwDir, cfg);
  }

  /** Other ports do: with both ports below 49152 the key gives back the two ends of the packet. */
  lemma KeyNamesBothEnds(p: Packet, hwDir: int, cfg: Config)
    requires p.proto in {6, 17} && p.sport < 49152 && p.dport < 49152 && Classify(p, hwDir, cfg).Some?
    ensures Classify(p, hwDir, cfg).value.key in {
              AddrPair(p.proto, p.sport, p.src, p.dport, p.dst), AddrPair(p.proto, p.dport, p.dst, p.sport, p.src) }
  {
    hide Classify, InPortList, Blocked, NetFilter.And;
    ClassifyInFields(p, hwDir, cfg);
  }

  /** With a prefix filter the source of a flow is inside the net and the other end outside; packets from inside go out. */
  lemma InsideHostIsSource(p: Packet, hwDir: int, cfg: Config, c: u32, n: nat)
    requires cfg.netfilter && n <= 32
    requires cfg.filterMask == NetFilter.PrefixMask(n) && cfg.filterNet == NetFilter.And(c, NetFilter.PrefixMask(n))
    requires Classify(p, hwDir, cfg).Some?
    ensures var o := Classify(p, hwDir, cfg).value;
            var top := NetFilter.TopBits(c, n);
            && NetFilter.TopBits(o.key.src, n) == top && NetFilter.TopBits(o.key.dst, n) != top
            && (o.outgoing <==> o.key.src == p.src) && (o.outgoing <==> NetFilter.TopBits(p.src, n) == top)
  {
    hide Classify, InPortList, Blocked, NetFilter.And, NetFilter.PrefixMask, NetFilter.TopBits;
    ClassifyInFields(p, hwDir, cfg);
    NetFilter.PrefixFilterMatches(p.src, c, n);
    NetFilter.PrefixFilterMatches(p.dst, c, n);
  }
}

/** How `handle_ip_packet` turns a packet into a flow key, or drops it. */
module Packets {
  import opened Wrappers
  import opened Bytes
  import opened AddrHash
  import NetFilter

  /** The header fields that are read; ports are those of the TCP/UDP header, if there is one. */
  datatype Packet = Packet(proto: u8, src: u32, dst: u32, sport: u16, dport: u16, len: u16)

  /** The options and interface settings that classification consults. */
  datatype Config = Config(
    netfilter: bool, filterNet: u32, filterMask: u32,
    haveIpAddr: bool, ifIpAddr: u32, promiscuousButChoosy: bool,
    blockProtocols: seq<int>, portList: seq<int>)

  const IPPROTO_TCP := 6
  const IPPROTO_UDP := 17
  const ROUTER_ADDR: u32 := 524292268
  const FIRST_DYNAMIC_PORT := 49152

  /** A key and the side on which the totals are kept. */
  datatype Oriented = Oriented(key: AddrPair, outgoing: bool)

  function AssignAddrPair(p: Packet, flip: bool): AddrPair
  {
    var ports := p.proto == IPPROTO_TCP || p.proto == IPPROTO_UDP;
    var sport, dport := if ports then p.sport else 0, if ports then p.dport else 0;
    if flip then AddrPair(p.proto, dport, p.dst, sport, p.src)
    else AddrPair(p.proto, sport, p.src, dport, p.dst)
  }

  /** `IN_MULTICAST`, which the code applies to the word in network order. */
  predicate InMulticast(addr: u32)
  {
    addr / 0x1000_0000 == 0xe
  }

  predicate InNet(cfg: Config, addr: u32)
  {
    NetFilter.InFilterNet(addr, cfg.filterNet, cfg.filterMask)
  }

  function Orient(p: Packet, hwDir: int, cfg: Config): Option<Oriented>
  {
    if !cfg.netfilter then
      if hwDir == 1 then Some(Oriented(AssignAddrPair(p, false), true))
      else if hwDir == 0 then Some(Oriented(AssignAddrPair(p, true), false))
      else if cfg.haveIpAddr && p.src == cfg.ifIpAddr then Some(Oriented(AssignAddrPair(p, false), true))
      else if cfg.haveIpAddr && p.dst == cfg.ifIpAddr then Some(Oriented(AssignAddrPair(p, true), false))
      else if InMulticast(p.dst) then Some(Oriented(AssignAddrPair(p, true), false))
      else if cfg.promiscuousButChoosy then None
      else if p.src < p.dst then Some(Oriented(AssignAddrPair(p, true), false))
      else Some(Oriented(AssignAddrPair(p, false), false))
    else if InNet(cfg, p.src) && !InNet(cfg, p.dst) then Some(Oriented(AssignAddrPair(p, false), true))
    else if InNet(cfg, p.dst) && !InNet(cfg, p.src) then Some(Oriented(AssignAddrPair(p, true), false))
    else None
  }

  /** `in_port_list`: port 0 is never listed, and -1 ends the list. */
  predicate InPortList(list: seq<int>, port: int)
  {
    port != 0 && exists i :: 0 <= i < |list| && list[i] == port && forall j :: 0 <= j < i ==> list[j] != -1
  }

  /** The list of blocked protocols ends at its first -1. */
  predicate Blocked(list: seq<int>, proto: int)
  {
    exists i :: 0 <= i < |list| && list[i] == proto && forall j :: 0 <= j <= i ==> list[j] != -1
  }

  /** The router filter, the rewriting of dynamic ports and the port filter, in that order. */
  function Admit(key: AddrPair, portList: seq<int>): Option<AddrPair>
  {
    if key.src == ROUTER_ADDR then None
    else if key.dstPort >= FIRST_DYNAMIC_PORT then Some(key.(dstPort := 0))
    else if InPortList(portList, key.srcPort) || InPortList(portList, key.dstPort) then None
    else Some(key)
  }

  function Classify(p: Packet, hwDir: int, cfg: Config): Option<Oriented>
  {
    if Blocked(cfg.blockProtocols, p.proto) then None
    else
      match Orient(p, hwDir, cfg)
      case None => None
      case Some(o) =>
        match Admit(o.key, cfg.portList)
        case None => None
        case Some(key) => Some(Oriented(key, o.outgoing))
  }

  /** Accounting adds to the flow's sent counter iff the packet comes from the key's source. */
  predicate CountsAsSent(p: Packet, key: AddrPair)
  {
    p.src == key.src
  }

  predicate IsReply(p: Packet, q: Packet)
  {
    && q.proto == p.proto && q.src == p.dst && q.dst == p.src
    && q.sport == p.dport && q.dport == p.sport
  }

  predicate Unknown(hwDir: int)
  {
    hwDir != 0 && hwDir != 1
  }

  predicate OppositeDirections(h: int, g: int)
  {
    (h == 1 && g == 0) || (h == 0 && g == 1) || (Unknown(h) && Unknown(g))
  }

  /** Both dropped, or both on one key with one packet on each side of the flow. */
  predicate Paired(p: Packet, a: Option<Oriented>, q: Packet, b: Option<Oriented>)
  {
    (a.None? && b.None?) ||
    (a.Some? && b.Some? && a.value.key == b.value.key
     && CountsAsSent(p, a.value.key) != CountsAsSent(q, b.value.key))
  }

  /**
   When a packet and its reply pair up.  With the net filter on they always do.  Otherwise
   the two hosts must differ (unless both packets are junked), and where the direction is
   decided by address alone the multicast branch must not break the tie the other way.
   */
  predicate PairingCondition(p: Packet, hwDir: int, cfg: Config)
  {
    cfg.netfilter ||
    if !Unknown(hwDir) || (cfg.haveIpAddr && (p.src == cfg.ifIpAddr || p.dst == cfg.ifIpAddr)) then p.src != p.dst
    else if !InMulticast(p.src) && !InMulticast(p.dst) then cfg.promiscuousButChoosy || p.src != p.dst
    else
      && !cfg.promiscuousButChoosy
      && (InMulticast(p.dst) ==> p.src < p.dst)
      && (InMulticast(p.src) ==> p.dst < p.src)
  }

  /** Orientation sends a packet and its reply to one key exactly under `PairingCondition`. */
  lemma OrientPairsIff(p: Packet, h: int, q: Packet, g: int, cfg: Config)
    requires IsReply(p, q) && OppositeDirections(h, g)
    ensures Paired(p, Orient(p, h, cfg), q, Orient(q, g, cfg)) <==> PairingCondition(p, h, cfg)
  {
    hide InNet, InMulticast;
  }

  /** The router filter or the port filter refuses the key; a dynamic port passes the latter. */
  predicate Refused(key: AddrPair, portList: seq<int>)
  {
    || key.src == ROUTER_ADDR
    || (key.dstPort < FIRST_DYNAMIC_PORT && (InPortList(portList, key.srcPort) || InPortList(portList, key.dstPort)))
  }

  /** No key of the packet gets through: its protocol is blocked or its key, if it has one, is refused. */
  predicate Filtered(p: Packet, hwDir: int, cfg: Config)
  {
    || Blocked(cfg.blockProtocols, p.proto)
    || (Orient(p, hwDir, cfg).Some? ==> Refused(Orient(p, hwDir, cfg).value.key, cfg.portList))
  }

  /**
   A packet and its reply are paired in the end exactly under `PairingCondition`, or when the
   filters, which look at protocol and key only, stop them both.
   */
  lemma ClassifyPairsIff(p: Packet, h: int, q: Packet, g: int, cfg: Config)
    requires IsReply(p, q) && OppositeDirections(h, g)
    ensures Paired(p, Classify(p, h, cfg), q, Classify(q, g, cfg)) <==>
              PairingCondition(p, h, cfg) || (Filtered(p, h, cfg) && Filtered(q, g, cfg))
  {
    hide Orient, InPortList, Blocked, PairingCondition;
    OrientPairsIff(p, h, q, g, cfg);
    if Orient(p, h, cfg).Some? && Orient(q, g, cfg).Some? {
      OrientEnds(p, h, cfg);
      OrientEnds(q, g, cfg);
    }
  }

  /** A key has the two ends of its packet, one way round or the other. */
  lemma OrientEnds(p: Packet, h: int, cfg: Config)
    requires Orient(p, h, cfg).Some?
    ensures Orient(p, h, cfg).value.key in [AssignAddrPair(p, false), AssignAddrPair(p, true)]
  {
    hide InNet, InMulticast;
  }

  /** Two different hosts, neither of them multicast: a packet and its reply share one flow. */
  lemma FlowKeySymmetry(p: Packet, h: int, q: Packet, g: int, cfg: Config)
    requires IsReply(p, q) && OppositeDirections(h, g)
    requires p.src != p.dst && !InMulticast(p.src) && !InMulticast(p.dst)
    ensures Paired(p, Classify(p, h, cfg), q, Classify(q, g, cfg))
  {
    ClassifyPairsIff(p, h, q, g, cfg);
  }

  /**
   When flow and totals disagree on the direction of an admitted packet.  Between two hosts the
   order of the addresses had to decide, and made the sender the source of an incoming packet;
   a packet from a host to itself always counts as sent in its flow, so it must be incoming.
   */
  lemma DirectionsDisagreeIff(p: Packet, hwDir: int, cfg: Config)
    requires Classify(p, hwDir, cfg).Some?
    ensures var o := Classify(p, hwDir, cfg).value;
            CountsAsSent(p, o.key) != o.outgoing <==>
              && !cfg.netfilter
              && (if p.src == p.dst then
                    hwDir != 1 && (hwDir == 0 || !(cfg.haveIpAddr && p.src == cfg.ifIpAddr))
                  else
                    && Unknown(hwDir) && !(cfg.haveIpAddr && (p.src == cfg.ifIpAddr || p.dst == cfg.ifIpAddr))
                    && !InMulticast(p.dst) && p.dst < p.src)
  {
    hide InNet, InMulticast, InPortList, Blocked;
  }

  /** A multicast address numerically below its peer: the two directions become two flows. */
  lemma MulticastBreaksSymmetry()
    ensures var cfg := Config(false, 0, 0, false, 0, false, [-1], [-1]);
            var p, q := Packet(17, 0xf000_0001, 0xe000_0001, 5, 7, 60), Packet(17, 0xe000_0001, 0xf000_0001, 7, 5, 60);
            && IsReply(p, q)
            && Classify(p, -1, cfg).Some? && Classify(q, -1, cfg).Some?
            && Classify(p, -1, cfg).value.key != Classify(q, -1, cfg).value.key
  {
    var cfg := Config(false, 0, 0, false, 0, false, [-1], [-1]);
    var p, q := Packet(17, 0xf000_0001, 0xe000_0001, 5, 7, 60), Packet(17, 0xe000_0001, 0xf000_0001, 7, 5, 60);
    assert !Blocked([-1], 17);
    assert Orient(p, -1, cfg) == Some(Oriented(AddrPair(17, 7, 0xe000_0001, 5, 0xf000_0001), false));
    assert Orient(q, -1, cfg) == Some(Oriented(AddrPair(17, 5, 0xf000_0001, 7, 0xe000_0001), false));
    assert !InPortList([-1], 5) && !InPortList([-1], 7);
  }
}

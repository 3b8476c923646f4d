/** The monitor itself: `history_rotate`, `tick` and `handle_ip_packet` of `iftop.c`. */
module Iftop {
  import opened Wrappers
  import opened Bytes
  import opened AddrHash
  import opened HashTable
  import opened Packets
  import opened Flows
  import opened FlowRuns
  import opened History
  import opened Report
  import Mqtt

  /**
   A rotation of `was` has treated the first `j` entries: `k` of them are left at the front
   of the table value `now`, `size` of these are approved, and the rest is as it was.
   */
  ghost predicate Treated(was: seq<Entry>, now: seq<Entry>, j: nat, k: nat, size: nat, t: int, lim: Limits)
  {
    && j <= |was|
    && k == |Rotate(was[..j], t, lim)|
    && now == Rotate(was[..j], t, lim) + was[j..]
    && size == |Approved(Rotate(was[..j], t, lim))|
  }

  /** One entry of the table value has been evicted, promoted or left alone. */
  ghost predicate NodeRotated(now: seq<Entry>, now': seq<Entry>, k: nat, t: int, lim: Limits)
  {
    k < |now| && now' == now[..k] + RotateOne(now[k], t, lim) + now[k + 1..]
  }

  lemma TreatedStart(was: seq<Entry>, t: int, lim: Limits)
    ensures Treated(was, was, 0, 0, 0, t, lim)
  {
  }

  /** Treating the entry at `k` in place is one step of the rotation. */
  lemma TreatedStep(
    was: seq<Entry>, now: seq<Entry>, j: nat, k: nat, size: nat, t: int, lim: Limits, now': seq<Entry>, counted: bool)
    requires Treated(was, now, j, k, size, t, lim)
    requires k < |now| && NodeRotated(now, now', k, t, lim)
    requires counted <==> Approved(RotateOne(now[k], t, lim)) != []
    ensures j < |was|
    ensures Treated(was, now', j + 1, k + |RotateOne(now[k], t, lim)|, if counted then size + 1 else size, t, lim)
  {
    assert now[k] == was[j] && now[..k] == Rotate(was[..j], t, lim) && now[k + 1..] == was[j + 1..];
    assert was[..j + 1][..j] == was[..j];
    assert Rotate(was[..j + 1], t, lim) == Rotate(was[..j], t, lim) + RotateOne(was[j], t, lim);
    ApprovedConcat(Rotate(was[..j], t, lim), RotateOne(was[j], t, lim));
    ApprovedSize(was[j], t, lim);
  }

  lemma TreatedAll(was: seq<Entry>, now: seq<Entry>, j: nat, size: nat, t: int, lim: Limits)
    requires Treated(was, now, j, |now|, size, t, lim)
    ensures now == Rotate(was, t, lim) && size == |Approved(now)|
  {
    assert was[..|was|] == was && was[|was|..] == [];
  }

  lemma ApprovedOne(e: Entry)
    ensures Approved([e]) == if e.flow.approval then [e] else []
  {
    assert [e][..0] == [];
  }

  lemma ApprovedNil()
    ensures Approved([]) == []
  {
  }

  lemma ApprovedSize(e: Entry, t: int, lim: Limits)
    ensures |Approved(RotateOne(e, t, lim))| == if Approved(RotateOne(e, t, lim)) != [] then 1 else 0
  {
    if RotateOne(e, t, lim) != [] {
      ApprovedOne(RotateOne(e, t, lim)[0]);
    }
  }

  lemma RecordAt(items: seq<FlowNode>, k: nat)
    requires k < |items|
    ensures items[k] in NodeSet(items)
  {
  }

  lemma RecordOf(items: seq<FlowNode>, n: FlowNode)
    requires n in NodeSet(items)
    ensures n.rec in Records(items)
  {
    var i :| 0 <= i < |items| && items[i] == n;
    assert items[i].rec in Records(items);
  }

  /** `in_port_list`. */
  method ScanPortList(list: seq<int>, port: int) returns (found: bool)
    ensures found <==> InPortList(list, port)
  {
    if port == 0 {
      return false;
    }
    var i := 0;
    while i < |list|
      invariant 0 <= i <= |list|
      invariant forall j :: 0 <= j < i ==> list[j] != port && list[j] != -1
    {
      if list[i] == port {
        return true;
      } else if list[i] == -1 {
        return false;
      }
      i := i + 1;
    }
    return false;
  }

  /** The loop over the blocked protocols, whose list must hold its -1 terminator. */
  method ScanBlocked(list: seq<int>, proto: int) returns (found: bool)
    requires -1 in list
    ensures found <==> Blocked(list, proto)
  {
    var i := 0;
    while list[i] != -1
      invariant 0 <= i < |list|
      invariant forall j :: 0 <= j < i ==> list[j] != proto && list[j] != -1
      invariant exists j :: i <= j < |list| && list[j] == -1
      decreases |list| - i
    {
      if list[i] == proto {
        return true;
      }
      i := i + 1;
    }
    return false;
  }

  /** The same search on the value of the table and on its nodes. */
  lemma {:induction false} FirstIsIndex(items: seq<FlowNode>, flows: seq<Entry>, key: AddrPair)
    requires |flows| == |items| && forall i :: 0 <= i < |items| ==> flows[i].key == items[i].key
    ensures First(items, key) == Index(flows, key)
  {
    var i, j := First(items, key), Index(flows, key);
  }

  /** The bucket head is where the value of the table puts a new key. */
  lemma InsertedAtBucketStart(
    was: seq<FlowNode>, flows: seq<Entry>, now: seq<FlowNode>, s: nat, key: AddrPair, rec: Record, hash: AddrPair -> int)
    requires |flows| == |was| && forall i :: 0 <= i < |was| ==> flows[i].key == was[i].key
    requires Inserted(was, now, s, key, rec, hash)
    requires forall k :: hash(k) == Hash(k)
    ensures s == BucketStart(flows, Hash(key))
  {
    hide Hash;
    forall i | 0 <= i < |was| ensures i < s <==> Hash(flows[i].key) < Hash(key) {
      assert hash(was[i].key) == Hash(was[i].key);
    }
    var b := BucketStart(flows, Hash(key));
    assert s < |was| ==> Hash(flows[s].key) >= Hash(key);
    assert b < |was| ==> Hash(flows[b].key) >= Hash(key);
  }

  lemma InsertedShows(
    was: seq<FlowNode>, flows: seq<Entry>, now: seq<FlowNode>, s: nat, key: AddrPair, rec: Record, hash: AddrPair -> int)
    requires Shows(was, flows) && Separate(was)
    requires Inserted(was, now, s, key, rec, hash)
    requires Index(flows, key) == |flows| && rec !in Records(was)
    ensures Separate(now) && now[s].rec == rec
    ensures s <= |flows| && Shows(now, flows[..s] + [Entry(key, rec.Value())] + flows[s..])
  {
    hide Hash;
    forall i | 0 <= i < |now| && i != s
      ensures var j := if i < s then i else i - 1; now[i] == was[j] && now[i].rec != rec && now[i].key != key
    {
      var j := if i < s then i else i - 1;
      assert now[i] == was[j] && was[j].rec in Records(was) && flows[j].key == was[j].key;
    }
  }

  lemma RemovedShows(was: seq<FlowNode>, flows: seq<Entry>, now: seq<FlowNode>, k: nat)
    requires Shows(was, flows) && Separate(was) && Removed(was, now, k)
    ensures k < |flows| && Separate(now) && Shows(now, flows[..k] + flows[k + 1..])
  {
    forall i | 0 <= i < |now| ensures var j := if i < k then i else i + 1; now[i] == was[j] {
    }
  }

  /** A node is the first one of its key when no other node has it. */
  lemma OnlyNode(items: seq<FlowNode>, k: nat)
    requires Separate(items) && k < |items|
    ensures First(items, items[k].key) == k
  {
    hide First;
  }

  lemma RecordsShrink(now: seq<FlowNode>, was: seq<FlowNode>)
    requires NodeSet(now) <= NodeSet(was)
    ensures Records(now) <= Records(was)
  {
    forall r | r in Records(now) ensures r in Records(was) {
      var i :| 0 <= i < |now| && now[i].rec == r;
      assert now[i] in NodeSet(now);
      RecordOf(was, now[i]);
    }
  }

  class Monitor {
    const history: Table<AddrPair, Record>
    const mqtt: Mqtt.Publisher
    const lim: Limits
    const cfg: Config
    const sendInterval: int
    var totalSent: u64
    var totalRecv: u64
    var lastTimestamp: int
    var sendLast: int
    ghost var flows: seq<Entry>

    constructor (lim: Limits, cfg: Config, sendInterval: int, now: int, up: bool)
      requires -1 in cfg.blockProtocols
      ensures Valid() && MachineOf() == Machine([], 0, 0, now)
      ensures mqtt.Abs() == Mqtt.InitSession(now, up)
      ensures this.lim == lim && this.cfg == cfg && this.sendInterval == sendInterval
    {
      this.lim, this.cfg, this.sendInterval := lim, cfg, sendInterval;
      history := new Table(HASH_TABLE_SIZE, Hash);
      mqtt := new Mqtt.Publisher(now, up);
      totalSent, totalRecv, lastTimestamp, sendLast := 0, 0, now, now;
      flows := [];
    }

    ghost function MachineOf(): Machine
      reads this
    {
      Machine(flows, totalSent, totalRecv, lastTimestamp)
    }

    ghost predicate Valid()
      reads `flows, history, history.table, history.Nodes(), Records(history.items)
    {
      && history.Valid()
      && history.size == HASH_TABLE_SIZE
      && (forall k :: history.hash(k) == Hash(k))
      && Separate(history.items)
      && Shows(history.items, flows)
      && -1 in cfg.blockProtocols
    }

    lemma Parts()
      requires Valid()
      ensures history.Valid() && Separate(history.items) && Shows(history.items, flows)
      ensures |flows| == |history.items|
    {
    }

    lemma ValueAt(n: FlowNode, k: nat)
      requires Valid()
      requires k < |history.items| && history.items[k] == n
      ensures k < |flows| && flows[k] == Entry(n.key, n.rec.Value())
    {
    }

    /** Deleting by key removes this very node, because no other node has its key. */
    method Evict(n: FlowNode, ghost k: nat)
      requires Valid()
      requires k < |history.items| && history.items[k] == n
      modifies `flows, history, history.table, history.Nodes()
      ensures Valid() && history.Nodes() <= old(history.Nodes())
      ensures Removed(old(history.items), history.items, k)
      ensures k < |old(flows)| && flows == old(flows[..k] + flows[k + 1..])
    {
      hide Hash, Layout, NextIn, HeadIn, First, Removed;
      var key := n.key;
      ghost var was := history.items;
      OnlyNode(was, k);
      var _ := history.Delete(key);
      RemovedShows(was, flows, history.items, k);
      flows := flows[..k] + flows[k + 1..];
    }

    method Approve(n: FlowNode, ghost k: nat)
      requires Valid()
      requires k < |history.items| && history.items[k] == n
      modifies `flows, n.rec
      ensures Valid() && k < |flows|
      ensures flows == old(flows)[k := Entry(n.key, old(n.rec.Value()).(approval := true))]
    {
      n.rec.approval := true;
      flows := flows[k := Entry(n.key, n.rec.Value())];
    }

    /**
     The body of the rotation loop for the node at position `k`; `next` is fetched before
     the node may be deleted.  After an eviction the source still reads the freed record's
     `approval`; it is taken to be the 0 it held.
     */
    method RotateNode(n: FlowNode, t: int, ghost k: nat) returns (counted: bool, next: Node?<AddrPair, Record>)
      requires Valid()
      requires k < |flows| == |history.items| && history.items[k] == n
      modifies `flows, history, history.table, history.Nodes(), n.rec
      ensures Valid()
      ensures NodeRotated(old(flows), flows, k, t, lim)
      ensures history.Nodes() <= old(history.Nodes())
      ensures counted <==> Approved(RotateOne(old(flows[k]), t, lim)) != []
      ensures |flows| == |history.items|
      ensures var k' := k + |RotateOne(old(flows[k]), t, lim)|;
              next == if k' < |history.items| then history.items[k'] else null
    {
      hide Hash, Approved, Table.Successor, Layout, NextIn, HeadIn, First;
      Parts();
      ghost var e := flows[k];
      ValueAt(n, k);
      ApprovedNil();
      ApprovedOne(Entry(e.key, Promoted(e.flow, lim)));
      var _, following := history.NextItem(n);
      next := following;
      ghost var items := history.items;
      history.SuccessorIsNext(k);
      var d := n.rec;
      if !d.approval && (IsShort(d.Value(), t, lim) || IsLowTraffic(d.Value(), t, lim)) {
        Evict(n, k);
        assert flows == old(flows[..k]) + [] + old(flows[k + 1..]);
        assert k < |history.items| ==> history.items[k] == old(history.items)[k + 1];
        return false, next;
      }
      if !d.approval && MeetsBoth(d.Value(), lim) {
        Approve(n, k);
      }
      assert RotateOne(e, t, lim) == [Entry(e.key, Promoted(e.flow, lim))] && history.items == items;
      assert flows == old(flows[..k]) + [Entry(e.key, Promoted(e.flow, lim))] + old(flows[k + 1..]);
      ValueAt(n, k);
      counted := d.approval;
    }

    method FirstNode() returns (n: Node?<AddrPair, Record>)
      requires Valid()
      ensures Valid() && |flows| == |history.items|
      ensures n == if |history.items| > 0 then history.items[0] else null
    {
      var _, next := history.NextItem(null);
      history.StartsAtFirst();
      n := next;
    }

    method HistoryRotate(t: int) returns (size: nat)
      requires Valid()
      modifies `flows, history, history.table, history.Nodes(), Records(history.items)
      ensures Valid()
      ensures history.Nodes() <= old(history.Nodes())
      ensures flows == Rotate(old(flows), t, lim)
      ensures size == |Approved(flows)|
    {
      hide Rotate, RotateOne, Approved, Hash, Treated, NodeRotated, NodeSet, Valid, Table.Valid, Separate, Shows;
      ghost var was: seq<Entry>, j: nat, k: nat := flows, 0, 0;
      size := 0;
      var n := FirstNode();
      TreatedStart(was, t, lim);
      while n != null
        invariant Valid()
        invariant k <= |flows| == |history.items| && j <= |was|
        invariant n == if k < |history.items| then history.items[k] else null
        invariant Treated(was, flows, j, k, size, t, lim)
        invariant history.Nodes() <= old(history.Nodes())
        decreases |was| - j
      {
        ghost var now, size0 := flows, size;
        RecordAt(history.items, k);
        RecordOf(old(history.items), n);
        var counted, next := RotateNode(n, t, k);
        TreatedStep(was, now, j, k, size0, t, lim, flows, counted);
        if counted {
          size := size + 1;
        }
        n := next;
        j, k := j + 1, k + |RotateOne(now[k], t, lim)|;
      }
      TreatedAll(was, flows, j, size, t, lim);
    }

    /** Whether this call of `tick` tries to send a report. */
    ghost predicate ReportWanted(send: bool, t: int)
      reads this
    {
      RotationDue(MachineOf(), send, t) && ((sendInterval != 0 && t - sendLast > sendInterval) || send)
    }

    /** The part of `tick` between the rotation and the time stamp. */
    method ReportAndReconnect(send: bool, t: int, size: nat, up: bool, pub: Option<int>)
      requires history.Valid() && Shows(history.items, flows) && size == |Approved(flows)|
      modifies `sendLast, mqtt
      ensures var wanted := (sendInterval != 0 && t - old(sendLast) > sendInterval) || send;
              var ready := wanted && Mqtt.CanConstruct(old(mqtt.Abs()), size);
              var s1 := if wanted then Mqtt.AfterConstruct(old(mqtt.Abs()), size) else old(mqtt.Abs());
              var s2 := Mqtt.AfterCheckConnection(s1, t, up);
              && mqtt.Abs() == (if ready then Mqtt.AfterSend(s2, pub) else s2)
              && sendLast == (if wanted then t else old(sendLast))
              && (ready ==> mqtt.data[..] == EncodeAll(Approved(flows)) && mqtt.msgLen == STRUCT_SIZE * size)
    {
      hide Approved, EncodeAll, Layout, NextIn, HeadIn;
      var msgReady := false;
      if (sendInterval != 0 && t - sendLast > sendInterval) || send {
        sendLast := t;
        var failed := mqtt.ConstructMqttMsg(size, history, flows);
        if !failed {
          msgReady := true;
        }
      }
      mqtt.CheckMqttConnection(t, up);
      if msgReady {
        mqtt.SendMqttMsg(pub);
      }
    }

    /**
     `tick`.  `up` answers an attempt to connect and `pub` a publish, if they happen.  The
     size that the rotation returns is what the report buffer is made for.
     */
    method Tick(send: bool, t: int, up: bool, pub: Option<int>)
      requires Valid()
      modifies this, history, history.table, history.Nodes(), Records(history.items), mqtt
      ensures Valid() && history.Nodes() <= old(history.Nodes())
      ensures Records(history.items) <= old(Records(history.items))
      ensures MachineOf() == TickFlows(old(MachineOf()), send, t, lim)
      ensures var report := if old(ReportWanted(send, t)) then Some(|Approved(flows)|) else None;
              && mqtt.Abs() == Mqtt.AfterTick(old(mqtt.Abs()), old(RotationDue(MachineOf(), send, t)), report, t, up, pub)
              && (report.Some? && Mqtt.CanConstruct(old(mqtt.Abs()), report.value) ==>
                    mqtt.data[..] == EncodeAll(Approved(flows)) && mqtt.msgLen == STRUCT_SIZE * report.value)
      ensures sendLast == if old(ReportWanted(send, t)) then t else old(sendLast)
    {
      hide Rotate, Approved, EncodeAll, Hash, Layout, NextIn, HeadIn;
      if send || t - lastTimestamp >= RESOLUTION {
        var size := HistoryRotate(t);
        RecordsShrink(history.items, old(history.items));
        ReportAndReconnect(send, t, size, up, pub);
        lastTimestamp := t;
      }
      mqtt.CheckStatus();
    }

    /** A new record goes to the head of its bucket. */
    method Create(ap: AddrPair, now: int) returns (ht: Record, ghost i: nat)
      requires Valid() && Index(flows, ap) == |flows|
      modifies `flows, history, history.table
      ensures Valid() && flows == WithKey(old(flows), ap, now)
      ensures i == Index(flows, ap) < |history.items| && history.items[i].rec == ht
      ensures fresh(ht) && fresh(history.Nodes() - old(history.Nodes()))
    {
      hide Hash, Layout, NextIn, HeadIn, Index, Inserted;
      ht := new Record(now);
      i := history.starts[history.hash(ap)];
      ghost var was := history.items;
      var _ := history.Insert(ap, ht);
      InsertedAtBucketStart(was, flows, history.items, i, ap, ht, history.hash);
      InsertedShows(was, flows, history.items, i, ap, ht, history.hash);
      flows := InsertEntry(flows, Entry(ap, NewFlow(now)));
    }

    /** The record of a key, created on first sight. */
    method FindOrCreate(ap: AddrPair, now: int) returns (ht: Record, ghost i: nat)
      requires Valid()
      modifies `flows, history, history.table
      ensures Valid() && flows == WithKey(old(flows), ap, now)
      ensures i == Index(flows, ap) < |history.items| && history.items[i].rec == ht
      ensures fresh(ht) || ht in old(Records(history.items))
    {
      hide Hash, Layout, NextIn, HeadIn, First, Index;
      var status, rec := history.Find(ap);
      FirstIsIndex(history.items, flows, ap);
      if status == Ok {
        ht := rec.value;
        i := Index(flows, ap);
      } else {
        ht, i := Create(ap, now);
      }
    }

    /** The update of one record for one packet. */
    method UpdateRecord(ht: Record, ghost i: nat, p: Packet, ap: AddrPair, t: int)
      requires Valid()
      requires i < |history.items| && history.items[i].rec == ht && history.items[i].key == ap
      modifies `flows, ht
      ensures Valid() && i < |old(flows)|
      ensures flows == old(flows)[i := Entry(ap, CountPacket(old(flows[i].flow), CountsAsSent(p, ap), p.len, t))]
    {
      ht.lastUpdate := t;
      if p.src == ap.src {
        ht.totalSent := Add64(ht.totalSent, p.len);
      } else {
        ht.totalRecv := Add64(ht.totalRecv, p.len);
      }
      flows := flows[i := Entry(ap, ht.Value())];
    }

    /** The first half of `handle_ip_packet`: everything up to the table lookup. */
    method ClassifyPacket(p: Packet, hwDir: int) returns (o: Option<Oriented>)
      requires -1 in cfg.blockProtocols
      ensures o == Classify(p, hwDir, cfg)
    {
      var blocked := ScanBlocked(cfg.blockProtocols, p.proto);
      if blocked {
        return None;
      }
      var ap: AddrPair;
      var direction: int;
      if !cfg.netfilter {
        if hwDir == 1 {
          ap, direction := AssignAddrPair(p, false), 1;
        } else if hwDir == 0 {
          ap, direction := AssignAddrPair(p, true), 0;
        } else if cfg.haveIpAddr && p.src == cfg.ifIpAddr {
          ap, direction := AssignAddrPair(p, false), 1;
        } else if cfg.haveIpAddr && p.dst == cfg.ifIpAddr {
          ap, direction := AssignAddrPair(p, true), 0;
        } else if InMulticast(p.dst) {
          ap, direction := AssignAddrPair(p, true), 0;
        } else if cfg.promiscuousButChoosy {
          return None;
        } else if p.src < p.dst {
          ap, direction := AssignAddrPair(p, true), 0;
        } else {
          ap, direction := AssignAddrPair(p, false), 0;
        }
      } else {
        if InNet(cfg, p.src) && !InNet(cfg, p.dst) {
          ap, direction := AssignAddrPair(p, false), 1;
        } else if InNet(cfg, p.dst) && !InNet(cfg, p.src) {
          ap, direction := AssignAddrPair(p, true), 0;
        } else {
          return None;
        }
      }
      if ap.src == ROUTER_ADDR {
        return None;
      }
      if ap.dstPort >= FIRST_DYNAMIC_PORT {
        ap := ap.(dstPort := 0);
      } else {
        var srcListed := ScanPortList(cfg.portList, ap.srcPort);
        var dstListed := ScanPortList(cfg.portList, ap.dstPort);
        if srcListed || dstListed {
          return None;
        }
      }
      return Some(Oriented(ap, direction == 1));
    }

    /** The second half: the flow's record and the totals. */
    method Account(p: Packet, o: Oriented, t: int, now: int)
      requires Valid()
      modifies this, history, history.table, Records(history.items)
      ensures Valid() && MachineOf() == Count(old(MachineOf()), p, o, t, now)
      ensures sendLast == old(sendLast)
    {
      hide Index, WithKey, CountPacket, Hash, Layout, NextIn, HeadIn;
      var ht, i := FindOrCreate(o.key, now);
      KeyAt(i);
      UpdateRecord(ht, i, p, o.key, t);
      if o.outgoing {
        totalSent := Add64(totalSent, p.len);
      } else {
        totalRecv := Add64(totalRecv, p.len);
      }
    }

    lemma KeyAt(i: nat)
      requires Valid() && i < |history.items|
      ensures i < |flows| && history.items[i].key == flows[i].key
    {
    }

    /** `handle_ip_packet`; `t` and `now` are its two readings of the clock. */
    method HandleIpPacket(p: Packet, hwDir: int, t: int, now: int, up: bool, pub: Option<int>)
      requires Valid()
      modifies this, history, history.table, history.Nodes(), Records(history.items), mqtt
      ensures Valid()
      ensures MachineOf() == Step(old(MachineOf()), Capture(p, hwDir, t, now), lim, cfg)
      ensures var wanted := old(ReportWanted(false, t));
              var report := if wanted then Some(|Approved(TickFlows(old(MachineOf()), false, t, lim).flows)|) else None;
              && mqtt.Abs() == Mqtt.AfterTick(old(mqtt.Abs()), old(RotationDue(MachineOf(), false, t)), report, t, up, pub)
              && sendLast == if wanted then t else old(sendLast)
    {
      hide Classify, TickFlows, Count, Approved;
      Tick(false, t, up, pub);
      var o := ClassifyPacket(p, hwDir);
      if o.Some? {
        Account(p, o.value, t, now);
      }
    }
  }
}

/** Whole runs of the monitor: packets and timer ticks in any order, one at a time. */
module FlowRuns {
  import opened Wrappers
  import opened Bytes
  import opened AddrHash
  import opened Packets
  import opened Flows

  /** The flow table in iteration order, `history_totals` and `last_timestamp`. */
  datatype Machine = Machine(flows: seq<Entry>, totalSent: u64, totalRecv: u64, lastTimestamp: int)

  datatype Event =
    | Tick(send: bool, t: int)
    | Capture(p: Packet, hwDir: int, t: int, now: int)

  predicate RotationDue(m: Machine, send: bool, t: int)
  {
    send || t - m.lastTimestamp >= RESOLUTION
  }

  /** The part of `tick` that concerns the flows. */
  function TickFlows(m: Machine, send: bool, t: int, lim: Limits): Machine
  {
    if RotationDue(m, send, t) then m.(flows := Rotate(m.flows, t, lim), lastTimestamp := t) else m
  }

  /** Accounting of an admitted packet, in the flow and in the totals. */
  function Count(m: Machine, p: Packet, o: Oriented, t: int, now: int): Machine
  {
    var m1 := m.(flows := CountIn(m.flows, o.key, CountsAsSent(p, o.key), p.len, t, now));
    if o.outgoing then m1.(totalSent := Add64(m.totalSent, p.len))
    else m1.(totalRecv := Add64(m.totalRecv, p.len))
  }

  function Step(m: Machine, ev: Event, lim: Limits, cfg: Config): Machine
  {
    match ev
    case Tick(send, t) => TickFlows(m, send, t, lim)
    case Capture(p, hwDir, t, now) =>
      var m1 := TickFlows(m, false, t, lim);
      match Classify(p, hwDir, cfg)
      case None => m1
      case Some(o) => Count(m1, p, o, t, now)
  }

  function Run(m: Machine, evs: seq<Event>, lim: Limits, cfg: Config): Machine
  {
    if evs == [] then m else Step(Run(m, evs[..|evs| - 1], lim, cfg), evs[|evs| - 1], lim, cfg)
  }

  // ----- the shape the hash table needs -----

  ghost predicate WellShaped(m: Machine)
  {
    UniqueKeys(m.flows) && SortedByBucket(m.flows)
  }

  lemma StepKeepsShape(m: Machine, ev: Event, lim: Limits, cfg: Config)
    requires WellShaped(m)
    ensures WellShaped(Step(m, ev, lim, cfg))
  {
    hide Rotate, CountIn, Classify;
    RotateKeepsShape(m.flows, ev.t, lim);
    if ev.Capture? {
      var m1 := TickFlows(m, false, ev.t, lim);
      var c := Classify(ev.p, ev.hwDir, cfg);
      if c.Some? {
        CountInKeepsShape(m1.flows, c.value.key, CountsAsSent(ev.p, c.value.key), ev.p.len, ev.t, ev.now);
      }
    }
  }

  lemma {:induction false} RunKeepsShape(m: Machine, evs: seq<Event>, lim: Limits, cfg: Config)
    requires WellShaped(m)
    ensures WellShaped(Run(m, evs, lim, cfg))
  {
    if evs != [] {
      RunKeepsShape(m, evs[..|evs| - 1], lim, cfg);
      StepKeepsShape(Run(m, evs[..|evs| - 1], lim, cfg), evs[|evs| - 1], lim, cfg);
    }
  }

  // ----- conservation of bytes -----

  datatype Side = Sent | Received

  function Counter(f: Flow, side: Side): u64
  {
    if side.Sent? then f.totalSent else f.totalRecv
  }

  function TotalOf(m: Machine, side: Side): u64
  {
    if side.Sent? then m.totalSent else m.totalRecv
  }

  /** What some flows have counted on one side. */
  function SideVolume(es: seq<Entry>, side: Side): nat
  {
    if es == [] then 0 else SideVolume(es[..|es| - 1], side) + Counter(es[|es| - 1].flow, side)
  }

  function Volume(es: seq<Entry>): nat
  {
    SideVolume(es, Sent) + SideVolume(es, Received)
  }

  /** The entries a rotation at `t` removes. */
  function Gone(es: seq<Entry>, t: int, lim: Limits): seq<Entry>
  {
    if es == [] then []
    else Gone(es[..|es| - 1], t, lim) + if Evicted(es[|es| - 1].flow, t, lim) then [es[|es| - 1]] else []
  }

  function GoneIn(m: Machine, ev: Event, lim: Limits): seq<Entry>
  {
    if RotationDue(m, ev.Tick? && ev.send, ev.t) then Gone(m.flows, ev.t, lim) else []
  }

  /** Everything evicted during a run, in order of eviction. */
  function GoneDuring(m: Machine, evs: seq<Event>, lim: Limits, cfg: Config): seq<Entry>
  {
    if evs == [] then []
    else
      var before := evs[..|evs| - 1];
      GoneDuring(m, before, lim, cfg) + GoneIn(Run(m, before, lim, cfg), evs[|evs| - 1], lim)
  }

  /** How a packet is admitted by an event, if it is. */
  function Admitted(ev: Event, cfg: Config): Option<Oriented>
  {
    if ev.Capture? then Classify(ev.p, ev.hwDir, cfg) else None
  }

  /** The lengths of the admitted packets that come from the source of their flow, or of the others. */
  function FlowBytesOn(evs: seq<Event>, cfg: Config, side: Side): nat
  {
    if evs == [] then 0
    else
      var ev := evs[|evs| - 1];
      var o := Admitted(ev, cfg);
      FlowBytesOn(evs[..|evs| - 1], cfg, side)
      + if o.Some? && (ev.p.src == o.value.key.src) == side.Sent? then ev.p.len else 0
  }

  /** The lengths of the admitted packets that go out, or come in. */
  function TotalBytesOn(evs: seq<Event>, cfg: Config, side: Side): nat
  {
    if evs == [] then 0
    else
      var ev := evs[|evs| - 1];
      var o := Admitted(ev, cfg);
      TotalBytesOn(evs[..|evs| - 1], cfg, side)
      + if o.Some? && o.value.outgoing == side.Sent? then ev.p.len else 0
  }

  /** The lengths of all packets the classification admitted. */
  function AdmittedBytes(evs: seq<Event>, cfg: Config): nat
  {
    if evs == [] then 0
    else
      var ev := evs[|evs| - 1];
      AdmittedBytes(evs[..|evs| - 1], cfg) + if Admitted(ev, cfg).Some? then ev.p.len else 0
  }

  lemma {:induction false} SidesAddUp(evs: seq<Event>, cfg: Config)
    ensures AdmittedBytes(evs, cfg) == FlowBytesOn(evs, cfg, Sent) + FlowBytesOn(evs, cfg, Received)
    ensures AdmittedBytes(evs, cfg) == TotalBytesOn(evs, cfg, Sent) + TotalBytesOn(evs, cfg, Received)
  {
    hide Admitted;
    if evs != [] {
      SidesAddUp(evs[..|evs| - 1], cfg);
    }
  }

  ghost predicate Congruent(a: int, b: int)
  {
    (a - b) % TWO64 == 0
  }

  lemma CongruentSum(a: int, b: int, c: int, d: int)
    requires Congruent(a, b) && Congruent(c, d)
    ensures Congruent(a + c, b + d)
  {
  }

  lemma Add64Congruent(a: int, b: int)
    ensures Congruent(Add64(a, b), a + b)
  {
  }

  lemma {:induction false} VolumeConcat(a: seq<Entry>, b: seq<Entry>, side: Side)
    ensures SideVolume(a + b, side) == SideVolume(a, side) + SideVolume(b, side)
  {
    hide Counter;
    if b == [] {
      assert a + b == a;
    } else {
      assert (a + b)[..|a + b| - 1] == a + b[..|b| - 1];
      VolumeConcat(a, b[..|b| - 1], side);
    }
  }

  lemma VolumeOne(e: Entry, side: Side)
    ensures SideVolume([e], side) == Counter(e.flow, side)
  {
    assert [e][..0] == [];
  }

  lemma {:induction false} RotateConserves(es: seq<Entry>, t: int, lim: Limits, side: Side)
    ensures SideVolume(es, side) == SideVolume(Rotate(es, t, lim), side) + SideVolume(Gone(es, t, lim), side)
  {
    if es != [] {
      var n := |es| - 1;
      RotateConserves(es[..n], t, lim, side);
      VolumeConcat(Rotate(es[..n], t, lim), RotateOne(es[n], t, lim), side);
      VolumeOne(es[n], side);
      VolumeOne(Entry(es[n].key, Promoted(es[n].flow, lim)), side);
      VolumeConcat(Gone(es[..n], t, lim), [es[n]], side);
      assert Gone(es[..n], t, lim) + [] == Gone(es[..n], t, lim);
    }
  }

  lemma VolumeUpdate(es: seq<Entry>, i: nat, e: Entry, side: Side)
    requires i < |es|
    ensures SideVolume(es[i := e], side) - SideVolume(es, side) == Counter(e.flow, side) - Counter(es[i].flow, side)
  {
    hide SideVolume, Counter;
    assert es == es[..i] + [es[i]] + es[i + 1..];
    assert es[i := e] == es[..i] + [e] + es[i + 1..];
    VolumeConcat(es[..i] + [es[i]], es[i + 1..], side);
    VolumeConcat(es[..i] + [e], es[i + 1..], side);
    VolumeConcat(es[..i], [es[i]], side);
    VolumeConcat(es[..i], [e], side);
    VolumeOne(es[i], side);
    VolumeOne(e, side);
  }

  lemma VolumeWithKey(es: seq<Entry>, key: AddrPair, now: int, side: Side)
    ensures SideVolume(WithKey(es, key, now), side) == SideVolume(es, side)
  {
    hide SideVolume, Hash;
    var s := BucketStart(es, Hash(key));
    var e := Entry(key, NewFlow(now));
    VolumeConcat(es[..s] + [e], es[s..], side);
    VolumeConcat(es[..s], [e], side);
    VolumeConcat(es[..s], es[s..], side);
    VolumeOne(e, side);
    assert es == es[..s] + es[s..];
  }

  /** A counted packet adds to the side that it counts on, and to no other. */
  lemma CountInConserves(es: seq<Entry>, key: AddrPair, asSent: bool, len: u16, t: int, now: int, side: Side)
    ensures Congruent(SideVolume(CountIn(es, key, asSent, len, t, now), side),
                      SideVolume(es, side) + if asSent == side.Sent? then len else 0)
  {
    hide SideVolume, WithKey;
    VolumeWithKey(es, key, now, side);
    var es1 := WithKey(es, key, now);
    var i := Index(es1, key);
    var f := es1[i].flow;
    VolumeUpdate(es1, i, Entry(key, CountPacket(f, asSent, len, t)), side);
    Add64Congruent(Counter(f, side), len);
  }

  lemma OneEvent(ev: Event, cfg: Config, side: Side)
    ensures var o := Admitted(ev, cfg);
            && FlowBytesOn([ev], cfg, side) ==
                 (if o.Some? && (ev.p.src == o.value.key.src) == side.Sent? then ev.p.len else 0)
            && TotalBytesOn([ev], cfg, side) ==
                 (if o.Some? && o.value.outgoing == side.Sent? then ev.p.len else 0)
  {
    hide Admitted;
    assert [ev][..0] == [];
  }

  lemma StepConserves(m: Machine, ev: Event, lim: Limits, cfg: Config, side: Side)
    ensures var m' := Step(m, ev, lim, cfg);
            && Congruent(SideVolume(m'.flows, side) + SideVolume(GoneIn(m, ev, lim), side),
                         SideVolume(m.flows, side) + FlowBytesOn([ev], cfg, side))
            && Congruent(TotalOf(m', side), TotalOf(m, side) + TotalBytesOn([ev], cfg, side))
  {
    hide Rotate, Gone, SideVolume, CountIn, Classify, Add64, FlowBytesOn, TotalBytesOn;
    var m1 := TickFlows(m, ev.Tick? && ev.send, ev.t, lim);
    RotateConserves(m.flows, ev.t, lim, side);
    VolumeEmpty(side);
    OneEvent(ev, cfg, side);
    if ev.Capture? {
      var c := Classify(ev.p, ev.hwDir, cfg);
      if c.Some? {
        CountInConserves(m1.flows, c.value.key, CountsAsSent(ev.p, c.value.key), ev.p.len, ev.t, ev.now, side);
        Add64Congruent(TotalOf(m, side), ev.p.len);
      }
    }
  }

  lemma VolumeEmpty(side: Side)
    ensures SideVolume([], side) == 0
  {
  }

  /**
   Conservation over any run, side by side and modulo 2^64.  What the live and the evicted
   flows have sent grew by the lengths of the admitted packets that came from the source of
   their flow, what they have received by the others; `history_totals` grew by the lengths of
   the outgoing packets and of the incoming ones.
   */
  lemma {:induction false} SidesConserved(m: Machine, evs: seq<Event>, lim: Limits, cfg: Config, side: Side)
    ensures var m' := Run(m, evs, lim, cfg);
            && Congruent(SideVolume(m'.flows, side) + SideVolume(GoneDuring(m, evs, lim, cfg), side),
                         SideVolume(m.flows, side) + FlowBytesOn(evs, cfg, side))
            && Congruent(TotalOf(m', side), TotalOf(m, side) + TotalBytesOn(evs, cfg, side))
  {
    hide SideVolume, Step, Congruent, GoneIn, Admitted, TotalOf;
    if evs == [] {
      VolumeEmpty(side);
      CongruentRefl(SideVolume(m.flows, side));
      CongruentRefl(TotalOf(m, side));
    } else {
      var before, ev := evs[..|evs| - 1], evs[|evs| - 1];
      var m1 := Run(m, before, lim, cfg);
      SidesConserved(m, before, lim, cfg, side);
      StepConserves(m1, ev, lim, cfg, side);
      VolumeConcat(GoneDuring(m, before, lim, cfg), GoneIn(m1, ev, lim), side);
      OneEvent(ev, cfg, side);
      var m', g := Step(m1, ev, lim, cfg), SideVolume(GoneDuring(m, before, lim, cfg), side);
      CongruentChain(SideVolume(m'.flows, side) + SideVolume(GoneIn(m1, ev, lim), side), SideVolume(m1.flows, side),
                     FlowBytesOn([ev], cfg, side), g, SideVolume(m.flows, side) + FlowBytesOn(before, cfg, side));
      CongruentChain(TotalOf(m', side), TotalOf(m1, side), TotalBytesOn([ev], cfg, side), 0,
                     TotalOf(m, side) + TotalBytesOn(before, cfg, side));
    }
  }

  /**
   Both sides together: modulo 2^64 the totals have grown by the bytes of all admitted
   packets, and so has the volume of the live flows together with everything evicted.
   */
  lemma RunConserves(m: Machine, evs: seq<Event>, lim: Limits, cfg: Config)
    ensures var m' := Run(m, evs, lim, cfg);
            && Congruent(Volume(m'.flows) + Volume(GoneDuring(m, evs, lim, cfg)), Volume(m.flows) + AdmittedBytes(evs, cfg))
            && Congruent(m'.totalSent + m'.totalRecv, m.totalSent + m.totalRecv + AdmittedBytes(evs, cfg))
  {
    hide SideVolume, Run, GoneDuring, Congruent, AdmittedBytes, FlowBytesOn, TotalBytesOn;
    SidesConserved(m, evs, lim, cfg, Sent);
    SidesConserved(m, evs, lim, cfg, Received);
    SidesAddUp(evs, cfg);
    var m', g := Run(m, evs, lim, cfg), GoneDuring(m, evs, lim, cfg);
    CongruentSum(
      SideVolume(m'.flows, Sent) + SideVolume(g, Sent), SideVolume(m.flows, Sent) + FlowBytesOn(evs, cfg, Sent),
      SideVolume(m'.flows, Received) + SideVolume(g, Received),
      SideVolume(m.flows, Received) + FlowBytesOn(evs, cfg, Received));
    CongruentSum(m'.totalSent, m.totalSent + TotalBytesOn(evs, cfg, Sent),
                 m'.totalRecv, m.totalRecv + TotalBytesOn(evs, cfg, Received));
  }

  lemma CongruentRefl(a: int)
    ensures Congruent(a, a)
  {
  }

  lemma CongruentChain(x: int, y: int, a: int, g: int, z: int)
    requires Congruent(x, y + a) && Congruent(y + g, z)
    ensures Congruent(x + g, z + a)
  {
    CongruentSum(x, y + a, y + g, z);
  }

  /**
   `history_totals` of a monitor started empty: sent plus received equals, modulo 2^64, what
   the live flows and the evicted flows hold, although a packet may count as sent in its flow
   and as received in the totals.
   */
  lemma TotalsConserved(t0: int, evs: seq<Event>, lim: Limits, cfg: Config)
    ensures var m := Run(Machine([], 0, 0, t0), evs, lim, cfg);
            Congruent(m.totalSent + m.totalRecv,
                      Volume(m.flows) + Volume(GoneDuring(Machine([], 0, 0, t0), evs, lim, cfg)))
  {
    hide Run, SideVolume, GoneDuring, AdmittedBytes, Congruent;
    var m0 := Machine([], 0, 0, t0);
    RunConserves(m0, evs, lim, cfg);
    VolumeEmpty(Sent);
    VolumeEmpty(Received);
    var m := Run(m0, evs, lim, cfg);
    var g := Volume(GoneDuring(m0, evs, lim, cfg));
    var a := AdmittedBytes(evs, cfg);
    CongruentBoth(m.totalSent + m.totalRecv, Volume(m.flows) + g, a);
  }

  lemma CongruentBoth(x: int, y: int, a: int)
    requires Congruent(x, a) && Congruent(y, a)
    ensures Congruent(x, y)
  {
    var p, q := (x - a) / TWO64, (y - a) / TWO64;
    assert x - y == (p - q) * TWO64;
  }

  // ----- approval is permanent -----

  /** The keys of approved flows. */
  ghost predicate ApprovedAt(m: Machine, key: AddrPair)
  {
    Lookup(m.flows, key).Some? && Lookup(m.flows, key).value.approval
  }

  lemma {:induction false} LookupUpdate(es: seq<Entry>, i: nat, f: Flow, key: AddrPair)
    requires i < |es| && UniqueKeys(es)
    ensures Lookup(es[i := Entry(es[i].key, f)], key) == if key == es[i].key then Some(f) else Lookup(es, key)
  {
    var r := es[i := Entry(es[i].key, f)];
    if i == 0 {
      assert r[1..] == es[1..];
    } else {
      assert r[1..] == es[1..][i - 1 := Entry(es[1..][i - 1].key, f)];
      LookupUpdate(es[1..], i - 1, f, key);
    }
  }

  lemma WithKeyLookup(es: seq<Entry>, key: AddrPair, now: int, k: AddrPair)
    ensures Lookup(WithKey(es, key, now), k) ==
              if k == key && Lookup(es, key).None? then Some(NewFlow(now)) else Lookup(es, k)
  {
    hide Hash;
    LookupAbsent(es, key);
    if Index(es, key) == |es| {
      var e, s := Entry(key, NewFlow(now)), BucketStart(es, Hash(key));
      assert es == es[..s] + es[s..];
      LookupInsert(es[..s], e, es[s..], k);
    }
  }

  lemma LookupInsert(a: seq<Entry>, e: Entry, b: seq<Entry>, k: AddrPair)
    requires Lookup(a + b, e.key).None?
    ensures Lookup(a + [e] + b, k) == if k == e.key then Some(e.flow) else Lookup(a + b, k)
  {
    LookupConcat(a + [e], b, k);
    LookupConcat(a, [e], k);
    LookupConcat(a, b, k);
  }

  lemma WithKeyKeepsShape(es: seq<Entry>, key: AddrPair, now: int)
    requires UniqueKeys(es) && SortedByBucket(es)
    ensures UniqueKeys(WithKey(es, key, now)) && SortedByBucket(WithKey(es, key, now))
  {
    hide Hash;
    if Index(es, key) == |es| {
      InsertKeepsShape(es, Entry(key, NewFlow(now)));
    }
  }

  /** Counting a packet changes the flow of its own key only, and creates it if need be. */
  lemma CountInLookup(es: seq<Entry>, key: AddrPair, asSent: bool, len: u16, t: int, now: int, k: AddrPair)
    requires UniqueKeys(es) && SortedByBucket(es)
    ensures Lookup(CountIn(es, key, asSent, len, t, now), k) ==
              if k != key then Lookup(es, k)
              else Some(CountPacket(if Lookup(es, k).Some? then Lookup(es, k).value else NewFlow(now), asSent, len, t))
  {
    hide Hash, WithKey, CountPacket;
    var es1 := WithKey(es, key, now);
    var i := Index(es1, key);
    WithKeyLookup(es, key, now, k);
    WithKeyKeepsShape(es, key, now);
    LookupFinds(es1, i);
    LookupUpdate(es1, i, CountPacket(es1[i].flow, asSent, len, t), k);
  }

  lemma StepKeepsApproved(m: Machine, ev: Event, lim: Limits, cfg: Config, key: AddrPair)
    requires WellShaped(m) && ApprovedAt(m, key)
    ensures ApprovedAt(Step(m, ev, lim, cfg), key)
  {
    hide Rotate, CountIn, Classify;
    RotateLookup(m.flows, ev.t, lim, key);
    RotateKeepsShape(m.flows, ev.t, lim);
    if ev.Capture? {
      var m1 := TickFlows(m, false, ev.t, lim);
      var c := Classify(ev.p, ev.hwDir, cfg);
      if c.Some? {
        CountInLookup(m1.flows, c.value.key, CountsAsSent(ev.p, c.value.key), ev.p.len, ev.t, ev.now, key);
      }
    }
  }

  /** Once approved, a flow stays in the table and stays approved, whatever happens. */
  lemma {:induction false} ApprovalIsPermanent(m: Machine, evs: seq<Event>, lim: Limits, cfg: Config, key: AddrPair)
    requires WellShaped(m) && ApprovedAt(m, key)
    ensures ApprovedAt(Run(m, evs, lim, cfg), key)
  {
    if evs != [] {
      ApprovalIsPermanent(m, evs[..|evs| - 1], lim, cfg, key);
      RunKeepsShape(m, evs[..|evs| - 1], lim, cfg);
      StepKeepsApproved(Run(m, evs[..|evs| - 1], lim, cfg), evs[|evs| - 1], lim, cfg, key);
    }
  }

  lemma ApprovedUpdate(es: seq<Entry>, i: nat, e: Entry)
    requires i < |es| && e.flow.approval == es[i].flow.approval
    ensures |Approved(es[i := e])| == |Approved(es)|
  {
    assert es == es[..i] + [es[i]] + es[i + 1..];
    assert es[i := e] == es[..i] + [e] + es[i + 1..];
    ApprovedConcat(es[..i] + [es[i]], es[i + 1..]);
    ApprovedConcat(es[..i] + [e], es[i + 1..]);
    ApprovedConcat(es[..i], [es[i]]);
    ApprovedConcat(es[..i], [e]);
    assert Approved([e]) == Approved([]) + if e.flow.approval then [e] else [];
    assert Approved([es[i]]) == Approved([]) + if es[i].flow.approval then [es[i]] else [];
  }

  lemma CountInApproved(es: seq<Entry>, key: AddrPair, asSent: bool, len: u16, t: int, now: int)
    ensures |Approved(CountIn(es, key, asSent, len, t, now))| == |Approved(es)|
  {
    var e := Entry(key, NewFlow(now));
    var s := BucketStart(es, Hash(key));
    ApprovedConcat(es[..s] + [e], es[s..]);
    ApprovedConcat(es[..s], [e]);
    ApprovedConcat(es[..s], es[s..]);
    assert es == es[..s] + es[s..];
    assert Approved([e]) == Approved([]) + [];
    var es1 := WithKey(es, key, now);
    var i := Index(es1, key);
    ApprovedUpdate(es1, i, Entry(key, CountPacket(es1[i].flow, asSent, len, t)));
  }

  lemma StepKeepsApprovedCount(m: Machine, ev: Event, lim: Limits, cfg: Config)
    ensures |Approved(Step(m, ev, lim, cfg).flows)| >= |Approved(m.flows)|
  {
    hide Rotate, CountIn, Approved, Classify;
    RotateKeepsApproved(m.flows, ev.t, lim);
    if ev.Capture? {
      var m1 := TickFlows(m, false, ev.t, lim);
      var c := Classify(ev.p, ev.hwDir, cfg);
      if c.Some? {
        CountInApproved(m1.flows, c.value.key, CountsAsSent(ev.p, c.value.key), ev.p.len, ev.t, ev.now);
      }
    }
  }

  lemma {:induction false} RunKeepsApprovedCount(m: Machine, evs: seq<Event>, lim: Limits, cfg: Config)
    ensures |Approved(Run(m, evs, lim, cfg).flows)| >= |Approved(m.flows)|
  {
    if evs != [] {
      RunKeepsApprovedCount(m, evs[..|evs| - 1], lim, cfg);
      StepKeepsApprovedCount(Run(m, evs[..|evs| - 1], lim, cfg), evs[|evs| - 1], lim, cfg);
    }
  }

  /** The sizes returned by successive rotations, however far apart, never decrease. */
  lemma SizesNeverDecrease(m: Machine, evs: seq<Event>, t: int, lim: Limits, cfg: Config)
    ensures |Approved(Rotate(Run(m, evs, lim, cfg).flows, t, lim))| >= |Approved(m.flows)|
  {
    hide Run, Rotate, Approved;
    RunKeepsApprovedCount(m, evs, lim, cfg);
    RotateKeepsApproved(Run(m, evs, lim, cfg).flows, t, lim);
  }
}

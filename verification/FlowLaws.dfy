/** What accounting and rotation do to one flow, said in its fields, and how the two interact over time. */
module FlowLaws {
  import opened Wrappers
  import opened Bytes
  import opened AddrHash
  import opened Packets
  import opened Flows
  import opened FlowRuns

  /** Sent and received bytes together, as the 64-bit sum that is compared with the threshold. */
  function Bytes64(f: Flow): int
  {
    (f.totalSent + f.totalRecv) % 0x1_0000_0000_0000_0000
  }

  function Least(lim: Limits): int
  {
    lim.threshold % 0x1_0000_0000_0000_0000
  }

  /**
   A rotation in the fields of a flow.  It is removed exactly if it is not approved and either
   is older than two minutes and lasted less than the duration, or has less than the threshold
   and was silent for longer than the interval.  It is approved afterwards exactly if it was
   or lasted for the duration with more than the threshold.  Nothing else changes.
   */
  lemma RotateInFields(es: seq<Entry>, t: int, lim: Limits, key: AddrPair)
    requires UniqueKeys(es) && Lookup(es, key).Some?
    ensures var f, r := Lookup(es, key).value, Lookup(Rotate(es, t, lim), key);
            && (r.None? <==>
                  && !f.approval
                  && (|| (t - f.createTime > 120 && f.lastUpdate - f.createTime < lim.duration)
                      || (Bytes64(f) < Least(lim) && t - f.lastUpdate > lim.deleteInterval)))
            && (r.Some? ==>
                  && (r.value.approval <==>
                        f.approval || (f.lastUpdate - f.createTime >= lim.duration && Bytes64(f) > Least(lim)))
                  && r.value == f.(approval := r.value.approval))
  {
    hide Rotate, Lookup;
    RotateLookup(es, t, lim, key);
    assert (Lookup(es, key).value.totalRecv + Lookup(es, key).value.totalSent) ==
           (Lookup(es, key).value.totalSent + Lookup(es, key).value.totalRecv);
  }

  /**
   A packet in the fields of its flow: its length goes to the side it counts on, modulo 2^64,
   and its time is noted; a new flow starts from nothing, stamped with the current time.
   */
  lemma CountInFields(es: seq<Entry>, key: AddrPair, asSent: bool, len: u16, t: int, now: int)
    requires UniqueKeys(es) && SortedByBucket(es)
    ensures var was := if Lookup(es, key).Some? then Lookup(es, key).value else Flow(0, 0, now, 0, false);
            var r := Lookup(CountIn(es, key, asSent, len, t, now), key);
            && r.Some?
            && r.value.totalSent == (if asSent then (was.totalSent + len) % 0x1_0000_0000_0000_0000 else was.totalSent)
            && r.value.totalRecv == (if asSent then was.totalRecv else (was.totalRecv + len) % 0x1_0000_0000_0000_0000)
            && r.value.createTime == was.createTime && r.value.lastUpdate == t && r.value.approval == was.approval
  {
    hide Lookup, CountIn;
    CountInLookup(es, key, asSent, len, t, now, key);
  }

  // ----- over time -----

  /** When the flow of a key was created, or would be. */
  function Created(es: seq<Entry>, key: AddrPair, now: int): int
  {
    if Lookup(es, key).Some? then Lookup(es, key).value.createTime else now
  }

  /**
   A flow with a packet not longer than the interval ago is not removed, once it lasted for the
   duration or as long as it is not older than two minutes.
   */
  lemma ActiveFlowSurvives(
    es: seq<Entry>, key: AddrPair, asSent: bool, len: u16, t: int, now: int, t2: int, lim: Limits)
    requires UniqueKeys(es) && SortedByBucket(es)
    requires 0 <= t2 - t <= lim.deleteInterval
    requires t - Created(es, key, now) >= lim.duration || t2 - Created(es, key, now) <= 120
    ensures Lookup(Rotate(CountIn(es, key, asSent, len, t, now), t2, lim), key).Some?
  {
    hide Rotate, Lookup, CountIn;
    CountInKeepsShape(es, key, asSent, len, t, now);
    CountInFields(es, key, asSent, len, t, now);
    RotateInFields(CountIn(es, key, asSent, len, t, now), t2, lim, key);
  }

  /** The packet that takes a flow over both thresholds earns it approval at the next rotation. */
  lemma FlowEarnsApproval(
    es: seq<Entry>, key: AddrPair, asSent: bool, len: u16, t: int, now: int, t2: int, lim: Limits)
    requires UniqueKeys(es) && SortedByBucket(es) && Lookup(es, key).Some?
    requires t - Lookup(es, key).value.createTime >= lim.duration
    requires var f := Lookup(es, key).value;
             Least(lim) < f.totalSent + f.totalRecv + len < 0x1_0000_0000_0000_0000
    ensures var r := Lookup(Rotate(CountIn(es, key, asSent, len, t, now), t2, lim), key);
            r.Some? && r.value.approval
  {
    hide Rotate, Lookup, CountIn;
    CountInKeepsShape(es, key, asSent, len, t, now);
    CountInFields(es, key, asSent, len, t, now);
    RotateInFields(CountIn(es, key, asSent, len, t, now), t2, lim, key);
  }

  // ----- when rotations happen -----

  /** The rotation of a tick, or of the tick that comes with a packet, is forced or due after four seconds. */
  lemma RotationTimes(m: Machine, ev: Event, lim: Limits, cfg: Config)
    ensures var due := (ev.Tick? && ev.send) || ev.t >= m.lastTimestamp + 4;
            && Step(m, ev, lim, cfg).lastTimestamp == (if due then ev.t else m.lastTimestamp)
            && TickFlows(m, ev.Tick? && ev.send, ev.t, lim).flows == (if due then Rotate(m.flows, ev.t, lim) else m.flows)
    ensures ev.t - Step(m, ev, lim, cfg).lastTimestamp < 4
  {
    hide Rotate, CountIn, Classify;
  }

  /** Whether an event is an admitted packet of the key. */
  predicate Hits(ev: Event, cfg: Config, key: AddrPair)
  {
    Admitted(ev, cfg).Some? && Admitted(ev, cfg).value.key == key
  }

  /** An event does to the flow of a key that it does not hit what its rotation does, if it has one. */
  lemma OtherKeys(m: Machine, ev: Event, lim: Limits, cfg: Config, key: AddrPair)
    requires WellShaped(m) && !Hits(ev, cfg, key)
    ensures var due := (ev.Tick? && ev.send) || ev.t >= m.lastTimestamp + 4;
            Lookup(Step(m, ev, lim, cfg).flows, key) ==
              Lookup(if due then Rotate(m.flows, ev.t, lim) else m.flows, key)
  {
    hide Rotate, CountIn, Classify, Lookup, UniqueKeys, SortedByBucket;
    RotateKeepsShape(m.flows, ev.t, lim);
    var m1 := TickFlows(m, ev.Tick? && ev.send, ev.t, lim);
    var o := Admitted(ev, cfg);
    if o.Some? {
      CountInLookup(m1.flows, o.value.key, CountsAsSent(ev.p, o.value.key), ev.p.len, ev.t, ev.now, key);
    }
  }

  /** A flow that is neither approved nor hit is kept as it is, or removed, while it is below the threshold. */
  lemma {:induction false} QuietFlowStays(m: Machine, evs: seq<Event>, lim: Limits, cfg: Config, key: AddrPair, f: Flow)
    requires WellShaped(m) && Lookup(m.flows, key) in {None, Some(f)}
    requires !f.approval && Bytes64(f) < Least(lim)
    requires forall ev :: ev in evs ==> !Hits(ev, cfg, key)
    ensures Lookup(Run(m, evs, lim, cfg).flows, key) in {None, Some(f)}
  {
    hide Step, Lookup, Hits, Rotate, UniqueKeys, SortedByBucket;
    if evs != [] {
      var before, ev := evs[..|evs| - 1], evs[|evs| - 1];
      QuietFlowStays(m, before, lim, cfg, key, f);
      RunKeepsShape(m, before, lim, cfg);
      QuietStep(Run(m, before, lim, cfg), ev, lim, cfg, key, f);
    }
  }

  lemma QuietStep(m: Machine, ev: Event, lim: Limits, cfg: Config, key: AddrPair, f: Flow)
    requires WellShaped(m) && Lookup(m.flows, key) in {None, Some(f)} && !Hits(ev, cfg, key)
    requires !f.approval && Bytes64(f) < Least(lim)
    ensures Lookup(Step(m, ev, lim, cfg).flows, key) in {None, Some(f)}
  {
    hide Step, Lookup, Hits, Rotate, UniqueKeys, SortedByBucket;
    OtherKeys(m, ev, lim, cfg, key);
    if Lookup(m.flows, key).Some? {
      RotateInFields(m.flows, ev.t, lim, key);
    } else {
      RotateLookup(m.flows, ev.t, lim, key);
    }
  }

  /**
   A quiet flow expires: whatever else happens, a flow below the threshold that is not approved
   and gets no packet is gone after the first due tick more than the interval after its last.
   */
  lemma QuietFlowExpires(
    m: Machine, evs: seq<Event>, send: bool, t: int, lim: Limits, cfg: Config, key: AddrPair, f: Flow)
    requires WellShaped(m) && Lookup(m.flows, key) == Some(f)
    requires !f.approval && Bytes64(f) < Least(lim)
    requires forall ev :: ev in evs ==> !Hits(ev, cfg, key)
    requires send || t >= Run(m, evs, lim, cfg).lastTimestamp + 4
    requires t - f.lastUpdate > lim.deleteInterval
    ensures Lookup(Run(m, evs + [Tick(send, t)], lim, cfg).flows, key) == None
  {
    hide Step, Lookup, Rotate, UniqueKeys, SortedByBucket;
    QuietFlowStays(m, evs, lim, cfg, key, f);
    RunKeepsShape(m, evs, lim, cfg);
    var m1, tick := Run(m, evs, lim, cfg), Tick(send, t);
    assert (evs + [tick])[..|evs|] == evs;
    OtherKeys(m1, tick, lim, cfg, key);
    if Lookup(m1.flows, key).Some? {
      RotateInFields(m1.flows, t, lim, key);
    } else {
      RotateLookup(m1.flows, t, lim, key);
    }
  }

  // ----- what is reported -----

  lemma ApprovedSnoc(es: seq<Entry>, e: Entry)
    ensures Approved(es + [e]) == Approved(es) + if e.flow.approval then [e] else []
  {
    assert (es + [e])[..|es|] == es;
  }

  lemma {:induction false} ApprovedAmong(es: seq<Entry>)
    ensures forall e :: e in Approved(es) <==> e in es && e.flow.approval
  {
    if es != [] {
      ApprovedAmong(es[..|es| - 1]);
      assert es == es[..|es| - 1] + [es[|es| - 1]];
    }
  }

  /** Exactly the approved flows of the table are reported, each once. */
  lemma {:induction false} ApprovedExactly(es: seq<Entry>, key: AddrPair)
    requires UniqueKeys(es)
    ensures UniqueKeys(Approved(es))
    ensures Lookup(Approved(es), key) ==
              if Lookup(es, key).Some? && Lookup(es, key).value.approval then Lookup(es, key) else None
  {
    hide Approved, Lookup;
    if es == [] {
      NothingApproved(key);
    } else {
      var was, e := es[..|es| - 1], es[|es| - 1];
      assert es == was + [e];
      ApprovedSnoc(was, e);
      ApprovedExactly(was, key);
      ApprovedAmong(was);
      LookupConcat(was, [e], key);
      LookupConcat(Approved(was), if e.flow.approval then [e] else [], key);
      LookupAbsent(was, e.key);
      LookupOne(e, key);
    }
  }

  lemma NothingApproved(key: AddrPair)
    ensures Approved([]) == [] && Lookup([], key) == None
  {
  }

  lemma LookupOne(e: Entry, key: AddrPair)
    ensures Lookup([e], key) == (if e.key == key then Some(e.flow) else None) && Lookup([], key) == None
  {
    assert [e][1..] == [];
  }
}

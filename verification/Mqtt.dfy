/** The sending side of `mqtt.c`: the session state machine and the report buffer. */
module Mqtt {
  import opened Wrappers
  import opened Bytes
  import opened AddrHash
  import opened HashTable
  import opened Flows
  import opened History
  import opened Report

  datatype MessageStatus = Init | Lost | Pending | Complete

  const RECONNECT_INTERVAL := 120

  /**
   The globals of the session.  `dataLive` and `outLive` count the raw and the compressed
   payload buffers: allocations minus frees.
   */
  datatype Session = Session(
    status: MessageStatus, connected: bool, token: int, delivered: int, lastTry: int, dataLive: int, outLive: int)

  // ----- the operations as functions -----

  /** `connect_and_subscribe`, where `up` says whether the broker accepted. */
  function AfterConnect(s: Session, up: bool): Session
  {
    var s1 := if s.status == Pending then s.(status := Init, dataLive := s.dataLive - 1) else s;
    if up then s1.(connected := true) else s1
  }

  function AfterCheckConnection(s: Session, t: int, up: bool): Session
  {
    if !s.connected && t - s.lastTry > RECONNECT_INTERVAL then AfterConnect(s.(lastTry := t), up) else s
  }

  predicate CanConstruct(s: Session, n: nat)
  {
    s.status != Pending && s.connected && n != 0
  }

  function AfterConstruct(s: Session, n: nat): Session
  {
    if CanConstruct(s, n) then s.(status := Pending, dataLive := s.dataLive + 1, outLive := s.outLive + 1) else s
  }

  /** `send_MQTT_msg`; `pub` is the token of a successful publish. */
  function AfterSend(s: Session, pub: Option<int>): Session
  {
    if !s.connected then s.(status := Complete, dataLive := s.dataLive - 1, outLive := s.outLive - 1)
    else s.(delivered := 0, token := if pub.Some? then pub.value else s.token)
  }

  function AfterCheckStatus(s: Session): Session
  {
    if s.delivered == s.token then
      s.(delivered := 0, status := Complete, dataLive := s.dataLive - 1, outLive := s.outLive - 1)
    else s
  }

  function AfterConnLost(s: Session, now: int, up: bool): Session
  {
    AfterConnect(s.(connected := false, lastTry := now), up)
  }

  /** What `tick` does to the session up to its closing status check; `report` carries the size when a report is wanted. */
  function BeforeCheck(s: Session, due: bool, report: Option<nat>, t: int, up: bool, pub: Option<int>): Session
  {
    if !due then s
    else
      var ready := report.Some? && CanConstruct(s, report.value);
      var s1 := if report.Some? then AfterConstruct(s, report.value) else s;
      var s2 := AfterCheckConnection(s1, t, up);
      if ready then AfterSend(s2, pub) else s2
  }

  function AfterTick(s: Session, due: bool, report: Option<nat>, t: int, up: bool, pub: Option<int>): Session
  {
    AfterCheckStatus(BeforeCheck(s, due, report, t, up, pub))
  }

  function InitSession(now: int, up: bool): Session
  {
    AfterConnect(Session(Init, false, -1, 0, now, 0, 0), up).(lastTry := now)
  }

  // ----- runs against a broker -----

  datatype Event =
    | Tick(due: bool, report: Option<nat>, t: int, up: bool, pub: Option<int>)
    | Delivered(dt: int)
    | ConnectionLost(now: int, reconnected: bool)

  /** The session together with the tokens published but neither confirmed nor lost. */
  datatype World = World(s: Session, inflight: seq<int>)

  predicate Publishes(s: Session, ev: Event)
  {
    ev.Tick? && ev.due && ev.report.Some? && CanConstruct(s, ev.report.value) && ev.pub.Some?
  }

  function Without(tokens: seq<int>, dt: int): seq<int>
  {
    if tokens == [] then [] else if tokens[0] == dt then tokens[1..] else [tokens[0]] + Without(tokens[1..], dt)
  }

  function Step(w: World, ev: Event): World
  {
    match ev
    case Tick(due, report, t, up, pub) =>
      World(AfterTick(w.s, due, report, t, up, pub),
            if Publishes(w.s, ev) then w.inflight + [pub.value] else w.inflight)
    case Delivered(dt) => World(w.s.(delivered := dt), Without(w.inflight, dt))
    case ConnectionLost(now, up) => World(AfterConnLost(w.s, now, up), [])
  }

  /**
   What the client library promises: publishing never returns token 0, a delivery is
   reported once and only for a message in flight, and the connection is not reported lost
   between a delivery and the next status check.
   */
  predicate Allowed(w: World, ev: Event)
  {
    match ev
    case Tick(_, _, _, _, pub) => pub != Some(0)
    case Delivered(dt) => dt in w.inflight
    case ConnectionLost(_, _) => w.s.delivered != w.s.token
  }

  function Run(w: World, evs: seq<Event>): World
  {
    if evs == [] then w else Step(Run(w, evs[..|evs| - 1]), evs[|evs| - 1])
  }

  predicate AllowedRun(w: World, evs: seq<Event>)
  {
    evs == [] || (AllowedRun(w, evs[..|evs| - 1]) && Allowed(Run(w, evs[..|evs| - 1]), evs[|evs| - 1]))
  }

  /** How often a connection loss found a message pending. */
  function Drops(w: World, evs: seq<Event>): nat
  {
    if evs == [] then 0
    else
      var before := evs[..|evs| - 1];
      Drops(w, before) +
      if evs[|evs| - 1].ConnectionLost? && Run(w, before).s.status == Pending then 1 else 0
  }

  function PendingCount(s: Session): nat
  {
    if s.status == Pending then 1 else 0
  }

  predicate Inv(w: World)
  {
    && |w.inflight| <= 1
    && (w.inflight != [] ==> w.s.status == Pending && w.inflight[0] == w.s.token && w.s.delivered != w.s.token)
    && (w.s.delivered == w.s.token ==> w.s.status == Pending && w.inflight == [])
    && (!w.s.connected ==> w.s.status != Pending)
    && (w.s.delivered == 0 || w.s.delivered == w.s.token)
    && w.s.token != 0
    && w.s.dataLive == PendingCount(w.s)
  }

  lemma InitInv(now: int, up: bool)
    ensures Inv(World(InitSession(now, up), [])) && InitSession(now, up).outLive == 0
  {
  }

  lemma StepKeepsInv(w: World, ev: Event)
    requires Inv(w) && Allowed(w, ev)
    ensures Inv(Step(w, ev))
    ensures Step(w, ev).s.outLive - PendingCount(Step(w, ev).s) ==
              w.s.outLive - PendingCount(w.s) + if ev.ConnectionLost? && w.s.status == Pending then 1 else 0
  {
    if ev.Delivered? {
      assert w.inflight == [w.inflight[0]];
    }
  }

  /**
   In every allowed run at most one message is outstanding, and one raw payload buffer is
   allocated while a message is pending and none otherwise.
   */
  lemma {:induction false} OneMessageOneBuffer(now: int, up: bool, evs: seq<Event>)
    requires AllowedRun(World(InitSession(now, up), []), evs)
    ensures var w := Run(World(InitSession(now, up), []), evs);
            && |w.inflight| <= 1 && (w.inflight != [] ==> w.s.status == Pending)
            && w.s.dataLive == PendingCount(w.s)
            && Inv(w)
  {
    if evs == [] {
      InitInv(now, up);
    } else {
      OneMessageOneBuffer(now, up, evs[..|evs| - 1]);
      StepKeepsInv(Run(World(InitSession(now, up), []), evs[..|evs| - 1]), evs[|evs| - 1]);
    }
  }

  /**
   The compressed buffer is not released when a connection is lost: one is left behind for
   each loss that finds a message pending.
   */
  lemma {:induction false} CompressedBuffers(now: int, up: bool, evs: seq<Event>)
    requires AllowedRun(World(InitSession(now, up), []), evs)
    ensures var w0 := World(InitSession(now, up), []);
            Run(w0, evs).s.outLive == PendingCount(Run(w0, evs).s) + Drops(w0, evs)
  {
    if evs == [] {
      InitInv(now, up);
    } else {
      CompressedBuffers(now, up, evs[..|evs| - 1]);
      OneMessageOneBuffer(now, up, evs[..|evs| - 1]);
      StepKeepsInv(Run(World(InitSession(now, up), []), evs[..|evs| - 1]), evs[|evs| - 1]);
    }
  }

  /** So the compressed buffers balance exactly when no loss ever found a message pending. */
  lemma CompressedBalanceIff(now: int, up: bool, evs: seq<Event>)
    requires AllowedRun(World(InitSession(now, up), []), evs)
    ensures var w0 := World(InitSession(now, up), []);
            Run(w0, evs).s.outLive == PendingCount(Run(w0, evs).s) <==> Drops(w0, evs) == 0
  {
    CompressedBuffers(now, up, evs);
  }

  // ----- runs without the library's promises -----

  /** The guard of the status check holds although no message is pending. */
  predicate Spurious(s: Session)
  {
    s.delivered == s.token && s.status != Pending
  }

  /** A balanced raw buffer stays balanced over a status check exactly unless the confirmation is spurious. */
  lemma CheckStatusBalanceIff(s: Session)
    requires s.dataLive == PendingCount(s)
    ensures AfterCheckStatus(s).dataLive == PendingCount(AfterCheckStatus(s)) <==> !Spurious(s)
  {
  }

  predicate IsFault(s: Session, ev: Event)
  {
    match ev
    case Tick(due, report, t, up, pub) => Spurious(BeforeCheck(s, due, report, t, up, pub))
    case _ => false
  }

  /** The ticks whose closing status check finds a confirmed token with nothing pending. */
  function Faults(w: World, evs: seq<Event>): nat
  {
    if evs == [] then 0
    else
      var before := evs[..|evs| - 1];
      Faults(w, before) + if IsFault(Run(w, before).s, evs[|evs| - 1]) then 1 else 0
  }

  /** What any event does to the two counts; a message is pending only while the connection is on. */
  lemma StepCountsBuffers(w: World, ev: Event)
    requires !w.s.connected ==> w.s.status != Pending
    ensures var s, s' := w.s, Step(w, ev).s;
            && (!s'.connected ==> s'.status != Pending)
            && s'.dataLive - PendingCount(s') == s.dataLive - PendingCount(s) - (if IsFault(s, ev) then 1 else 0)
            && s'.outLive - PendingCount(s') ==
                 s.outLive - PendingCount(s)
                 + (if ev.ConnectionLost? && s.status == Pending then 1 else 0)
                 - (if IsFault(s, ev) then 1 else 0)
  {
    hide Without;
  }

  /**
   In every run, whatever the library does, the raw buffers are those of the pending message
   less one for each fault, and the compressed ones are these plus one for each loss that
   found a message pending.
   */
  lemma {:induction false} BuffersInAnyRun(now: int, up: bool, evs: seq<Event>)
    ensures var w0 := World(InitSession(now, up), []);
            var s := Run(w0, evs).s;
            && (!s.connected ==> s.status != Pending)
            && s.dataLive == PendingCount(s) - Faults(w0, evs)
            && s.outLive == PendingCount(s) + Drops(w0, evs) - Faults(w0, evs)
  {
    hide Step, IsFault;
    if evs == [] {
      InitInv(now, up);
    } else {
      BuffersInAnyRun(now, up, evs[..|evs| - 1]);
      StepCountsBuffers(Run(World(InitSession(now, up), []), evs[..|evs| - 1]), evs[|evs| - 1]);
    }
  }

  /**
   So in any run the raw buffers balance exactly when there was no fault, and both kinds
   do exactly when also no loss found a message pending.
   */
  lemma BalanceIffNoFault(now: int, up: bool, evs: seq<Event>)
    ensures var w0 := World(InitSession(now, up), []);
            var s := Run(w0, evs).s;
            && (s.dataLive == PendingCount(s) <==> Faults(w0, evs) == 0)
            && (s.dataLive == s.outLive == PendingCount(s) <==> Faults(w0, evs) == 0 && Drops(w0, evs) == 0)
  {
    BuffersInAnyRun(now, up, evs);
  }

  /** Under the library's promises there are no faults. */
  lemma AllowedRunHasNoFault(now: int, up: bool, evs: seq<Event>)
    requires AllowedRun(World(InitSession(now, up), []), evs)
    ensures Faults(World(InitSession(now, up), []), evs) == 0
  {
    OneMessageOneBuffer(now, up, evs);
    BalanceIffNoFault(now, up, evs);
  }

  const REPORT := Tick(true, Some(1), 10, true, Some(7))
  const IDLE := Tick(false, None, 11, true, None)

  const LOSS := ConnectionLost(10, true)

  lemma ReportThenLoss(w: World)
    requires w == World(InitSession(0, true), [])
    ensures Step(w, REPORT) == World(Session(Pending, true, 7, 0, 0, 1, 1), [7])
    ensures Allowed(w, REPORT) && Allowed(Step(w, REPORT), LOSS)
    ensures Step(Step(w, REPORT), LOSS).s == Session(Init, true, 7, 0, 10, 0, 1)
  {
    assert [] + [7] == [7];
  }

  /** An allowed run that leaves a compressed buffer behind: the connection is lost with a message pending. */
  lemma LossLeavesCompressedBuffer()
    ensures var w0, evs := World(InitSession(0, true), []), [REPORT] + [LOSS];
            && AllowedRun(w0, evs) && Drops(w0, evs) == 1
            && Run(w0, evs).s.status != Pending && Run(w0, evs).s.dataLive == 0 && Run(w0, evs).s.outLive == 1
  {
    hide Run, AllowedRun, Drops, Step, Allowed, InitSession;
    var w0 := World(InitSession(0, true), []);
    ReportThenLoss(w0);
    RunNothing(w0);
    RunSnoc(w0, [], REPORT);
    RunSnoc(w0, [REPORT], LOSS);
    assert [] + [REPORT] == [REPORT];
  }

  /** A confirmation that arrives after the connection was lost frees the buffer a second time. */
  lemma LateDeliveryBreaksBalance()
    ensures var w := Run(World(InitSession(0, true), []), [REPORT, ConnectionLost(10, true), Delivered(7), IDLE]);
            w.s.dataLive == -1
  {
    var w0 := World(InitSession(0, true), []);
    Unroll4(w0, REPORT, ConnectionLost(10, true), Delivered(7), IDLE);
  }

  /** So does a second confirmation of the same message ... */
  lemma RepeatedDeliveryBreaksBalance()
    ensures var w := Run(World(InitSession(0, true), []), [REPORT, Delivered(7), IDLE, Delivered(7)]);
            Step(w, IDLE).s.dataLive == -1
  {
    var w0 := World(InitSession(0, true), []);
    Unroll4(w0, REPORT, Delivered(7), IDLE, Delivered(7));
  }

  /** ... a connection loss between the confirmation and the status check ... */
  lemma LossBeforeCheckBreaksBalance()
    ensures var w := Run(World(InitSession(0, true), []), [REPORT, Delivered(7), ConnectionLost(10, true), IDLE]);
            w.s.dataLive == -1
  {
    var w0 := World(InitSession(0, true), []);
    Unroll4(w0, REPORT, Delivered(7), ConnectionLost(10, true), IDLE);
  }

  /** ... and a publish that returns token 0, which is taken for its own confirmation. */
  lemma ZeroTokenBreaksBalance()
    ensures var w := Run(World(InitSession(0, true), []),
                         [Tick(true, Some(1), 10, true, Some(0)), IDLE, IDLE, IDLE]);
            w.s.dataLive == -3
  {
    var w0 := World(InitSession(0, true), []);
    Unroll4(w0, Tick(true, Some(1), 10, true, Some(0)), IDLE, IDLE, IDLE);
  }

  lemma RunSnoc(w: World, evs: seq<Event>, ev: Event)
    ensures Run(w, evs + [ev]) == Step(Run(w, evs), ev)
    ensures AllowedRun(w, evs + [ev]) <==> AllowedRun(w, evs) && Allowed(Run(w, evs), ev)
    ensures Drops(w, evs + [ev]) ==
              Drops(w, evs) + if ev.ConnectionLost? && Run(w, evs).s.status == Pending then 1 else 0
  {
    hide Step, Allowed;
    assert (evs + [ev])[..|evs|] == evs;
  }

  lemma RunNothing(w: World)
    ensures Run(w, []) == w && AllowedRun(w, []) && Drops(w, []) == 0
  {
  }

  lemma Unroll4(w: World, a: Event, b: Event, c: Event, d: Event)
    ensures Run(w, [a, b, c, d]) == Step(Step(Step(Step(w, a), b), c), d)
  {
    RunSnoc(w, [a, b, c], d);
    RunSnoc(w, [a, b], c);
    RunSnoc(w, [a], b);
    RunSnoc(w, [], a);
    assert [a, b, c] + [d] == [a, b, c, d] && [a, b] + [c] == [a, b, c] && [a] + [b] == [a, b] && [] + [a] == [a];
  }

  // ----- one report, and reconnecting -----

  /** A new session has no message, no buffers and no token that could be taken for a confirmed one. */
  lemma FreshSession(now: int, up: bool)
    ensures var s := InitSession(now, up);
            && s.connected == up && s.status == Init && s.lastTry == now
            && s.token < 0 == s.delivered && s.dataLive == 0 == s.outLive
  {
  }

  /** What a tick does to the connection: a session that is off tries again when the last try is over two minutes ago. */
  lemma TickConnection(s: Session, due: bool, report: Option<nat>, t: int, up: bool, pub: Option<int>)
    ensures var r := AfterTick(s, due, report, t, up, pub);
            var tries := due && !s.connected && t > s.lastTry + 120;
            && (r.connected <==> s.connected || (tries && up))
            && r.lastTry == (if tries then t else s.lastTry)
  {
  }

  /** After a loss the session is on again at once if the broker is willing, and off since then otherwise. */
  lemma LossReconnects(s: Session, now: int, up: bool)
    ensures var r := AfterConnLost(s, now, up);
            r.connected == up && r.lastTry == now && r.status != Pending && r.token == s.token && r.delivered == s.delivered
  {
  }

  lemma {:induction false} StaysOff(w: World, evs: seq<Event>)
    requires !w.s.connected
    requires forall ev :: ev in evs ==> !ev.ConnectionLost? && (ev.Tick? ==> ev.t <= w.s.lastTry + 120)
    ensures !Run(w, evs).s.connected && Run(w, evs).s.lastTry == w.s.lastTry
  {
    hide Without, AfterTick;
    if evs != [] {
      var before, ev := evs[..|evs| - 1], evs[|evs| - 1];
      StaysOff(w, before);
      var s := Run(w, before).s;
      if ev.Tick? {
        TickConnection(s, ev.due, ev.report, ev.t, ev.up, ev.pub);
      }
    }
  }

  /** A session that was lost is on again after the first due tick over two minutes later that finds the broker willing. */
  lemma ReconnectsInTime(w: World, now: int, evs: seq<Event>, report: Option<nat>, t: int, pub: Option<int>)
    requires forall ev :: ev in evs ==> !ev.ConnectionLost? && (ev.Tick? ==> ev.t <= now + 120)
    requires t > now + 120
    ensures Step(Run(Step(w, ConnectionLost(now, false)), evs), Tick(true, report, t, true, pub)).s.connected
  {
    hide Run, AfterTick, Without;
    var w1 := Step(w, ConnectionLost(now, false));
    LossReconnects(w.s, now, false);
    StaysOff(w1, evs);
    TickConnection(Run(w1, evs).s, true, report, t, true, pub);
  }

  /** A report of at least one flow goes out when the session is on and no message is pending, and the token is noted. */
  lemma ReportGoesOut(s: Session, n: nat, t: int, up: bool, k: int)
    requires s.connected && s.status != Pending && n > 0 && k != 0
    ensures var r := AfterTick(s, true, Some(n), t, up, Some(k));
            r.status == Pending && r.connected && r.token == k && r.delivered == 0
  {
  }

  /** While a message is pending no other one goes out and nothing but its own confirmation completes it. */
  lemma {:induction false} PendingStays(w: World, evs: seq<Event>)
    requires w.s.status == Pending && w.s.connected && w.s.delivered != w.s.token && w.s.token != 0
    requires forall ev :: ev in evs ==> !ev.ConnectionLost? && ev != Delivered(w.s.token)
    ensures var s := Run(w, evs).s;
            && s.status == Pending && s.connected && s.token == w.s.token && s.delivered != s.token
            && s.dataLive == w.s.dataLive && s.outLive == w.s.outLive
  {
    hide Without;
    if evs != [] {
      var ev := evs[|evs| - 1];
      PendingStays(w, evs[..|evs| - 1]);
      assert ev in evs && (ev.Delivered? ==> ev != Delivered(ev.dt) || ev.dt != w.s.token);
    }
  }

  /**
   The life of a report: it goes out at a tick, stays the only message whatever else happens
   on an unbroken connection, and is complete with the tick after its confirmation, so that
   the next one may go out.
   */
  lemma ReportLifecycle(
    w: World, n: nat, t: int, up: bool, k: int, evs: seq<Event>,
    due: bool, t2: int, up2: bool, n2: nat)
    requires w.s.connected && w.s.status != Pending && n > 0 && k != 0
    requires forall ev :: ev in evs ==> !ev.ConnectionLost? && ev != Delivered(k)
    ensures var sent := Step(w, Tick(true, Some(n), t, up, Some(k)));
            var waiting := Run(sent, evs);
            var done := Step(Step(waiting, Delivered(k)), Tick(due, None, t2, up2, None));
            && sent.s.status == Pending && waiting.s.status == Pending && done.s.status == Complete
            && done.s.connected && (n2 > 0 <==> CanConstruct(done.s, n2))
            && done.s.dataLive == w.s.dataLive && done.s.outLive == w.s.outLive
  {
    hide Run, Without;
    ReportGoesOut(w.s, n, t, up, k);
    PendingStays(Step(w, Tick(true, Some(n), t, up, Some(k))), evs);
  }

  // ----- the code -----

  /** `memcpy` of the `n` low bytes of a word, in memory order. */
  method PutWord(buf: array<u8>, at: nat, x: nat, n: nat)
    requires at + n <= buf.Length
    modifies buf
    ensures buf[..at + n] == old(buf[..at]) + LE(x, n)
  {
    var i, rest := 0, x;
    while i < n
      invariant 0 <= i <= n && rest >= 0
      invariant buf[..at] == old(buf[..at])
      invariant buf[at..at + i] + LE(rest, n - i) == LE(x, n)
    {
      buf[at + i] := rest % 256;
      assert buf[at..at + i + 1] == buf[at..at + i] + [rest % 256];
      rest := rest / 256;
      i := i + 1;
    }
    assert buf[..at + n] == buf[..at] + buf[at..at + n];
  }

  /** One more field behind the part of the record that was copied before. */
  method PutField(buf: array<u8>, at: nat, x: nat, n: nat, ghost before: seq<u8>, ghost copied: seq<u8>)
    requires at + n <= buf.Length && buf[..at] == before + copied
    modifies buf
    ensures buf[..at + n] == before + (copied + LE(x, n))
  {
    PutWord(buf, at, x, n);
    Reassociate(before, copied, LE(x, n));
  }

  /** The nine copies for one flow. */
  method PutRecord(buf: array<u8>, at: nat, key: AddrPair, d: Record)
    requires at + STRUCT_SIZE <= buf.Length
    modifies buf
    ensures buf[..at + STRUCT_SIZE] == old(buf[..at]) + EncodeOne(Entry(key, d.Value()))
  {
    hide LE;
    ghost var before, b := buf[..at], LE(key.src, 4);
    PutWord(buf, at, key.src, 4);
    PutField(buf, at + 4, key.srcPort, 2, before, b);
    b := b + LE(key.srcPort, 2);
    PutField(buf, at + 6, key.dst, 4, before, b);
    b := b + LE(key.dst, 4);
    PutField(buf, at + 10, key.dstPort, 2, before, b);
    b := b + LE(key.dstPort, 2);
    PutField(buf, at + 12, key.protocol, 2, before, b);
    b := b + LE(key.protocol, 2);
    PutField(buf, at + 14, d.totalSent, 8, before, b);
    b := b + LE(d.totalSent, 8);
    PutField(buf, at + 22, d.totalRecv, 8, before, b);
    b := b + LE(d.totalRecv, 8);
    PutField(buf, at + 30, Time32(d.createTime), 4, before, b);
    b := b + LE(Time32(d.createTime), 4);
    PutField(buf, at + 34, Time32(d.lastUpdate), 4, before, b);
  }

  lemma {:induction false} ApprovedPrefix(flows: seq<Entry>, j: nat)
    requires j <= |flows|
    ensures |Approved(flows[..j])| <= |Approved(flows)|
    ensures j < |flows| ==>
              (Approved(flows[..j + 1]) ==
               if flows[j].flow.approval then Approved(flows[..j]) + [flows[j]] else Approved(flows[..j]))
    ensures j < |flows| && flows[j].flow.approval ==> |Approved(flows[..j])| < |Approved(flows)|
    decreases |flows| - j
  {
    if j < |flows| {
      assert flows[..j + 1][..j] == flows[..j];
      ApprovedPrefix(flows, j + 1);
    } else {
      assert flows[..j] == flows;
    }
  }

  /** One turn of the copying loop. */
  method CopyNode(buf: array<u8>, current: nat, node: FlowNode, ghost flows: seq<Entry>, ghost j: nat) returns (next: nat)
    requires j < |flows| && flows[j] == Entry(node.key, node.rec.Value())
    requires buf.Length == STRUCT_SIZE * |Approved(flows)|
    requires current == STRUCT_SIZE * |Approved(flows[..j])| <= buf.Length
    requires buf[..current] == EncodeAll(Approved(flows[..j]))
    modifies buf
    ensures next == STRUCT_SIZE * |Approved(flows[..j + 1])| <= buf.Length
    ensures buf[..next] == EncodeAll(Approved(flows[..j + 1]))
  {
    hide LE, EncodeOne, Approved;
    ApprovedPrefix(flows, j);
    next := current;
    if node.rec.approval {
      EncodeSnoc(Approved(flows[..j]), flows[j]);
      PutRecord(buf, current, node.key, node.rec);
      next := current + STRUCT_SIZE;
    }
  }

  /** The copying loop of `construct_MQTT_msg`: it fills the buffer to its very end. */
  method CopyApproved(buf: array<u8>, history: Table<AddrPair, Record>, ghost flows: seq<Entry>)
    requires history.Valid() && Shows(history.items, flows)
    requires buf.Length == STRUCT_SIZE * |Approved(flows)|
    modifies buf
    ensures buf[..] == EncodeAll(Approved(flows))
  {
    hide LE, EncodeOne, EncodeAll, Approved, Layout, NextIn, HeadIn, Table.Successor;
    var current: nat := 0;
    ghost var j := 0;
    var _, node := history.NextItem(null);
    history.StartsAtFirst();
    NoneYet(flows);
    while node != null
      invariant 0 <= j <= |flows| == |history.items| && history.Valid() && Shows(history.items, flows)
      invariant node == if j < |flows| then history.items[j] else null
      invariant current == STRUCT_SIZE * |Approved(flows[..j])| <= buf.Length
      invariant buf[..current] == EncodeAll(Approved(flows[..j]))
      decreases |flows| - j
    {
      var _, next := history.NextItem(node);
      history.SuccessorIsNext(j);
      current := CopyNode(buf, current, node, flows, j);
      node := next;
      j := j + 1;
    }
    assert flows[..|flows|] == flows;
    assert buf[..current] == buf[..];
  }

  class Publisher {
    var status: MessageStatus
    var connected: bool
    var token: int
    var delivered: int
    var lastTry: int
    var data: array<u8>
    var msgLen: nat
    ghost var dataLive: int
    ghost var outLive: int

    ghost function Abs(): Session
      reads this
    {
      Session(status, connected, token, delivered, lastTry, dataLive, outLive)
    }

    /** `init_MQTT`. */
    constructor (now: int, up: bool)
      ensures Abs() == InitSession(now, up) && fresh(data)
    {
      status, connected, token, delivered := Init, false, -1, 0;
      lastTry, msgLen, dataLive, outLive := now, 0, 0, 0;
      data := new u8[0];
      new;
      ConnectAndSubscribe(up);
      lastTry := now;
    }

    method ConnectAndSubscribe(up: bool)
      modifies this
      ensures Abs() == AfterConnect(old(Abs()), up) && data == old(data) && msgLen == old(msgLen)
    {
      if status == Pending {
        dataLive := dataLive - 1;
        status := Init;
      }
      if up {
        connected := true;
      }
    }

    method CheckMqttConnection(t: int, up: bool)
      modifies this
      ensures Abs() == AfterCheckConnection(old(Abs()), t, up) && data == old(data) && msgLen == old(msgLen)
    {
      if !connected && t - lastTry > RECONNECT_INTERVAL {
        lastTry := t;
        ConnectAndSubscribe(up);
      }
    }

    method ConnLost(now: int, up: bool)
      modifies this
      ensures Abs() == AfterConnLost(old(Abs()), now, up) && data == old(data) && msgLen == old(msgLen)
    {
      connected := false;
      lastTry := now;
      ConnectAndSubscribe(up);
    }

    /**
     `construct_MQTT_msg`.  The caller passes the number of approved flows; the buffer is
     exactly that many records long, and the copying fills it and never passes its end.
     */
    method ConstructMqttMsg(n: nat, history: Table<AddrPair, Record>, ghost flows: seq<Entry>) returns (failed: bool)
      requires history.Valid() && Shows(history.items, flows)
      requires n == |Approved(flows)|
      modifies this
      ensures Abs() == AfterConstruct(old(Abs()), n)
      ensures failed <==> !CanConstruct(old(Abs()), n)
      ensures failed ==> data == old(data)
      ensures !failed ==> fresh(data) && data[..] == EncodeAll(Approved(flows)) && msgLen == data.Length
    {
      hide Approved, EncodeAll, Layout, NextIn, HeadIn;
      if status == Pending || !connected {
        return true;
      }
      if n == 0 {
        return true;
      }
      var buf := new u8[STRUCT_SIZE * n];
      data := buf;
      dataLive := dataLive + 1;
      status := Pending;
      CopyApproved(buf, history, flows);
      msgLen := STRUCT_SIZE * n;
      outLive := outLive + 1;
      return false;
    }

    method SendMqttMsg(pub: Option<int>)
      modifies this
      ensures Abs() == AfterSend(old(Abs()), pub) && data == old(data) && msgLen == old(msgLen)
    {
      if !connected {
        status := Complete;
        dataLive, outLive := dataLive - 1, outLive - 1;
        return;
      }
      delivered := 0;
      if pub.Some? {
        token := pub.value;
      }
    }

    /** `delivered`, the callback for a confirmed message. */
    method Confirm(dt: int)
      modifies this
      ensures Abs() == old(Abs()).(delivered := dt) && data == old(data) && msgLen == old(msgLen)
    {
      delivered := dt;
    }

    method CheckStatus()
      modifies this
      ensures Abs() == AfterCheckStatus(old(Abs())) && data == old(data) && msgLen == old(msgLen)
    {
      if delivered == token {
        delivered := 0;
        dataLive, outLive := dataLive - 1, outLive - 1;
        status := Complete;
      }
    }
  }

  lemma EncodeSnoc(es: seq<Entry>, e: Entry)
    ensures EncodeAll(es + [e]) == EncodeAll(es) + EncodeOne(e)
  {
  }

  lemma NoneYet(flows: seq<Entry>)
    ensures Approved(flows[..0]) == [] && EncodeAll(Approved(flows[..0])) == []
  {
  }
}


/**
 The resolver's queue and cache: `resolver.c` and `ns_hash.c`.

 The first part is the shared data as a value and what each critical section does to it;
 the second part is the transition system of producers and workers.
 */
module Resolver {
  import opened Wrappers
  import AddrHash
  import opened Bytes
  import opened HashTable

  const RESOLVE_QUEUE_LENGTH: nat := 20
  const AF_INET: u32 := 2
  const AF_INET6: u32 := 10

  // ----- addresses and cache keys -----

  datatype AddrStorage = AddrStorage(af: u32, len: u32, addr: seq<u8>)

  /** `struct addr_storage`: the address union has 16 bytes. */
  type Addr = a: AddrStorage | |a.addr| == 16 witness AddrStorage(0, 0, seq(16, _ => 0))

  function AddrLen(af: u32): (n: u32)
  {
    if af == AF_INET then 4 else 16
  }

  /** What `resolve` puts together: zeroed, then family, length and the bytes of the address. */
  function MakeAddr(af: u32, bytes: seq<u8>): (a: Addr)
    requires |bytes| == AddrLen(af)
    ensures a.af == af && a.len == (if af == 2 then 4 else 16) && |bytes| == a.len
    ensures forall i :: 0 <= i < 16 ==> a.addr[i] == if i < |bytes| then bytes[i] else 0
  {
    AddrStorage(af, AddrLen(af), bytes + seq(16 - |bytes|, _ => 0))
  }

  /** The cache looks at an `in6_addr` at the start of the structure: its first 16 bytes. */
  function KeyOf(a: Addr): (k: seq<u8>)
    ensures |k| == 16
  {
    LE(a.af, 4) + LE(a.len, 4) + a.addr[..8]
  }

  function ByteSum(k: seq<u8>): (r: nat)
  {
    if k == [] then 0 else k[0] + ByteSum(k[1..])
  }

  const NS_HASH_TABLE_SIZE: nat := 256

  function NsHash(k: seq<u8>): (h: int)
    ensures 0 <= h < NS_HASH_TABLE_SIZE
  {
    ByteSum(k) % 0xFF
  }

  lemma {:induction false} ByteSumConcat(a: seq<u8>, b: seq<u8>)
    ensures ByteSum(a + b) == ByteSum(a) + ByteSum(b)
  {
    if a == [] {
      assert a + b == b;
    } else {
      assert (a + b)[1..] == a[1..] + b;
      ByteSumConcat(a[1..], b);
    }
  }

  /** A word read from memory has the byte sum that the word-wise helper computes. */
  lemma WordSum(a: u8, b: u8, c: u8, d: u8)
    ensures ByteSum([a, b, c, d]) == AddrHash.HashUint32(a + 0x100 * b + 0x1_0000 * c + 0x100_0000 * d)
  {
    AddrHash.HashUint32Bytes(a, b, c, d);
    assert [a, b, c, d] == [a] + ([b] + ([c] + [d]));
    assert ByteSum([d]) == d && ByteSum([c] + [d]) == c + d && ByteSum([b] + ([c] + [d])) == b + c + d by {
      assert [d][1..] == [] && ([c] + [d])[1..] == [d] && ([b] + ([c] + [d]))[1..] == [c] + [d];
    }
    assert ([a] + ([b] + ([c] + [d])))[1..] == [b] + ([c] + [d]);
  }

  /** The hash of a key made of four words. */
  lemma NsHashOfWords(a: u32, b: u32, c: u32, d: u32)
    ensures NsHash(LE(a, 4) + LE(b, 4) + LE(c, 4) + LE(d, 4)) ==
              (AddrHash.HashUint32(a) + AddrHash.HashUint32(b) + AddrHash.HashUint32(c) + AddrHash.HashUint32(d)) % 255
  {
    hide LE, AddrHash.HashUint32, ByteSum, NsHash;
    ByteSumFour(LE(a, 4), LE(b, 4), LE(c, 4), LE(d, 4));
    ImageSum(a);
    ImageSum(b);
    ImageSum(c);
    ImageSum(d);
    NsHashIs(LE(a, 4) + LE(b, 4) + LE(c, 4) + LE(d, 4));
  }

  lemma NsHashIs(k: seq<u8>)
    ensures NsHash(k) == ByteSum(k) % 255
  {
  }

  lemma ByteSumFour(a: seq<u8>, b: seq<u8>, c: seq<u8>, d: seq<u8>)
    ensures ByteSum(a + b + c + d) == ByteSum(a) + ByteSum(b) + ByteSum(c) + ByteSum(d)
  {
    hide ByteSum;
    ByteSumConcat(a + b + c, d);
    ByteSumConcat(a + b, c);
    ByteSumConcat(a, b);
  }

  lemma ImageSum(w: u32)
    ensures ByteSum(LE(w, 4)) == AddrHash.HashUint32(w)
  {
    hide LE, AddrHash.HashUint32, ByteSum;
    var x: nat := w / 0x100;
    var y: nat := x / 0x100;
    var a, b, c, d := w % 0x100, x % 0x100, y % 0x100, y / 0x100;
    assert w == a + 0x100 * b + 0x1_0000 * c + 0x100_0000 * d;
    LEOfWord(a, b, c, d);
    WordSum(a, b, c, d);
  }

  /**
   What the cache treats as one key: the same family and the same first eight bytes.  IPv4
   addresses are told apart; IPv6 addresses are only when their upper halves differ.
   */
  lemma SameKeyIff(af: u32, bytes: seq<u8>, af': u32, bytes': seq<u8>)
    requires |bytes| == AddrLen(af) && |bytes'| == AddrLen(af')
    ensures KeyOf(MakeAddr(af, bytes)) == KeyOf(MakeAddr(af', bytes')) <==>
              af == af' && if af == AF_INET then bytes == bytes' else bytes[..8] == bytes'[..8]
  {
    hide LE, FromLE;
    var a, a' := MakeAddr(af, bytes), MakeAddr(af', bytes');
    FourBytes();
    FromLEInvertsLE(af, 4);
    FromLEInvertsLE(af', 4);
    assert KeyOf(a)[..4] == LE(af, 4) && KeyOf(a')[..4] == LE(af', 4);
    assert KeyOf(a)[8..] == a.addr[..8] && KeyOf(a')[8..] == a'.addr[..8];
    if af == af' == AF_INET {
      assert a.addr[..8][..4] == bytes && a'.addr[..8][..4] == bytes';
    } else if af == af' {
      assert a.addr == bytes && a'.addr == bytes';
    }
  }

  /** Link-local and site-local IPv6 addresses stay numerical. */
  predicate StaysNumerical(a: Addr)
  {
    a.af == AF_INET6 && a.addr[0] == 0xFE && 2 <= a.addr[1] / 64
  }

  lemma NumericalByKey(a: Addr, b: Addr)
    requires KeyOf(a) == KeyOf(b)
    ensures StaysNumerical(a) == StaysNumerical(b)
  {
    hide LE, FromLE;
    FourBytes();
    FromLEInvertsLE(a.af, 4);
    FromLEInvertsLE(b.af, 4);
    assert KeyOf(a)[..4] == LE(a.af, 4) && KeyOf(b)[..4] == LE(b.af, 4);
    assert KeyOf(a)[8] == a.addr[0] && KeyOf(b)[8] == b.addr[0];
    assert KeyOf(a)[9] == a.addr[1] && KeyOf(b)[9] == b.addr[1];
  }

  // ----- the shared data -----

  type Cache = map<seq<u8>, string>

  datatype Shared = Shared(ring: seq<Addr>, head: nat, tail: nat, cache: Cache)

  predicate InRing(s: Shared)
  {
    |s.ring| == RESOLVE_QUEUE_LENGTH && s.head < RESOLVE_QUEUE_LENGTH && s.tail < RESOLVE_QUEUE_LENGTH
  }

  function Next(i: nat): (r: nat)
    ensures i < RESOLVE_QUEUE_LENGTH ==> r == if i + 1 < RESOLVE_QUEUE_LENGTH then i + 1 else 0
  {
    (i + 1) % RESOLVE_QUEUE_LENGTH
  }

  /** The queued addresses, oldest first. */
  function Queue<T>(ring: seq<T>, head: nat, tail: nat): (q: seq<T>)
    requires |ring| == RESOLVE_QUEUE_LENGTH && head < RESOLVE_QUEUE_LENGTH && tail < RESOLVE_QUEUE_LENGTH
    ensures |q| < RESOLVE_QUEUE_LENGTH && (q == [] <==> head == tail)
  {
    if tail <= head then ring[tail..head] else ring[tail..] + ring[..head]
  }

  function QueueOf(s: Shared): seq<Addr>
    requires InRing(s)
  {
    Queue(s.ring, s.head, s.tail)
  }

  lemma Push<T>(ring: seq<T>, head: nat, tail: nat, a: T)
    requires |ring| == RESOLVE_QUEUE_LENGTH && head < RESOLVE_QUEUE_LENGTH && tail < RESOLVE_QUEUE_LENGTH
    requires Next(head) != tail
    ensures Queue(ring[head := a], Next(head), tail) == Queue(ring, head, tail) + [a]
  {
    Overwritten(ring, head, a, if tail <= head then tail else 0);
    if head < tail {
      assert ring[head := a][tail..] == ring[tail..];
    }
  }

  lemma Overwritten<T>(ring: seq<T>, head: nat, a: T, from: nat)
    requires from <= head < |ring|
    ensures ring[head := a][from..head + 1] == ring[from..head] + [a]
  {
  }

  lemma Pop<T>(ring: seq<T>, head: nat, tail: nat)
    requires |ring| == RESOLVE_QUEUE_LENGTH && head < RESOLVE_QUEUE_LENGTH && tail < RESOLVE_QUEUE_LENGTH
    requires head != tail
    ensures Queue(ring, head, tail) == [ring[tail]] + Queue(ring, head, Next(tail))
  {
    hide Next;
    if tail < head {
      FirstOff(ring, tail, head);
      assert Queue(ring, head, tail + 1) == ring[tail + 1..head];
    } else if tail == RESOLVE_QUEUE_LENGTH - 1 {
      assert ring[tail..] == [ring[tail]];
      assert Queue(ring, head, 0) == ring[..head];
    } else {
      FirstOff(ring, tail, |ring|);
      assert Queue(ring, head, tail + 1) == ring[tail + 1..] + ring[..head];
      Reassociate([ring[tail]], ring[tail + 1..], ring[..head]);
    }
  }

  lemma FirstOff<T>(ring: seq<T>, tail: nat, end: nat)
    requires tail < end <= |ring|
    ensures ring[tail..end] == [ring[tail]] + ring[tail + 1..end]
  {
  }

  /** All but one of the slots are taken exactly when the next head would meet the tail. */
  lemma FullIff<T>(ring: seq<T>, head: nat, tail: nat)
    requires |ring| == RESOLVE_QUEUE_LENGTH && head < RESOLVE_QUEUE_LENGTH && tail < RESOLVE_QUEUE_LENGTH
    ensures Next(head) == tail <==> |Queue(ring, head, tail)| == RESOLVE_QUEUE_LENGTH - 1
  {
  }

  /** Whether `resolve` queues the address. */
  predicate Queues(s: Shared, a: Addr)
    requires InRing(s)
  {
    KeyOf(a) !in s.cache && Next(s.head) != s.tail && !StaysNumerical(a)
  }

  /** The critical section of `resolve`; `text` is the numerical form of the address. */
  function Resolved(s: Shared, a: Addr, text: string): (r: Shared)
    requires InRing(s)
    ensures InRing(r)
  {
    if KeyOf(a) in s.cache then s
    else if Queues(s, a) then
      s.(ring := s.ring[s.head := a], head := Next(s.head), cache := s.cache[KeyOf(a) := text])
    else s.(cache := s.cache[KeyOf(a) := text])
  }

  /** A worker stores what it found out about an address. */
  function Stored(s: Shared, a: Addr, hostname: Option<string>): Shared
  {
    match hostname
    case None => s
    case Some(name) => s.(cache := s.cache[KeyOf(a) := name])
  }

  // ----- producers and workers -----

  /** Before its first wait; in the wait; signalled and about to lock; resolving, unlocked. */
  datatype Worker = Init | Waiting | Woken | Resolving(addr: Addr)

  /**
   `owed` counts the producers between unlocking and signalling.  The last two fields record
   what was ever put into the queue and what was ever taken out.
   */
  datatype State = State(
    shared: Shared, workers: seq<Worker>, owed: nat, enqueued: seq<Addr>, dequeued: seq<Addr>)

  /**
   One critical section each.  A signal unblocks at least one waiting worker if there is any
   (POSIX, `pthread_cond_signal`); a wait may also return without a signal.
   */
  datatype Event =
    | Resolve(addr: Addr, text: string)
    | Signal(who: set<nat>)
    | Start(w: nat)
    | Spurious(w: nat)
    | Go(w: nat)
    | Finish(w: nat, hostname: Option<string>)

  function Initial(n: nat, ring: seq<Addr>): (s: State)
    requires |ring| == RESOLVE_QUEUE_LENGTH
  {
    State(Shared(ring, 0, 0, map[]), seq(n, _ => Init), 0, [], [])
  }

  predicate Is(s: State, w: nat, what: Worker)
  {
    w < |s.workers| && s.workers[w] == what
  }

  predicate SomeWaiting(s: State)
  {
    exists w :: 0 <= w < |s.workers| && s.workers[w] == Waiting
  }

  predicate Enabled(s: State, e: Event)
  {
    match e
    case Resolve(_, _) => true
    case Signal(who) =>
      && s.owed > 0
      && (forall w :: w in who ==> Is(s, w, Waiting))
      && (SomeWaiting(s) ==> who != {})
    case Start(w) => Is(s, w, Init)
    case Spurious(w) => Is(s, w, Waiting)
    case Go(w) => Is(s, w, Woken)
    case Finish(w, _) => w < |s.workers| && s.workers[w].Resolving?
  }

  /** The worker holds the lock: it takes the oldest address, or waits when there is none. */
  function TakeOrWait(s: State, w: nat): (r: State)
    requires InRing(s.shared) && w < |s.workers|
    ensures InRing(r.shared)
  {
    var m := s.shared;
    if m.head == m.tail then s.(workers := s.workers[w := Waiting])
    else
      var a := m.ring[m.tail];
      s.(shared := m.(tail := Next(m.tail)),
         workers := s.workers[w := Resolving(a)],
         dequeued := s.dequeued + [a])
  }

  function Step(s: State, e: Event): (r: State)
    requires InRing(s.shared) && Enabled(s, e)
    ensures InRing(r.shared) && |r.workers| == |s.workers|
  {
    match e
    case Resolve(a, text) =>
      var r := s.(shared := Resolved(s.shared, a, text));
      if Queues(s.shared, a) then r.(owed := s.owed + 1, enqueued := s.enqueued + [a]) else r
    case Signal(who) =>
      s.(owed := s.owed - 1,
         workers := seq(|s.workers|, w requires 0 <= w < |s.workers| => if w in who then Woken else s.workers[w]))
    case Start(w) => s.(workers := s.workers[w := Waiting])
    case Spurious(w) => s.(workers := s.workers[w := Woken])
    case Go(w) => TakeOrWait(s, w)
    case Finish(w, hostname) =>
      TakeOrWait(s.(shared := Stored(s.shared, s.workers[w].addr, hostname)), w)
  }

  predicate Allowed(s: State, es: seq<Event>)
    requires InRing(s.shared)
    decreases |es|
  {
    es != [] ==> Enabled(s, es[0]) && Allowed(Step(s, es[0]), es[1..])
  }

  function Run(s: State, es: seq<Event>): (r: State)
    requires InRing(s.shared) && Allowed(s, es)
    ensures InRing(r.shared) && |r.workers| == |s.workers|
    decreases |es|
  {
    if es == [] then s else Run(Step(s, es[0]), es[1..])
  }

  lemma {:induction false} RunConcat(s: State, a: seq<Event>, b: seq<Event>)
    requires InRing(s.shared)
    ensures Allowed(s, a + b) <==> Allowed(s, a) && Allowed(Run(s, a), b)
    ensures Allowed(s, a + b) ==> Run(s, a + b) == Run(Run(s, a), b)
    decreases |a|
  {
    hide Step, Enabled;
    if a == [] {
      assert a + b == b;
    } else {
      assert (a + b)[0] == a[0] && (a + b)[1..] == a[1..] + b;
      if Enabled(s, a[0]) {
        RunConcat(Step(s, a[0]), a[1..], b);
      }
    }
  }

  // ----- ring safety and at most once -----

  predicate DistinctKeys(q: seq<Addr>)
  {
    forall i, j :: 0 <= i < j < |q| ==> KeyOf(q[i]) != KeyOf(q[j])
  }

  /**
   What was taken out and what is queued is, in this order, all that was put in; every key
   was put in once and is cached; no two workers resolve the same key.
   */
  ghost predicate Inv(s: State)
  {
    && InRing(s.shared)
    && s.enqueued == s.dequeued + QueueOf(s.shared)
    && DistinctKeys(s.enqueued)
    && (forall a :: a in s.enqueued ==> KeyOf(a) in s.shared.cache && !StaysNumerical(a))
    && (forall w :: 0 <= w < |s.workers| && s.workers[w].Resolving? ==> s.workers[w].addr in s.dequeued)
    && (forall v, w :: 0 <= v < w < |s.workers| && s.workers[v].Resolving? && s.workers[w].Resolving? ==>
          KeyOf(s.workers[v].addr) != KeyOf(s.workers[w].addr))
    && (!Started(s) ==> s.dequeued == [])
    && (s.enqueued == [] ==> forall a: Addr :: KeyOf(a) in s.shared.cache ==> StaysNumerical(a))
  }

  /** Some worker has reached its first wait. */
  ghost predicate Started(s: State)
  {
    exists w :: 0 <= w < |s.workers| && s.workers[w] != Init
  }

  lemma InitialInv(n: nat, ring: seq<Addr>)
    requires |ring| == RESOLVE_QUEUE_LENGTH
    ensures Inv(Initial(n, ring)) && !Started(Initial(n, ring))
  {
  }

  lemma ResolveKeepsInv(s: State, a: Addr, text: string)
    requires Inv(s)
    ensures Inv(Step(s, Resolve(a, text)))
  {
    hide KeyOf, StaysNumerical, Queue;
    var m, r := s.shared, Step(s, Resolve(a, text));
    if Queues(m, a) {
      Push(m.ring, m.head, m.tail, a);
      assert r.enqueued == r.dequeued + QueueOf(r.shared);
    } else {
      assert QueueOf(r.shared) == QueueOf(m);
      forall b: Addr | KeyOf(b) == KeyOf(a) ensures StaysNumerical(b) == StaysNumerical(a) {
        NumericalByKey(a, b);
      }
      if Next(m.head) == m.tail {
        QueueRoom(s);
      }
    }
  }

  /** A queue that is full has something in it. */
  lemma QueueRoom(s: State)
    requires Inv(s) && Next(s.shared.head) == s.shared.tail
    ensures s.enqueued != []
  {
  }

  lemma TakeKeepsInv(s: State, w: nat)
    requires Inv(s) && w < |s.workers| && s.workers[w] != Init
    ensures Inv(TakeOrWait(s, w))
  {
    hide KeyOf, StaysNumerical, Queue;
    var m, r := s.shared, TakeOrWait(s, w);
    assert r.workers[w] != Init;
    if m.head != m.tail {
      Pop(m.ring, m.head, m.tail);
      var k := |s.dequeued|;
      assert s.enqueued[k] == m.ring[m.tail];
      assert r.enqueued == r.dequeued + QueueOf(r.shared);
      assert forall i :: 0 <= i < k ==> s.dequeued[i] == s.enqueued[i];
    }
  }

  lemma StepKeepsInv(s: State, e: Event)
    requires Inv(s) && Enabled(s, e)
    ensures Inv(Step(s, e))
  {
    hide KeyOf, StaysNumerical, Queue, TakeOrWait, Queues;
    match e
    case Resolve(a, text) => ResolveKeepsInv(s, a, text);
    case Signal(_) =>
      assert forall w :: 0 <= w < |s.workers| && s.workers[w] != Init ==> Step(s, e).workers[w] != Init;
    case Start(w) => assert Step(s, e).workers[w] == Waiting;
    case Spurious(w) => assert Step(s, e).workers[w] == Woken;
    case Go(w) => TakeKeepsInv(s, w);
    case Finish(w, hostname) =>
      assert s.workers[w].addr in s.enqueued;
      TakeKeepsInv(s.(shared := Stored(s.shared, s.workers[w].addr, hostname)), w);
  }

  /** `now` comes after `was`: nothing that was put in, taken out or cached is lost, and no cached key is queued. */
  ghost predicate Extends(now: State, was: State)
  {
    && was.enqueued <= now.enqueued && was.dequeued <= now.dequeued
    && (forall k :: k in was.shared.cache ==> k in now.shared.cache)
    && (forall i :: |was.enqueued| <= i < |now.enqueued| ==> KeyOf(now.enqueued[i]) !in was.shared.cache)
  }

  lemma StepExtends(s: State, e: Event)
    requires InRing(s.shared) && Enabled(s, e)
    ensures Extends(Step(s, e), s)
  {
    hide KeyOf, StaysNumerical;
  }

  /** Over any run the queue is first-in first-out and every key is queued at most once. */
  lemma {:induction false} RunKeepsInv(s: State, es: seq<Event>)
    requires Inv(s) && Allowed(s, es)
    ensures Inv(Run(s, es)) && Extends(Run(s, es), s)
    decreases |es|
  {
    assert InRing(s.shared);
    hide Inv, KeyOf, Step, Enabled;
    if es != [] {
      InvStep(s, es[0]);
      StepExtends(s, es[0]);
      RunKeepsInv(Step(s, es[0]), es[1..]);
    }
  }

  lemma InvStep(s: State, e: Event)
    requires Inv(s) && Enabled(s, e)
    ensures Inv(Step(s, e)) && InRing(s.shared)
  {
    StepKeepsInv(s, e);
  }

  /** What a worker stores replaces an entry: the cache never gains a key from a worker. */
  lemma FinishReplaces(s: State, w: nat, hostname: Option<string>)
    requires Inv(s) && Enabled(s, Finish(w, hostname))
    ensures Step(s, Finish(w, hostname)).shared.cache.Keys == s.shared.cache.Keys
    ensures hostname.Some? ==>
              Step(s, Finish(w, hostname)).shared.cache == s.shared.cache[KeyOf(s.workers[w].addr) := hostname.value]
  {
    hide KeyOf, StaysNumerical, Queue;
    assert s.workers[w].addr in s.enqueued;
  }

  lemma LocalRange(a: Addr)
    ensures StaysNumerical(a) <==> a.af == 10 && a.addr[0] == 0xFE && a.addr[1] >= 0x80
  {
  }

  /**
   A key that is not cached yet gets resolved, now or ever, exactly if its first request finds
   room in the ring and the address is not to stay numerical: afterwards it is cached.
   */
  lemma EverQueuedIff(s: State, a: Addr, text: string, es: seq<Event>)
    requires Inv(s) && KeyOf(a) !in s.shared.cache && Allowed(Step(s, Resolve(a, text)), es)
    ensures (exists b :: b in Run(Step(s, Resolve(a, text)), es).enqueued && KeyOf(b) == KeyOf(a)) <==>
              && (s.shared.head + 1) % 20 != s.shared.tail
              && !(a.af == 10 && a.addr[0] == 0xFE && a.addr[1] >= 0x80)
  {
    hide KeyOf, StaysNumerical, Queue, Run, Allowed;
    var r := Step(s, Resolve(a, text));
    LocalRange(a);
    StepKeepsInv(s, Resolve(a, text));
    RunKeepsInv(r, es);
    var last := Run(r, es).enqueued;
    assert KeyOf(a) in r.shared.cache;
    if Queues(s.shared, a) {
      assert r.enqueued[|s.enqueued|] == a && last[|s.enqueued|] == a;
    } else {
      forall b | b in last ensures KeyOf(b) != KeyOf(a) {
        var i :| 0 <= i < |last| && last[i] == b;
        if i < |s.enqueued| {
          assert last[i] == s.enqueued[i];
        }
      }
    }
  }

  /** The names that workers store for a key, in order. */
  function Answers(s: State, es: seq<Event>, k: seq<u8>): seq<string>
    requires InRing(s.shared) && Allowed(s, es)
    decreases |es|
  {
    if es == [] then []
    else
      var e := es[0];
      (if e.Finish? && e.hostname.Some? && KeyOf(s.workers[e.w].addr) == k then [e.hostname.value] else [])
      + Answers(Step(s, e), es[1..], k)
  }

  /** The first request for a key caches its numerical form, whether or not the address is queued. */
  lemma FirstRequestCaches(s: State, a: Addr, text: string, k: seq<u8>)
    requires InRing(s.shared)
    ensures var c := Step(s, Resolve(a, text)).shared.cache;
            if k == KeyOf(a) && k !in s.shared.cache then k in c && c[k] == text
            else (k in c <==> k in s.shared.cache) && (k in c ==> c[k] == s.shared.cache[k])
  {
    hide KeyOf, StaysNumerical;
  }

  /** A cached key has the name that a worker stored last for it, or the one it had. */
  lemma {:induction false} LatestAnswerWins(s: State, es: seq<Event>, k: seq<u8>)
    requires InRing(s.shared) && Allowed(s, es) && k in s.shared.cache
    ensures k in Run(s, es).shared.cache
    ensures var names := Answers(s, es, k);
            Run(s, es).shared.cache[k] == if names == [] then s.shared.cache[k] else names[|names| - 1]
    decreases |es|
  {
    hide KeyOf, StaysNumerical, Queue;
    if es != [] {
      LatestAnswerWins(Step(s, es[0]), es[1..], k);
    }
  }

  // ----- no stranded work -----

  ghost predicate Awake(s: State)
  {
    exists w :: 0 <= w < |s.workers| && (s.workers[w].Woken? || s.workers[w].Resolving?)
  }

  /** Something is queued, but nobody is working on it, has been woken for it or owes a signal. */
  ghost predicate Stranded(s: State)
  {
    s.shared.head != s.shared.tail && s.owed == 0 && !Awake(s)
  }

  /** A step other than a new request or a wakeup without signal. */
  predicate Own(e: Event)
  {
    !e.Resolve? && !e.Spurious?
  }

  predicate AllOwn(es: seq<Event>)
  {
    forall i :: 0 <= i < |es| ==> Own(es[i])
  }

  lemma StartedStep(s: State, e: Event)
    requires InRing(s.shared) && Enabled(s, e) && Started(s) && !Stranded(s)
    ensures Started(Step(s, e)) && !Stranded(Step(s, e))
  {
    hide KeyOf, StaysNumerical;
    var r := Step(s, e);
    var v :| 0 <= v < |s.workers| && s.workers[v] != Init;
    assert r.workers[v] != Init;
    if Awake(s) {
      var u :| 0 <= u < |s.workers| && (s.workers[u].Woken? || s.workers[u].Resolving?);
      assert r.workers[u].Woken? || r.workers[u].Resolving? || r.shared.head == r.shared.tail;
    } else if e.Signal? && e.who != {} {
      var w :| w in e.who;
      assert Is(s, w, Waiting) && r.workers[w] == Woken;
    }
  }

  lemma {:induction false} StartedRun(s: State, es: seq<Event>)
    requires InRing(s.shared) && Allowed(s, es) && Started(s) && !Stranded(s)
    ensures Started(Run(s, es)) && !Stranded(Run(s, es))
    decreases |es|
  {
    hide Step, Enabled, Started, Stranded;
    if es != [] {
      StartedStep(s, es[0]);
      StartedRun(Step(s, es[0]), es[1..]);
    }
  }

  /**
   No stranded work: when some worker reached its first wait before the first request was
   queued, then in every interleaving a non-empty queue has a worker that is awake or a
   producer that owes its signal.
   */
  lemma NoStrandedWork(n: nat, ring: seq<Addr>, before: seq<Event>, after: seq<Event>)
    requires |ring| == RESOLVE_QUEUE_LENGTH && Allowed(Initial(n, ring), before + after)
    requires Allowed(Initial(n, ring), before) && Started(Run(Initial(n, ring), before))
    requires Run(Initial(n, ring), before).enqueued == []
    ensures var s := Run(Initial(n, ring), before + after);
            QueueOf(s.shared) != [] ==> Awake(s) || s.owed > 0
  {
    hide KeyOf, Step, Enabled, Started, Awake, Run;
    var s := Initial(n, ring);
    InitialInv(n, ring);
    RunKeepsInv(s, before);
    RunConcat(s, before, after);
    StartedRun(Run(s, before), after);
  }

  /** One event in front of a run. */
  lemma Prepend(s: State, e: Event, es: seq<Event>)
    requires InRing(s.shared) && Enabled(s, e) && Allowed(Step(s, e), es)
    ensures Allowed(s, [e] + es) && Run(s, [e] + es) == Run(Step(s, e), es)
  {
    hide Step, Enabled;
    assert ([e] + es)[1..] == es;
  }

  /** With every worker before its first wait, the signals for a queued request are all lost. */
  lemma {:induction false} LoseSignals(s: State) returns (es: seq<Event>)
    requires InRing(s.shared) && !Started(s) && s.shared.head != s.shared.tail
    ensures Allowed(s, es) && Stranded(Run(s, es))
    decreases s.owed
  {
    if s.owed == 0 {
      es := [];
    } else {
      var e := Signal({});
      assert !Started(Step(s, e));
      es := LoseSignals(Step(s, e));
      Prepend(s, e, es);
      es := [e] + es;
    }
  }

  const PLAIN_ADDR: Addr := MakeAddr(AF_INET, [192, 0, 2, 1])

  lemma Strand(s: State) returns (es: seq<Event>)
    requires Inv(s) && !Started(s)
    ensures Allowed(s, es) && Stranded(Run(s, es))
  {
    hide KeyOf, Allowed, Run, Stranded;
    if s.shared.head != s.shared.tail {
      es := LoseSignals(s);
    } else {
      var e := Resolve(PLAIN_ADDR, "192.0.2.1");
      assert !StaysNumerical(PLAIN_ADDR);
      assert !Started(Step(s, e));
      es := LoseSignals(Step(s, e));
      Prepend(s, e, es);
      es := [e] + es;
    }
  }

  ghost predicate NeverStranded(s: State)
    requires InRing(s.shared)
  {
    forall es :: Allowed(s, es) ==> !Stranded(Run(s, es))
  }

  /** Exactly when work is safe for ever: some worker waited already, and nothing is stranded now. */
  lemma NeverStrandedIff(s: State)
    requires Inv(s)
    ensures NeverStranded(s) <==> Started(s) && !Stranded(s)
  {
    hide Step, Enabled, Started, Stranded, KeyOf;
    if Started(s) && !Stranded(s) {
      forall es | Allowed(s, es) ensures !Stranded(Run(s, es)) {
        StartedRun(s, es);
      }
    } else if !Started(s) {
      var es := Strand(s);
    } else {
      assert Allowed(s, []) && Run(s, []) == s;
    }
  }

  // ----- what being stranded means -----

  /** The workers and the signals still owed can empty the queue by themselves. */
  ghost predicate CanDrain(s: State)
    requires InRing(s.shared)
  {
    exists es :: Allowed(s, es) && AllOwn(es) && QueueOf(Run(s, es).shared) == []
  }

  lemma StrandedStep(s: State, e: Event)
    requires InRing(s.shared) && Enabled(s, e) && Own(e) && Stranded(s)
    ensures Stranded(Step(s, e))
  {
    assert e.Start?;
  }

  lemma {:induction false} StrandedRun(s: State, es: seq<Event>)
    requires InRing(s.shared) && Allowed(s, es) && AllOwn(es) && Stranded(s)
    ensures Stranded(Run(s, es))
    decreases |es|
  {
    hide Step, Enabled, Stranded, Own;
    if es != [] {
      StrandedStep(s, es[0]);
      StrandedRun(Step(s, es[0]), es[1..]);
    }
  }

  /** A worker that holds an address goes on until the queue is empty. */
  lemma {:induction false} DrainFrom(s: State, w: nat) returns (es: seq<Event>)
    requires InRing(s.shared) && w < |s.workers| && s.workers[w].Resolving?
    ensures Allowed(s, es) && AllOwn(es) && QueueOf(Run(s, es).shared) == []
    decreases |QueueOf(s.shared)|
  {
    hide KeyOf;
    var e := Finish(w, None);
    var r := Step(s, e);
    if s.shared.head == s.shared.tail {
      es := [];
    } else {
      Pop(s.shared.ring, s.shared.head, s.shared.tail);
      es := DrainFrom(r, w);
    }
    Prepend(s, e, es);
    es := [e] + es;
  }

  lemma DrainAwake(s: State) returns (es: seq<Event>)
    requires InRing(s.shared) && Awake(s)
    ensures Allowed(s, es) && AllOwn(es) && QueueOf(Run(s, es).shared) == []
  {
    hide Queue, Run, Allowed;
    var w :| 0 <= w < |s.workers| && (s.workers[w].Woken? || s.workers[w].Resolving?);
    if s.workers[w].Resolving? {
      es := DrainFrom(s, w);
    } else if s.shared.head == s.shared.tail {
      es := NoEvents(s);
    } else {
      es := DrainFrom(Step(s, Go(w)), w);
      Prepend(s, Go(w), es);
      es := [Go(w)] + es;
    }
  }

  lemma NoEvents(s: State) returns (es: seq<Event>)
    requires InRing(s.shared)
    ensures es == [] && Allowed(s, es) && Run(s, es) == s
  {
    es := [];
  }

  lemma DrainSignalled(s: State, w: nat) returns (es: seq<Event>)
    requires InRing(s.shared) && s.owed > 0 && Is(s, w, Waiting)
    ensures Allowed(s, es) && AllOwn(es) && QueueOf(Run(s, es).shared) == []
  {
    hide Queue, Run, Allowed;
    var e := Signal({w});
    assert Step(s, e).workers[w].Woken?;
    es := DrainAwake(Step(s, e));
    Prepend(s, e, es);
    es := [e] + es;
  }

  lemma DrainOwed(s: State) returns (es: seq<Event>)
    requires InRing(s.shared) && s.owed > 0 && !Awake(s) && s.workers != []
    ensures Allowed(s, es) && AllOwn(es) && QueueOf(Run(s, es).shared) == []
  {
    hide Queue, Run, Allowed;
    if s.workers[0] == Waiting {
      es := DrainSignalled(s, 0);
    } else {
      assert Is(s, 0, Init);
      es := DrainSignalled(Step(s, Start(0)), 0);
      Prepend(s, Start(0), es);
      es := [Start(0)] + es;
    }
  }

  /** A state is stranded exactly when only a new request or a chance wakeup can empty the queue. */
  lemma CanDrainIff(s: State)
    requires InRing(s.shared) && s.workers != []
    ensures CanDrain(s) <==> !Stranded(s)
  {
    hide Queue, Run, Allowed, Awake;
    if Stranded(s) {
      forall es | Allowed(s, es) && AllOwn(es) ensures QueueOf(Run(s, es).shared) != [] {
        StrandedRun(s, es);
      }
    } else {
      var es;
      if s.shared.head == s.shared.tail {
        es := NoEvents(s);
      } else if Awake(s) {
        es := DrainAwake(s);
      } else {
        es := DrainOwed(s);
      }
    }
  }

  // ----- how long it takes -----

  /** The own steps that a worker can still make without a signal or an address. */
  function Weight(w: Worker): nat
  {
    match w
    case Init => 1
    case Waiting => 0
    case Woken => 2
    case Resolving(_) => 1
  }

  function Weights(ws: seq<Worker>): nat
  {
    if ws == [] then 0 else Weights(ws[..|ws| - 1]) + Weight(ws[|ws| - 1])
  }

  lemma {:induction false} WeightsUpdate(ws: seq<Worker>, w: nat, v: Worker)
    requires w < |ws|
    ensures Weights(ws[w := v]) == Weights(ws) - Weight(ws[w]) + Weight(v)
  {
    hide Weight;
    var n := |ws| - 1;
    if w == n {
      assert ws[w := v][..n] == ws[..n];
    } else {
      assert ws[w := v][..n] == ws[..n][w := v];
      WeightsUpdate(ws[..n], w, v);
    }
  }

  lemma {:induction false} WeightsGrow(was: seq<Worker>, now: seq<Worker>)
    requires |was| == |now| && forall w :: 0 <= w < |was| ==> Weight(now[w]) <= Weight(was[w]) + 2
    ensures Weights(now) <= Weights(was) + 2 * |was|
  {
    hide Weight;
    if was != [] {
      WeightsGrow(was[..|was| - 1], now[..|now| - 1]);
    }
  }

  /** Each signal may wake all `n` workers. */
  function SignalBound(n: nat, owed: nat): nat
  {
    if owed == 0 then 0 else SignalBound(n, owed - 1) + 2 * n + 1
  }

  lemma {:induction false} SignalBoundIs(n: nat, owed: nat)
    ensures SignalBound(n, owed) == (2 * n + 1) * owed
  {
    if owed > 0 {
      SignalBoundIs(n, owed - 1);
      assert (2 * n + 1) * owed == (2 * n + 1) * (owed - 1) + 2 * n + 1;
    }
  }

  /** A bound on the own steps from a state. */
  function Bound(s: State): nat
    requires InRing(s.shared)
  {
    SignalBound(|s.workers|, s.owed) + Weights(s.workers) + |QueueOf(s.shared)|
  }

  lemma TakeShortens(s: State, w: nat)
    requires InRing(s.shared) && w < |s.workers| && Weight(s.workers[w]) >= 1
    ensures Bound(TakeOrWait(s, w)) < Bound(s)
  {
    hide Queue, Weights;
    var m := s.shared;
    if m.head == m.tail {
      WeightsUpdate(s.workers, w, Waiting);
    } else {
      Pop(m.ring, m.head, m.tail);
      WeightsUpdate(s.workers, w, Resolving(m.ring[m.tail]));
    }
  }

  lemma OwnStepShortens(s: State, e: Event)
    requires InRing(s.shared) && Enabled(s, e) && Own(e)
    ensures Bound(Step(s, e)) < Bound(s)
  {
    hide Queue, Weights, TakeOrWait;
    match e
    case Signal(who) =>
      WeightsGrow(s.workers, Step(s, e).workers);
    case Start(w) => WeightsUpdate(s.workers, w, Waiting);
    case Go(w) => TakeShortens(s, w);
    case Finish(w, hostname) =>
      TakeShortens(s.(shared := Stored(s.shared, s.workers[w].addr, hostname)), w);
  }

  lemma {:induction false} OwnRunBounded(s: State, es: seq<Event>)
    requires InRing(s.shared) && Allowed(s, es) && AllOwn(es)
    ensures |es| + Bound(Run(s, es)) <= Bound(s)
    decreases |es|
  {
    hide Step, Enabled, Own, Bound;
    if es != [] {
      OwnStepShortens(s, es[0]);
      OwnRunBounded(Step(s, es[0]), es[1..]);
    }
  }

  /** No worker and no owed signal can make a step. */
  ghost predicate Quiet(s: State)
  {
    forall e :: Own(e) ==> !Enabled(s, e)
  }

  lemma QuietMeansWaiting(s: State)
    requires Quiet(s)
    ensures s.owed == 0 && !Awake(s)
  {
    if s.owed > 0 {
      if w :| 0 <= w < |s.workers| && s.workers[w] == Waiting {
        assert Enabled(s, Signal({w}));
      } else {
        assert Enabled(s, Signal({}));
      }
    }
    forall w | 0 <= w < |s.workers| ensures !s.workers[w].Woken? && !s.workers[w].Resolving? {
      assert !Enabled(s, Go(w)) && !Enabled(s, Finish(w, None));
    }
  }

  /**
   Every schedule drains the queue: from a safe state no run of the workers and the owed
   signals alone is longer than the bound, and one that cannot go on has emptied the queue.
   */
  lemma EveryScheduleDrains(s: State, es: seq<Event>)
    requires InRing(s.shared) && Started(s) && !Stranded(s)
    requires Allowed(s, es) && AllOwn(es)
    ensures |es| <= (2 * |s.workers| + 1) * s.owed + Weights(s.workers) + |QueueOf(s.shared)|
    ensures Quiet(Run(s, es)) ==> QueueOf(Run(s, es).shared) == []
  {
    hide Run, Allowed, Queue, Weights, Quiet, Started, Awake;
    OwnRunBounded(s, es);
    SignalBoundIs(|s.workers|, s.owed);
    StartedRun(s, es);
    if Quiet(Run(s, es)) {
      QuietMeansWaiting(Run(s, es));
    }
  }
}

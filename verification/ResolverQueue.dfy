/** The resolver's data in place: the ring, its two indices and the cache, as `resolver.c` updates them. */
module ResolverQueue {
  import opened Wrappers
  import opened Bytes
  import opened HashTable
  import opened Resolver

  type NameNode = Node<seq<u8>, string>

  /** The table holds one node for each key of the cache, and no other node. */
  ghost predicate OneEntryEach(items: seq<NameNode>, cache: Cache)
  {
    forall k :: Stack(items, k) == if k in cache then [cache[k]] else []
  }

  lemma InsertCaches(
    was: seq<NameNode>, now: seq<NameNode>, s: nat, key: seq<u8>, name: string, hash: seq<u8> -> int, cache: Cache)
    requires OneEntryEach(was, cache) && Inserted(was, now, s, key, name, hash) && key !in cache
    ensures OneEntryEach(now, cache[key := name])
  {
    hide Inserted, Stack;
    InsertedPushes(was, now, s, key, name, hash);
  }

  lemma DeleteUncaches(was: seq<NameNode>, now: seq<NameNode>, key: seq<u8>, cache: Cache)
    requires OneEntryEach(was, cache) && Removed(was, now, First(was, key))
    ensures OneEntryEach(now, cache - {key})
  {
    hide Removed, Stack, First;
    RemovedPops(was, now, key);
  }

  lemma FindCached(items: seq<NameNode>, key: seq<u8>, cache: Cache)
    requires OneEntryEach(items, cache)
    ensures First(items, key) < |items| <==> key in cache
    ensures First(items, key) < |items| ==> items[First(items, key)].rec == cache[key]
  {
    hide Stack, First;
    FirstPeeks(items, key);
  }

  /** What is cached after a worker went through a queue alone. */
  function StoredAll(cache: Cache, q: seq<Addr>, answer: Addr -> Option<string>): Cache
    decreases |q|
  {
    if q == [] then cache
    else StoredAll(if answer(q[0]).Some? then cache[KeyOf(q[0]) := answer(q[0]).value] else cache, q[1..], answer)
  }

  lemma StoredAllTurn(s: Shared, a: Addr, q: seq<Addr>, answer: Addr -> Option<string>)
    ensures StoredAll(s.cache, [a] + q, answer) == StoredAll(Stored(s, a, answer(a)).cache, q, answer)
  {
    hide KeyOf;
    assert ([a] + q)[1..] == q;
  }

  lemma StoredAllNone(cache: Cache, answer: Addr -> Option<string>)
    ensures StoredAll(cache, [], answer) == cache
  {
  }

  /** Every queued address has its answer, if it got one; everything else is as before. */
  lemma {:induction false} StoredAllAnswers(cache: Cache, q: seq<Addr>, answer: Addr -> Option<string>, k: seq<u8>)
    requires DistinctKeys(q)
    ensures forall i :: 0 <= i < |q| && KeyOf(q[i]) == k && answer(q[i]).Some? ==>
              k in StoredAll(cache, q, answer) && StoredAll(cache, q, answer)[k] == answer(q[i]).value
    ensures (forall i :: 0 <= i < |q| && KeyOf(q[i]) == k ==> answer(q[i]) == None) ==>
              (k in StoredAll(cache, q, answer) <==> k in cache)
              && (k in cache ==> StoredAll(cache, q, answer)[k] == cache[k])
    decreases |q|
  {
    hide KeyOf;
    if q != [] {
      var cache' := if answer(q[0]).Some? then cache[KeyOf(q[0]) := answer(q[0]).value] else cache;
      StoredAllAnswers(cache', q[1..], answer, k);
      assert forall i :: 0 < i < |q| ==> q[i] == q[1..][i - 1];
    }
  }

  class Queues {
    const resolveQueue: array<Addr>
    var head: nat
    var tail: nat
    const nsHash: Table<seq<u8>, string>
    ghost var cache: Cache

    ghost predicate Valid()
      reads this, resolveQueue, nsHash, nsHash.table, nsHash.Nodes()
    {
      && resolveQueue.Length == RESOLVE_QUEUE_LENGTH
      && head < RESOLVE_QUEUE_LENGTH && tail < RESOLVE_QUEUE_LENGTH
      && nsHash.Valid() && (forall k :: nsHash.hash(k) == NsHash(k))
      && OneEntryEach(nsHash.items, cache)
    }

    ghost function Data(): Shared
      reads this, resolveQueue
    {
      Shared(resolveQueue[..], head, tail, cache)
    }

    /** `resolver_initialise`. */
    constructor ()
      ensures Valid() && InRing(Data()) && QueueOf(Data()) == [] && cache == map[]
      ensures fresh(resolveQueue) && fresh(nsHash) && fresh(nsHash.table) && fresh(nsHash.Nodes())
    {
      resolveQueue := new Addr[RESOLVE_QUEUE_LENGTH](_ => AddrStorage(0, 0, seq(16, _ => 0)));
      head, tail := 0, 0;
      nsHash := new Table(NS_HASH_TABLE_SIZE, k => NsHash(k));
      cache := map[];
    }

    /** Adds an entry for a key that has none. */
    method Cache(key: seq<u8>, name: string)
      requires Valid() && key !in cache
      modifies this`cache, nsHash, nsHash.table
      ensures Valid() && cache == old(cache)[key := name]
      ensures fresh(nsHash.Nodes() - old(nsHash.Nodes()))
    {
      ghost var was, st := nsHash.items, nsHash.starts;
      var status := nsHash.Insert(key, name);
      InsertCaches(was, nsHash.items, st[nsHash.hash(key)], key, name, nsHash.hash, cache);
      cache := cache[key := name];
    }

    /**
     `resolve`: looks the address up, or caches its numerical form and queues it when there is
     room and the address is not to stay numerical.  What is copied out is the cached name.
     */
    method Resolve(dnsResolution: bool, af: u32, bytes: seq<u8>, text: string, hasResult: bool, buflen: int)
      returns (result: Option<string>, added: bool)
      requires Valid() && |bytes| == AddrLen(af)
      modifies this`head, this`cache, resolveQueue, nsHash, nsHash.table
      ensures Valid() && fresh(nsHash.Nodes() - old(nsHash.Nodes()))
      ensures Data() == if dnsResolution then Resolved(old(Data()), MakeAddr(af, bytes), text) else old(Data())
      ensures added <==> dnsResolution && Resolver.Queues(old(Data()), MakeAddr(af, bytes))
      ensures result.Some? <==> dnsResolution && hasResult && buflen > 1
      ensures result.Some? ==>
                && |result.value| < buflen
                && KeyOf(MakeAddr(af, bytes)) in cache
                && result.value <= cache[KeyOf(MakeAddr(af, bytes))]
                && (|result.value| == buflen - 1 || result.value == cache[KeyOf(MakeAddr(af, bytes))])
    {
      hide KeyOf, StaysNumerical, OneEntryEach, First;
      result, added := None, false;
      if dnsResolution {
        var raddr := MakeAddr(af, bytes);
        FindCached(nsHash.items, KeyOf(raddr), cache);
        var status, found := nsHash.Find(KeyOf(raddr));
        var hostname;
        if status == Ok {
          hostname := found.value;
        } else {
          hostname := text;
          Cache(KeyOf(raddr), hostname);
          if (head + 1) % RESOLVE_QUEUE_LENGTH == tail {
            // queue full
          } else if StaysNumerical(raddr) {
            // stays numerical
          } else {
            resolveQueue[head] := raddr;
            assert resolveQueue[..] == old(resolveQueue[..])[head := raddr];
            head := (head + 1) % RESOLVE_QUEUE_LENGTH;
            added := true;
          }
        }
        if hasResult && buflen > 1 {
          result := Some(if |hostname| < buflen then hostname else hostname[..buflen - 1]);
        }
      }
    }

    /** The worker's critical section up to `do_resolve`. */
    method Take() returns (addr: Option<Addr>)
      requires Valid()
      modifies this`tail
      ensures Valid()
      ensures addr == if old(head) == old(tail) then None else Some(old(resolveQueue[tail]))
      ensures Data() == if addr == None then old(Data()) else old(Data()).(tail := Next(old(tail)))
    {
      addr := None;
      if head != tail {
        addr := Some(resolveQueue[tail]);
        tail := (tail + 1) % RESOLVE_QUEUE_LENGTH;
      }
    }

    /** The worker's critical section after `do_resolve`: an entry for the address is replaced. */
    method Store(addr: Addr, hostname: Option<string>)
      requires Valid()
      modifies this`cache, nsHash, nsHash.table, nsHash.Nodes()
      ensures Valid() && Data() == Stored(old(Data()), addr, hostname)
      ensures fresh(nsHash.Nodes() - old(nsHash.Nodes()))
    {
      hide KeyOf, OneEntryEach, First;
      if hostname.Some? {
        var key := KeyOf(addr);
        FindCached(nsHash.items, key, cache);
        var status, previous := nsHash.Find(key);
        if status == Ok {
          ghost var was := nsHash.items;
          status := nsHash.Delete(key);
          DeleteUncaches(was, nsHash.items, key, cache);
          cache := cache - {key};
        }
        Cache(key, hostname.value);
        assert cache == old(cache)[key := hostname.value];
      }
    }

    /**
     The worker's inner loop when nobody else runs: it empties the queue in order and caches
     every answer.
     */
    method KeepResolving(answer: Addr -> Option<string>)
      requires Valid() && InRing(Data())
      modifies this`tail, this`cache, nsHash, nsHash.table, nsHash.Nodes()
      ensures Valid() && InRing(Data()) && QueueOf(Data()) == []
      ensures cache == StoredAll(old(cache), old(QueueOf(Data())), answer)
    {
      hide KeyOf, OneEntryEach, StoredAll;
      while head != tail
        invariant Valid() && InRing(Data())
        invariant fresh(nsHash.Nodes() - old(nsHash.Nodes()))
        invariant StoredAll(cache, QueueOf(Data()), answer) == StoredAll(old(cache), old(QueueOf(Data())), answer)
        decreases |QueueOf(Data())|
      {
        Pop(resolveQueue[..], head, tail);
        StoredAllTurn(Data(), resolveQueue[tail], Queue(resolveQueue[..], head, Next(tail)), answer);
        var addr := Take();
        Store(addr.value, answer(addr.value));
      }
      StoredAllNone(cache, answer);
    }
  }
}

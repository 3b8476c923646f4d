/**
 The flow table as a value: the entries of the hash table in iteration order, the
 eviction and approval rules of `history_rotate`, and the accounting of one packet.
 */
module Flows {
  import opened Wrappers
  import opened Bytes
  import opened AddrHash

  datatype Flow = Flow(totalSent: u64, totalRecv: u64, createTime: int, lastUpdate: int, approval: bool)

  datatype Entry = Entry(key: AddrPair, flow: Flow)

  /** The thresholds of the eviction rules, as given on the command line. */
  datatype Limits = Limits(duration: int, threshold: int, deleteInterval: int)

  const CHECK_AFTER_N_SECS := 120
  const RESOLUTION := 4

  function Add64(a: int, b: int): u64
  {
    (a + b) % TWO64
  }

  function FlowBytes(f: Flow): u64
  {
    Add64(f.totalRecv, f.totalSent)
  }

  /** The signed option is compared as an unsigned 64-bit number. */
  function Threshold(lim: Limits): u64
  {
    lim.threshold % TWO64
  }

  predicate IsShort(f: Flow, t: int, lim: Limits)
  {
    f.lastUpdate - f.createTime < lim.duration && t - f.createTime > CHECK_AFTER_N_SECS
  }

  predicate IsLowTraffic(f: Flow, t: int, lim: Limits)
  {
    FlowBytes(f) < Threshold(lim) && t - f.lastUpdate > lim.deleteInterval
  }

  predicate MeetsBoth(f: Flow, lim: Limits)
  {
    f.lastUpdate - f.createTime >= lim.duration && FlowBytes(f) > Threshold(lim)
  }

  predicate Evicted(f: Flow, t: int, lim: Limits)
  {
    !f.approval && (IsShort(f, t, lim) || IsLowTraffic(f, t, lim))
  }

  function Promoted(f: Flow, lim: Limits): Flow
  {
    if MeetsBoth(f, lim) then f.(approval := true) else f
  }

  /** A flow that has earned approval can no longer be evicted. */
  lemma CriteriaExclusive(f: Flow, t: int, lim: Limits)
    ensures !(MeetsBoth(f, lim) && Evicted(f, t, lim))
    ensures !Evicted(Promoted(f, lim), t, lim) <==> !Evicted(f, t, lim)
  {
  }

  /** What one rotation leaves of one entry. */
  function RotateOne(e: Entry, t: int, lim: Limits): seq<Entry>
  {
    if Evicted(e.flow, t, lim) then [] else [Entry(e.key, Promoted(e.flow, lim))]
  }

  function Rotate(es: seq<Entry>, t: int, lim: Limits): seq<Entry>
  {
    if es == [] then [] else Rotate(es[..|es| - 1], t, lim) + RotateOne(es[|es| - 1], t, lim)
  }

  function Approved(es: seq<Entry>): seq<Entry>
  {
    if es == [] then []
    else Approved(es[..|es| - 1]) + if es[|es| - 1].flow.approval then [es[|es| - 1]] else []
  }

  /** The flow stored under a key, if any. */
  function Lookup(es: seq<Entry>, key: AddrPair): Option<Flow>
  {
    if es == [] then None
    else if es[0].key == key then Some(es[0].flow)
    else Lookup(es[1..], key)
  }

  ghost predicate UniqueKeys(es: seq<Entry>)
  {
    forall i, j :: 0 <= i < j < |es| ==> es[i].key != es[j].key
  }

  ghost predicate SortedByBucket(es: seq<Entry>)
  {
    forall i, j :: 0 <= i < j < |es| ==> Hash(es[i].key) <= Hash(es[j].key)
  }

  // ----- the table under rotation -----

  lemma {:induction false} RotateConcat(a: seq<Entry>, b: seq<Entry>, t: int, lim: Limits)
    ensures Rotate(a + b, t, lim) == Rotate(a, t, lim) + Rotate(b, t, lim)
  {
    if b == [] {
      assert a + b == a;
    } else {
      assert (a + b)[..|a + b| - 1] == a + b[..|b| - 1];
      RotateConcat(a, b[..|b| - 1], t, lim);
    }
  }

  lemma {:induction false} LookupConcat(a: seq<Entry>, b: seq<Entry>, key: AddrPair)
    ensures Lookup(a + b, key) == if Lookup(a, key).Some? then Lookup(a, key) else Lookup(b, key)
  {
    if a == [] {
      assert a + b == b;
    } else {
      assert (a + b)[1..] == a[1..] + b;
      LookupConcat(a[1..], b, key);
    }
  }

  lemma {:induction false} LookupFinds(es: seq<Entry>, i: nat)
    requires i < |es| && UniqueKeys(es)
    ensures Lookup(es, es[i].key) == Some(es[i].flow)
  {
    if i > 0 {
      LookupFinds(es[1..], i - 1);
    }
  }

  lemma {:induction false} LookupAbsent(es: seq<Entry>, key: AddrPair)
    ensures Lookup(es, key).None? <==> forall i :: 0 <= i < |es| ==> es[i].key != key
  {
    if es != [] {
      LookupAbsent(es[1..], key);
      assert Lookup(es[1..], key).Some? ==> exists i :: 0 <= i < |es[1..]| && es[1..][i].key == key;
      if i :| 0 <= i < |es[1..]| && es[1..][i].key == key {
        assert es[i + 1].key == key;
      }
    }
  }

  /**
   A rotation removes exactly the evicted flows; every other flow stays under its key and
   is approved afterwards iff it was before or meets both thresholds.
   */
  lemma {:induction false} RotateLookup(es: seq<Entry>, t: int, lim: Limits, key: AddrPair)
    requires UniqueKeys(es)
    ensures Lookup(Rotate(es, t, lim), key) ==
              match Lookup(es, key)
              case None => None
              case Some(f) => if Evicted(f, t, lim) then None
                              else Some(f.(approval := f.approval || MeetsBoth(f, lim)))
  {
    if es != [] {
      var n := |es| - 1;
      RotateLookup(es[..n], t, lim, key);
      assert es == es[..n] + [es[n]];
      LookupConcat(es[..n], [es[n]], key);
      LookupConcat(Rotate(es[..n], t, lim), RotateOne(es[n], t, lim), key);
      LookupAbsent(es[..n], es[n].key);
    }
  }

  /** The order of survivors is that of the old table: each entry of the result comes from an earlier-or-equal place. */
  ghost predicate ComesFrom(now: seq<Entry>, was: seq<Entry>, at: seq<nat>)
  {
    && |at| == |now|
    && (forall i :: 0 <= i < |now| ==> at[i] < |was| && now[i].key == was[at[i]].key)
    && (forall i, j :: 0 <= i < j < |at| ==> at[i] < at[j])
  }

  lemma {:induction false} RotateKeepsOrder(es: seq<Entry>, t: int, lim: Limits) returns (at: seq<nat>)
    ensures ComesFrom(Rotate(es, t, lim), es, at)
  {
    if es == [] {
      at := [];
    } else {
      var n := |es| - 1;
      at := RotateKeepsOrder(es[..n], t, lim);
      at := at + if Evicted(es[n].flow, t, lim) then [] else [n];
    }
  }

  lemma RotateKeepsShape(es: seq<Entry>, t: int, lim: Limits)
    requires UniqueKeys(es) && SortedByBucket(es)
    ensures UniqueKeys(Rotate(es, t, lim)) && SortedByBucket(Rotate(es, t, lim))
  {
    var at := RotateKeepsOrder(es, t, lim);
  }

  /** No entry would be touched by a rotation at `t`. */
  ghost predicate Stable(es: seq<Entry>, t: int, lim: Limits)
  {
    forall e :: e in es ==> RotateOne(e, t, lim) == [e]
  }

  lemma {:induction false} RotateIsStable(es: seq<Entry>, t: int, lim: Limits)
    requires Stable(es, t, lim)
    ensures Rotate(es, t, lim) == es
  {
    if es != [] {
      RotateIsStable(es[..|es| - 1], t, lim);
    }
  }

  lemma {:induction false} RotatedIsStable(es: seq<Entry>, t: int, lim: Limits)
    ensures Stable(Rotate(es, t, lim), t, lim)
  {
    if es != [] {
      RotatedIsStable(es[..|es| - 1], t, lim);
      var one := RotateOne(es[|es| - 1], t, lim);
      assert one != [] ==> RotateOne(one[0], t, lim) == one;
    }
  }

  /** A second rotation at the same time changes nothing. */
  lemma RotateTwice(es: seq<Entry>, t: int, lim: Limits)
    ensures Rotate(Rotate(es, t, lim), t, lim) == Rotate(es, t, lim)
  {
    RotatedIsStable(es, t, lim);
    RotateIsStable(Rotate(es, t, lim), t, lim);
  }

  lemma {:induction false} ApprovedConcat(a: seq<Entry>, b: seq<Entry>)
    ensures Approved(a + b) == Approved(a) + Approved(b)
  {
    if b == [] {
      assert a + b == a;
    } else {
      assert (a + b)[..|a + b| - 1] == a + b[..|b| - 1];
      ApprovedConcat(a, b[..|b| - 1]);
    }
  }

  /** The size a rotation reports is at least the number approved before. */
  lemma {:induction false} RotateKeepsApproved(es: seq<Entry>, t: int, lim: Limits)
    ensures |Approved(Rotate(es, t, lim))| >= |Approved(es)|
  {
    if es != [] {
      var n := |es| - 1;
      RotateKeepsApproved(es[..n], t, lim);
      ApprovedConcat(Rotate(es[..n], t, lim), RotateOne(es[n], t, lim));
      var one := RotateOne(es[n], t, lim);
      if one != [] {
        assert Approved(one) == Approved([]) + if one[0].flow.approval then one else [];
      }
    }
  }

  // ----- accounting -----

  /** Position of the first entry whose bucket is `h` or later: where a new key of bucket `h` goes. */
  function BucketStart(es: seq<Entry>, h: int): (s: nat)
    ensures s <= |es|
    ensures forall i :: 0 <= i < s ==> Hash(es[i].key) < h
    ensures s < |es| ==> Hash(es[s].key) >= h
  {
    if es == [] || Hash(es[0].key) >= h then 0 else 1 + BucketStart(es[1..], h)
  }

  function InsertEntry(es: seq<Entry>, e: Entry): seq<Entry>
  {
    var s := BucketStart(es, Hash(e.key));
    es[..s] + [e] + es[s..]
  }

  /** Position of the first entry of a key, or the length. */
  function Index(es: seq<Entry>, key: AddrPair): (i: nat)
    ensures i <= |es|
    ensures i < |es| ==> es[i].key == key
    ensures forall j :: 0 <= j < i ==> es[j].key != key
  {
    if es == [] || es[0].key == key then 0 else 1 + Index(es[1..], key)
  }

  /** `history_create`: a zeroed record stamped with the current time. */
  function NewFlow(now: int): Flow
  {
    Flow(0, 0, now, 0, false)
  }

  function WithKey(es: seq<Entry>, key: AddrPair, now: int): (r: seq<Entry>)
    ensures Index(r, key) < |r|
  {
    if Index(es, key) < |es| then es
    else
      var r := InsertEntry(es, Entry(key, NewFlow(now)));
      assert r[BucketStart(es, Hash(key))].key == key;
      r
  }

  function CountPacket(f: Flow, asSent: bool, len: u16, t: int): Flow
  {
    if asSent then f.(totalSent := Add64(f.totalSent, len), lastUpdate := t)
    else f.(totalRecv := Add64(f.totalRecv, len), lastUpdate := t)
  }

  function CountIn(es: seq<Entry>, key: AddrPair, asSent: bool, len: u16, t: int, now: int): seq<Entry>
  {
    var es1 := WithKey(es, key, now);
    var i := Index(es1, key);
    es1[i := Entry(key, CountPacket(es1[i].flow, asSent, len, t))]
  }

  lemma InsertKeepsUnique(es: seq<Entry>, s: nat, e: Entry)
    requires s <= |es| && UniqueKeys(es)
    requires forall i :: 0 <= i < |es| ==> es[i].key != e.key
    ensures UniqueKeys(es[..s] + [e] + es[s..])
  {
  }

  lemma InsertKeepsSorted(es: seq<Entry>, s: nat, e: Entry)
    requires s <= |es| && SortedByBucket(es)
    requires forall i :: 0 <= i < s ==> Hash(es[i].key) <= Hash(e.key)
    requires forall i :: s <= i < |es| ==> Hash(es[i].key) >= Hash(e.key)
    ensures SortedByBucket(es[..s] + [e] + es[s..])
  {
    hide Hash;
  }

  lemma InsertKeepsShape(es: seq<Entry>, e: Entry)
    requires UniqueKeys(es) && SortedByBucket(es)
    requires forall i :: 0 <= i < |es| ==> es[i].key != e.key
    ensures UniqueKeys(InsertEntry(es, e)) && SortedByBucket(InsertEntry(es, e))
  {
    hide Hash;
    var s := BucketStart(es, Hash(e.key));
    InsertKeepsUnique(es, s, e);
    InsertKeepsSorted(es, s, e);
  }

  lemma CountInKeepsShape(es: seq<Entry>, key: AddrPair, asSent: bool, len: u16, t: int, now: int)
    requires UniqueKeys(es) && SortedByBucket(es)
    ensures UniqueKeys(CountIn(es, key, asSent, len, t, now))
    ensures SortedByBucket(CountIn(es, key, asSent, len, t, now))
  {
    if Index(es, key) == |es| {
      InsertKeepsShape(es, Entry(key, NewFlow(now)));
    }
    var es1 := WithKey(es, key, now);
    var r := CountIn(es, key, asSent, len, t, now);
    assert forall i :: 0 <= i < |es1| ==> r[i].key == es1[i].key;
  }
}

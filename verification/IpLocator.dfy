/** The address lookup of the client's `IPLocator`: a binary search over ranges sorted by start. */
module IpLocator {
  import opened Wrappers
  import opened Bytes

  datatype Range = Range(start: u32, end: u32, address: string)

  const VERSION_START := 0xffff_ff00

  /** Ranges in ascending order that do not overlap. */
  ghost predicate Ordered(db: seq<Range>)
  {
    && (forall i :: 0 <= i < |db| ==> db[i].start <= db[i].end)
    && (forall i, j :: 0 <= i < j < |db| ==> db[i].end < db[j].start)
  }

  ghost predicate Contains(db: seq<Range>, i: int, ip: u32)
  {
    0 <= i < |db| && db[i].start <= ip <= db[i].end
  }

  lemma AtMostOneRange(db: seq<Range>, i: int, j: int, ip: u32)
    requires Ordered(db) && Contains(db, i, ip) && Contains(db, j, ip)
    ensures i == j
  {
  }

  /**
   The addresses the search answers wrongly: it takes the last record for 255.255.255.x and
   for nothing else, so a range that covers such an address must be the last one, and the
   last one (of several) must cover no other address.
   */
  ghost predicate Misdirected(db: seq<Range>, ip: u32)
  {
    |db| >= 2 && exists i :: Contains(db, i, ip) && (i == |db| - 1 <==> ip < VERSION_START)
  }

  class Locator {
    const db: seq<Range>
    var curStartIp: u32
    var curEndIp: u32
    var curAddress: string

    constructor (db: seq<Range>)
      ensures this.db == db
    {
      this.db := db;
      curStartIp, curEndIp, curAddress := 0, 0, "";
    }

    method SetIpRange(index: nat)
      requires index < |db|
      modifies this
      ensures db[index] == Range(curStartIp, curEndIp, curAddress)
    {
      curStartIp, curEndIp, curAddress := db[index].start, db[index].end, db[index].address;
    }

    /**
     `getIpAddr`.  A hit is always right; a miss is right exactly if the address is not one
     of the misdirected ones.
     */
    method GetIpAddr(ip: u32) returns (address: Option<string>)
      requires Ordered(db) && |db| > 0
      modifies this
      ensures address.Some? ==>
                curStartIp <= ip <= curEndIp && Range(curStartIp, curEndIp, address.value) in db
      ensures address.None? <==> (forall i :: !Contains(db, i, ip)) || Misdirected(db, ip)
    {
      hide Ordered, Misdirected;
      var l, r := 0, |db| - 1;
      while l < r - 1
        invariant 0 <= l <= r < |db|
        invariant l == r ==> |db| == 1
        invariant l > 0 ==> db[l].start <= ip
        invariant r < |db| - 1 ==> ip < db[r].start
        decreases r - l
      {
        var m := (l + r) / 2;
        SetIpRange(m);
        if ip == curStartIp {
          l := m;
          break;
        }
        if ip > curStartIp {
          l := m;
        } else {
          r := m;
        }
      }
      assert r > l + 1 ==> ip == db[l].start;
      SetIpRange(l);
      ghost var k := l;
      if ip / 0x100 == VERSION_START / 0x100 {
        SetIpRange(r);
        k := r;
      }
      assert db[k] == Range(curStartIp, curEndIp, curAddress);
      SelectedRight(db, ip, l, r, k);
      if curStartIp <= ip <= curEndIp {
        assert Contains(db, k, ip);
        return Some(curAddress);
      }
      return None;
    }
  }

  /** The selected record misses exactly when nothing contains the address or it is misdirected. */
  lemma SelectedRight(db: seq<Range>, ip: u32, l: nat, r: nat, k: nat)
    requires Ordered(db) && l <= r < |db|
    requires l == r ==> |db| == 1
    requires l > 0 ==> db[l].start <= ip
    requires r < |db| - 1 ==> ip < db[r].start || ip == db[l].start
    requires r > l + 1 ==> ip == db[l].start
    requires k == if ip >= VERSION_START then r else l
    ensures !Contains(db, k, ip) <==> (forall i :: !Contains(db, i, ip)) || Misdirected(db, ip)
  {
    forall i | Contains(db, i, ip)
      ensures Contains(db, k, ip) <==> !Misdirected(db, ip)
    {
      assert i == l || i == |db| - 1;
      if Contains(db, k, ip) {
        AtMostOneRange(db, i, k, ip);
        forall j | Contains(db, j, ip) ensures j == k {
          AtMostOneRange(db, j, k, ip);
        }
      }
    }
  }

  /** Of several ranges, an address in the last one is missed exactly below 255.255.255.0. */
  lemma LastRangeMissed(db: seq<Range>, ip: u32)
    requires Ordered(db) && |db| >= 2 && Contains(db, |db| - 1, ip)
    ensures Misdirected(db, ip) <==> ip < 0xffff_ff00
  {
    forall i | Contains(db, i, ip) ensures i == |db| - 1 {
      AtMostOneRange(db, i, |db| - 1, ip);
    }
  }

  /** And an address in another range is missed exactly from 255.255.255.0 on. */
  lemma EarlierRangeMissed(db: seq<Range>, ip: u32, i: nat)
    requires Ordered(db) && i < |db| - 1 && Contains(db, i, ip)
    ensures Misdirected(db, ip) <==> ip >= 0xffff_ff00
  {
    forall j | Contains(db, j, ip) ensures j == i {
      AtMostOneRange(db, i, j, ip);
    }
  }

  /**
   The databases that are searched without a mistake: one range only, or the last range starts
   at 255.255.255.0 or later and the one before it ends below.
   */
  lemma NeverMisdirectedIff(db: seq<Range>)
    requires Ordered(db) && |db| > 0
    ensures (forall ip: u32 :: !Misdirected(db, ip)) <==>
              |db| == 1 || (db[|db| - 1].start >= 0xffff_ff00 && db[|db| - 2].end < 0xffff_ff00)
  {
    var n := |db| - 1;
    if n > 0 {
      var first, last := db[n].start, db[n - 1].end;
      assert Contains(db, n, first) && Contains(db, n - 1, last);
      LastRangeMissed(db, first);
      EarlierRangeMissed(db, last, n - 1);
      if first >= VERSION_START && last < VERSION_START {
        forall ip: u32 ensures !Misdirected(db, ip) {
          forall i | Contains(db, i, ip) ensures i == n <==> ip >= VERSION_START {
            assert i < n - 1 ==> db[i].end < db[n - 1].start;
          }
        }
      }
    }
  }

  /** In particular none is misdirected when the last record starts at 255.255.255.0. */
  lemma VersionRecordLast(db: seq<Range>, ip: u32)
    requires Ordered(db) && |db| > 0 && db[|db| - 1].start == 0xffff_ff00
    ensures !Misdirected(db, ip)
  {
    hide Misdirected;
    NeverMisdirectedIff(db);
  }
}

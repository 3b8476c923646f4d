/** The receiving side, `mqtt_client.py`: records are unpacked and merged into rows per box and host. */
module Collector {
  import opened Bytes
  import opened Report

  /** One line of a host's list.  Python integers are unbounded, so the sums do not wrap. */
  datatype Row = Row(outerIp: u32, outerPort: u16, protocols: seq<u16>, recv: nat, send: nat, create: u32, end: u32)

  datatype Key = Key(box: int, innerIp: u32)

  /** A record together with the box that sent it. */
  datatype Input = Input(box: int, conn: Conn)

  /** Addresses 172.16.x.x. */
  predicate InCampus(ip: u32)
  {
    ip / 0x1_0000 == 0xac10
  }

  // ----- the merge as a function -----

  function NewRow(c: Conn, port: u16): Row
  {
    Row(c.outerIp, port, [c.protocol], c.recv, c.send, c.create, c.end)
  }

  function MergeRow(r: Row, c: Conn): Row
  {
    r.(protocols := if c.protocol in r.protocols then r.protocols else r.protocols + [c.protocol],
       recv := r.recv + c.recv,
       send := r.send + c.send,
       create := if c.create < r.create then c.create else r.create,
       end := if c.end > r.end then c.end else r.end)
  }

  /** The first row for an outer address, or the length. */
  function FindRow(rows: seq<Row>, outerIp: u32): (i: nat)
    ensures i <= |rows|
    ensures i < |rows| ==> rows[i].outerIp == outerIp
    ensures forall j :: 0 <= j < i ==> rows[j].outerIp != outerIp
  {
    if rows == [] || rows[0].outerIp == outerIp then 0 else 1 + FindRow(rows[1..], outerIp)
  }

  function AddToRows(rows: seq<Row>, c: Conn, port: bool): seq<Row>
  {
    if port then rows + [NewRow(c, c.outerPort)]
    else
      var i := FindRow(rows, c.outerIp);
      if i < |rows| then rows[i := MergeRow(rows[i], c)] else rows + [NewRow(c, 0)]
  }

  function Add(table: map<Key, seq<Row>>, x: Input, port: bool): map<Key, seq<Row>>
  {
    if !InCampus(x.conn.innerIp) then table
    else
      var k := Key(x.box, x.conn.innerIp);
      table[k := AddToRows(if k in table then table[k] else [], x.conn, port)]
  }

  function AddAll(table: map<Key, seq<Row>>, xs: seq<Input>, port: bool): map<Key, seq<Row>>
  {
    if xs == [] then table else Add(AddAll(table, xs[..|xs| - 1], port), xs[|xs| - 1], port)
  }

  // ----- what the rows must say -----

  predicate Matches(x: Input, key: Key)
  {
    x.box == key.box && x.conn.innerIp == key.innerIp && InCampus(key.innerIp)
  }

  predicate MatchesRow(x: Input, key: Key, outerIp: u32)
  {
    Matches(x, key) && x.conn.outerIp == outerIp
  }

  datatype Counter = Recv | Send

  function Counted(c: Conn, which: Counter): nat
  {
    if which.Recv? then c.recv else c.send
  }

  /** The bytes of all records of one host. */
  function HostSum(xs: seq<Input>, key: Key, which: Counter): nat
  {
    if xs == [] then 0
    else
      var x := xs[|xs| - 1];
      HostSum(xs[..|xs| - 1], key, which) + if Matches(x, key) then Counted(x.conn, which) else 0
  }

  /** The bytes of all records of one host and one outer address. */
  function RowSum(xs: seq<Input>, key: Key, outerIp: u32, which: Counter): nat
  {
    if xs == [] then 0
    else
      var x := xs[|xs| - 1];
      RowSum(xs[..|xs| - 1], key, outerIp, which) + if MatchesRow(x, key, outerIp) then Counted(x.conn, which) else 0
  }

  ghost predicate LeastCreate(t: u32, xs: seq<Input>, key: Key, outerIp: u32)
  {
    && (exists x :: x in xs && MatchesRow(x, key, outerIp) && x.conn.create == t)
    && (forall x :: x in xs && MatchesRow(x, key, outerIp) ==> t <= x.conn.create)
  }

  ghost predicate GreatestEnd(t: u32, xs: seq<Input>, key: Key, outerIp: u32)
  {
    && (exists x :: x in xs && MatchesRow(x, key, outerIp) && x.conn.end == t)
    && (forall x :: x in xs && MatchesRow(x, key, outerIp) ==> x.conn.end <= t)
  }

  ghost predicate ProtocolsOf(ps: seq<u16>, xs: seq<Input>, key: Key, outerIp: u32)
  {
    && (forall p :: p in ps <==> exists x :: x in xs && MatchesRow(x, key, outerIp) && x.conn.protocol == p)
    && (forall i, j :: 0 <= i < j < |ps| ==> ps[i] != ps[j])
  }

  ghost predicate Summarises(r: Row, xs: seq<Input>, key: Key)
  {
    && r.outerPort == 0
    && r.recv == RowSum(xs, key, r.outerIp, Recv)
    && r.send == RowSum(xs, key, r.outerIp, Send)
    && LeastCreate(r.create, xs, key, r.outerIp)
    && GreatestEnd(r.end, xs, key, r.outerIp)
    && ProtocolsOf(r.protocols, xs, key, r.outerIp)
  }

  ghost predicate Exact(rows: seq<Row>, xs: seq<Input>, key: Key)
  {
    && (forall i, j :: 0 <= i < j < |rows| ==> rows[i].outerIp != rows[j].outerIp)
    && (forall i :: 0 <= i < |rows| ==> Summarises(rows[i], xs, key))
    && (forall x :: x in xs && Matches(x, key) ==> exists i :: 0 <= i < |rows| && rows[i].outerIp == x.conn.outerIp)
  }

  // ----- one host at a time -----

  /** The rows of one host, built from its own records only. */
  function Rows(xs: seq<Input>, key: Key, port: bool): seq<Row>
  {
    if xs == [] then []
    else
      var x, before := xs[|xs| - 1], Rows(xs[..|xs| - 1], key, port);
      if Matches(x, key) then AddToRows(before, x.conn, port) else before
  }

  lemma InSnoc(xs: seq<Input>)
    requires xs != []
    ensures forall x :: x in xs <==> x in xs[..|xs| - 1] || x == xs[|xs| - 1]
  {
    assert xs == xs[..|xs| - 1] + [xs[|xs| - 1]];
  }

  lemma {:induction false} TableHoldsRows(xs: seq<Input>, key: Key, port: bool)
    ensures var t := AddAll(map[], xs, port);
            && (key in t <==> exists x :: x in xs && Matches(x, key))
            && Rows(xs, key, port) == (if key in t then t[key] else [])
            && (key in t ==> t[key] != [])
  {
    if xs != [] {
      var before, x := xs[..|xs| - 1], xs[|xs| - 1];
      TableHoldsRows(before, key, port);
      InSnoc(xs);
      assert x in xs;
      if Rows(before, key, port) != [] {
        var y :| y in before && Matches(y, key);
        assert y in xs;
      }
    }
  }

  lemma SummaryUnaffected(r: Row, xs: seq<Input>, key: Key)
    requires xs != [] && Summarises(r, xs[..|xs| - 1], key) && !MatchesRow(xs[|xs| - 1], key, r.outerIp)
    ensures Summarises(r, xs, key)
  {
    InSnoc(xs);
  }

  lemma SummaryMerged(r: Row, xs: seq<Input>, key: Key)
    requires xs != [] && Summarises(r, xs[..|xs| - 1], key) && MatchesRow(xs[|xs| - 1], key, r.outerIp)
    ensures Summarises(MergeRow(r, xs[|xs| - 1].conn), xs, key)
  {
    InSnoc(xs);
    var x, before := xs[|xs| - 1], xs[..|xs| - 1];
    var m := MergeRow(r, x.conn);
    assert LeastCreate(m.create, xs, key, r.outerIp) by {
      var y :| y in before && MatchesRow(y, key, r.outerIp) && y.conn.create == r.create;
      assert y in xs && x in xs;
    }
    assert GreatestEnd(m.end, xs, key, r.outerIp) by {
      var y :| y in before && MatchesRow(y, key, r.outerIp) && y.conn.end == r.end;
      assert y in xs && x in xs;
    }
    assert ProtocolsOf(m.protocols, xs, key, r.outerIp) by {
      forall p ensures p in m.protocols <==> exists y :: y in xs && MatchesRow(y, key, r.outerIp) && y.conn.protocol == p {
        assert p in m.protocols <==> p in r.protocols || p == x.conn.protocol;
      }
    }
  }

  ghost predicate NoneFor(xs: seq<Input>, key: Key, outerIp: u32)
  {
    forall x :: x in xs ==> !MatchesRow(x, key, outerIp)
  }

  lemma {:induction false} NoMatchNoSum(xs: seq<Input>, key: Key, outerIp: u32, which: Counter)
    requires NoneFor(xs, key, outerIp)
    ensures RowSum(xs, key, outerIp, which) == 0
  {
    if xs != [] {
      InSnoc(xs);
      NoMatchNoSum(xs[..|xs| - 1], key, outerIp, which);
    }
  }

  lemma SummaryNew(xs: seq<Input>, key: Key)
    requires xs != []
    requires Matches(xs[|xs| - 1], key)
    requires NoneFor(xs[..|xs| - 1], key, xs[|xs| - 1].conn.outerIp)
    ensures Summarises(NewRow(xs[|xs| - 1].conn, 0), xs, key)
  {
    InSnoc(xs);
    var x, before := xs[|xs| - 1], xs[..|xs| - 1];
    NoMatchNoSum(before, key, x.conn.outerIp, Recv);
    NoMatchNoSum(before, key, x.conn.outerIp, Send);
    assert x in xs && MatchesRow(x, key, x.conn.outerIp);
  }

  /** Adding one record of the host keeps the rows exact. */
  lemma AddKeepsExact(rows: seq<Row>, xs: seq<Input>, key: Key)
    requires xs != [] && Matches(xs[|xs| - 1], key) && Exact(rows, xs[..|xs| - 1], key)
    ensures Exact(AddToRows(rows, xs[|xs| - 1].conn, false), xs, key)
  {
    hide Summarises, MergeRow;
    InSnoc(xs);
    var x := xs[|xs| - 1];
    var i := FindRow(rows, x.conn.outerIp);
    var rows' := AddToRows(rows, x.conn, false);
    MergeKeepsAddress(if i < |rows| then rows[i] else NewRow(x.conn, 0), x.conn);
    forall j | 0 <= j < |rows'| ensures Summarises(rows'[j], xs, key) {
      if j < |rows| && j != i {
        SummaryUnaffected(rows[j], xs, key);
      } else if j < |rows| {
        SummaryMerged(rows[j], xs, key);
      } else {
        SummaryNew(xs, key);
      }
    }
    forall y | y in xs && Matches(y, key)
      ensures exists j :: 0 <= j < |rows'| && rows'[j].outerIp == y.conn.outerIp
    {
      if y == x {
        assert rows'[i].outerIp == x.conn.outerIp;
      } else {
        var j :| 0 <= j < |rows| && rows[j].outerIp == y.conn.outerIp;
        assert rows'[j].outerIp == rows[j].outerIp;
      }
    }
  }

  lemma MergeKeepsAddress(r: Row, c: Conn)
    ensures MergeRow(r, c).outerIp == r.outerIp
  {
  }

  lemma SkipKeepsExact(rows: seq<Row>, xs: seq<Input>, key: Key)
    requires xs != [] && !Matches(xs[|xs| - 1], key) && Exact(rows, xs[..|xs| - 1], key)
    ensures Exact(rows, xs, key)
  {
    hide Summarises;
    InSnoc(xs);
    forall j | 0 <= j < |rows| ensures Summarises(rows[j], xs, key) {
      SummaryUnaffected(rows[j], xs, key);
    }
  }

  lemma {:induction false} RowsExact(xs: seq<Input>, key: Key)
    ensures Exact(Rows(xs, key, false), xs, key)
  {
    hide Exact, AddToRows;
    if xs == [] {
      EmptyExact(key);
    } else {
      var before := xs[..|xs| - 1];
      RowsExact(before, key);
      if Matches(xs[|xs| - 1], key) {
        AddKeepsExact(Rows(before, key, false), xs, key);
      } else {
        SkipKeepsExact(Rows(before, key, false), xs, key);
      }
    }
  }

  lemma EmptyExact(key: Key)
    ensures Exact([], [], key)
  {
  }

  /**
   Merging is exact: without the port option a host has one row per outer address, and each
   row holds the sums, the first creation, the last update and the protocols of all records
   of that host and address; every record of the host is in some row.
   */
  lemma MergeIsExact(xs: seq<Input>, key: Key)
    ensures var t := AddAll(map[], xs, false);
            && (key in t <==> exists x :: x in xs && Matches(x, key))
            && (key in t ==> Exact(t[key], xs, key))
  {
    TableHoldsRows(xs, key, false);
    RowsExact(xs, key);
  }

  // ----- order does not matter -----

  lemma {:induction false} RowSumConcat(a: seq<Input>, b: seq<Input>, key: Key, outerIp: u32, which: Counter)
    ensures RowSum(a + b, key, outerIp, which) == RowSum(a, key, outerIp, which) + RowSum(b, key, outerIp, which)
  {
    if b == [] {
      assert a + b == a;
    } else {
      assert (a + b)[..|a + b| - 1] == a + b[..|b| - 1];
      RowSumConcat(a, b[..|b| - 1], key, outerIp, which);
    }
  }

  lemma RowSumRemove(b: seq<Input>, i: nat, key: Key, outerIp: u32, which: Counter)
    requires i < |b|
    ensures RowSum(b, key, outerIp, which) ==
            RowSum(b[..i] + b[i + 1..], key, outerIp, which) + RowSum([b[i]], key, outerIp, which)
  {
    assert b == b[..i] + [b[i]] + b[i + 1..];
    RowSumConcat(b[..i] + [b[i]], b[i + 1..], key, outerIp, which);
    RowSumConcat(b[..i], [b[i]], key, outerIp, which);
    RowSumConcat(b[..i], b[i + 1..], key, outerIp, which);
  }

  lemma RemoveOne<T>(b: seq<T>, i: nat)
    requires i < |b|
    ensures multiset(b[..i] + b[i + 1..]) == multiset(b) - multiset{b[i]}
  {
    assert b == b[..i] + [b[i]] + b[i + 1..];
  }

  lemma PermutedRest<T>(a: seq<T>, b: seq<T>) returns (i: nat)
    requires multiset(a) == multiset(b) && a != []
    ensures i < |b| && b[i] == a[0]
    ensures multiset(a[..0] + a[1..]) == multiset(b[..i] + b[i + 1..])
  {
    assert a[0] in multiset(b);
    i :| 0 <= i < |b| && b[i] == a[0];
    RemoveOne(a, 0);
    RemoveOne(b, i);
  }

  lemma {:induction false} RowSumPermutes(a: seq<Input>, b: seq<Input>, key: Key, outerIp: u32, which: Counter)
    requires multiset(a) == multiset(b)
    ensures RowSum(a, key, outerIp, which) == RowSum(b, key, outerIp, which)
    decreases |a|
  {
    hide RowSum;
    if a == [] {
      assert |multiset(b)| == 0;
    } else {
      var i := PermutedRest(a, b);
      RowSumPermutes(a[..0] + a[1..], b[..i] + b[i + 1..], key, outerIp, which);
      RowSumRemove(a, 0, key, outerIp, which);
      RowSumRemove(b, i, key, outerIp, which);
    }
  }

  ghost predicate SameRow(r: Row, s: Row)
  {
    && r.outerIp == s.outerIp && r.outerPort == s.outerPort
    && r.recv == s.recv && r.send == s.send && r.create == s.create && r.end == s.end
    && forall p :: p in r.protocols <==> p in s.protocols
  }

  lemma SameSummary(r: Row, a: seq<Input>, s: Row, b: seq<Input>, key: Key)
    requires multiset(a) == multiset(b) && r.outerIp == s.outerIp
    requires Summarises(r, a, key) && Summarises(s, b, key)
    ensures SameRow(r, s)
  {
    RowSumPermutes(a, b, key, r.outerIp, Recv);
    RowSumPermutes(a, b, key, r.outerIp, Send);
    SameMembers(a, b);
  }

  lemma SameMembers(a: seq<Input>, b: seq<Input>)
    requires multiset(a) == multiset(b)
    ensures forall x :: x in a <==> x in b
  {
    forall x ensures x in a <==> x in b {
      assert x in a <==> x in multiset(a);
      assert x in b <==> x in multiset(b);
    }
  }

  ghost predicate HasTwin(r: Row, rows: seq<Row>)
  {
    exists j :: 0 <= j < |rows| && SameRow(r, rows[j])
  }

  lemma ExactTwins(rows: seq<Row>, a: seq<Input>, rows': seq<Row>, b: seq<Input>, key: Key)
    requires multiset(a) == multiset(b) && Exact(rows, a, key) && Exact(rows', b, key)
    ensures forall i :: 0 <= i < |rows| ==> HasTwin(rows[i], rows')
  {
    hide Summarises, SameRow;
    SameMembers(a, b);
    forall i | 0 <= i < |rows| ensures HasTwin(rows[i], rows') {
      var x := HasRecord(rows[i], a, key);
      var j :| 0 <= j < |rows'| && rows'[j].outerIp == x.conn.outerIp;
      SameSummary(rows[i], a, rows'[j], b, key);
    }
  }

  /** Every row of one merge has its twin in the merge of the same records in another order. */
  lemma MergeIgnoresOrder(a: seq<Input>, b: seq<Input>, key: Key)
    requires multiset(a) == multiset(b)
    ensures var ta, tb := AddAll(map[], a, false), AddAll(map[], b, false);
            && (key in ta <==> key in tb)
            && (key in ta ==> forall i :: 0 <= i < |ta[key]| ==> HasTwin(ta[key][i], tb[key]))
  {
    hide AddAll, Exact, HasTwin;
    MergeIsExact(a, key);
    MergeIsExact(b, key);
    SameMembers(a, b);
    var ta, tb := AddAll(map[], a, false), AddAll(map[], b, false);
    if key in ta && key in tb {
      ExactTwins(ta[key], a, tb[key], b, key);
    }
  }

  lemma HasRecord(r: Row, xs: seq<Input>, key: Key) returns (x: Input)
    requires Summarises(r, xs, key)
    ensures x in xs && Matches(x, key) && x.conn.outerIp == r.outerIp
  {
    x :| x in xs && MatchesRow(x, key, r.outerIp) && x.conn.create == r.create;
  }

  // ----- totals -----

  function Total(rows: seq<Row>, which: Counter): nat
  {
    if rows == [] then 0
    else Total(rows[..|rows| - 1], which) + if which.Recv? then rows[|rows| - 1].recv else rows[|rows| - 1].send
  }

  lemma {:induction false} TotalUpdate(rows: seq<Row>, i: nat, r: Row, which: Counter)
    requires i < |rows|
    ensures Total(rows[i := r], which) - Total(rows, which) ==
              if which.Recv? then r.recv - rows[i].recv else r.send - rows[i].send
  {
    var n := |rows| - 1;
    if i == n {
      assert rows[i := r][..n] == rows[..n];
    } else {
      assert rows[i := r][..n] == rows[..n][i := r];
      TotalUpdate(rows[..n], i, r, which);
    }
  }

  lemma AddToRowsTotal(rows: seq<Row>, c: Conn, port: bool, which: Counter)
    ensures Total(AddToRows(rows, c, port), which) == Total(rows, which) + Counted(c, which)
  {
    var i := FindRow(rows, c.outerIp);
    if !port && i < |rows| {
      TotalUpdate(rows, i, MergeRow(rows[i], c), which);
    } else {
      var r := NewRow(c, if port then c.outerPort else 0);
      assert (rows + [r])[..|rows|] == rows;
    }
  }

  /** A host's total is the sum over all its records, with or without the port option. */
  lemma {:induction false} TotalIsHostSum(xs: seq<Input>, key: Key, port: bool, which: Counter)
    ensures Total(Rows(xs, key, port), which) == HostSum(xs, key, which)
  {
    if xs != [] {
      TotalIsHostSum(xs[..|xs| - 1], key, port, which);
      AddToRowsTotal(Rows(xs[..|xs| - 1], key, port), xs[|xs| - 1].conn, port, which);
    }
  }

  /** The entry of `stat` for a host. */
  datatype Stat = Stat(recv: nat, send: nat, total: nat)

  function StatOf(rows: seq<Row>): Stat
  {
    Stat(Total(rows, Recv), Total(rows, Send), Total(rows, Send) + Total(rows, Recv))
  }

  /** What `process` reports does not depend on the port option. */
  lemma PortOptionKeepsTotals(xs: seq<Input>, key: Key)
    ensures var t, u := AddAll(map[], xs, false), AddAll(map[], xs, true);
            && (key in t <==> key in u)
            && (key in t ==> StatOf(t[key]) == StatOf(u[key])
                             && StatOf(t[key]).total == HostSum(xs, key, Send) + HostSum(xs, key, Recv))
  {
    TableHoldsRows(xs, key, false);
    TableHoldsRows(xs, key, true);
    TotalIsHostSum(xs, key, false, Recv);
    TotalIsHostSum(xs, key, false, Send);
    TotalIsHostSum(xs, key, true, Recv);
    TotalIsHostSum(xs, key, true, Send);
  }

  // ----- the rows with the port option -----

  /** The records of one host of the campus net, in order. */
  function HostConns(xs: seq<Input>, key: Key): seq<Conn>
  {
    if xs == [] then []
    else
      var x := xs[|xs| - 1];
      HostConns(xs[..|xs| - 1], key) + if x.box == key.box && x.conn.innerIp == key.innerIp then [x.conn] else []
  }

  /** Exactly the addresses 172.16.0.0 to 172.16.255.255 are listed. */
  lemma CampusRange(xs: seq<Input>, key: Key, port: bool)
    ensures key in AddAll(map[], xs, port) <==> 0xac10_0000 <= key.innerIp <= 0xac10_ffff && HostConns(xs, key) != []
  {
    TableHoldsRows(xs, key, port);
    HostConnsFound(xs, key);
  }

  lemma {:induction false} HostConnsFound(xs: seq<Input>, key: Key)
    ensures HostConns(xs, key) != [] <==> exists x :: x in xs && x.box == key.box && x.conn.innerIp == key.innerIp
  {
    if xs != [] {
      HostConnsFound(xs[..|xs| - 1], key);
      InSnoc(xs);
    }
  }

  /** With the port option the rows of a host are its records, one by one and in order. */
  lemma {:induction false} PortRows(xs: seq<Input>, key: Key)
    requires 0xac10_0000 <= key.innerIp <= 0xac10_ffff
    ensures var rows, cs := Rows(xs, key, true), HostConns(xs, key);
            && |rows| == |cs|
            && forall i :: 0 <= i < |rows| ==>
                 rows[i] == Row(cs[i].outerIp, cs[i].outerPort, [cs[i].protocol],
                                cs[i].recv, cs[i].send, cs[i].create, cs[i].end)
  {
    if xs != [] {
      PortRows(xs[..|xs| - 1], key);
    }
  }

  lemma PortRowsInTable(xs: seq<Input>, key: Key)
    requires key in AddAll(map[], xs, true)
    ensures var rows, cs := AddAll(map[], xs, true)[key], HostConns(xs, key);
            && |rows| == |cs|
            && forall i :: 0 <= i < |rows| ==>
                 rows[i] == Row(cs[i].outerIp, cs[i].outerPort, [cs[i].protocol],
                                cs[i].recv, cs[i].send, cs[i].create, cs[i].end)
  {
    hide AddAll, Rows;
    TableHoldsRows(xs, key, true);
    CampusRange(xs, key, true);
    PortRows(xs, key);
  }

  // ----- the order in which hosts are listed -----

  function KeyCompare(x: Key, y: Key): int
  {
    (x.box - y.box) * 0x1_0000 + (x.innerIp - y.innerIp)
  }

  /** Only hosts of the campus net get into the table, so their keys sort by box, then address. */
  lemma KeyCompareIsLexicographic(xs: seq<Input>, port: bool, x: Key, y: Key)
    requires x in AddAll(map[], xs, port) && y in AddAll(map[], xs, port)
    ensures KeyCompare(x, y) < 0 <==> x.box < y.box || (x.box == y.box && x.innerIp < y.innerIp)
    ensures KeyCompare(x, y) == 0 <==> x == y
  {
    TableHoldsRows(xs, x, port);
    TableHoldsRows(xs, y, port);
  }

  // ----- the code -----

  function Inputs(box: int, cs: seq<Conn>): (xs: seq<Input>)
    ensures |xs| == |cs|
  {
    if cs == [] then [] else [Input(box, cs[0])] + Inputs(box, cs[1..])
  }

  lemma {:induction false} InputsAt(box: int, cs: seq<Conn>, i: nat)
    requires i < |cs|
    ensures Inputs(box, cs)[i] == Input(box, cs[i])
  {
    if i > 0 {
      InputsAt(box, cs[1..], i - 1);
    }
  }

  /** The records read front to back, as the loop does. */
  function AddFront(table: map<Key, seq<Row>>, xs: seq<Input>, port: bool): map<Key, seq<Row>>
    decreases |xs|
  {
    if xs == [] then table else AddFront(Add(table, xs[0], port), xs[1..], port)
  }

  lemma {:induction false} AddFrontIsAddAll(table: map<Key, seq<Row>>, xs: seq<Input>, port: bool)
    ensures AddFront(table, xs, port) == AddAll(table, xs, port)
    decreases |xs|
  {
    if xs != [] {
      AddFrontIsAddAll(Add(table, xs[0], port), xs[1..], port);
      AddAllCons(table, xs, port);
    }
  }

  lemma {:induction false} AddAllCons(table: map<Key, seq<Row>>, xs: seq<Input>, port: bool)
    requires xs != []
    ensures AddAll(table, xs, port) == AddAll(Add(table, xs[0], port), xs[1..], port)
  {
    var n := |xs| - 1;
    if n > 0 {
      AddAllCons(table, xs[..n], port);
      assert xs[..n][1..] == xs[1..][..n - 1];
    } else {
      assert xs[..n] == [] && xs[1..] == [];
    }
  }

  /** The totals of the hosts that `process` is through with. */
  function Done(table: map<Key, seq<Row>>, todo: set<Key>): map<Key, Stat>
  {
    map k | k in table && k !in todo :: StatOf(table[k])
  }

  lemma DoneEnds(table: map<Key, seq<Row>>, was: map<Key, Stat>)
    ensures was + Done(table, table.Keys) == was
    ensures Done(table, {}) == map k | k in table :: StatOf(table[k])
  {
  }

  lemma DoneTurn(table: map<Key, seq<Row>>, todo: set<Key>, was: map<Key, Stat>, k: Key)
    requires k in todo && k in table
    ensures (was + Done(table, todo))[k := StatOf(table[k])] == was + Done(table, todo - {k})
  {
    hide StatOf;
  }

  class Receiver {
    const port: bool
    var table: map<Key, seq<Row>>
    var stat: map<Key, Stat>

    constructor (port: bool)
      ensures this.port == port && table == map[] && stat == map[]
    {
      this.port, table, stat := port, map[], map[];
    }

    /** What a new request to the boxes starts with. */
    method Clear()
      modifies `table, `stat
      ensures table == map[] && stat == map[]
    {
      table, stat := map[], map[];
    }

    /** The search for the row to merge into. */
    method Locate(rows: seq<Row>, outerIp: u32) returns (i: nat)
      ensures i == FindRow(rows, outerIp)
    {
      i := 0;
      while i < |rows|
        invariant 0 <= i <= |rows|
        invariant forall j :: 0 <= j < i ==> rows[j].outerIp != outerIp
      {
        if rows[i].outerIp == outerIp {
          return;
        }
        i := i + 1;
      }
    }

    method SaveRecord(box: int, c: Conn)
      modifies `table
      ensures table == Add(old(table), Input(box, c), port)
    {
      if !InCampus(c.innerIp) {
        return;
      }
      var k := Key(box, c.innerIp);
      if k !in table {
        table := table[k := []];
      }
      if port {
        table := table[k := table[k] + [NewRow(c, c.outerPort)]];
      } else {
        var rows := table[k];
        var i := Locate(rows, c.outerIp);
        if i < |rows| {
          table := table[k := rows[i := MergeRow(rows[i], c)]];
        } else {
          table := table[k := rows + [NewRow(c, 0)]];
        }
      }
    }

    /**
     `save_data`.  A message whose length is no multiple of the record size makes `unpack`
     raise at its tail; the whole records before it have been saved by then.
     */
    method SaveData(box: int, msg: seq<u8>) returns (ok: bool)
      modifies `table
      ensures table == AddAll(old(table), Inputs(box, DecodeAll(msg)), port)
      ensures ok <==> |msg| % STRUCT_SIZE == 0
    {
      hide Add, DecodeOne, DecodeAll, AddFront, AddAll, Inputs;
      var i := 0;
      AddFrontIsAddAll(table, Inputs(box, DecodeAll(msg)), port);
      assert msg[0..] == msg;
      while i < |msg|
        invariant 0 <= i <= |msg| && i % STRUCT_SIZE == 0
        invariant AddFront(table, Inputs(box, DecodeAll(msg[i..])), port) ==
                  AddFront(old(table), Inputs(box, DecodeAll(msg)), port)
      {
        if |msg| - i < STRUCT_SIZE {
          NoWholeRecord(table, box, msg[i..], port);
          return false;
        }
        SaveTurn(table, box, msg, i, port);
        SaveRecord(box, DecodeOne(msg[i..i + STRUCT_SIZE]));
        i := i + STRUCT_SIZE;
      }
      NoWholeRecord(table, box, msg[i..], port);
      return true;
    }

    /** The two sums of one host. */
    method SumRows(rows: seq<Row>) returns (stat: Stat)
      ensures stat == StatOf(rows)
    {
      var totalRecv, totalSend := 0, 0;
      for i := 0 to |rows|
        invariant totalRecv == Total(rows[..i], Recv) && totalSend == Total(rows[..i], Send)
      {
        assert rows[..i + 1][..i] == rows[..i];
        totalRecv := totalRecv + rows[i].recv;
        totalSend := totalSend + rows[i].send;
      }
      assert rows[..|rows|] == rows;
      stat := Stat(totalRecv, totalSend, totalSend + totalRecv);
    }

    /** `process`. */
    method Process()
      modifies `stat
      ensures stat == old(stat) + map k | k in table :: StatOf(table[k])
    {
      hide StatOf, Done;
      var todo := table.Keys;
      ghost var was := stat;
      DoneEnds(table, was);
      while todo != {}
        invariant todo <= table.Keys
        invariant stat == was + Done(table, todo)
        decreases |todo|
      {
        var k :| k in todo;
        DoneTurn(table, todo, was, k);
        var st := SumRows(table[k]);
        stat := stat[k := st];
        todo := todo - {k};
      }
    }
  }

  lemma NoWholeRecord(table: map<Key, seq<Row>>, box: int, b: seq<u8>, port: bool)
    requires |b| < STRUCT_SIZE
    ensures AddFront(table, Inputs(box, DecodeAll(b)), port) == table
  {
  }

  lemma SaveTurn(table: map<Key, seq<Row>>, box: int, msg: seq<u8>, i: nat, port: bool)
    requires i + STRUCT_SIZE <= |msg|
    ensures var next := Add(table, Input(box, DecodeOne(msg[i..i + STRUCT_SIZE])), port);
            AddFront(table, Inputs(box, DecodeAll(msg[i..])), port) ==
            AddFront(next, Inputs(box, DecodeAll(msg[i + STRUCT_SIZE..])), port)
  {
    hide Add, DecodeOne, DecodeAll, AddFront, Inputs;
    assert msg[i..][..STRUCT_SIZE] == msg[i..i + STRUCT_SIZE];
    assert msg[i..][STRUCT_SIZE..] == msg[i + STRUCT_SIZE..];
    FrontStep(table, box, msg[i..], port);
  }

  lemma FrontStep(table: map<Key, seq<Row>>, box: int, b: seq<u8>, port: bool)
    requires |b| >= STRUCT_SIZE
    ensures AddFront(table, Inputs(box, DecodeAll(b)), port) ==
            AddFront(Add(table, Input(box, DecodeOne(b[..STRUCT_SIZE])), port),
                     Inputs(box, DecodeAll(b[STRUCT_SIZE..])), port)
  {
    hide Add, DecodeOne;
    var cs := DecodeAll(b);
    assert cs[1..] == DecodeAll(b[STRUCT_SIZE..]);
    var xs := Inputs(box, cs);
    assert xs[1..] == Inputs(box, cs[1..]);
  }
}

/** From the flow table to the client's report: what a rotation approves is what the client adds up. */
module Delivery {
  import opened Bytes
  import opened Flows
  import opened Report
  import opened Collector

  /** What the flows towards one inner host have counted; the client's "recv" is the flow's sent counter. */
  function HostBytes(es: seq<Entry>, innerIp: u32, which: Counter): nat
  {
    if es == [] then 0
    else
      var e := es[|es| - 1];
      HostBytes(es[..|es| - 1], innerIp, which)
      + if Htonl(e.key.dst) != innerIp then 0 else if which.Recv? then e.flow.totalSent else e.flow.totalRecv
  }

  lemma {:induction false} InputsSnoc(box: int, cs: seq<Conn>, c: Conn)
    ensures Inputs(box, cs + [c]) == Inputs(box, cs) + [Input(box, c)]
  {
    if cs == [] {
      assert [c][1..] == [];
    } else {
      assert (cs + [c])[1..] == cs[1..] + [c];
      InputsSnoc(box, cs[1..], c);
    }
  }

  lemma InputsOfLast(es: seq<Entry>, box: int)
    requires es != []
    ensures Inputs(box, ConnsOf(es)) == Inputs(box, ConnsOf(es[..|es| - 1])) + [Input(box, ConnOf(es[|es| - 1]))]
  {
    hide Inputs, ConnOf;
    InputsSnoc(box, ConnsOf(es[..|es| - 1]), ConnOf(es[|es| - 1]));
  }

  lemma HostSumSnoc(xs: seq<Input>, x: Input, key: Key, which: Counter)
    ensures HostSum(xs + [x], key, which) == HostSum(xs, key, which) + if Matches(x, key) then Counted(x.conn, which) else 0
  {
    hide Matches, Counted;
    assert (xs + [x])[..|xs|] == xs;
  }

  lemma {:induction false} HostSumIsHostBytes(es: seq<Entry>, key: Key, which: Counter)
    requires InCampus(key.innerIp)
    ensures HostSum(Inputs(key.box, ConnsOf(es)), key, which) == HostBytes(es, key.innerIp, which)
  {
    hide Htonl, HostSum, Inputs, ConnsOf, InCampus;
    if es == [] {
      NothingSent(key, which);
    } else {
      InputsOfLast(es, key.box);
      HostSumSnoc(Inputs(key.box, ConnsOf(es[..|es| - 1])), Input(key.box, ConnOf(es[|es| - 1])), key, which);
      HostSumIsHostBytes(es[..|es| - 1], key, which);
    }
  }

  lemma NothingSent(key: Key, which: Counter)
    ensures Inputs(key.box, ConnsOf([])) == [] && HostSum([], key, which) == 0
  {
  }

  /** The records of a report and the flows they come from. */
  lemma {:induction false} InputFrom(es: seq<Entry>, box: int, x: Input)
    ensures x in Inputs(box, ConnsOf(es)) <==> exists e :: e in es && x == Input(box, ConnOf(e))
  {
    hide ConnOf, Inputs, ConnsOf;
    if es == [] {
      NothingSent(Key(box, 0), Recv);
    } else {
      var was, e := es[..|es| - 1], es[|es| - 1];
      InputsOfLast(es, box);
      InputFrom(was, box, x);
      assert es == was + [e];
      assert e in es;
      assert forall f :: f in was ==> f in es;
    }
  }

  lemma InputsOf(es: seq<Entry>, key: Key)
    requires InCampus(key.innerIp)
    ensures (exists x :: x in Inputs(key.box, ConnsOf(es)) && Matches(x, key)) <==>
              exists e :: e in es && Htonl(e.key.dst) == key.innerIp
  {
    hide Htonl, InCampus, Inputs, ConnsOf;
    if x :| x in Inputs(key.box, ConnsOf(es)) && Matches(x, key) {
      InputFrom(es, key.box, x);
    }
    if e :| e in es && Htonl(e.key.dst) == key.innerIp {
      InputFrom(es, key.box, Input(key.box, ConnOf(e)));
      assert Matches(Input(key.box, ConnOf(e)), key);
    }
  }

  // ----- a series of reports -----

  /** A report as it leaves a box: the flow table at a rotation, and its time. */
  datatype Message = Message(box: int, flows: seq<Entry>, t: int)

  function ApprovedIn(r: Message, lim: Limits): seq<Entry>
  {
    Approved(Rotate(r.flows, r.t, lim))
  }

  /** The client's table after the messages of these reports, from an empty table on. */
  function Saved(rs: seq<Message>, lim: Limits, port: bool): map<Key, seq<Row>>
  {
    if rs == [] then map[]
    else
      var r := rs[|rs| - 1];
      AddAll(Saved(rs[..|rs| - 1], lim, port), Inputs(r.box, DecodeAll(EncodeAll(ApprovedIn(r, lim)))), port)
  }

  /** The bytes of one host, report by report. */
  function SeriesBytes(rs: seq<Message>, lim: Limits, key: Key, which: Counter): nat
  {
    if rs == [] then 0
    else
      var r := rs[|rs| - 1];
      SeriesBytes(rs[..|rs| - 1], lim, key, which)
      + if r.box == key.box then HostBytes(ApprovedIn(r, lim), key.innerIp, which) else 0
  }

  /** Some report of the box has an approved flow towards the host. */
  ghost predicate Mentioned(rs: seq<Message>, lim: Limits, key: Key)
  {
    exists r, e :: r in rs && r.box == key.box && e in ApprovedIn(r, lim) && Htonl(e.key.dst) == key.innerIp
  }

  /** All records of the reports. */
  function Records(rs: seq<Message>, lim: Limits): seq<Input>
  {
    if rs == [] then []
    else
      var r := rs[|rs| - 1];
      Records(rs[..|rs| - 1], lim) + Inputs(r.box, ConnsOf(ApprovedIn(r, lim)))
  }

  lemma {:induction false} AddAllConcat(table: map<Key, seq<Row>>, a: seq<Input>, b: seq<Input>, port: bool)
    ensures AddAll(AddAll(table, a, port), b, port) == AddAll(table, a + b, port)
  {
    hide Add;
    if b == [] {
      assert a + b == a;
    } else {
      assert (a + b)[..|a + b| - 1] == a + b[..|b| - 1];
      AddAllConcat(table, a, b[..|b| - 1], port);
    }
  }

  lemma {:induction false} HostSumConcat(a: seq<Input>, b: seq<Input>, key: Key, which: Counter)
    ensures HostSum(a + b, key, which) == HostSum(a, key, which) + HostSum(b, key, which)
  {
    hide Matches, Counted;
    if b == [] {
      assert a + b == a;
    } else {
      assert (a + b)[..|a + b| - 1] == a + b[..|b| - 1];
      HostSumConcat(a, b[..|b| - 1], key, which);
    }
  }

  lemma {:induction false} OtherBox(xs: seq<Input>, key: Key, which: Counter)
    requires forall x :: x in xs ==> x.box != key.box
    ensures HostSum(xs, key, which) == 0
  {
    if xs != [] {
      OtherBox(xs[..|xs| - 1], key, which);
    }
  }

  lemma {:induction false} InputsBox(box: int, cs: seq<Conn>)
    ensures forall x :: x in Inputs(box, cs) ==> x.box == box
  {
    if cs != [] {
      InputsBox(box, cs[1..]);
    }
  }

  lemma {:induction false} SavedAddsRecords(rs: seq<Message>, lim: Limits, port: bool)
    ensures Saved(rs, lim, port) == AddAll(map[], Records(rs, lim), port)
  {
    hide Inputs, ConnsOf, ApprovedIn, DecodeAll, EncodeAll;
    if rs == [] {
      NothingAdded(map[], port);
    } else {
      var n := |rs| - 1;
      SavedAddsRecords(rs[..n], lim, port);
      DecodeInvertsEncode(ApprovedIn(rs[n], lim));
      AddAllConcat(map[], Records(rs[..n], lim), Inputs(rs[n].box, ConnsOf(ApprovedIn(rs[n], lim))), port);
    }
  }

  lemma NothingAdded(table: map<Key, seq<Row>>, port: bool)
    ensures AddAll(table, [], port) == table
  {
  }

  lemma {:induction false} RecordsSum(rs: seq<Message>, lim: Limits, key: Key, which: Counter)
    requires InCampus(key.innerIp)
    ensures HostSum(Records(rs, lim), key, which) == SeriesBytes(rs, lim, key, which)
  {
    hide Inputs, ConnsOf, ApprovedIn, InCampus, HostBytes, HostSum;
    if rs == [] {
      NothingSent(key, which);
    } else {
      var n := |rs| - 1;
      var es := ApprovedIn(rs[n], lim);
      var xs := Inputs(rs[n].box, ConnsOf(es));
      RecordsSum(rs[..n], lim, key, which);
      HostSumConcat(Records(rs[..n], lim), xs, key, which);
      if rs[n].box == key.box {
        HostSumIsHostBytes(es, key, which);
      } else {
        InputsBox(rs[n].box, ConnsOf(es));
        OtherBox(xs, key, which);
      }
    }
  }

  lemma {:induction false} RecordsMention(rs: seq<Message>, lim: Limits, key: Key)
    requires InCampus(key.innerIp)
    ensures (exists x :: x in Records(rs, lim) && Matches(x, key)) <==> Mentioned(rs, lim, key)
  {
    hide Inputs, ConnsOf, ApprovedIn, InCampus, Htonl;
    if rs != [] {
      var n := |rs| - 1;
      var was, r := rs[..n], rs[n];
      var es := ApprovedIn(r, lim);
      RecordsMention(was, lim, key);
      InputsBox(r.box, ConnsOf(es));
      InputsOf(es, key);
      assert forall q :: q in rs <==> q in was || q == r;
      assert forall x :: x in Records(rs, lim) <==> x in Records(was, lim) || x in Inputs(r.box, ConnsOf(es));
    }
  }

  /**
   End to end: a client that has saved the reports of some boxes lists exactly the campus
   hosts towards which some report had an approved flow, each with the sum, over the reports
   of its box, of the bytes of those flows, whatever the port option.
   */
  lemma ReportedTotals(rs: seq<Message>, lim: Limits, key: Key, port: bool)
    ensures var table := Saved(rs, lim, port);
            && (key in table <==> InCampus(key.innerIp) && Mentioned(rs, lim, key))
            && (key in table ==>
                  var recv, send := SeriesBytes(rs, lim, key, Recv), SeriesBytes(rs, lim, key, Send);
                  StatOf(table[key]) == Stat(recv, send, send + recv))
  {
    hide Saved, Mentioned, InCampus, AddAll, Collector.Rows, HostSum, SeriesBytes;
    var xs := Records(rs, lim);
    SavedAddsRecords(rs, lim, port);
    TableHoldsRows(xs, key, port);
    if InCampus(key.innerIp) {
      RecordsMention(rs, lim, key);
      TotalIsHostSum(xs, key, port, Recv);
      TotalIsHostSum(xs, key, port, Send);
      RecordsSum(rs, lim, key, Recv);
      RecordsSum(rs, lim, key, Send);
    }
  }

  /**
   Boxes report cumulative counters, and the client adds: after one more report its figure
   is what that report says exactly if the earlier reports of the box had no bytes for the
   host, so for the first report after the table was cleared.
   */
  lemma LatestCountIff(rs: seq<Message>, r: Message, lim: Limits, key: Key, port: bool)
    requires r.box == key.box && key in Saved(rs + [r], lim, port)
    ensures var stat, es := StatOf(Saved(rs + [r], lim, port)[key]), ApprovedIn(r, lim);
            && (stat.recv == HostBytes(es, key.innerIp, Recv) <==> SeriesBytes(rs, lim, key, Recv) == 0)
            && (stat.send == HostBytes(es, key.innerIp, Send) <==> SeriesBytes(rs, lim, key, Send) == 0)
  {
    hide Saved, Mentioned, StatOf, HostBytes, ApprovedIn;
    ReportedTotals(rs + [r], lim, key, port);
    assert (rs + [r])[..|rs|] == rs;
  }
}

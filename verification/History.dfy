/** The per-flow records of `iftop.h`, updated in place, and their value. */
module History {
  import opened Bytes
  import opened AddrHash
  import opened HashTable
  import opened Flows

  class Record {
    var totalSent: u64
    var totalRecv: u64
    var createTime: int
    var lastUpdate: int
    var approval: bool

    /** `history_create`. */
    constructor (now: int)
      ensures Value() == NewFlow(now)
    {
      totalSent, totalRecv, createTime, lastUpdate, approval := 0, 0, now, 0, false;
    }

    function Value(): Flow
      reads this
    {
      Flow(totalSent, totalRecv, createTime, lastUpdate, approval)
    }
  }

  type FlowNode = Node<AddrPair, Record>

  ghost function Records(items: seq<FlowNode>): set<Record>
  {
    set i | 0 <= i < |items| :: items[i].rec
  }

  /** `flows` is the value of the table contents, in iteration order. */
  ghost predicate Shows(items: seq<FlowNode>, flows: seq<Entry>)
    reads Records(items)
  {
    && |flows| == |items|
    && forall i :: 0 <= i < |flows| ==> flows[i] == Entry(items[i].key, items[i].rec.Value())
  }

  /** No two nodes share a key or a record. */
  ghost predicate Separate(items: seq<FlowNode>)
  {
    forall i, j :: 0 <= i < j < |items| ==> items[i].key != items[j].key && items[i].rec != items[j].rec
  }
}

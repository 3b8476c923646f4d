/**
 The chained hash table of `hash.c`: an array of bucket heads and singly linked
 nodes, with the hash function supplied by the owner of the table.

 Two ghost fields describe the heap.  `items` lists all nodes, bucket by bucket and
 in chain order within a bucket; `starts[b]` is the position in `items` at which
 bucket `b` begins.
 */
module HashTable {
  import opened Wrappers

  datatype Status = Ok | KeyNotFound

  class Node<K, V> {
    var next: Node?<K, V>
    const key: K
    const rec: V

    constructor (key: K, rec: V, next: Node?<K, V>)
      ensures this.key == key && this.rec == rec && this.next == next
    {
      this.key, this.rec, this.next := key, rec, next;
    }
  }

  /** Position of the first node holding `key`, or the length when there is none. */
  ghost function First<K, V>(items: seq<Node<K, V>>, key: K): (i: nat)
    ensures i <= |items|
    ensures i < |items| ==> items[i].key == key
    ensures forall j :: 0 <= j < i ==> items[j].key != key
  {
    if items == [] || items[0].key == key then 0 else 1 + First(items[1..], key)
  }

  /** The records stored under `key`, most recently inserted first. */
  ghost function Stack<K, V>(items: seq<Node<K, V>>, key: K): seq<V>
  {
    if items == [] then []
    else if items[0].key == key then [items[0].rec] + Stack(items[1..], key)
    else Stack(items[1..], key)
  }

  lemma {:induction false} StackConcat<K, V>(a: seq<Node<K, V>>, b: seq<Node<K, V>>, key: K)
    ensures Stack(a + b, key) == Stack(a, key) + Stack(b, key)
  {
    if a == [] {
      assert a + b == b;
    } else {
      assert (a + b)[1..] == a[1..] + b;
      StackConcat(a[1..], b, key);
    }
  }

  lemma {:induction false} StackAbsent<K, V>(items: seq<Node<K, V>>, key: K)
    requires forall i :: 0 <= i < |items| ==> items[i].key != key
    ensures Stack(items, key) == []
  {
    if items != [] {
      StackAbsent(items[1..], key);
    }
  }

  /** Nothing before position `i` has this key: then the top of its stack is at `i`. */
  lemma StackFromFirst<K, V>(items: seq<Node<K, V>>, key: K, i: nat)
    requires i < |items| && items[i].key == key
    requires forall j :: 0 <= j < i ==> items[j].key != key
    ensures Stack(items, key) == [items[i].rec] + Stack(items[i + 1..], key)
    ensures Stack(items[..i] + items[i + 1..], key) == Stack(items[i + 1..], key)
  {
    assert items == items[..i] + items[i..];
    StackConcat(items[..i], items[i..], key);
    StackAbsent(items[..i], key);
    assert items[i..][1..] == items[i + 1..];
    StackConcat(items[..i], items[i + 1..], key);
  }

  /** Putting in or taking out a node leaves the stacks of all other keys alone. */
  lemma StackOther<K, V>(before: seq<Node<K, V>>, n: Node<K, V>, after: seq<Node<K, V>>, key: K)
    requires n.key != key
    ensures Stack(before + [n] + after, key) == Stack(before + after, key)
  {
    StackConcat(before + [n], after, key);
    StackConcat(before, [n], key);
    StackConcat(before, after, key);
    StackAbsent([n], key);
  }

  lemma StackPush<K, V>(before: seq<Node<K, V>>, n: Node<K, V>, after: seq<Node<K, V>>)
    requires forall i :: 0 <= i < |before| ==> before[i].key != n.key
    ensures Stack(before + [n] + after, n.key) == [n.rec] + Stack(before + after, n.key)
  {
    StackConcat(before + [n], after, n.key);
    StackConcat(before, [n], n.key);
    StackConcat(before, after, n.key);
    StackAbsent(before, n.key);
  }

  /** `now` is `was` with a node for `key` and `rec` put at `s`, ahead of its whole bucket. */
  ghost predicate Inserted<K, V>(was: seq<Node<K, V>>, now: seq<Node<K, V>>, s: nat, key: K, rec: V, hash: K -> int)
  {
    && s < |now| == |was| + 1
    && now[s].key == key && now[s].rec == rec
    && now == was[..s] + [now[s]] + was[s..]
    && (forall i :: 0 <= i < |was| ==> (i < s <==> hash(was[i].key) < hash(key)))
  }

  /** `now` is `was` without its node `i`. */
  ghost predicate Removed<K, V>(was: seq<Node<K, V>>, now: seq<Node<K, V>>, i: nat)
  {
    i < |was| && now == was[..i] + was[i + 1..]
  }

  /** An insertion pushes onto the stack of its key and leaves every other key alone. */
  lemma InsertedPushes<K(!new), V>(
    was: seq<Node<K, V>>, now: seq<Node<K, V>>, s: nat, key: K, rec: V, hash: K -> int)
    requires Inserted(was, now, s, key, rec, hash)
    ensures Stack(now, key) == [rec] + Stack(was, key)
    ensures forall k :: k != key ==> Stack(now, k) == Stack(was, k)
  {
    var before, n, after := was[..s], now[s], was[s..];
    assert was == before + after && now == before + [n] + after;
    StackPush(before, n, after);
    forall k | k != key ensures Stack(now, k) == Stack(was, k) {
      StackOther(before, n, after, k);
    }
  }

  /** Deleting the first node of a key pops that key's stack and leaves every other key alone. */
  lemma RemovedPops<K(!new), V>(was: seq<Node<K, V>>, now: seq<Node<K, V>>, key: K)
    requires Removed(was, now, First(was, key))
    ensures Stack(was, key) != [] && Stack(now, key) == Stack(was, key)[1..]
    ensures forall k :: k != key ==> Stack(now, k) == Stack(was, k)
  {
    var i := First(was, key);
    StackFromFirst(was, key, i);
    assert was == was[..i] + [was[i]] + was[i + 1..];
    forall k | k != key ensures Stack(now, k) == Stack(was, k) {
      StackOther(was[..i], was[i], was[i + 1..], k);
    }
  }

  /** Looking at the first node of a key peeks at its stack; there is none iff the stack is empty. */
  lemma FirstPeeks<K, V>(items: seq<Node<K, V>>, key: K)
    ensures First(items, key) < |items| ==> Stack(items, key) != [] && Stack(items, key)[0] == items[First(items, key)].rec
    ensures First(items, key) == |items| ==> Stack(items, key) == []
  {
    if First(items, key) < |items| {
      StackFromFirst(items, key, First(items, key));
    } else {
      StackAbsent(items, key);
    }
  }

  /**
   How `items` is cut into buckets: `starts` is ascending from 0 to the end, every node
   lies in the stretch of its own bucket, and no node occurs twice.
   */
  ghost predicate Layout<K, V>(items: seq<Node<K, V>>, starts: seq<nat>, size: nat, hash: K -> int)
  {
    && |starts| == size + 1 && starts[0] == 0 && starts[size] == |items|
    && (forall a, b :: 0 <= a <= b <= size ==> starts[a] <= starts[b])
    && (forall i {:trigger items[i].key} :: 0 <= i < |items| ==>
          0 <= hash(items[i].key) < size && starts[hash(items[i].key)] <= i < starts[hash(items[i].key) + 1])
    && (forall i, j :: 0 <= i < j < |items| ==> items[i] != items[j])
  }

  /** What the link of node `i` must be: the next node of its bucket. */
  ghost function NextIn<K, V>(items: seq<Node<K, V>>, starts: seq<nat>, size: nat, hash: K -> int, i: nat): Node?<K, V>
    requires Layout(items, starts, size, hash) && i < |items|
  {
    if i + 1 < starts[hash(items[i].key) + 1] then items[i + 1] else null
  }

  /** What the head of bucket `b` must be. */
  ghost function HeadIn<K, V>(items: seq<Node<K, V>>, starts: seq<nat>, size: nat, hash: K -> int, b: nat): Node?<K, V>
    requires Layout(items, starts, size, hash) && b < size
  {
    if starts[b] < starts[b + 1] then items[starts[b]] else null
  }

  /** The bucket starts after one node came (`delta == 1`) or went (`delta == -1`) in bucket `h`. */
  ghost function Shifted(starts: seq<nat>, h: nat, delta: int): seq<nat>
    requires forall b :: h < b < |starts| ==> starts[b] + delta >= 0
  {
    seq(|starts|, b requires 0 <= b < |starts| => if b <= h then starts[b] else starts[b] + delta)
  }

  lemma LayoutInsert<K, V>(items: seq<Node<K, V>>, starts: seq<nat>, size: nat, hash: K -> int, p: Node<K, V>)
    requires Layout(items, starts, size, hash)
    requires p !in items && 0 <= hash(p.key) < size
    ensures var s := starts[hash(p.key)];
            Layout(items[..s] + [p] + items[s..], Shifted(starts, hash(p.key), 1), size, hash)
  {
    var h := hash(p.key);
    var s := starts[h];
    var items' := items[..s] + [p] + items[s..];
    var starts' := Shifted(starts, h, 1);
    forall i {:trigger items'[i].key} | 0 <= i < |items'|
      ensures 0 <= hash(items'[i].key) < size
              && starts'[hash(items'[i].key)] <= i < starts'[hash(items'[i].key) + 1]
    {
      if i != s {
        var j := if i < s then i else i - 1;
        assert items'[i] == items[j];
        Bounds(items, starts, size, hash, j, h);
      }
    }
    InsertKeepsDistinct(items, s, p);
  }

  lemma InsertKeepsDistinct<T>(a: seq<T>, s: nat, p: T)
    requires s <= |a| && p !in a
    requires forall i, j :: 0 <= i < j < |a| ==> a[i] != a[j]
    ensures var b := a[..s] + [p] + a[s..]; forall i, j :: 0 <= i < j < |b| ==> b[i] != b[j]
  {
  }

  /** A bucket's start separates the lower buckets from it and the higher ones. */
  lemma StartSeparates<K, V>(items: seq<Node<K, V>>, starts: seq<nat>, size: nat, hash: K -> int, b: nat)
    requires Layout(items, starts, size, hash) && b < size
    ensures forall i :: 0 <= i < |items| ==> (i < starts[b] <==> hash(items[i].key) < b)
  {
    forall i | 0 <= i < |items| ensures i < starts[b] <==> hash(items[i].key) < b {
      Bounds(items, starts, size, hash, i, b);
    }
  }

  lemma LayoutFacts<K, V>(items: seq<Node<K, V>>, starts: seq<nat>, size: nat, hash: K -> int)
    requires Layout(items, starts, size, hash)
    ensures |starts| == size + 1 && forall b :: 0 <= b <= size ==> starts[b] <= |items|
    ensures forall i {:trigger items[i].key} :: 0 <= i < |items| ==>
              0 <= hash(items[i].key) < size && starts[hash(items[i].key)] <= i
    ensures forall i, j :: 0 <= i < j < |items| ==> items[i] != items[j]
  {
  }

  /** Inserting at the head of a bucket: the new node links to the old head, no other link changes ... */
  lemma NextAfterInsert<K, V>(items: seq<Node<K, V>>, starts: seq<nat>, size: nat, hash: K -> int, p: Node<K, V>, i: nat)
    requires Layout(items, starts, size, hash)
    requires p !in items && 0 <= hash(p.key) < size && i <= |items|
    requires var s := starts[hash(p.key)];
             Layout(items[..s] + [p] + items[s..], Shifted(starts, hash(p.key), 1), size, hash)
    ensures var s := starts[hash(p.key)];
            NextIn(items[..s] + [p] + items[s..], Shifted(starts, hash(p.key), 1), size, hash, i) ==
              if i == s then HeadIn(items, starts, size, hash, hash(p.key))
              else NextIn(items, starts, size, hash, if i < s then i else i - 1)
  {
    var s := starts[hash(p.key)];
    if i != s {
      var j := if i < s then i else i - 1;
      assert (items[..s] + [p] + items[s..])[i] == items[j];
      Bounds(items, starts, size, hash, j, hash(p.key));
    }
  }

  /** ... and only that bucket's head moves. */
  lemma HeadAfterInsert<K, V>(items: seq<Node<K, V>>, starts: seq<nat>, size: nat, hash: K -> int, p: Node<K, V>, b: nat)
    requires Layout(items, starts, size, hash)
    requires p !in items && 0 <= hash(p.key) < size && b < size
    requires var s := starts[hash(p.key)];
             Layout(items[..s] + [p] + items[s..], Shifted(starts, hash(p.key), 1), size, hash)
    ensures var s := starts[hash(p.key)];
            HeadIn(items[..s] + [p] + items[s..], Shifted(starts, hash(p.key), 1), size, hash, b) ==
              if b == hash(p.key) then p else HeadIn(items, starts, size, hash, b)
  {
    var h := hash(p.key);
    if b < h {
      assert starts[b + 1] <= starts[h];
    } else if h < b {
      assert starts[h] <= starts[h + 1] <= starts[b];
    }
  }

  /** Unlinking node `k` redirects the link that pointed at it ... */
  lemma NextAfterDelete<K, V>(items: seq<Node<K, V>>, starts: seq<nat>, size: nat, hash: K -> int, k: nat, i: nat)
    requires Layout(items, starts, size, hash)
    requires k < |items| && i < |items| - 1
    requires forall b :: hash(items[k].key) < b <= size ==> starts[b] > 0
    requires Layout(items[..k] + items[k + 1..], Shifted(starts, hash(items[k].key), -1), size, hash)
    ensures NextIn(items[..k] + items[k + 1..], Shifted(starts, hash(items[k].key), -1), size, hash, i) ==
              if i + 1 == k && starts[hash(items[k].key)] < k then NextIn(items, starts, size, hash, k)
              else NextIn(items, starts, size, hash, if i < k then i else i + 1)
  {
    var j := if i < k then i else i + 1;
    assert (items[..k] + items[k + 1..])[i] == items[j];
    Bounds(items, starts, size, hash, j, hash(items[k].key));
  }

  /** ... or the head that did, when `k` came first in its bucket. */
  lemma HeadAfterDelete<K, V>(items: seq<Node<K, V>>, starts: seq<nat>, size: nat, hash: K -> int, k: nat, b: nat)
    requires Layout(items, starts, size, hash)
    requires k < |items| && b < size
    requires forall c :: hash(items[k].key) < c <= size ==> starts[c] > 0
    requires Layout(items[..k] + items[k + 1..], Shifted(starts, hash(items[k].key), -1), size, hash)
    ensures HeadIn(items[..k] + items[k + 1..], Shifted(starts, hash(items[k].key), -1), size, hash, b) ==
              if b == hash(items[k].key) && starts[b] == k then NextIn(items, starts, size, hash, k)
              else HeadIn(items, starts, size, hash, b)
  {
    var h := hash(items[k].key);
    if b < h {
      assert starts[b + 1] <= starts[h];
    } else if h < b {
      assert starts[h + 1] <= starts[b];
    }
  }

  lemma LayoutDelete<K, V>(items: seq<Node<K, V>>, starts: seq<nat>, size: nat, hash: K -> int, k: nat)
    requires Layout(items, starts, size, hash)
    requires k < |items|
    ensures forall b :: hash(items[k].key) < b <= size ==> starts[b] > 0
    ensures Layout(items[..k] + items[k + 1..], Shifted(starts, hash(items[k].key), -1), size, hash)
  {
    var h := hash(items[k].key);
    assert starts[h] <= k < starts[h + 1];
    var items' := items[..k] + items[k + 1..];
    var starts' := Shifted(starts, h, -1);
    forall i {:trigger items'[i].key} | 0 <= i < |items'|
      ensures 0 <= hash(items'[i].key) < size
              && starts'[hash(items'[i].key)] <= i < starts'[hash(items'[i].key) + 1]
    {
      var j := if i < k then i else i + 1;
      assert items'[i] == items[j];
      Bounds(items, starts, size, hash, j, h);
    }
  }

  /** All nodes of one bucket, and nothing else, lie between its two start positions. */
  lemma Bounds<K, V>(items: seq<Node<K, V>>, starts: seq<nat>, size: nat, hash: K -> int, i: nat, b: nat)
    requires Layout(items, starts, size, hash)
    requires i < |items| && b < size
    ensures starts[b] <= i < starts[b + 1] <==> hash(items[i].key) == b
    ensures i < starts[b] <==> hash(items[i].key) < b
  {
    var h := hash(items[i].key);
    if h < b {
      assert starts[h + 1] <= starts[b];
    } else if b < h {
      assert starts[b + 1] <= starts[h];
    }
  }

  ghost function NodeSet<K, V>(items: seq<Node<K, V>>): set<Node<K, V>>
  {
    set n | n in items
  }

  class Table<K(==,!new), V> {
    const size: nat
    const hash: K -> int
    const table: array<Node?<K, V>>
    ghost var items: seq<Node<K, V>>
    ghost var starts: seq<nat>

    ghost function Nodes(): set<Node<K, V>>
      reads this
    {
      NodeSet(items)
    }

    ghost predicate Valid()
      reads this, table, Nodes()
    {
      && table.Length == size
      && (forall k :: 0 <= hash(k) < size)
      && |starts| == size + 1 && (forall b :: 0 <= b <= size ==> starts[b] <= |items|)
      && Layout(items, starts, size, hash)
      && (forall i {:trigger items[i].next} :: 0 <= i < |items| ==>
            items[i].next == NextIn(items, starts, size, hash, i))
      && (forall b {:trigger table[b]} :: 0 <= b < size ==> table[b] == HeadIn(items, starts, size, hash, b))
    }

    constructor (size: nat, hash: K -> int)
      requires forall k :: 0 <= hash(k) < size
      ensures Valid() && items == [] && fresh(table)
      ensures this.size == size && this.hash == hash
    {
      this.size := size;
      this.hash := hash;
      table := new Node?<K, V>[size](_ => null);
      items := [];
      starts := seq(size + 1, _ => 0);
    }

    /** The first non-empty bucket head from bucket `i` on. */
    ghost function Scan(i: nat): Node?<K, V>
      requires i <= size == table.Length
      reads table
      decreases size - i
    {
      if i == size then null else if table[i] != null then table[i] else Scan(i + 1)
    }

    /** One step of the cursor; the bucket is recomputed from the node's own key. */
    ghost function Successor(n: Node?<K, V>): Node?<K, V>
      requires Valid()
      reads this, table, Nodes(), n
    {
      if n == null then Scan(0)
      else if n.next != null then n.next
      else Scan(hash(n.key) + 1)
    }

    /** The cursor after `k` steps from NULL. */
    ghost function Cursor(k: nat): Node?<K, V>
      requires Valid()
      requires k <= |items| + 1
      reads this, table, Nodes()
    {
      if k == 0 then null
      else if Cursor(k - 1) == null || Cursor(k - 1) in items then Successor(Cursor(k - 1))
      else null
    }

    lemma {:induction false} ScanFinds(i: nat)
      requires Valid()
      requires i <= size
      ensures Scan(i) == if starts[i] < |items| then items[starts[i]] else null
      decreases size - i
    {
      if i < size {
        ScanFinds(i + 1);
      }
    }

    lemma SuccessorIsNext(k: nat)
      requires Valid()
      requires k < |items|
      ensures Successor(items[k]) == if k + 1 < |items| then items[k + 1] else null
    {
      var h := hash(items[k].key);
      ScanFinds(h + 1);
      if items[k].next == null {
        assert starts[h + 1] == k + 1;
      }
    }

    /** From NULL the cursor visits every node exactly once, in order, and returns to NULL. */
    lemma {:induction false} CursorVisitsEachOnce(k: nat)
      requires Valid()
      requires k <= |items| + 1
      ensures Cursor(k) == if 1 <= k <= |items| then items[k - 1] else null
    {
      hide Layout, NextIn, HeadIn, Scan, Successor;
      if k > 0 {
        CursorVisitsEachOnce(k - 1);
        if k == 1 {
          StartsAtFirst();
        } else {
          SuccessorIsNext(k - 2);
        }
      }
    }

    lemma StartsAtFirst()
      requires Valid()
      ensures Successor(null) == if |items| > 0 then items[0] else null
    {
      ScanFinds(0);
    }

    method Insert(key: K, rec: V) returns (status: Status)
      requires Valid()
      modifies this, table
      ensures Valid() && status == Ok
      ensures 0 <= hash(key) < |old(starts)|
      ensures Inserted(old(items), items, old(starts)[hash(key)], key, rec, hash)
      ensures old(starts)[hash(key)] < |items| && fresh(items[old(starts)[hash(key)]])
      ensures Nodes() == old(Nodes()) + {items[old(starts)[hash(key)]]}
    {
      hide Layout, NextIn, HeadIn;
      var bucket := hash(key);
      ghost var was, s, st := items, starts[bucket], starts;
      var p0 := table[bucket];
      var p := new Node(key, rec, p0);
      table[bucket] := p;
      items := was[..s] + [p] + was[s..];
      starts := Shifted(st, bucket, 1);
      StartSeparates(was, st, size, hash, bucket);
      LayoutInsert(was, st, size, hash, p);
      LayoutFacts(items, starts, size, hash);
      forall i {:trigger items[i].next} | 0 <= i < |items|
        ensures items[i].next == NextIn(items, starts, size, hash, i)
      {
        assert i != s ==> items[i] == was[if i < s then i else i - 1];
        NextAfterInsert(was, st, size, hash, p, i);
      }
      forall b {:trigger table[b]} | 0 <= b < size
        ensures table[b] == HeadIn(items, starts, size, hash, b)
      {
        HeadAfterInsert(was, st, size, hash, p, b);
      }
      status := Ok;
    }

    method Find(key: K) returns (status: Status, rec: Option<V>)
      requires Valid()
      ensures status == Ok <==> First(items, key) < |items|
      ensures rec == if First(items, key) < |items| then Some(items[First(items, key)].rec) else None
    {
      var b := hash(key);
      var p := table[b];
      ghost var i := starts[b];
      while p != null && p.key != key
        invariant starts[b] <= i <= starts[b + 1]
        invariant p == if i < starts[b + 1] then items[i] else null
        invariant forall j :: starts[b] <= j < i ==> items[j].key != key
        decreases |items| - i
      {
        Bounds(items, starts, size, hash, i, b);
        p := p.next;
        i := i + 1;
      }
      ChainSearch(key, i);
      if p == null {
        return KeyNotFound, None;
      }
      return Ok, Some(p.rec);
    }

    /** A search of one chain answers for the whole table. */
    lemma ChainSearch(key: K, i: nat)
      requires Valid()
      requires starts[hash(key)] <= i <= starts[hash(key) + 1]
      requires forall j :: starts[hash(key)] <= j < i ==> items[j].key != key
      requires i < starts[hash(key) + 1] ==> items[i].key == key
      ensures i < starts[hash(key) + 1] ==> First(items, key) == i
      ensures i == starts[hash(key) + 1] ==> First(items, key) == |items|
    {
      forall j | 0 <= j < |items| && items[j].key == key
        ensures starts[hash(key)] <= j < starts[hash(key) + 1]
      {
        Bounds(items, starts, size, hash, j, hash(key));
      }
    }

    /** The first node of `key` and the node before it in its chain, if any. */
    method Locate(key: K) returns (p0: Node?<K, V>, p: Node?<K, V>)
      requires Valid()
      ensures var i := First(items, key);
              if i == |items| then p == null else
                && p == items[i] && hash(key) < size
                && p0 == if starts[hash(key)] < i then items[i - 1] else null
    {
      var bucket := hash(key);
      p0 := null;
      p := table[bucket];
      ghost var i := starts[bucket];
      while p != null && p.key != key
        invariant starts[bucket] <= i <= starts[bucket + 1]
        invariant p == if i < starts[bucket + 1] then items[i] else null
        invariant p0 == if i > starts[bucket] then items[i - 1] else null
        invariant forall j :: starts[bucket] <= j < i ==> items[j].key != key
        decreases |items| - i
      {
        Bounds(items, starts, size, hash, i, bucket);
        p0 := p;
        p := p.next;
        i := i + 1;
      }
      ChainSearch(key, i);
    }

    method Delete(key: K) returns (status: Status)
      requires Valid()
      modifies this, table, Nodes()
      ensures Valid() && Nodes() <= old(Nodes())
      ensures status == Ok <==> old(First(items, key)) < |old(items)|
      ensures status == KeyNotFound ==> items == old(items)
      ensures status == Ok ==> Removed(old(items), items, old(First(items, key)))
    {
      hide Layout, NextIn, HeadIn, First;
      var bucket := hash(key);
      var p0, p := Locate(key);
      if p == null {
        return KeyNotFound;
      }
      ghost var was, st, i := items, starts, First(items, key);
      LayoutFacts(was, st, size, hash);
      LayoutDelete(was, st, size, hash, i);
      if p0 != null {
        p0.next := p.next;
      } else {
        table[bucket] := p.next;
      }
      items := was[..i] + was[i + 1..];
      starts := Shifted(st, bucket, -1);
      LayoutFacts(items, starts, size, hash);
      forall j {:trigger items[j].next} | 0 <= j < |items|
        ensures items[j].next == NextIn(items, starts, size, hash, j)
      {
        assert items[j] == was[if j < i then j else j + 1];
        NextAfterDelete(was, st, size, hash, i, j);
      }
      forall b {:trigger table[b]} | 0 <= b < size
        ensures table[b] == HeadIn(items, starts, size, hash, b)
      {
        HeadAfterDelete(was, st, size, hash, i, b);
      }
      status := Ok;
    }

    /** Advances the cursor `node`; KeyNotFound when it has run off the end. */
    method NextItem(node: Node?<K, V>) returns (status: Status, next: Node?<K, V>)
      requires Valid()
      requires node == null || node in items
      ensures next == Successor(node)
      ensures status == Ok <==> next != null
    {
      var i := 0;
      if node != null {
        if node.next != null {
          return Ok, node.next;
        }
        i := hash(node.key) + 1;
      }
      while i < size && table[i] == null
        invariant 0 <= i <= size
        invariant Scan(i) == Successor(node)
      {
        i := i + 1;
      }
      if i == size {
        return KeyNotFound, null;
      }
      return Ok, table[i];
    }

    method DeleteAll()
      requires Valid()
      modifies this, table
      ensures Valid() && items == []
    {
      for i := 0 to size
        invariant unchanged(this)
        invariant forall b :: 0 <= b < i ==> table[b] == null
        invariant forall b :: i <= b < size ==> table[b] == old(table[b])
      {
        var n := table[i];
        ghost var k := starts[i];
        while n != null
          invariant starts[i] <= k <= starts[i + 1]
          invariant n == if k < starts[i + 1] then items[k] else null
          decreases |items| - k
        {
          assert starts[i] <= k < starts[i + 1];
          var nn := n.next;
          n := nn;
          k := k + 1;
        }
        table[i] := null;
      }
      items := [];
      starts := seq(size + 1, _ => 0);
    }
  }
}

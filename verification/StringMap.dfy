/**
 The unbalanced binary tree of `stringmap.c`.  A tree is its root object; a root without a
 key is the empty tree.  Ghost fields of the root list the objects in ascending key order:
 `nodes` are the objects, `items` their keys and values, and `slots` the stretch of that
 list which each subtree covers.  `contents` is the finite map the tree stands for.
 */
module StringMap {
  import opened Wrappers

  /** `strcmp`: the sign of the comparison. */
  function StrCmp(a: string, b: string): (r: int)
    ensures -1 <= r <= 1
    ensures r == 0 <==> a == b
  {
    if a == "" then (if b == "" then 0 else -1)
    else if b == "" then 1
    else if a[0] < b[0] then -1
    else if a[0] > b[0] then 1
    else
      assert a == [a[0]] + a[1..] && b == [b[0]] + b[1..];
      StrCmp(a[1..], b[1..])
  }

  lemma {:induction false} StrCmpAntisymmetric(a: string, b: string)
    ensures StrCmp(a, b) == -StrCmp(b, a)
  {
    if a != "" && b != "" && a[0] == b[0] {
      StrCmpAntisymmetric(a[1..], b[1..]);
    }
  }

  lemma {:induction false} StrCmpTransitive(a: string, b: string, c: string)
    requires StrCmp(a, b) < 0 && StrCmp(b, c) < 0
    ensures StrCmp(a, c) < 0
  {
    if a != "" && b != "" && c != "" && a[0] == b[0] == c[0] {
      StrCmpTransitive(a[1..], b[1..], c[1..]);
    }
  }

  datatype Item = Item(key: string, value: string)

  /** The subtree of an object covers positions lo to hi; `left` and `right` are its children. */
  datatype Slot = Slot(lo: nat, hi: nat, left: nat, right: nat)

  ghost predicate Less(a: string, b: string)
  {
    StrCmp(a, b) < 0
  }

  ghost predicate Ascending(items: seq<Item>)
  {
    forall i, j :: 0 <= i < j < |items| ==> Less(items[i].key, items[j].key)
  }

  /** The left child covers what is before the object in its stretch, the right child what is after. */
  ghost predicate Fits(s: Slot, left: Slot, right: Slot, p: nat, size: nat)
  {
    && s.lo <= p < s.hi <= size
    && (s.lo < p ==> s.lo <= s.left < p && left.lo == s.lo && left.hi == p)
    && (p + 1 < s.hi ==> p < s.right < s.hi && right.lo == p + 1 && right.hi == s.hi)
  }

  const NO_SLOT := Slot(0, 0, 0, 0)

  ghost function SlotAt(slots: seq<Slot>, p: nat): Slot
  {
    if p < |slots| then slots[p] else NO_SLOT
  }

  ghost predicate SlotFits(slots: seq<Slot>, p: nat)
    requires p < |slots|
  {
    Fits(slots[p], SlotAt(slots, slots[p].left), SlotAt(slots, slots[p].right), p, |slots|)
  }

  ghost predicate Shaped(slots: seq<Slot>)
  {
    forall p {:trigger SlotFits(slots, p)} :: 0 <= p < |slots| ==> SlotFits(slots, p)
  }

  ghost predicate Represents(items: seq<Item>, contents: map<string, string>)
  {
    && (forall i :: 0 <= i < |items| ==> items[i].key in contents && contents[items[i].key] == items[i].value)
    && (forall k :: k in contents ==> exists i :: 0 <= i < |items| && items[i].key == k)
  }

  /** The key lies above everything before `lo` and below everything from `hi` on. */
  ghost predicate Between(items: seq<Item>, k: string, lo: nat, hi: nat)
  {
    && (forall i :: 0 <= i < lo && i < |items| ==> Less(items[i].key, k))
    && (forall i :: hi <= i < |items| ==> Less(k, items[i].key))
  }

  // ----- the insertion of a leaf, as a change of the lists -----

  /** Where the new leaf of `p` goes in key order. */
  function LeafAt(p: nat, right: bool): nat
  {
    if right then p + 1 else p
  }

  function Moved(s: Slot, q: nat, p: nat, right: bool): Slot
  {
    var n := LeafAt(p, right);
    Slot(if s.lo > p then s.lo + 1 else s.lo,
         if s.hi > p then s.hi + 1 else s.hi,
         if q == p && !right then n else if s.left >= n then s.left + 1 else s.left,
         if q == p && right then n else if s.right >= n then s.right + 1 else s.right)
  }

  function WithLeaf(slots: seq<Slot>, p: nat, right: bool): (r: seq<Slot>)
    requires p < |slots|
    ensures |r| == |slots| + 1
  {
    var n := LeafAt(p, right);
    seq(|slots| + 1, q requires 0 <= q <= |slots| =>
      if q == n then Slot(n, n + 1, 0, 0)
      else if q < n then Moved(slots[q], q, p, right)
      else Moved(slots[q - 1], q - 1, p, right))
  }

  function Spliced<T>(s: seq<T>, n: nat, x: T): (r: seq<T>)
    requires n <= |s|
    ensures |r| == |s| + 1 && r[n] == x
    ensures forall i :: 0 <= i < n ==> r[i] == s[i]
    ensures forall i :: n < i < |r| ==> r[i] == s[i - 1]
  {
    s[..n] + [x] + s[n..]
  }

  /** Where an old position is found after the leaf came in. */
  function After(q: nat, n: nat): nat
  {
    if q < n then q else q + 1
  }

  lemma MovedValueFits(s: Slot, sl: Slot, sr: Slot, q: nat, size: nat, p: nat, right: bool)
    requires Fits(s, sl, sr, q, size)
    requires q == p ==> if right then s.hi == p + 1 else s.lo == p
    ensures var n := LeafAt(p, right);
            var leaf := Slot(n, n + 1, 0, 0);
            Fits(Moved(s, q, p, right),
                 if q == p && !right then leaf else Moved(sl, s.left, p, right),
                 if q == p && right then leaf else Moved(sr, s.right, p, right),
                 After(q, n), size + 1)
  {
  }

  lemma LeafSlot(slots: seq<Slot>, p: nat, right: bool, c: nat)
    requires p < |slots| && c < |slots|
    ensures SlotAt(WithLeaf(slots, p, right), After(c, LeafAt(p, right))) == Moved(slots[c], c, p, right)
    ensures SlotAt(WithLeaf(slots, p, right), LeafAt(p, right)) == Slot(LeafAt(p, right), LeafAt(p, right) + 1, 0, 0)
  {
    hide Moved;
  }

  /** `Fits` looks at a child only if the stretch reaches that far. */
  lemma MovedFits(slots: seq<Slot>, p: nat, right: bool, q: nat)
    requires Shaped(slots) && p < |slots| && q < |slots|
    requires if right then slots[p].hi == p + 1 else slots[p].lo == p
    ensures SlotFits(WithLeaf(slots, p, right), After(q, LeafAt(p, right)))
  {
    hide WithLeaf, Shaped;
    assert SlotFits(slots, q) by { ShapedAt(slots, q); }
    var s := slots[q];
    LeafSlot(slots, p, right, q);
    if s.lo < q {
      LeafSlot(slots, p, right, s.left);
    }
    if q + 1 < s.hi {
      LeafSlot(slots, p, right, s.right);
    }
    MovedValueFits(s, SlotAt(slots, s.left), SlotAt(slots, s.right), q, |slots|, p, right);
  }

  lemma ShapedAt(slots: seq<Slot>, q: nat)
    requires Shaped(slots) && q < |slots|
    ensures SlotFits(slots, q)
  {
  }

  lemma LeafKeepsShape(slots: seq<Slot>, p: nat, right: bool)
    requires Shaped(slots) && p < |slots|
    requires if right then slots[p].hi == p + 1 else slots[p].lo == p
    ensures Shaped(WithLeaf(slots, p, right))
  {
    var n, r := LeafAt(p, right), WithLeaf(slots, p, right);
    forall q | 0 <= q < |r| ensures SlotFits(r, q) {
      if q == n {
        assert r[n] == Slot(n, n + 1, 0, 0);
      } else {
        MovedFits(slots, p, right, if q < n then q else q - 1);
      }
    }
  }

  lemma SplicedKeepsAscending(items: seq<Item>, n: nat, i: Item)
    requires Ascending(items) && n <= |items| && Between(items, i.key, n, n)
    ensures Ascending(Spliced(items, n, i))
  {
    hide Less, Spliced;
  }

  lemma SplicedKeepsMap(items: seq<Item>, contents: map<string, string>, n: nat, i: Item)
    requires Represents(items, contents) && n <= |items| && i.key !in contents
    ensures Represents(Spliced(items, n, i), contents[i.key := i.value])
  {
    var items', contents' := Spliced(items, n, i), contents[i.key := i.value];
    hide Spliced;
    forall k | k in contents' ensures exists j :: 0 <= j < |items'| && items'[j].key == k {
      if k == i.key {
        assert items'[n].key == k;
      } else {
        var j :| 0 <= j < |items| && items[j].key == k;
        assert items'[if j < n then j else j + 1].key == k;
      }
    }
    forall j | 0 <= j < |items'|
      ensures items'[j].key in contents' && contents'[items'[j].key] == items'[j].value
    {
      assert j != n ==> items'[j] == items[if j < n then j else j - 1];
    }
  }

  // ----- the descent -----

  /** Comparing with the object at `p` narrows the stretch to one of its children's. */
  lemma Narrow(items: seq<Item>, k: string, p: nat, lo: nat, hi: nat)
    requires Ascending(items) && p < |items| && Between(items, k, lo, hi) && lo <= p < hi
    ensures Less(k, items[p].key) ==> Between(items, k, lo, p)
    ensures Less(items[p].key, k) ==> Between(items, k, p + 1, hi)
  {
    forall i | p < i < |items| && Less(k, items[p].key) ensures Less(k, items[i].key) {
      StrCmpTransitive(k, items[p].key, items[i].key);
    }
    forall i | 0 <= i < p && Less(items[p].key, k) ensures Less(items[i].key, k) {
      StrCmpTransitive(items[i].key, items[p].key, k);
    }
  }

  /** An empty stretch holds no key. */
  lemma Missed(items: seq<Item>, contents: map<string, string>, k: string, n: nat)
    requires Represents(items, contents) && Between(items, k, n, n)
    ensures k !in contents
  {
    assert forall i :: 0 <= i < |items| ==> Less(items[i].key, k) || Less(k, items[i].key);
  }

  /** The lists of a tree rooted at `self` fit together. */
  ghost predicate Lists(
    nodes: seq<Tree>, items: seq<Item>, slots: seq<Slot>, root: nat, contents: map<string, string>, self: Tree)
  {
    && |nodes| == |items| == |slots|
    && Shaped(slots) && Ascending(items) && Represents(items, contents)
    && (nodes != [] ==> root < |nodes| && nodes[root] == self && slots[root].lo == 0 && slots[root].hi == |nodes|)
    && (forall p, q :: 0 <= p < q < |nodes| ==> nodes[p] != nodes[q])
  }

  /** They still do when a leaf is spliced in. */
  lemma ListsGrow(
    nodes: seq<Tree>, items: seq<Item>, slots: seq<Slot>, root: nat, contents: map<string, string>, self: Tree,
    p: nat, right: bool, leaf: Tree, i: Item)
    requires Lists(nodes, items, slots, root, contents, self)
    requires p < |nodes| && i.key !in contents && leaf !in nodes
    requires if right then slots[p].hi == p + 1 else slots[p].lo == p
    requires Between(items, i.key, LeafAt(p, right), LeafAt(p, right))
    ensures |nodes| == |items| == |slots|
    ensures var n := LeafAt(p, right);
            Lists(Spliced(nodes, n, leaf), Spliced(items, n, i), WithLeaf(slots, p, right),
                  After(root, n), contents[i.key := i.value], self)
  {
    hide Shaped, Ascending, Represents, WithLeaf, Less, Between, SlotFits, Fits;
    LeafKeepsShape(slots, p, right);
    SplicedKeepsAscending(items, LeafAt(p, right), i);
    SplicedKeepsMap(items, contents, LeafAt(p, right), i);
    LeafSlot(slots, p, right, root);
  }

  lemma ListsFacts(
    nodes: seq<Tree>, items: seq<Item>, slots: seq<Slot>, root: nat, contents: map<string, string>, self: Tree)
    requires Lists(nodes, items, slots, root, contents, self)
    ensures |nodes| == |items| == |slots| && Shaped(slots)
    ensures forall p, q :: 0 <= p < |nodes| && 0 <= q < |nodes| && p != q ==> nodes[p] != nodes[q]
  {
  }

  /** What the links of the object at `p` must be. */
  ghost function LeftOf(nodes: seq<Tree>, slots: seq<Slot>, p: nat): Tree?
    requires p < |nodes| == |slots| && SlotFits(slots, p)
  {
    if slots[p].lo < p then nodes[slots[p].left] else null
  }

  ghost function RightOf(nodes: seq<Tree>, slots: seq<Slot>, p: nat): Tree?
    requires p < |nodes| == |slots| && SlotFits(slots, p)
  {
    if p + 1 < slots[p].hi then nodes[slots[p].right] else null
  }

  /** What an object stores. */
  datatype Place = Place(key: Option<string>, d: string, l: Tree?, g: Tree?)

  /** What the object at `p` must store. */
  ghost function Expected(nodes: seq<Tree>, items: seq<Item>, slots: seq<Slot>, p: nat): Place
    requires p < |nodes| == |items| == |slots| && SlotFits(slots, p)
  {
    Place(Some(items[p].key), items[p].value, LeftOf(nodes, slots, p), RightOf(nodes, slots, p))
  }

  /** A new leaf changes one link of its parent and no other link. */
  lemma LeafLinks(nodes: seq<Tree>, slots: seq<Slot>, p: nat, right: bool, leaf: Tree, q: nat)
    requires |nodes| == |slots| && Shaped(slots) && p < |slots| && q < |slots|
    requires if right then slots[p].hi == p + 1 else slots[p].lo == p
    requires SlotFits(slots, q)
    ensures var n := LeafAt(p, right);
            var nodes', slots' := Spliced(nodes, n, leaf), WithLeaf(slots, p, right);
            && nodes'[After(q, n)] == nodes[q] && SlotFits(slots', After(q, n))
            && LeftOf(nodes', slots', After(q, n)) == (if q == p && !right then leaf else LeftOf(nodes, slots, q))
            && RightOf(nodes', slots', After(q, n)) == (if q == p && right then leaf else RightOf(nodes, slots, q))
  {
    hide Spliced, WithLeaf, Shaped;
    MovedFits(slots, p, right, q);
    LeafSlot(slots, p, right, q);
    ShapedAt(slots, p);
  }

  lemma LeafPlaces(
    nodes: seq<Tree>, items: seq<Item>, slots: seq<Slot>, p: nat, right: bool, leaf: Tree, i: Item, q: nat)
    requires |nodes| == |items| == |slots| && Shaped(slots) && p < |slots| && q < |slots|
    requires if right then slots[p].hi == p + 1 else slots[p].lo == p
    requires SlotFits(slots, q)
    ensures var n := LeafAt(p, right);
            var nodes', items', slots' := Spliced(nodes, n, leaf), Spliced(items, n, i), WithLeaf(slots, p, right);
            && nodes'[After(q, n)] == nodes[q] && SlotFits(slots', After(q, n))
            && Expected(nodes', items', slots', After(q, n)) ==
                 var was := Expected(nodes, items, slots, q);
                 if q != p then was else if right then was.(g := leaf) else was.(l := leaf)
  {
    hide WithLeaf, Shaped, SlotFits, LeftOf, RightOf;
    LeafLinks(nodes, slots, p, right, leaf, q);
  }

  lemma LeafUnlinked(nodes: seq<Tree>, items: seq<Item>, slots: seq<Slot>, p: nat, right: bool)
    requires |nodes| == |items| == |slots| + 1 && p < |slots| && SlotFits(WithLeaf(slots, p, right), LeafAt(p, right))
    ensures var n := LeafAt(p, right);
            Expected(nodes, items, WithLeaf(slots, p, right), n) == Place(Some(items[n].key), items[n].value, null, null)
  {
  }

  /** The places of all objects are what the lists say. */
  ghost predicate PlacesFit(nodes: seq<Tree>, items: seq<Item>, slots: seq<Slot>, places: seq<Place>)
    requires |nodes| == |items| == |slots|
  {
    |places| == |nodes| &&
    forall q {:trigger places[q]} :: 0 <= q < |nodes| ==> SlotFits(slots, q) && places[q] == Expected(nodes, items, slots, q)
  }

  /** One link changed. */
  ghost function Linked(places: seq<Place>, p: nat, right: bool, leaf: Tree): seq<Place>
    requires p < |places|
  {
    places[p := if right then places[p].(g := leaf) else places[p].(l := leaf)]
  }

  /** They are still after the new leaf's place is spliced in and its parent's link is set. */
  lemma PlacesGrow(
    nodes: seq<Tree>, items: seq<Item>, slots: seq<Slot>, places: seq<Place>, p: nat, right: bool, leaf: Tree, i: Item)
    requires |nodes| == |items| == |slots| && Shaped(slots) && p < |slots|
    requires if right then slots[p].hi == p + 1 else slots[p].lo == p
    requires PlacesFit(nodes, items, slots, places)
    ensures |places| == |nodes| && LeafAt(p, right) <= |nodes|
    ensures var n := LeafAt(p, right);
            PlacesFit(Spliced(nodes, n, leaf), Spliced(items, n, i), WithLeaf(slots, p, right),
                      Spliced(Linked(places, p, right, leaf), n, Place(Some(i.key), i.value, null, null)))
  {
    hide Shaped, Spliced, WithLeaf, SlotFits, Expected;
    var n := LeafAt(p, right);
    var nodes', items', slots' := Spliced(nodes, n, leaf), Spliced(items, n, i), WithLeaf(slots, p, right);
    var places' := Spliced(Linked(places, p, right, leaf), n, Place(Some(i.key), i.value, null, null));
    ShapedAt(slots, p);
    LeafKeepsShape(slots, p, right);
    forall q | 0 <= q < |nodes'| ensures SlotFits(slots', q) && places'[q] == Expected(nodes', items', slots', q) {
      ShapedAt(slots', q);
      if q == n {
        LeafUnlinked(nodes', items', slots, p, right);
      } else {
        var q0 := if q < n then q else q - 1;
        ShapedAt(slots, q0);
        LeafPlaces(nodes, items, slots, p, right, leaf, i, q0);
        assert places[q0] == Expected(nodes, items, slots, q0);
      }
    }
  }

  class Tree {
    var key: Option<string>
    var d: string
    var l: Tree?
    var g: Tree?
    ghost var nodes: seq<Tree>
    ghost var items: seq<Item>
    ghost var slots: seq<Slot>
    ghost var root: nat
    ghost var contents: map<string, string>

    /** `stringmap_new`. */
    constructor ()
      ensures Valid() && contents == map[] && nodes == []
    {
      key, d, l, g := None, "", null, null;
      nodes, items, slots, root, contents := [], [], [], 0, map[];
    }

    /** A new object holding one item. */
    constructor Leaf(k: string, v: string)
      ensures key == Some(k) && d == v && l == null && g == null
    {
      key, d, l, g := Some(k), v, null, null;
      nodes, items, slots, root, contents := [], [], [], 0, map[];
    }

    ghost function Stored(): Place
      reads this
    {
      Place(key, d, l, g)
    }

    /** The object at `p` holds item `p` and points at its children. */
    ghost predicate InPlace(p: nat)
      requires p < |nodes| == |items| == |slots| && SlotFits(slots, p)
      reads this, nodes
    {
      nodes[p].Stored() == Expected(nodes, items, slots, p)
    }

    ghost predicate Valid()
      reads this, nodes
    {
      && |nodes| == |items| == |slots|
      && Lists(nodes, items, slots, root, contents, this)
      && (key == None <==> nodes == []) && (key == None ==> l == null && g == null)
      && (forall p {:trigger InPlace(p)} :: 0 <= p < |nodes| ==> SlotFits(slots, p) && InPlace(p))
    }

    /** The descent of both operations: to the object of the key, or to where it would hang. */
    method Descend(k: string) returns (s: Tree, i: int, ghost p: nat)
      requires Valid() && key.Some?
      ensures p < |nodes| && nodes[p] == s && i == StrCmp(k, items[p].key)
      ensures i == 0 ==> items[p].key == k && s.key == Some(k) && k in contents && s.d == contents[k]
      ensures i < 0 ==> slots[p].lo == p && Between(items, k, p, p) && k !in contents
      ensures i > 0 ==> slots[p].hi == p + 1 && Between(items, k, p + 1, p + 1) && k !in contents
    {
      s, p := this, root;
      while true
        invariant p < |nodes| && nodes[p] == s && Between(items, k, slots[p].lo, slots[p].hi)
        decreases slots[p].hi - slots[p].lo
      {
        assert SlotFits(slots, p) && InPlace(p);
        i := StrCmp(k, s.key.value);
        if i == 0 {
          return;
        }
        StrCmpAntisymmetric(k, items[p].key);
        Narrow(items, k, p, slots[p].lo, slots[p].hi);
        var child := if i < 0 then s.l else s.g;
        if child == null {
          Missed(items, contents, k, if i < 0 then p else p + 1);
          return;
        }
        s, p := child, if i < 0 then slots[p].left else slots[p].right;
        assert SlotFits(slots, p);
      }
    }

    /** `stringmap_find`: succeeds exactly on the keys of the map. */
    method Find(k: string) returns (found: Tree?, ghost p: nat)
      requires Valid()
      ensures found != null <==> k in contents
      ensures found != null ==> p < |nodes| && found == nodes[p] && items[p].key == k
                                && found.key == Some(k) && found.d == contents[k]
    {
      p := 0;
      if key == None {
        return null, p;
      }
      var s, i, q := Descend(k);
      return if i == 0 then s else null, q;
    }

    /** The assignments that store a new item below `s`. */
    static method LinkLeaf(s: Tree, right: bool, k: string, v: string) returns (leaf: Tree)
      modifies s`l, s`g
      ensures fresh(leaf) && leaf.key == Some(k) && leaf.d == v && leaf.l == null && leaf.g == null
      ensures s.l == (if right then old(s.l) else leaf) && s.g == (if right then leaf else old(s.g))
    {
      leaf := new Tree.Leaf(k, v);
      if right {
        s.g := leaf;
      } else {
        s.l := leaf;
      }
    }

    /** Hangs a new object under `s`, on the side where the descent ended. */
    method Attach(s: Tree, ghost p: nat, right: bool, k: string, v: string)
      requires Valid() && p < |nodes| && nodes[p] == s && k !in contents
      requires if right then slots[p].hi == p + 1 else slots[p].lo == p
      requires Between(items, k, LeafAt(p, right), LeafAt(p, right))
      modifies this, s
      ensures Valid() && contents == old(contents)[k := v]
      ensures items == Spliced(old(items), LeafAt(p, right), Item(k, v))
      ensures |nodes| == |items| && fresh(nodes[LeafAt(p, right)])
      ensures nodes == Spliced(old(nodes), LeafAt(p, right), nodes[LeafAt(p, right)])
    {
      hide Lists, Shaped, Spliced, WithLeaf, Between, SlotFits, Expected, PlacesFit;
      ghost var n, nodes0, places := LeafAt(p, right), nodes, Places();
      ListsFacts(nodes, items, slots, root, contents, this);
      AllInPlace();
      var leaf := LinkLeaf(s, right, k, v);
      ListsGrow(nodes, items, slots, root, contents, this, p, right, leaf, Item(k, v));
      PlacesGrow(nodes, items, slots, places, p, right, leaf, Item(k, v));
      nodes, items, slots := Spliced(nodes, n, leaf), Spliced(items, n, Item(k, v)), WithLeaf(slots, p, right);
      root, contents := After(root, n), contents[k := v];
      ghost var places' := Spliced(Linked(places, p, right, leaf), n, Place(Some(k), v, null, null));
      forall q | 0 <= q < |nodes| ensures nodes[q].Stored() == places'[q] {
        var q0 := if q < n then q else q - 1;
        assert q == n || nodes[q] == nodes0[q0];
        assert q == n || q0 == p || nodes0[q0] != s;
      }
      PlacesMakeValid(places');
    }

    ghost function Places(): (r: seq<Place>)
      reads this, nodes
      ensures |r| == |nodes| && forall q :: 0 <= q < |nodes| ==> r[q] == nodes[q].Stored()
    {
      var ns := nodes;
      seq(|ns|, q requires 0 <= q < |ns| reads ns => ns[q].Stored())
    }

    lemma AllInPlace()
      requires Valid()
      ensures |nodes| == |items| == |slots| && PlacesFit(nodes, items, slots, Places())
    {
      hide Lists, Shaped, SlotFits, Expected;
      ListsFacts(nodes, items, slots, root, contents, this);
      forall q | 0 <= q < |nodes| ensures SlotFits(slots, q) && Places()[q] == Expected(nodes, items, slots, q) {
        ShapedAt(slots, q);
        assert InPlace(q);
      }
    }

    lemma PlacesMakeValid(places: seq<Place>)
      requires |nodes| == |items| == |slots| && Lists(nodes, items, slots, root, contents, this)
      requires PlacesFit(nodes, items, slots, places)
      requires forall q :: 0 <= q < |nodes| ==> nodes[q].Stored() == places[q]
      requires nodes != [] && key != None
      ensures Valid()
    {
      hide Lists, Shaped, SlotFits, Expected;
      ListsFacts(nodes, items, slots, root, contents, this);
      forall q {:trigger InPlace(q)} | 0 <= q < |nodes| ensures SlotFits(slots, q) && InPlace(q) {
        ShapedAt(slots, q);
        assert places[q] == Expected(nodes, items, slots, q);
      }
    }

    /**
     `stringmap_insert`: an existing key keeps its value, which is returned, and nothing
     changes; a new key is stored in a new leaf, or in the root of an empty tree.
     */
    method Insert(k: string, v: string) returns (existing: Option<string>)
      requires Valid()
      modifies this, nodes
      ensures Valid()
      ensures existing == if k in old(contents) then Some(old(contents)[k]) else None
      ensures contents == if k in old(contents) then old(contents) else old(contents)[k := v]
      ensures k in old(contents) ==> nodes == old(nodes) && forall n :: n in nodes ==> unchanged(n)
      ensures forall n :: n in nodes ==> n in old(nodes) || n == this || fresh(n)
    {
      hide Lists, SlotFits, LeftOf, RightOf, Between;
      if key == None {
        PlantRoot(k, v);
        return None;
      }
      var s, i, p := Descend(k);
      if i == 0 {
        return Some(s.d);
      }
      Attach(s, p, i > 0, k, v);
      return None;
    }

    /** The first item goes into the root itself. */
    method PlantRoot(k: string, v: string)
      requires Valid() && key == None
      modifies this
      ensures Valid() && nodes == [this] && old(contents) == map[] && contents == map[k := v]
    {
      FirstLists(Item(k, v));
      key, d := Some(k), v;
      nodes, items, slots, root, contents := [this], [Item(k, v)], [Slot(0, 1, 0, 0)], 0, map[k := v];
      assert InPlace(0);
    }

    lemma FirstLists(i: Item)
      requires Valid() && nodes == []
      ensures contents == map[]
      ensures Lists([this], [i], [Slot(0, 1, 0, 0)], 0, map[i.key := i.value], this)
    {
      assert forall k :: k !in contents;
      assert [i][0].key == i.key;
    }

    /** The assignment through a found item: `S->d = ...` of `config_set_string`. */
    method Overwrite(s: Tree, ghost p: nat, v: string)
      requires Valid() && p < |nodes| && nodes[p] == s
      modifies this, s
      ensures Valid() && nodes == old(nodes)
      ensures p < |old(items)| && contents == old(contents)[old(items)[p].key := v]
    {
      hide Lists, SlotFits, LeftOf, RightOf;
      ListsFacts(nodes, items, slots, root, contents, this);
      OverwriteLists(p, v);
      s.d := v;
      items, contents := items[p := Item(items[p].key, v)], contents[items[p].key := v];
      forall q {:trigger InPlace(q)} | 0 <= q < |nodes| ensures SlotFits(slots, q) && InPlace(q) {
        assert old(InPlace(q));
        assert q != p ==> nodes[q] != s;
      }
    }

    lemma OverwriteLists(p: nat, v: string)
      requires |nodes| == |items| && Lists(nodes, items, slots, root, contents, this) && p < |nodes|
      ensures Lists(nodes, items[p := Item(items[p].key, v)], slots, root, contents[items[p].key := v], this)
    {
      hide Shaped;
      var k := items[p].key;
      var items', contents' := items[p := Item(k, v)], contents[k := v];
      forall i | 0 <= i < |items'|
        ensures items'[i].key in contents' && contents'[items'[i].key] == items'[i].value
      {
        assert i < p ==> Less(items[i].key, k);
        assert p < i ==> Less(k, items[i].key);
      }
      forall j | j in contents' ensures exists i :: 0 <= i < |items'| && items'[i].key == j {
        var i :| 0 <= i < |items| && items[i].key == j;
        assert items'[i].key == j;
      }
    }
  }
}

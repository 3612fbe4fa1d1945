/** The balanced tree of libreiser4/tree.c as a value: nodes with sorted items,
    node pointers on the upper levels, data in leaves and, as extents mixed
    with pointers, in twigs.  Keys are whole numbers; the keys of one object
    are the multiples of OBJECT_SPAN and the offsets above them. */
module SearchTree {
  import opened Common

  const OBJECT_SPAN: nat := 0x1_0000_0000_0000_0000
  const LEAF_LEVEL: nat := 1

  /** An item covers the keys [key, key + |bytes|).  File body items (tails and
      extents) can be searched inside; other items consist of one unit. */
  datatype Item =
    | Ptr(key: nat, child: Node)
    | Data(key: nat, bytes: seq<int>, body: bool)
  datatype Node = Node(level: nat, items: seq<Item>)

  datatype Lookup = Present | Absent

  function ObjectOf(key: nat): nat { key / OBJECT_SPAN }

  /** body40_maxposs_key: the last key of the object. */
  function MaxPossKey(key: nat): nat { (key / OBJECT_SPAN + 1) * OBJECT_SPAN - 1 }

  /** Exactly the keys of the object lie at or below it, from the first one
      on. */
  lemma MaxPossIsLast(key: nat, k: nat)
    requires key <= k
    ensures k <= MaxPossKey(key) <==> ObjectOf(k) == ObjectOf(key)
  {
  }

  /** Where the keys of item i must end. */
  function Limit(items: seq<Item>, i: nat, hi: nat): nat
    requires i < |items|
  {
    if i + 1 < |items| then items[i + 1].key else hi
  }

  /** The subtree of n holds keys in [lo, hi), in order, on proper levels; a
      pointer's key is a lower bound of its child. */
  ghost predicate WellFormed(n: Node, lo: nat, hi: nat)
    decreases n
  {
    && n.level >= LEAF_LEVEL
    && (forall i {:trigger ItemFormed(n, i, lo, hi)} :: 0 <= i < |n.items| ==> ItemFormed(n, i, lo, hi))
  }

  ghost predicate ItemFormed(n: Node, i: int, lo: nat, hi: nat)
    requires 0 <= i < |n.items|
    decreases n, 0
  {
    && lo <= n.items[i].key < Limit(n.items, i, hi) <= hi
    && match n.items[i]
       case Ptr(key, child) =>
         && n.level > LEAF_LEVEL && child.level == n.level - 1 && child.items != []
         && WellFormed(child, key, Limit(n.items, i, hi))
       case Data(key, bytes, body) =>
         && n.level <= LEAF_LEVEL + 1
         && 0 < |bytes| && key + |bytes| <= Limit(n.items, i, hi)
         && (body ==> key + |bytes| - 1 <= MaxPossKey(key))
         && (!body ==> |bytes| == 1)
  }

  /** The data items of a run of items, in order. */
  ghost function Flat(items: seq<Item>): seq<Item> {
    if items == [] then []
    else FlatItem(items[0]) + Flat(items[1..])
  }

  ghost function FlatItem(it: Item): seq<Item> {
    match it
    case Ptr(_, child) => FlatNode(child)
    case Data(_, _, _) => [it]
  }

  ghost function FlatNode(n: Node): seq<Item> { Flat(n.items) }

  lemma FlatCons(it: Item, rest: seq<Item>)
    ensures Flat([it] + rest) == FlatItem(it) + Flat(rest)
  {
    assert ([it] + rest)[1..] == rest;
  }

  lemma {:induction false} FlatConcat(a: seq<Item>, b: seq<Item>)
    ensures Flat(a + b) == Flat(a) + Flat(b)
  {
    if a == [] {
      assert a + b == b;
    } else {
      var it, rest := a[0], a[1..];
      FlatConcat(rest, b);
      FlatOneMore(it, rest, b);
      assert a == [it] + rest && a + b == [it] + (rest + b);
    }
  }

  lemma FlatOneMore(it: Item, rest: seq<Item>, b: seq<Item>)
    requires Flat(rest + b) == Flat(rest) + Flat(b)
    ensures Flat([it] + (rest + b)) == Flat([it] + rest) + Flat(b)
  {
    FlatCons(it, rest);
    FlatCons(it, rest + b);
  }

  /** Around item i. */
  lemma FlatAround(items: seq<Item>, i: nat)
    requires i < |items|
    ensures Flat(items) == Flat(items[..i]) + FlatItem(items[i]) + Flat(items[i + 1..])
  {
    assert items == items[..i] + items[i..];
    FlatConcat(items[..i], items[i..]);
    assert items[i..][1..] == items[i + 1..];
  }

  lemma FlatSnoc(items: seq<Item>, it: Item)
    ensures Flat(items + [it]) == Flat(items) + FlatItem(it)
  {
    FlatConcat(items, [it]);
    assert [it][1..] == [];
    assert Flat([it]) == FlatItem(it) + [];
  }

  /** All items of the run are data within [lo, hi). */
  ghost predicate Within(s: seq<Item>, lo: nat, hi: nat) {
    forall j :: 0 <= j < |s| ==> s[j].Data? && lo <= s[j].key && s[j].key + |s[j].bytes| <= hi && 0 < |s[j].bytes|
  }

  /** The keys behind one item lie between its key and the next one. */
  lemma {:induction false} ItemWithin(n: Node, lo: nat, hi: nat, i: nat)
    requires WellFormed(n, lo, hi) && i < |n.items|
    ensures Within(FlatItem(n.items[i]), n.items[i].key, Limit(n.items, i, hi))
    decreases n, 0
  {
    assert ItemFormed(n, i, lo, hi);
    if n.items[i].Ptr? { SuffixWithin(n.items[i].child, n.items[i].key, Limit(n.items, i, hi), 0); }
  }

  lemma {:induction false} SuffixWithin(n: Node, lo: nat, hi: nat, i: nat)
    requires WellFormed(n, lo, hi) && i <= |n.items|
    ensures Within(Flat(n.items[i..]), if i < |n.items| then n.items[i].key else lo, hi)
    ensures i == 0 ==> Within(FlatNode(n), lo, hi)
    decreases n, 1, |n.items| - i
  {
    if i < |n.items| {
      SuffixWithin(n, lo, hi, i + 1);
      ItemWithin(n, lo, hi, i);
      assert ItemFormed(n, i, lo, hi);
      assert n.items[i..][1..] == n.items[i + 1..];
    }
    assert n.items[0..] == n.items;
  }

  lemma {:induction false} PrefixWithin(n: Node, lo: nat, hi: nat, i: nat)
    requires WellFormed(n, lo, hi) && i <= |n.items|
    ensures Within(Flat(n.items[..i]), lo, if i == 0 then lo else Limit(n.items, i - 1, hi))
    decreases i
  {
    if i > 0 {
      PrefixWithin(n, lo, hi, i - 1);
      ItemWithin(n, lo, hi, i - 1);
      assert ItemFormed(n, i - 1, lo, hi);
      if i > 1 { assert ItemFormed(n, i - 2, lo, hi); }
      assert n.items[..i] == n.items[..i - 1] + [n.items[i - 1]];
      FlatSnoc(n.items[..i - 1], n.items[i - 1]);
    }
  }

  lemma {:induction false} KeysSorted(n: Node, lo: nat, hi: nat, i: nat, j: nat)
    requires WellFormed(n, lo, hi) && i < j < |n.items|
    ensures n.items[i].key < n.items[j].key
    decreases j - i
  {
    assert ItemFormed(n, j - 1, lo, hi);
    if i + 1 < j { KeysSorted(n, lo, hi, i, j - 1); }
  }

  ghost predicate AllBelow(s: seq<Item>, key: nat) {
    forall j :: 0 <= j < |s| ==> s[j].Data? && s[j].key + |s[j].bytes| <= key
  }

  ghost predicate AllAbove(s: seq<Item>, key: nat) {
    forall j :: 0 <= j < |s| ==> s[j].Data? && key < s[j].key
  }

  ghost predicate Covers(it: Item, key: nat) {
    it.Data? && it.key <= key < it.key + |it.bytes|
  }

  // ------------------------------------------------------------------ lookup

  /** aux_bin_search over the item keys, as node40_lookup uses it. */
  method BinSearch(items: seq<Item>, key: nat) returns (found: bool, pos: nat)
    requires forall i, j :: 0 <= i < j < |items| ==> items[i].key < items[j].key
    ensures pos <= |items|
    ensures forall i :: 0 <= i < pos ==> items[i].key < key
    ensures found ==> pos < |items| && items[pos].key == key
    ensures !found ==> forall i :: pos <= i < |items| ==> key < items[i].key
  {
    if |items| == 0 { return false, 0; }
    var left, right: int := 0, |items| - 1;
    while left <= right
      invariant 0 <= left <= right + 1 <= |items|
      invariant forall i :: 0 <= i < left ==> items[i].key < key
      invariant forall i :: right < i < |items| ==> key < items[i].key
    {
      var i := (right + left) / 2;
      if items[i].key < key { left := i + 1; }
      else if key < items[i].key { right := i - 1; }
      else { return true, i; }
    }
    found, pos := false, left;
  }

  /** Sorted items that do not overlap. */
  ghost predicate Sorted(n: Node) {
    && (forall i, j :: 0 <= i < j < |n.items| ==> n.items[i].key < n.items[j].key)
    && (forall i {:trigger DataFormed(n, i)} :: 0 <= i < |n.items| ==> DataFormed(n, i))
  }

  ghost predicate DataFormed(n: Node, i: int)
    requires 0 <= i < |n.items|
  {
    n.items[i].Data? ==>
      && 0 < |n.items[i].bytes| && (n.items[i].body || |n.items[i].bytes| == 1)
      && (n.items[i].body ==> n.items[i].key + |n.items[i].bytes| - 1 <= MaxPossKey(n.items[i].key))
      && (i + 1 < |n.items| ==> n.items[i].key + |n.items[i].bytes| <= n.items[i + 1].key)
  }

  lemma FormedSorted(n: Node, lo: nat, hi: nat)
    requires WellFormed(n, lo, hi)
    ensures Sorted(n)
  {
    forall i, j | 0 <= i < j < |n.items| ensures n.items[i].key < n.items[j].key { KeysSorted(n, lo, hi, i, j); }
    forall i | 0 <= i < |n.items| ensures DataFormed(n, i) { assert ItemFormed(n, i, lo, hi); }
  }

  /** What a search inside one node tells: the unit is None when only an item
      position is given; a unit equal to the item's length means just behind
      the item. */
  ghost predicate NodeAnswer(n: Node, key: nat, conv: bool, res: Lookup, pos: nat, unit: Option<nat>) {
    && pos <= |n.items|
    && (forall i :: 0 <= i < pos ==> n.items[i].key < key)
    && (forall i :: pos < i < |n.items| ==> key < n.items[i].key)
    && (match unit
        case Some(u) =>
          && pos < |n.items| && n.items[pos].key <= key
          && (n.items[pos].Data? ==>
                if u < |n.items[pos].bytes| then res == Present && n.items[pos].key + u == key
                else
                  && u == |n.items[pos].bytes| && n.items[pos].key + u <= key && (res == Present <==> conv)
                  && n.items[pos].body && key <= MaxPossKey(n.items[pos].key))
        case None =>
          && res == Absent
          && (pos < |n.items| && n.items[pos].Data? ==> key < n.items[pos].key)
          && (pos < |n.items| && n.items[pos].Ptr? && n.items[pos].key <= key ==> !conv)
          && (0 < pos && n.items[pos - 1].Data? ==> n.items[pos - 1].key + |n.items[pos - 1].bytes| <= key)
          && (0 < pos && n.items[pos - 1].Ptr? && !conv ==> pos < |n.items| && n.items[pos].key <= key)
          && (0 < pos && n.items[pos - 1].Data? && n.items[pos - 1].body &&
              (pos < |n.items| ==> key < n.items[pos].key) ==>
                MaxPossKey(n.items[pos - 1].key) < key))
  }

  /** reiser4_node_lookup */
  method NodeLookup(n: Node, key: nat, conv: bool) returns (res: Lookup, pos: nat, unit: Option<nat>)
    requires Sorted(n)
    ensures NodeAnswer(n, key, conv, res, pos, unit)
  {
    var found;
    found, pos := BinSearch(n.items, key);
    unit := None;
    if found {
      assert DataFormed(n, pos);
      return Present, pos, Some(0);
    }
    res := Absent;
    if pos == 0 { return; }
    pos := pos - 1;
    var it := n.items[pos];
    assert DataFormed(n, pos) && (pos > 0 ==> DataFormed(n, pos - 1));
    if it.Data? && it.body {
      if key > MaxPossKey(it.key) {
        pos := pos + 1;
        return;
      }
      // the body item's own lookup
      if key < it.key + |it.bytes| { return Present, pos, Some(key - it.key); }
      return if conv then Present else Absent, pos, Some(|it.bytes|);
    }
    if it.Data? || conv { pos := pos + 1; }
  }

  /** The node reached from n by following the item positions of path. */
  ghost function NodeAt(n: Node, path: seq<nat>): Option<Node>
    decreases |path|
  {
    if path == [] then Some(n)
    else if path[0] < |n.items| && n.items[path[0]].Ptr? then NodeAt(n.items[path[0]].child, path[1..])
    else None
  }

  /** The number of data items before position `path`: its last component may
      be one behind the last item. */
  ghost function Rank(n: Node, path: seq<nat>): nat
    decreases |path|
  {
    if path == [] then 0
    else if path[0] < |n.items| && n.items[path[0]].Ptr? && |path| > 1
      then |Flat(n.items[..path[0]])| + Rank(n.items[path[0]].child, path[1..])
    else if path[0] <= |n.items| then |Flat(n.items[..path[0]])|
    else 0
  }

  lemma {:induction false} NodeAtSnoc(n: Node, path: seq<nat>, i: nat)
    requires NodeAt(n, path).Some?
    ensures NodeAt(n, path + [i]) ==
      (var m := NodeAt(n, path).value; if i < |m.items| && m.items[i].Ptr? then Some(m.items[i].child) else None)
    decreases |path|
  {
    if path == [] { assert (path + [i])[1..] == []; }
    else {
      NodeAtSnoc(n.items[path[0]].child, path[1..], i);
      assert (path + [i])[1..] == path[1..] + [i];
    }
  }

  /** Stepping inside the node at `path` moves the rank by the items passed. */
  lemma {:induction false} RankSnoc(n: Node, path: seq<nat>, i: nat)
    requires NodeAt(n, path).Some? && i <= |NodeAt(n, path).value.items|
    ensures Rank(n, path + [i]) == Rank(n, path + [0]) + |Flat(NodeAt(n, path).value.items[..i])|
    decreases |path|
  {
    if path != [] {
      RankSnoc(n.items[path[0]].child, path[1..], i);
      assert (path + [i])[1..] == path[1..] + [i] && (path + [0])[1..] == path[1..] + [0];
    }
  }

  /** Going down to the first position of a child does not pass any data. */
  lemma {:induction false} RankDown(n: Node, path: seq<nat>, i: nat)
    requires NodeAt(n, path).Some? && i < |NodeAt(n, path).value.items| && NodeAt(n, path).value.items[i].Ptr?
    ensures Rank(n, path + [i] + [0]) == Rank(n, path + [i])
    decreases |path|
  {
    var p := path + [i] + [0];
    if path == [] {
      assert p[1..] == [0];
    } else {
      RankDown(n.items[path[0]].child, path[1..], i);
      assert p[1..] == path[1..] + [i] + [0] && (path + [i])[1..] == path[1..] + [i];
    }
  }

  /** What a lookup must answer about the flat sequence of data items. */
  ghost predicate Separates(flat: seq<Item>, rank: nat, key: nat) {
    rank <= |flat| && AllBelow(flat[..rank], key) && AllAbove(flat[rank..], key)
  }

  /** Item i is the file body item that more data at the key would be appended
      to: it ends at or before the key, the key belongs to its object, and the
      next item begins behind the key. */
  ghost predicate AppendsTo(n: Node, i: nat, key: nat) {
    && i < |n.items| && n.items[i].Data? && n.items[i].body
    && n.items[i].key + |n.items[i].bytes| <= key <= MaxPossKey(n.items[i].key)
    && (i + 1 < |n.items| ==> key < n.items[i + 1].key)
  }

  ghost predicate EndsBefore(it: Item, key: nat) { it.Data? && it.key + |it.bytes| <= key }

  /** The place in the node where the search ends.  Without a unit it is the
      position between the smaller and the larger items; just behind an item
      exactly when that is the one to append to. */
  ghost predicate EndsAt(n: Node, key: nat, res: Lookup, pos: nat, unit: Option<nat>) {
    && pos <= |n.items|
    && (res == Present ==> pos < |n.items| && Covers(n.items[pos], key) && unit == Some(key - n.items[pos].key))
    && (res == Absent && unit.Some? ==> AppendsTo(n, pos, key) && unit.value == |n.items[pos].bytes| > 0)
    && (res == Absent && unit.None? ==>
          && (forall i: nat :: !AppendsTo(n, i, key))
          && (forall i :: 0 <= i < pos ==> n.items[i].key < key)
          && (forall i :: pos <= i < |n.items| ==> key < n.items[i].key)
          && (pos < |n.items| ==> n.items[pos].Data?)
          && (pos > 0 ==> EndsBefore(n.items[pos - 1], key)))
  }

  /** The search goes down through item i: the last one that does not lie
      behind the key; or the first one; or one behind the key and behind data
      that ends before the key and is not to be appended to. */
  ghost predicate Step(n: Node, i: nat, key: nat) {
    && i < |n.items| && n.items[i].Ptr? && (i + 1 < |n.items| ==> key < n.items[i + 1].key)
    && (i > 0 && key < n.items[i].key ==> EndsBefore(n.items[i - 1], key) && !AppendsTo(n, i - 1, key))
  }

  /** The nodes the search goes down through. */
  ghost predicate Way(n: Node, path: seq<nat>, key: nat)
    decreases |path|
  {
    path == [] || (Step(n, path[0], key) && Way(n.items[path[0]].child, path[1..], key))
  }

  /** PRESENT exactly if some data item covers the key, and then the place is
      that item and unit; otherwise the place separates the smaller items from
      the larger ones. */
  ghost predicate LookupAnswer(root: Node, key: nat, res: Lookup, path: seq<nat>, unit: Option<nat>) {
    && path != [] && NodeAt(root, path[..|path| - 1]).Some? && Way(root, path[..|path| - 1], key)
    && EndsAt(NodeAt(root, path[..|path| - 1]).value, key, res, path[|path| - 1], unit)
    && (res == Present <==> exists j :: 0 <= j < |FlatNode(root)| && Covers(FlatNode(root)[j], key))
    && (res == Absent ==> Separates(FlatNode(root), Rank(root, path) + (if unit.Some? then 1 else 0), key))
  }

  /** The answer leaves no choice. */
  lemma LookupUnique(root: Node, hi: nat, key: nat, res: Lookup, path: seq<nat>, unit: Option<nat>,
                     res': Lookup, path': seq<nat>, unit': Option<nat>)
    requires WellFormed(root, 0, hi)
    requires LookupAnswer(root, key, res, path, unit) && LookupAnswer(root, key, res', path', unit')
    ensures res == res' && path == path' && unit == unit'
  {
    var (p, q) := (path[..|path| - 1], path'[..|path'| - 1]);
    SameWay(root, 0, hi, key, p, q, res, path[|path| - 1], unit, res', path'[|path'| - 1], unit');
    assert path == p + [path[|path| - 1]] && path' == q + [path'[|path'| - 1]];
  }

  lemma {:induction false} SameWay(n: Node, lo: nat, hi: nat, key: nat, p: seq<nat>, q: seq<nat>,
                                   res: Lookup, pos: nat, unit: Option<nat>,
                                   res': Lookup, pos': nat, unit': Option<nat>)
    requires WellFormed(n, lo, hi) && Way(n, p, key) && Way(n, q, key) && NodeAt(n, p).Some? && NodeAt(n, q).Some?
    requires EndsAt(NodeAt(n, p).value, key, res, pos, unit) && EndsAt(NodeAt(n, q).value, key, res', pos', unit')
    ensures res == res' && p == q && pos == pos' && unit == unit'
    decreases |p|
  {
    FormedSorted(n, lo, hi);
    if p == [] && q == [] {
      EndUnique(n, key, res, pos, unit, res', pos', unit');
    } else if p == [] {
      EndOrStep(n, key, res, pos, unit, q[0]);
    } else if q == [] {
      EndOrStep(n, key, res', pos', unit', p[0]);
    } else {
      assert p[0] == q[0] by { StepUnique(n, key, p[0], q[0]); }
      assert ItemFormed(n, p[0], lo, hi);
      SameWay(n.items[p[0]].child, n.items[p[0]].key, Limit(n.items, p[0], hi), key, p[1..], q[1..],
              res, pos, unit, res', pos', unit');
      assert p == [p[0]] + p[1..] && q == [q[0]] + q[1..];
    }
  }

  lemma StepUnique(n: Node, key: nat, i: nat, j: nat)
    requires Sorted(n) && Step(n, i, key) && Step(n, j, key)
    ensures i == j
  {
    if i > 0 { assert DataFormed(n, i - 1); }
    if j > 0 { assert DataFormed(n, j - 1); }
  }

  /** The last item of a node that begins at or before the key. */
  lemma EndInside(n: Node, key: nat, res: Lookup, pos: nat, unit: Option<nat>)
    requires Sorted(n) && EndsAt(n, key, res, pos, unit) && unit.Some?
    ensures pos < |n.items| && n.items[pos].Data? && n.items[pos].key <= key
    ensures forall i :: pos < i < |n.items| ==> key < n.items[i].key
  {
    assert DataFormed(n, pos);
    forall i | pos < i < |n.items| ensures key < n.items[i].key {
      assert n.items[pos + 1].key <= n.items[i].key;
    }
  }

  lemma EndOrStep(n: Node, key: nat, res: Lookup, pos: nat, unit: Option<nat>, i: nat)
    requires Sorted(n) && EndsAt(n, key, res, pos, unit)
    ensures !Step(n, i, key)
  {
    if unit.Some? { EndInside(n, key, res, pos, unit); }
    if 0 < i <= |n.items| { assert DataFormed(n, i - 1); }
  }

  lemma EndUnique(n: Node, key: nat, res: Lookup, pos: nat, unit: Option<nat>,
                  res': Lookup, pos': nat, unit': Option<nat>)
    requires Sorted(n) && EndsAt(n, key, res, pos, unit) && EndsAt(n, key, res', pos', unit')
    ensures res == res' && pos == pos' && unit == unit'
  {
    if unit.Some? { EndInside(n, key, res, pos, unit); }
    if unit'.Some? { EndInside(n, key, res', pos', unit'); }
    EndKind(n, key, res, pos, unit, res', pos', unit');
  }

  lemma EndKind(n: Node, key: nat, res: Lookup, pos: nat, unit: Option<nat>,
                res': Lookup, pos': nat, unit': Option<nat>)
    requires Sorted(n) && EndsAt(n, key, res, pos, unit) && EndsAt(n, key, res', pos', unit')
    ensures res == res' && (unit.Some? <==> unit'.Some?)
  {
    if unit.Some? { EndInside(n, key, res, pos, unit); }
    if unit'.Some? { EndInside(n, key, res', pos', unit'); }
    if pos < |n.items| { assert DataFormed(n, pos); }
    if pos' < |n.items| { assert DataFormed(n, pos'); }
    if 0 < pos <= |n.items| { assert DataFormed(n, pos - 1); }
    if 0 < pos' <= |n.items| { assert DataFormed(n, pos' - 1); }
  }

  lemma {:induction false} WaySnoc(n: Node, path: seq<nat>, i: nat, key: nat)
    requires Way(n, path, key) && NodeAt(n, path).Some? && Step(NodeAt(n, path).value, i, key)
    ensures Way(n, path + [i], key)
    decreases |path|
  {
    if path == [] {
      assert [i][1..] == [];
    } else {
      WaySnoc(n.items[path[0]].child, path[1..], i, key);
      assert (path + [i])[1..] == path[1..] + [i];
    }
  }

  /** reiser4_tree_lookup at the leaf level with FIND_EXACT, on a tree without
      key collisions. */
  method TreeLookup(root: Node, key: nat, hi: nat) returns (res: Lookup, path: seq<nat>, unit: Option<nat>)
    requires WellFormed(root, 0, hi)
    ensures LookupAnswer(root, key, res, path, unit) && LevelsFall(root, path)
    ensures forall p: seq<nat>, i: nat :: BlindAt(root, p, i, key) ==> path == p + [i] && unit.Some?
  {
    var n := root;
    path := [];
    ghost var lo, up, pre, post := 0, hi, [], [];
    while true
      invariant Track(root, path, n, lo, up, pre, post, key)
      invariant forall p: seq<nat>, i: nat :: BlindAt(root, p, i, key) ==> path <= p && BlindAt(n, p[|path|..], i, key)
      decreases n
    {
      FormedSorted(n, lo, up);
      var pos;
      res, pos, unit := NodeLookup(n, key, false);
      forall p: seq<nat>, i: nat | BlindAt(root, p, i, key)
        ensures if pos < |n.items| && n.items[pos].Ptr?
          then path + [pos] <= p && BlindAt(n.items[pos].child, p[|path| + 1..], i, key)
          else path + [pos] == p + [i] && unit.Some?
      {
        BlindStep(n, lo, up, key, res, pos, unit, p[|path|..], i);
        assert p == path + p[|path|..];
        if pos < |n.items| && n.items[pos].Ptr? { assert p[|path|..][1..] == p[|path| + 1..]; }
      }
      if pos < |n.items| { assert ItemFormed(n, pos, lo, up); }
      if n.level <= LEAF_LEVEL || pos >= |n.items| || n.items[pos].Data? {
        TrackEnd(root, path, n, lo, up, pre, post, key, res, pos, unit);
        PathLevels(root, 0, hi, path, pos);
        path := path + [pos];
        return;
      }
      TrackDown(root, path, n, lo, up, pre, post, key, res, pos, unit);
      pre, post := pre + Flat(n.items[..pos]), Flat(n.items[pos + 1..]) + post;
      lo, up := n.items[pos].key, Limit(n.items, pos, up);
      path := path + [pos];
      n := n.items[pos].child;
    }
  }

  /** The k-th node on the way is k levels below the root. */
  ghost predicate LevelsFall(root: Node, path: seq<nat>) {
    forall k: nat {:trigger NodeAt(root, path[..k])} :: k < |path| ==>
      NodeAt(root, path[..k]).Some? && NodeAt(root, path[..k]).value.level == root.level - k
  }

  lemma PathLevels(root: Node, lo: nat, hi: nat, p: seq<nat>, pos: nat)
    requires WellFormed(root, lo, hi) && NodeAt(root, p).Some?
    ensures LevelsFall(root, p + [pos])
  {
    forall k: nat | k < |p| + 1
      ensures var q := (p + [pos])[..k]; NodeAt(root, q).Some? && NodeAt(root, q).value.level == root.level - k
    {
      assert (p + [pos])[..k] == p[..k];
      NodeLevel(root, lo, hi, p, k);
    }
  }

  lemma {:induction false} NodeLevel(n: Node, lo: nat, hi: nat, p: seq<nat>, k: nat)
    requires WellFormed(n, lo, hi) && NodeAt(n, p).Some? && k <= |p|
    ensures NodeAt(n, p[..k]).Some? && NodeAt(n, p[..k]).value.level == n.level - k
    decreases k
  {
    if k > 0 {
      assert ItemFormed(n, p[0], lo, hi);
      assert p[..k][1..] == p[1..][..k - 1];
      NodeLevel(n.items[p[0]].child, n.items[p[0]].key, Limit(n.items, p[0], hi), p[1..], k - 1);
    }
  }

  /** In the node at p, item i is a file body item that ends before the key, and
      a pointer with a larger key stands right behind it. */
  ghost predicate BlindAt(root: Node, p: seq<nat>, i: nat, key: nat) {
    && NodeAt(root, p).Some?
    && var n := NodeAt(root, p).value;
    && i + 1 < |n.items| && n.items[i].Data? && n.items[i].body && 0 < |n.items[i].bytes|
    && n.items[i].key + |n.items[i].bytes| <= key <= MaxPossKey(n.items[i].key)
    && n.items[i + 1].Ptr? && key < n.items[i + 1].key
  }

  lemma {:induction false} BlindWithin(n: Node, lo: nat, hi: nat, p: seq<nat>, i: nat, key: nat)
    requires WellFormed(n, lo, hi) && BlindAt(n, p, i, key)
    ensures lo < key < hi
    decreases |p|
  {
    if p == [] { assert ItemFormed(n, i, lo, hi) && ItemFormed(n, i + 1, lo, hi); }
    else {
      assert ItemFormed(n, p[0], lo, hi);
      BlindWithin(n.items[p[0]].child, n.items[p[0]].key, Limit(n.items, p[0], hi), p[1..], i, key);
    }
  }

  /** The descent goes towards such a spot and stops there. */
  lemma BlindStep(n: Node, lo: nat, up: nat, key: nat, res: Lookup, pos: nat, unit: Option<nat>, p: seq<nat>, i: nat)
    requires WellFormed(n, lo, up) && NodeAnswer(n, key, false, res, pos, unit) && BlindAt(n, p, i, key)
    ensures if p == [] then pos == i && unit.Some? && n.items[pos].Data?
            else pos == p[0] && pos < |n.items| && n.items[pos].Ptr? && BlindAt(n.items[pos].child, p[1..], i, key)
  {
    if p != [] {
      assert ItemFormed(n, p[0], lo, up);
      BlindWithin(n.items[p[0]].child, n.items[p[0]].key, Limit(n.items, p[0], up), p[1..], i, key);
    }
  }

  /** The descent has reached n; everything before its subtree is smaller than
      the key and everything behind is larger. */
  ghost predicate Track(root: Node, path: seq<nat>, n: Node, lo: nat, up: nat, pre: seq<Item>, post: seq<Item>,
                        key: nat) {
    && NodeAt(root, path) == Some(n) && WellFormed(n, lo, up)
    && FlatNode(root) == pre + FlatNode(n) + post
    && AllBelow(pre, key) && AllAbove(post, key)
    && Rank(root, path + [0]) == |pre| && Way(root, path, key)
  }

  lemma TrackDown(root: Node, path: seq<nat>, n: Node, lo: nat, up: nat, pre: seq<Item>, post: seq<Item>, key: nat,
                  res: Lookup, pos: nat, unit: Option<nat>)
    requires Track(root, path, n, lo, up, pre, post, key) && NodeAnswer(n, key, false, res, pos, unit)
    requires pos < |n.items| && n.items[pos].Ptr?
    ensures Track(root, path + [pos], n.items[pos].child, n.items[pos].key, Limit(n.items, pos, up),
                  pre + Flat(n.items[..pos]), Flat(n.items[pos + 1..]) + post, key)
  {
    assert ItemFormed(n, pos, lo, up);
    AroundPos(n, lo, up, key, res, pos, unit);
    assert Step(n, pos, key);
    WaySnoc(root, path, pos, key);
    RankSnoc(root, path, pos);
    NodeAtSnoc(root, path, pos);
    RankDown(root, path, pos);
    Descend(FlatNode(root), n, pre, post, pos);
  }

  lemma TrackEnd(root: Node, path: seq<nat>, n: Node, lo: nat, up: nat, pre: seq<Item>, post: seq<Item>, key: nat,
                 res: Lookup, pos: nat, unit: Option<nat>)
    requires Track(root, path, n, lo, up, pre, post, key) && NodeAnswer(n, key, false, res, pos, unit)
    requires n.level <= LEAF_LEVEL || pos >= |n.items| || n.items[pos].Data?
    ensures LookupAnswer(root, key, res, path + [pos], unit)
  {
    if pos < |n.items| { assert ItemFormed(n, pos, lo, up); }
    AroundPos(n, lo, up, key, res, pos, unit);
    RankSnoc(root, path, pos);
    assert (path + [pos])[..|path|] == path;
    EndFound(n, lo, up, key, res, pos, unit);
    Conclude(FlatNode(root), n, pre, post, key, res, pos, unit);
  }

  lemma EndFound(n: Node, lo: nat, up: nat, key: nat, res: Lookup, pos: nat, unit: Option<nat>)
    requires WellFormed(n, lo, up) && NodeAnswer(n, key, false, res, pos, unit)
    requires n.level <= LEAF_LEVEL || pos >= |n.items| || n.items[pos].Data?
    ensures EndsAt(n, key, res, pos, unit)
  {
    FormedSorted(n, lo, up);
    if pos < |n.items| { assert ItemFormed(n, pos, lo, up) && DataFormed(n, pos); }
    if pos > 0 { assert ItemFormed(n, pos - 1, lo, up); }
    forall i: nat | AppendsTo(n, i, key) ensures unit.Some? {
      assert DataFormed(n, i) && i <= pos && pos <= i + 1;
    }
  }

  lemma Descend(flat: seq<Item>, n: Node, pre: seq<Item>, post: seq<Item>, pos: nat)
    requires flat == pre + FlatNode(n) + post && pos < |n.items| && n.items[pos].Ptr?
    ensures flat == (pre + Flat(n.items[..pos])) + FlatNode(n.items[pos].child) + (Flat(n.items[pos + 1..]) + post)
  {
    FlatAround(n.items, pos);
  }

  /** The items before and behind the position that a node lookup gives. */
  lemma AroundPos(n: Node, lo: nat, up: nat, key: nat, res: Lookup, pos: nat, unit: Option<nat>)
    requires WellFormed(n, lo, up) && NodeAnswer(n, key, false, res, pos, unit)
    ensures AllBelow(Flat(n.items[..pos]), key)
    ensures pos < |n.items| ==> AllAbove(Flat(n.items[pos + 1..]), key)
  {
    PrefixWithin(n, lo, up, pos);
    if 0 < pos {
      assert ItemFormed(n, pos - 1, lo, up);
      if unit.None? && n.items[pos - 1].Data? {
        PrefixWithin(n, lo, up, pos - 1);
        if pos > 1 { assert ItemFormed(n, pos - 2, lo, up); }
        assert n.items[..pos] == n.items[..pos - 1] + [n.items[pos - 1]];
        FlatSnoc(n.items[..pos - 1], n.items[pos - 1]);
      }
    }
    if pos < |n.items| { SuffixWithin(n, lo, up, pos + 1); }
  }

  /** Smaller items followed by larger ones: no item covers the key. */
  lemma Between(a: seq<Item>, b: seq<Item>, key: nat)
    requires AllBelow(a, key) && AllAbove(b, key)
    ensures Separates(a + b, |a|, key)
    ensures forall j :: 0 <= j < |a + b| ==> !Covers((a + b)[j], key)
  {
    assert (a + b)[..|a|] == a && (a + b)[|a|..] == b;
  }

  /** The answer in the node where the descent ends. */
  lemma Conclude(flat: seq<Item>, n: Node, pre: seq<Item>, post: seq<Item>, key: nat, res: Lookup, pos: nat,
                 unit: Option<nat>)
    requires flat == pre + FlatNode(n) + post && AllBelow(pre, key) && AllAbove(post, key)
    requires NodeAnswer(n, key, false, res, pos, unit) && (pos < |n.items| ==> n.items[pos].Data?)
    requires AllBelow(Flat(n.items[..pos]), key) && (pos < |n.items| ==> AllAbove(Flat(n.items[pos + 1..]), key))
    ensures res == Present <==> exists j :: 0 <= j < |flat| && Covers(flat[j], key)
    ensures res == Absent ==> Separates(flat, |pre| + |Flat(n.items[..pos])| + (if unit.Some? then 1 else 0), key)
  {
    var before := pre + Flat(n.items[..pos]);
    if pos < |n.items| {
      FlatAround(n.items, pos);
      ConcludeAt(flat, before, n.items[pos], Flat(n.items[pos + 1..]) + post, key, res, unit);
    } else {
      assert n.items[..pos] == n.items;
      assert flat == before + post;
      Between(before, post, key);
    }
  }

  lemma ConcludeAt(flat: seq<Item>, before: seq<Item>, it: Item, behind: seq<Item>, key: nat, res: Lookup,
                   unit: Option<nat>)
    requires flat == before + [it] + behind && AllBelow(before, key) && AllAbove(behind, key)
    requires res == Present ==> Covers(it, key)
    requires res == Absent && unit.Some? ==> AllBelow([it], key)
    requires res == Absent && unit.None? ==> AllAbove([it], key)
    ensures res == Present ==> exists j :: 0 <= j < |flat| && Covers(flat[j], key)
    ensures res == Absent ==> forall j :: 0 <= j < |flat| ==> !Covers(flat[j], key)
    ensures res == Absent ==> Separates(flat, |before| + (if unit.Some? then 1 else 0), key)
  {
    if res == Present {
      assert flat[|before|] == it;
    } else if res == Absent && unit.Some? {
      Between(before + [it], behind, key);
    } else if res == Absent {
      assert flat == before + ([it] + behind);
      Between(before, [it] + behind, key);
    }
  }
}

/** Reading a stretch of a file from the tree (reiser4_flow_read). */
module FlowRead {
  import opened Common
  import opened SearchTree
  import opened TreeWalk
  import opened TreeKeys

  /** Read gives the bytes that were asked for, Failed those that were put into
      the buffer before a block could not be read, and how many of them offset
      and buffer of the hint have passed. */
  datatype ReadResult = Read(bytes: seq<int>) | Failed(bytes: seq<int>, done: nat) | Fault

  /** What happens to the reading of an item: nothing, its data cannot be read,
      or the item behind it cannot be reached. */
  datatype Trouble = NoTrouble | Unread | Stuck

  /** Where to read from, where to put the bytes and how many are wanted. */
  class Hint {
    var offset: nat
    var specific: nat
    var count: nat
  }

  /** The flat sequence is in order, items do not overlap and do not run across
      objects. */
  ghost predicate Ordered(flat: seq<Item>) {
    && (forall j :: 0 <= j < |flat| ==>
          flat[j].Data? && 0 < |flat[j].bytes| && flat[j].key + |flat[j].bytes| - 1 <= MaxPossKey(flat[j].key))
    && (forall i, j :: 0 <= i < j < |flat| ==> flat[i].key + |flat[i].bytes| <= flat[j].key)
  }

  /** The object consists of file body items. */
  ghost predicate BodyOnly(flat: seq<Item>, obj: nat) {
    forall j :: 0 <= j < |flat| && ObjectOf(flat[j].key) == obj ==> flat[j].Data? && flat[j].body
  }

  /** One byte of the file: that of the item covering it, or zero in a gap. */
  ghost predicate ByteOk(flat: seq<Item>, key: nat, byte: int) {
    && (forall j :: 0 <= j < |flat| && Covers(flat[j], key) ==> byte == flat[j].bytes[key - flat[j].key])
    && ((forall j :: 0 <= j < |flat| ==> !Covers(flat[j], key)) ==> byte == 0)
  }

  /** The i-th byte read is the file's. */
  ghost predicate ReadOk(flat: seq<Item>, key: nat, bytes: seq<int>, i: int) {
    0 <= i < |bytes| ==> ByteOk(flat, key + i, bytes[i])
  }

  /** Bytes read so far: all are the file's, and the file reaches that far. */
  ghost predicate SoFar(flat: seq<Item>, key: nat, bytes: seq<int>) {
    && (forall i {:trigger ReadOk(flat, key, bytes, i)} :: ReadOk(flat, key, bytes, i))
    && (|bytes| > 0 ==> Reaches(flat, ObjectOf(key), key + |bytes|))
  }

  /** The bytes are the file's bytes from `key` on; reading stopped because
      enough was read or because the object ends here. */
  ghost predicate IsRead(flat: seq<Item>, key: nat, count: nat, bytes: seq<int>) {
    && |bytes| <= count && SoFar(flat, key, bytes)
    && (|bytes| < count ==> EndsBy(flat, ObjectOf(key), key + |bytes|))
  }

  /** Some item of the object ends at or behind `key`. */
  ghost predicate Reaches(flat: seq<Item>, obj: nat, key: nat) {
    exists j :: 0 <= j < |flat| && ObjectOf(flat[j].key) == obj && flat[j].Data? && key <= flat[j].key + |flat[j].bytes|
  }

  ghost predicate EndsBy(flat: seq<Item>, obj: nat, key: nat) {
    forall j :: 0 <= j < |flat| && ObjectOf(flat[j].key) == obj ==>
      flat[j].Data? && flat[j].key + |flat[j].bytes| <= key
  }

  /** The bytes that a read returns, and the count it leaves in the hint, are
      determined by the tree. */
  lemma ReadUnique(flat: seq<Item>, key: nat, count: nat, a: seq<int>, b: seq<int>, x: int, y: int)
    requires IsRead(flat, key, count, a) && IsRead(flat, key, count, b)
    requires CountLeft(flat, key, count, |a|, x) && CountLeft(flat, key, count, |b|, y)
    ensures a == b && x == y
  {
    forall i | 0 <= i < |a| ensures a[i] == b[i] {
      assert ReadOk(flat, key, a, i) && ReadOk(flat, key, b, i);
      if j :| 0 <= j < |flat| && Covers(flat[j], key + i) {}
    }
  }

  lemma {:induction false} FlatOrdered(n: Node, lo: nat, hi: nat)
    requires WellFormed(n, lo, hi)
    ensures Ordered(FlatNode(n))
    decreases n, 0
  {
    RunOrdered(n, lo, hi, 0);
    assert n.items[0..] == n.items;
  }

  lemma {:induction false} RunOrdered(n: Node, lo: nat, hi: nat, i: nat)
    requires WellFormed(n, lo, hi) && i <= |n.items|
    ensures Ordered(Flat(n.items[i..]))
    decreases n, 0, |n.items| - i
  {
    if i < |n.items| {
      RunOrdered(n, lo, hi, i + 1);
      SuffixWithin(n, lo, hi, i + 1);
      ItemWithin(n, lo, hi, i);
      assert ItemFormed(n, i, lo, hi);
      if n.items[i].Ptr? { FlatOrdered(n.items[i].child, n.items[i].key, Limit(n.items, i, hi)); }
      assert n.items[i..][1..] == n.items[i + 1..];
    }
  }

  // ------------------------------------------------------- loop invariants

  /** Everything before rank ends by cur; what follows starts behind cur, or is
      another object's. */
  ghost predicate InGap(flat: seq<Item>, rank: nat, obj: nat, cur: nat) {
    && rank <= |flat|
    && (forall j :: 0 <= j < rank ==> flat[j].Data? && flat[j].key + |flat[j].bytes| <= cur)
    && (forall j :: rank <= j < |flat| ==> cur <= flat[j].key && (ObjectOf(flat[j].key) == obj ==> cur < flat[j].key))
  }

  lemma SeparatesIsGap(flat: seq<Item>, rank: nat, obj: nat, cur: nat)
    requires Separates(flat, rank, cur)
    ensures InGap(flat, rank, obj, cur)
  {
    forall j | 0 <= j < rank
      ensures flat[j].Data? && flat[j].key + |flat[j].bytes| <= cur
    {
      assert flat[..rank][j] == flat[j];
    }
    forall j | rank <= j < |flat| ensures cur < flat[j].key { assert flat[rank..][j - rank] == flat[j]; }
  }

  /** Where the reader stands: at data covering the current key, or in front of
      the next data. */
  ghost predicate Standing(flat: seq<Item>, rank: nat, present: bool, obj: nat, cur: nat) {
    if present then rank < |flat| && Covers(flat[rank], cur) && ObjectOf(flat[rank].key) == obj
    else InGap(flat, rank, obj, cur)
  }

  function Zeros(n: nat): (z: seq<int>)
    ensures |z| == n && forall i :: 0 <= i < n ==> z[i] == 0
  {
    seq(n, _ => 0)
  }

  /** Filling a hole with zeros up to the next item. */
  lemma HoleRead(flat: seq<Item>, key: nat, bytes: seq<int>, rank: nat, n: nat)
    requires SoFar(flat, key, bytes) && Ordered(flat) && rank < |flat|
    requires InGap(flat, rank, ObjectOf(key), key + |bytes|) && ObjectOf(flat[rank].key) == ObjectOf(key)
    requires 0 < n && key + |bytes| + n <= flat[rank].key
    ensures SoFar(flat, key, bytes + Zeros(n))
    ensures key + |bytes| + n == flat[rank].key ==> Standing(flat, rank, true, ObjectOf(key), key + |bytes| + n)
  {
    var cur := key + |bytes|;
    var all := bytes + Zeros(n);
    forall j, k | 0 <= j < |flat| && cur <= k < flat[rank].key ensures !Covers(flat[j], k) {
      if j > rank { assert flat[rank].key + |flat[rank].bytes| <= flat[j].key; }
    }
    forall i ensures ReadOk(flat, key, all, i) {
      if 0 <= i < |bytes| { assert ReadOk(flat, key, bytes, i); }
    }
  }

  /** Copying n bytes out of the item that covers the current key. */
  lemma ItemRead(flat: seq<Item>, key: nat, bytes: seq<int>, rank: nat, n: nat)
    requires SoFar(flat, key, bytes) && Ordered(flat) && Standing(flat, rank, true, ObjectOf(key), key + |bytes|)
    requires 0 < n && key + |bytes| + n <= flat[rank].key + |flat[rank].bytes|
    ensures var off := key + |bytes| - flat[rank].key; SoFar(flat, key, bytes + flat[rank].bytes[off..off + n])
  {
    var off := key + |bytes| - flat[rank].key;
    var all := bytes + flat[rank].bytes[off..off + n];
    forall j, k | 0 <= j < |flat| && j != rank && Covers(flat[rank], k) ensures !Covers(flat[j], k) {
      if j < rank { assert flat[j].key + |flat[j].bytes| <= flat[rank].key; }
      else { assert flat[rank].key + |flat[rank].bytes| <= flat[j].key; }
    }
    forall i ensures ReadOk(flat, key, all, i) {
      if 0 <= i < |bytes| { assert ReadOk(flat, key, bytes, i); }
      else if 0 <= i < |all| { assert Covers(flat[rank], key + i); }
    }
  }

  /** At the end of an item the next one continues it, or a gap begins. */
  lemma Behind(flat: seq<Item>, rank: nat, obj: nat, cur: nat)
    requires Ordered(flat) && rank < |flat| && flat[rank].key + |flat[rank].bytes| == cur
    ensures Standing(flat, rank + 1, rank + 1 < |flat| && flat[rank + 1].key == cur && ObjectOf(cur) == obj, obj, cur)
  {
    forall j | 0 <= j <= rank ensures flat[j].key + |flat[j].bytes| <= cur {
      if j < rank { assert flat[j].key + |flat[j].bytes| <= flat[rank].key; }
    }
    forall j | rank < j < |flat| ensures cur <= flat[j].key && (j > rank + 1 ==> flat[rank + 1].key < flat[j].key) {
      assert flat[rank].key + |flat[rank].bytes| <= flat[j].key;
      if j > rank + 1 { assert flat[rank + 1].key + |flat[rank + 1].bytes| <= flat[j].key; }
    }
  }

  /** Nothing of the object is left if the next item belongs to another one. */
  lemma NothingLeft(flat: seq<Item>, rank: nat, obj: nat, cur: nat)
    requires InGap(flat, rank, obj, cur) && Ordered(flat) && obj <= ObjectOf(cur)
    requires rank < |flat| ==> ObjectOf(flat[rank].key) != obj
    ensures EndsBy(flat, obj, cur)
  {
    forall j | 0 <= j < |flat| && ObjectOf(flat[j].key) == obj ensures flat[j].key + |flat[j].bytes| <= cur {
      if rank < |flat| { ObjectMonotone(cur, flat[rank].key); }
    }
  }

  // ------------------------------------------------------------- the reader

  /** The reader starts just behind a file body item of a twig that is followed
      there by a pointer to more data of the object within the stretch. */
  ghost predicate Blind(root: Node, key: nat, count: nat) {
    exists p: seq<nat>, i: nat :: BlindFor(root, p, i, key, count)
  }

  ghost predicate BlindFor(root: Node, p: seq<nat>, i: nat, key: nat, count: nat) {
    && BlindAt(root, p, i, key)
    && var next := NodeAt(root, p).value.items[i + 1];
    ObjectOf(next.key) == ObjectOf(key) && next.key < key + count
  }

  /** Such a tree: a twig with an extent of five bytes at offset 0, and behind it
      a leaf with the object's bytes at offsets 100 and 101. */
  lemma BlindTree()
    ensures var leaf := Node(1, [Data(100, [7, 8], true)]);
      var root := Node(2, [Data(0, [1, 2, 3, 4, 5], true), Ptr(100, leaf)]);
      WellFormed(root, 0, 200) && Delimited(root) && BodyOnly(FlatNode(root), 0) && Blind(root, 10, 100)
  {
    var leaf := Node(1, [Data(100, [7, 8], true)]);
    var root := Node(2, [Data(0, [1, 2, 3, 4, 5], true), Ptr(100, leaf)]);
    assert ItemFormed(leaf, 0, 100, 200);
    assert ItemFormed(root, 0, 0, 200) && ItemFormed(root, 1, 0, 200);
    assert DelimitedAt(leaf, 0) && DelimitedAt(root, 0) && DelimitedAt(root, 1);
    assert leaf.items[1..] == [] && root.items[1..] == [Ptr(100, leaf)] && [Ptr(100, leaf)][1..] == [];
    assert Flat(leaf.items) == [Data(100, [7, 8], true)];
    assert Flat([Ptr(100, leaf)]) == FlatItem(Ptr(100, leaf)) + Flat([]) == FlatNode(leaf) + [];
    assert Flat(root.items) == FlatItem(root.items[0]) + Flat([Ptr(100, leaf)]);
    assert FlatNode(root) == [Data(0, [1, 2, 3, 4, 5], true), Data(100, [7, 8], true)];
    assert NodeAt(root, []) == Some(root);
    assert BlindFor(root, [], 0, 10, 100);
  }

  /** A leaf with one byte at offset 0 and one behind a hole of 2^31. */
  lemma WideHole()
    ensures var leaf := Node(1, [Data(0, [1], true), Data(WIDE + 1, [2], true)]);
      WellFormed(leaf, 0, WIDE + 2) && Delimited(leaf) && BodyOnly(FlatNode(leaf), 0) &&
      !Blind(leaf, 1, WIDE) && Wide(FlatNode(leaf), 1, WIDE)
  {
    var leaf := Node(1, [Data(0, [1], true), Data(WIDE + 1, [2], true)]);
    assert ItemFormed(leaf, 0, 0, WIDE + 2) && ItemFormed(leaf, 1, 0, WIDE + 2);
    assert DelimitedAt(leaf, 0) && DelimitedAt(leaf, 1);
    var last := Data(WIDE + 1, [2], true);
    assert leaf.items[1..] == [last] && [last][1..] == [];
    assert Flat([last]) == FlatItem(last) + Flat([]) == [last];
    assert Flat(leaf.items) == FlatItem(leaf.items[0]) + Flat([last]);
    assert FlatNode(leaf) == [Data(0, [1], true), last];
    assert WideAt(FlatNode(leaf), ObjectOf(1), 1, 1);
    forall p: seq<nat>, i: nat ensures !BlindFor(leaf, p, i, 1, WIDE) {}
  }

  /** With delimiting keys in place a pointer's key is the key of the first data
      item behind it. */
  lemma {:induction false} FirstBehind(root: Node, u: seq<nat>)
    requires Delimited(root) && Filled(root) && u != [] && IsNode(root, u)
    ensures IsNode(root, Init(u)) && Last(u) < Len(root, Init(u)) && Rank(root, u) < |FlatNode(root)|
    ensures FlatNode(root)[Rank(root, u)].key == NodeAt(root, Init(u)).value.items[Last(u)].key
    decreases NodeAt(root, u).value
  {
    NodeInit(root, u);
    NodeFilled(root, u);
    PointerDelimits(root, u);
    var v: seq<nat> := u + [0];
    assert Init(v) == u && Last(v) == 0 && u == Init(u) + [Last(u)];
    RankDown(root, Init(u), Last(u));
    var c := NodeAt(root, u).value;
    if c.items[0].Data? {
      RankOfData(root, v);
    } else {
      NodeAtSnoc(root, u, 0);
      FirstBehind(root, v);
    }
  }

  lemma {:induction false} PointerDelimits(root: Node, u: seq<nat>)
    requires Delimited(root) && u != [] && IsNode(root, u) && IsNode(root, Init(u)) && Last(u) < Len(root, Init(u))
    ensures Delimits(NodeAt(root, Init(u)).value.items[Last(u)])
    decreases |u|
  {
    assert DelimitedAt(root, u[0]);
    if |u| > 1 {
      assert Init(u)[1..] == Init(u[1..]) && Last(u[1..]) == Last(u);
      PointerDelimits(root.items[u[0]].child, u[1..]);
    } else {
      assert Init(u) == [];
    }
  }

  /** The rank of the place where reading starts when the key is absent. */
  lemma StartRank(root: Node, key: nat, path: seq<nat>, unit: Option<nat>)
    requires LookupAnswer(root, key, Absent, path, unit)
    ensures Init(path) == path[..|path| - 1] && Last(path) <= Len(root, Init(path))
    ensures var pos := if unit.Some? then Last(path) + 1 else Last(path);
      pos <= Len(root, Init(path)) && InGap(FlatNode(root), Rank(root, Init(path) + [pos]), ObjectOf(key), key)
  {
    assert path == Init(path) + [Last(path)];
    if unit.Some? { StepRight(root, path); }
    SeparatesIsGap(FlatNode(root), Rank(root, path) + (if unit.Some? then 1 else 0), ObjectOf(key), key);
  }

  /** Covered keys belong to the object of the covering item. */
  lemma CoveredObject(flat: seq<Item>, j: nat, key: nat)
    requires Ordered(flat) && j < |flat| && Covers(flat[j], key)
    ensures ObjectOf(flat[j].key) == ObjectOf(key)
  {
    ObjectMonotone(flat[j].key, key);
    ObjectMonotone(key, MaxPossKey(flat[j].key));
    assert ObjectOf(MaxPossKey(flat[j].key)) == ObjectOf(flat[j].key);
  }

  lemma ObjectMonotone(a: nat, b: nat)
    requires a <= b
    ensures ObjectOf(a) <= ObjectOf(b)
  {
  }

  // ---- Steps too long for a 32-bit count ----

  const WIDE: nat := 0x8000_0000

  /** From a on, 2^31 bytes lie in item i, or in the hole in front of it. */
  ghost predicate WideAt(flat: seq<Item>, obj: nat, a: nat, i: int) {
    && 0 <= i < |flat| && flat[i].Data? && ObjectOf(flat[i].key) == obj
    && ((flat[i].key <= a && a + 0x8000_0000 <= flat[i].key + |flat[i].bytes|)
        || (a + 0x8000_0000 <= flat[i].key &&
            forall j :: 0 <= j < i ==> flat[j].Data? && flat[j].key + |flat[j].bytes| <= a))
  }

  /** The stretch wanted holds WIDE bytes of one item or of one hole between
      data. */
  ghost predicate Wide(flat: seq<Item>, key: nat, count: nat) {
    exists a: nat, i: int :: key <= a && a + WIDE <= key + count && WideAt(flat, ObjectOf(key), a, i)
  }

  /** The reader has come from key to cur without such a step, and stands where
      an item begins or ends. */
  ghost predicate Narrow(flat: seq<Item>, key: nat, cur: nat) {
    && (cur == key || exists j :: 0 <= j < |flat| && AtEdge(flat, j, cur))
    && forall a: nat, i: int {:trigger WideAt(flat, ObjectOf(key), a, i)} :: key <= a && a + WIDE <= cur ==>
         !WideAt(flat, ObjectOf(key), a, i)
  }

  function EndOf(it: Item): (end: int)
    requires it.Data?
  {
    it.key + |it.bytes|
  }

  ghost predicate AtEdge(flat: seq<Item>, j: int, cur: nat)
    requires 0 <= j < |flat|
  {
    flat[j].Data? && (flat[j].key == cur || flat[j].key + |flat[j].bytes| == cur)
  }

  /** A short step from an edge crosses no wide stretch. */
  lemma NarrowStep(flat: seq<Item>, key: nat, cur: nat, n: nat)
    requires Ordered(flat) && key <= cur && Narrow(flat, key, cur) && n < WIDE
    ensures forall a: nat, i: int {:trigger WideAt(flat, ObjectOf(key), a, i)} ::
      key <= a && a + WIDE <= cur + n ==> !WideAt(flat, ObjectOf(key), a, i)
  {
    forall a: nat, i: int | key <= a && a + WIDE <= cur + n ensures !WideAt(flat, ObjectOf(key), a, i) {
      if cur != key && a + WIDE > cur {
        var j :| 0 <= j < |flat| && AtEdge(flat, j, cur);
        EdgeInside(flat, ObjectOf(key), a, i, j, cur);
      }
    }
  }

  /** No item begins or ends inside a wide stretch. */
  lemma EdgeInside(flat: seq<Item>, obj: nat, a: nat, i: int, j: int, cur: nat)
    requires Ordered(flat) && 0 <= j < |flat| && AtEdge(flat, j, cur) && a < cur < a + WIDE
    ensures !WideAt(flat, obj, a, i)
  {
    if 0 <= i < |flat| && j != i {
      var (lo, hi) := if i < j then (i, j) else (j, i);
      assert flat[lo].key + |flat[lo].bytes| <= flat[hi].key;
    }
  }

  /** What lies behind the end of the object cannot be wide. */
  lemma NarrowEnd(flat: seq<Item>, key: nat, cur: nat, count: nat)
    requires Ordered(flat) && Narrow(flat, key, cur) && (cur == key + count || EndsBy(flat, ObjectOf(key), cur))
    ensures !Wide(flat, key, count)
  {
    forall a: nat, i: int | key <= a && a + WIDE <= key + count ensures !WideAt(flat, ObjectOf(key), a, i) {
      assert WideAt(flat, ObjectOf(key), a, i) ==> a + WIDE <= cur;
    }
  }

  // ---- What becomes of the hint ----

  /** Item j holds some of the n bytes from key on. */
  ghost predicate Touched(flat: seq<Item>, j: int, key: nat, n: nat) {
    n > 0 && 0 <= j < |flat| && flat[j].Data? && flat[j].key < key + n && key < flat[j].key + |flat[j].bytes|
  }

  /** The last of the items that hold the n bytes from key on is read from a
      on. */
  ghost predicate LastStart(flat: seq<Item>, key: nat, n: nat, a: int) {
    && key <= a && (a == key || exists j :: Touched(flat, j, key, n) && flat[j].key == a)
    && forall j :: Touched(flat, j, key, n) ==> flat[j].key <= a
  }

  /** The hint's count after n bytes: what was wanted when the last item was
      read. */
  ghost predicate CountLeft(flat: seq<Item>, key: nat, count: nat, n: nat, left: int) {
    LastStart(flat, key, n, key + count - left)
  }

  lemma HoleStart(flat: seq<Item>, key: nat, n: nat, m: nat, rank: nat, a: int)
    requires rank < |flat| && InGap(flat, rank, ObjectOf(key), key + n) && key + n + m <= flat[rank].key
    requires Ordered(flat) && LastStart(flat, key, n, a)
    ensures LastStart(flat, key, n + m, a)
  {
    forall j | rank < j < |flat| ensures flat[rank].key + |flat[rank].bytes| <= flat[j].key {}
    assert forall j :: Touched(flat, j, key, n + m) ==> Touched(flat, j, key, n);
    if j :| Touched(flat, j, key, n) && flat[j].key == a { assert Touched(flat, j, key, n + m); }
  }

  lemma ItemStart(flat: seq<Item>, key: nat, n: nat, m: nat, rank: nat)
    requires rank < |flat| && Covers(flat[rank], key + n) && Narrow(flat, key, key + n) && Ordered(flat)
    requires 0 < m && key + n + m <= flat[rank].key + |flat[rank].bytes|
    ensures LastStart(flat, key, n + m, key + n)
  {
    forall j | 0 <= j < |flat| && j != rank
      ensures if j < rank then flat[j].key + |flat[j].bytes| <= flat[rank].key
              else flat[rank].key + |flat[rank].bytes| <= flat[j].key {}
    if n > 0 {
      var j :| 0 <= j < |flat| && AtEdge(flat, j, key + n);
      assert flat[rank].key == key + n;
      assert Touched(flat, rank, key, n + m);
    }
  }

  /** Where in the stretch from key on the reading of item j begins. */
  ghost function ReadAt(flat: seq<Item>, j: nat, key: nat): (at: nat)
    requires j < |flat|
  {
    if flat[j].key < key then 0 else flat[j].key - key
  }

  /** No item that holds some of the n bytes gives trouble: each can be read,
      and so can the way on from it if more is wanted than it holds. */
  ghost predicate Smooth(flat: seq<Item>, key: nat, count: nat, n: nat, trouble: nat -> Trouble) {
    forall j: nat {:trigger Touched(flat, j, key, n)} :: Touched(flat, j, key, n) ==>
      && trouble(ReadAt(flat, j, key)) != Unread
      && (flat[j].key + |flat[j].bytes| < key + count ==> trouble(ReadAt(flat, j, key)) != Stuck)
  }

  /** Other items end before an item, or begin behind it. */
  lemma Around(flat: seq<Item>, rank: nat)
    requires Ordered(flat) && rank < |flat|
    ensures forall j {:trigger flat[j]} :: 0 <= j < rank ==> flat[j].key + |flat[j].bytes| <= flat[rank].key
    ensures forall j {:trigger flat[j]} :: rank < j < |flat| ==> flat[rank].key + |flat[rank].bytes| <= flat[j].key
  {
  }

  /** What is known of the hint's count and of the items read so far. */
  ghost predicate Fair(flat: seq<Item>, key: nat, count: nat, n: nat, left: int, trouble: nat -> Trouble) {
    CountLeft(flat, key, count, n, left) && Smooth(flat, key, count, n, trouble)
  }

  lemma FairAfter(flat: seq<Item>, key: nat, count: nat, n: nat, t: nat, rank: nat, res: Lookup, left: int,
                  trouble: nat -> Trouble)
    requires Ordered(flat) && Narrow(flat, key, key + n) && Fair(flat, key, count, n, left, trouble)
    requires n <= t <= count && Stretch(flat, rank, res, ObjectOf(key), key + n, t - n)
    requires res == Present ==> n < t && trouble(n) != Unread && (t < count ==> trouble(n) != Stuck)
    ensures Fair(flat, key, count, t, if res == Present then count - n else left, trouble)
  {
    CountAfter(flat, key, count, n, t - n, rank, res, left);
    SmoothAfter(flat, key, count, n, t - n, rank, res, trouble);
  }

  /** m more bytes out of an item without trouble, or out of a hole. */
  lemma SmoothAfter(flat: seq<Item>, key: nat, count: nat, n: nat, m: nat, rank: nat, res: Lookup,
                    trouble: nat -> Trouble)
    requires Ordered(flat) && Narrow(flat, key, key + n) && Smooth(flat, key, count, n, trouble) && n + m <= count
    requires Stretch(flat, rank, res, ObjectOf(key), key + n, m)
    requires res == Present && m > 0 ==> trouble(n) != Unread && (n + m < count ==> trouble(n) != Stuck)
    ensures Smooth(flat, key, count, n + m, trouble)
  {
    if m > 0 {
      if res == Present { ReadFrom(flat, key, n, rank); }
      forall j: nat | Touched(flat, j, key, n + m)
        ensures trouble(ReadAt(flat, j, key)) != Unread
        ensures flat[j].key + |flat[j].bytes| < key + count ==> trouble(ReadAt(flat, j, key)) != Stuck
      {
        OneTouched(flat, key, n, m, rank, res, j);
        assert Touched(flat, j, key, n) || j == rank;
      }
    }
  }

  lemma OneTouched(flat: seq<Item>, key: nat, n: nat, m: nat, rank: nat, res: Lookup, j: nat)
    requires Ordered(flat) && m > 0 && Stretch(flat, rank, res, ObjectOf(key), key + n, m)
    requires Touched(flat, j, key, n + m)
    ensures Touched(flat, j, key, n) || (j == rank && res == Present)
  {
    Around(flat, rank);
  }

  lemma ReadFrom(flat: seq<Item>, key: nat, n: nat, rank: nat)
    requires Ordered(flat) && Narrow(flat, key, key + n) && rank < |flat| && Covers(flat[rank], key + n)
    ensures ReadAt(flat, rank, key) == n
  {
    Around(flat, rank);
    if n > 0 {
      var j :| 0 <= j < |flat| && AtEdge(flat, j, key + n);
    }
  }

  /** What was put into the buffer, and the hint's count afterwards. */
  ghost predicate Result(root: Node, key: nat, count: nat, r: ReadResult, left: int, trouble: nat -> Trouble) {
    match r
    case Read(bytes) =>
      && IsRead(FlatNode(root), key, count, bytes) && CountLeft(FlatNode(root), key, count, |bytes|, left)
      && Smooth(FlatNode(root), key, count, |bytes|, trouble)
    case Failed(bytes, done) =>
      && done <= |bytes| <= count && SoFar(FlatNode(root), key, bytes) && left == count - done
      && Smooth(FlatNode(root), key, count, done, trouble)
    case Fault => true
  }

  /** What made it fail: bytes behind those that were passed are in the buffer
      when the way on failed. */
  function Cause(r: ReadResult): (t: Trouble)
    requires r.Failed?
  {
    if r.done < |r.bytes| then Stuck else Unread
  }

  /** reiser4_flow_read: reads up to hint.count bytes of the object from
      hint.offset on.  It goes wrong in two cases only: a read that starts in a
      blind spot and wants data behind it calls an operation that node pointers
      do not have, and the length of a single step is kept in a 32-bit number.
      Offset and buffer of the hint are restored when it returns what was read,
      the count is not; when something cannot be read they stay where the last
      item that gave no trouble ended, although the bytes of the next one are
      in the buffer already if only the way on failed.  lost says that the
      lookup fails, trouble(i) what happens to the item read from byte i on. */
  method ReadFlow(root: Node, hint: Hint, hi: nat, lost: bool, trouble: nat -> Trouble) returns (r: ReadResult)
    requires WellFormed(root, 0, hi) && Delimited(root) && BodyOnly(FlatNode(root), ObjectOf(hint.offset))
    modifies hint
    ensures var (key, count) := (old(hint.offset), old(hint.count));
      && (r.Failed? || (r.Fault? <==> Blind(root, key, count) || Wide(FlatNode(root), key, count)))
      && Result(root, key, count, r, hint.count, trouble)
      && (r.Read? ==> hint.offset == key && hint.specific == old(hint.specific))
      && (r.Failed? ==> hint.offset == key + r.done && hint.specific == old(hint.specific) + r.done)
      && (if lost then r == Failed([], 0) else r.Failed? ==> trouble(r.done) == Cause(r))
  {
    var key, buff := hint.offset, hint.specific;
    assert SoFar(FlatNode(root), key, []);
    if lost { return Failed([], 0); }
    r := ReadFound(root, hint, hi, trouble);
    if r.Read? { hint.specific, hint.offset := buff, key; }
  }

  /** The reading from where the lookup has led to. */
  method ReadFound(root: Node, hint: Hint, hi: nat, trouble: nat -> Trouble) returns (r: ReadResult)
    requires WellFormed(root, 0, hi) && Delimited(root) && BodyOnly(FlatNode(root), ObjectOf(hint.offset))
    modifies hint
    ensures var (key, count) := (old(hint.offset), old(hint.count));
      && (r.Failed? || (r.Fault? <==> Blind(root, key, count) || Wide(FlatNode(root), key, count)))
      && Result(root, key, count, r, hint.count, trouble)
      && (r.Failed? ==> hint.offset == key + r.done && hint.specific == old(hint.specific) + r.done)
      && (r.Failed? ==> trouble(r.done) == Cause(r))
  {
    var key, count := hint.offset, hint.count;
    FormedFilled(root, 0, hi);
    FlatOrdered(root, 0, hi);
    var res, path, unit := TreeLookup(root, key, hi);
    var place: Option<seq<nat>> := Some(path);
    if res == Absent {
      StartRank(root, key, path, unit);
      var pos := if unit.Some? then Last(path) + 1 else Last(path);
      var n := Fetch(root, Init(path));
      if pos == |n.items| {
        place := FromPlace(root, Init(path), pos + 1);
      } else {
        place := Some(Init(path) + [pos]);
        assert Init(place.value) == Init(path) && Last(place.value) == pos;
        if n.items[pos].Ptr? {
          NodeAtSnoc(root, Init(path), pos);
          PointerAbove(root, key, place.value);
          BlindStart(root, key, count, path, pos);
          r := ReadAtPointer(root, key, count, place.value, n.items[pos].key, trouble);
          return;
        }
      }
    } else {
      FoundStart(root, key, path, unit);
    }
    assert !Blind(root, key, count) by { NotBlind(root, key, count, res, path, unit); }
    r := ReadLoop(root, hint, res, place, trouble);
  }

  lemma PointerAbove(root: Node, key: nat, u: seq<nat>)
    requires Delimited(root) && Filled(root) && u != [] && IsNode(root, u) &&
      InGap(FlatNode(root), Rank(root, u), ObjectOf(key), key)
    ensures IsNode(root, Init(u)) && Last(u) < Len(root, Init(u)) &&
      key < NodeAt(root, Init(u)).value.items[Last(u)].key
  {
    FirstBehind(root, u);
  }

  lemma FoundStart(root: Node, key: nat, path: seq<nat>, unit: Option<nat>)
    requires LookupAnswer(root, key, Present, path, unit) && Ordered(FlatNode(root))
    ensures DataAt(root, path) && Standing(FlatNode(root), Rank(root, path), true, ObjectOf(key), key)
  {
    RankOfData(root, path);
    CoveredObject(FlatNode(root), Rank(root, path), key);
  }

  /** The lookup ended in front of a pointer: that is the blind spot, if there
      is one. */
  lemma BlindStart(root: Node, key: nat, count: nat, path: seq<nat>, pos: nat)
    requires path != [] && IsNode(root, Init(path)) && 0 < pos < Len(root, Init(path)) && pos == Last(path) + 1
    requires BlindAt(root, Init(path), pos - 1, key)
    requires forall p: seq<nat>, i: nat :: BlindAt(root, p, i, key) ==> path == p + [i]
    ensures Blind(root, key, count) <==>
      var next := NodeAt(root, Init(path)).value.items[pos];
      ObjectOf(next.key) == ObjectOf(key) && next.key < key + count
  {
    var q := Init(path);
    var next := NodeAt(root, q).value.items[pos];
    assert BlindFor(root, q, pos - 1, key, count) <==>
      ObjectOf(next.key) == ObjectOf(key) && next.key < key + count;
    if Blind(root, key, count) {
      var p, i :| BlindFor(root, p, i, key, count);
      Ends(path, p, i);
    }
  }

  lemma Ends(path: seq<nat>, p: seq<nat>, i: nat)
    requires path == p + [i]
    ensures Init(path) == p && Last(path) == i
  {
  }

  lemma NotBlind(root: Node, key: nat, count: nat, res: Lookup, path: seq<nat>, unit: Option<nat>)
    requires LookupAnswer(root, key, res, path, unit)
    requires forall p: seq<nat>, i: nat :: BlindAt(root, p, i, key) ==> path == p + [i] && unit.Some?
    requires res == Absent && unit.Some? ==>
      var n := NodeAt(root, Init(path)).value; Last(path) + 1 == |n.items| || n.items[Last(path) + 1].Data?
    ensures !Blind(root, key, count)
  {
    forall p: seq<nat>, i: nat ensures !BlindFor(root, p, i, key, count) {
      assert Init(p + [i]) == p && Last(p + [i]) == i;
    }
  }

  /** The first rounds of the loop when the starting item is a pointer. */
  method ReadAtPointer(root: Node, key: nat, count: nat, u: seq<nat>, next: nat, ghost trouble: nat -> Trouble)
    returns (r: ReadResult)
    requires Filled(root) && Delimited(root) && Ordered(FlatNode(root)) && u != [] && IsNode(root, u)
    requires IsNode(root, Init(u)) && Last(u) < Len(root, Init(u)) &&
      NodeAt(root, Init(u)).value.items[Last(u)].key == next
    requires InGap(FlatNode(root), Rank(root, u), ObjectOf(key), key)
    ensures !r.Failed?
    ensures r == Fault <==> (ObjectOf(next) == ObjectOf(key) && next < key + count) || Wide(FlatNode(root), key, count)
    ensures Result(root, key, count, r, count, trouble)
  {
    ghost var flat, rank := FlatNode(root), Rank(root, u);
    FirstBehind(root, u);
    if count == 0 { return Read([]); }
    if ObjectOf(next) != ObjectOf(key) {
      NothingLeft(flat, rank, ObjectOf(key), key);
      NarrowEnd(flat, key, key, count);
      return Read([]);
    }
    var hole := next - key;
    if count > hole { return Fault; }
    if count >= WIDE {
      assert WideAt(flat, ObjectOf(key), key, rank);
      return Fault;
    }
    HoleRead(flat, key, [], rank, count);
    HoleStart(flat, key, 0, count, rank, key);
    SmoothAfter(flat, key, count, 0, count, rank, Absent, trouble);
    assert [] + Zeros(count) == Zeros(count);
    r := Read(Zeros(count));
  }

  /** The reader's place and what it knows about the data there. */
  ghost predicate AtPlace(root: Node, place: Option<seq<nat>>, res: Lookup, obj: nat, cur: nat) {
    && (place.Some? ==> DataAt(root, place.value))
    && (res == Present ==> place.Some?)
    && var rank := if place.Some? then Rank(root, place.value) else |FlatNode(root)|;
       Standing(FlatNode(root), rank, res == Present, obj, cur)
  }

  /** From the end of one item to the next data item. */
  method Advance(root: Node, p: seq<nat>, obj: nat, cur: nat) returns (res: Lookup, place: Option<seq<nat>>)
    requires Filled(root) && Ordered(FlatNode(root)) && DataAt(root, p)
    requires ItemAt(root, p).key + |ItemAt(root, p).bytes| == cur
    ensures AtPlace(root, place, res, obj, cur)
  {
    RankOfData(root, p);
    Behind(FlatNode(root), Rank(root, p), obj, cur);
    place := NextPlace(root, p);
    res := Absent;
    if place.Some? {
      RankOfData(root, place.value);
      var n := Fetch(root, Init(place.value));
      if n.items[Last(place.value)].key == cur && ObjectOf(cur) == obj { res := Present; }
    }
  }

  /** One round of the loop at data: read_units, then on to the next place if
      more is wanted. */
  method ReadItem(root: Node, p: seq<nat>, key: nat, size: nat, bytes: seq<int>)
    returns (chunk: seq<int>, res: Lookup, place: Option<seq<nat>>)
    requires Filled(root) && Ordered(FlatNode(root)) && size > 0 && SoFar(FlatNode(root), key, bytes)
    requires AtPlace(root, Some(p), Present, ObjectOf(key), key + |bytes|)
    ensures |chunk| >= WIDE ==> WideAt(FlatNode(root), ObjectOf(key), key + |bytes|, Rank(root, p))
    ensures |chunk| < size ==>
      Rank(root, p) < |FlatNode(root)| && AtEdge(FlatNode(root), Rank(root, p), key + |bytes| + |chunk|)
    ensures 0 < |chunk| <= size && SoFar(FlatNode(root), key, bytes + chunk)
    ensures Rank(root, p) < |FlatNode(root)| && EndOf(FlatNode(root)[Rank(root, p)]) >= key + |bytes| + |chunk|
    ensures |chunk| < size ==> AtPlace(root, place, res, ObjectOf(key), key + |bytes| + |chunk|)
  {
    RankOfData(root, p);
    var n := Fetch(root, Init(p));
    var it := n.items[Last(p)];
    var off := key + |bytes| - it.key;
    var read := if off + size > |it.bytes| then |it.bytes| - off else size;
    ItemRead(FlatNode(root), key, bytes, Rank(root, p), read);
    chunk, res, place := it.bytes[off..off + read], Present, Some(p);
    if size > read { res, place := Advance(root, p, ObjectOf(key), key + |bytes| + read); }
  }

  /** One round of the loop in front of data: the hole up to it is zeros; an
      empty chunk says that the object ends here. */
  method ReadHole(root: Node, p: seq<nat>, key: nat, size: nat, bytes: seq<int>) returns (chunk: seq<int>)
    requires Ordered(FlatNode(root)) && size > 0 && SoFar(FlatNode(root), key, bytes)
    requires AtPlace(root, Some(p), Absent, ObjectOf(key), key + |bytes|)
    ensures |chunk| >= WIDE ==> WideAt(FlatNode(root), ObjectOf(key), key + |bytes|, Rank(root, p))
    ensures 0 < |chunk| < size ==>
      Rank(root, p) < |FlatNode(root)| && AtEdge(FlatNode(root), Rank(root, p), key + |bytes| + |chunk|)
    ensures |chunk| <= size && SoFar(FlatNode(root), key, bytes + chunk)
    ensures chunk != [] ==>
      Rank(root, p) < |FlatNode(root)| && key + |bytes| + |chunk| <= FlatNode(root)[Rank(root, p)].key
    ensures chunk == [] ==> EndsBy(FlatNode(root), ObjectOf(key), key + |bytes|)
    ensures 0 < |chunk| < size ==> AtPlace(root, Some(p), Present, ObjectOf(key), key + |bytes| + |chunk|)
  {
    RankOfData(root, p);
    var n := Fetch(root, Init(p));
    var it := n.items[Last(p)];
    ObjectMonotone(key, key + |bytes|);
    if ObjectOf(it.key) != ObjectOf(key) {
      NothingLeft(FlatNode(root), Rank(root, p), ObjectOf(key), key + |bytes|);
      assert bytes + [] == bytes;
      return [];
    }
    var hole := it.key - (key + |bytes|);
    var read := if hole > size then size else hole;
    HoleRead(FlatNode(root), key, bytes, Rank(root, p), read);
    chunk := Zeros(read);
  }

  /** The loop once the starting item is known to be data. */
  method ReadLoop(root: Node, hint: Hint, start: Lookup, from: Option<seq<nat>>, trouble: nat -> Trouble)
    returns (r: ReadResult)
    requires Filled(root) && Ordered(FlatNode(root))
    requires AtPlace(root, from, start, ObjectOf(hint.offset), hint.offset)
    modifies hint
    ensures var (key, count) := (old(hint.offset), old(hint.count));
      && (r.Failed? || (r == Fault <==> Wide(FlatNode(root), key, count)))
      && Result(root, key, count, r, hint.count, trouble)
      && (r.Failed? ==> hint.offset == key + r.done && hint.specific == old(hint.specific) + r.done)
      && (r.Failed? ==> trouble(r.done) == Cause(r))
  {
    var key, count, buff := hint.offset, hint.count, hint.specific;
    var res, place, bytes: seq<int>, state := start, from, [], if count == 0 then Done else More;
    if count == 0 { NarrowEnd(FlatNode(root), key, key, count); }
    while state == More
      invariant |bytes| <= count
      invariant Going(root, key, count, buff, bytes, res, place, state, hint.offset, hint.specific, hint.count, trouble)
      decreases count - |bytes|, state == More
    {
      bytes, res, place, state := Round(root, hint, key, count, buff, bytes, res, place, trouble);
    }
    r := if state == Done then Read(bytes) else if state == Broken then Failed(bytes, hint.offset - key) else Fault;
  }

  /** The n bytes from cur on lie in the item of that rank, or in the hole in
      front of it. */
  ghost predicate Stretch(flat: seq<Item>, rank: nat, res: Lookup, obj: nat, cur: nat, n: nat) {
    n == 0 || (
      && rank < |flat| && flat[rank].Data?
      && if res == Present then Covers(flat[rank], cur) && cur + n <= flat[rank].key + |flat[rank].bytes|
         else InGap(flat, rank, obj, cur) && cur + n <= flat[rank].key)
  }

  /** What reading m more bytes makes of the count. */
  lemma CountAfter(flat: seq<Item>, key: nat, count: nat, n: nat, m: nat, rank: nat, res: Lookup, left: int)
    requires Ordered(flat) && Narrow(flat, key, key + n) && CountLeft(flat, key, count, n, left)
    requires Stretch(flat, rank, res, ObjectOf(key), key + n, m)
    ensures CountLeft(flat, key, count, n + m, if m > 0 && res == Present then count - n else left)
  {
    if m > 0 {
      if res == Present {
        ItemStart(flat, key, n, m, rank);
      } else {
        HoleStart(flat, key, n, m, rank, key + count - left);
      }
    }
  }

  /** The next stretch, out of a hole or out of an item. */
  method ReadChunk(root: Node, p: seq<nat>, res: Lookup, key: nat, size: nat, bytes: seq<int>)
    returns (chunk: seq<int>, res': Lookup, place': Option<seq<nat>>)
    requires Filled(root) && Ordered(FlatNode(root)) && size > 0 && SoFar(FlatNode(root), key, bytes)
    requires AtPlace(root, Some(p), res, ObjectOf(key), key + |bytes|)
    ensures |chunk| >= WIDE ==> WideAt(FlatNode(root), ObjectOf(key), key + |bytes|, Rank(root, p))
    ensures 0 < |chunk| < size ==>
      Rank(root, p) < |FlatNode(root)| && AtEdge(FlatNode(root), Rank(root, p), key + |bytes| + |chunk|)
    ensures |chunk| <= size && SoFar(FlatNode(root), key, bytes + chunk)
    ensures chunk == [] ==> res == Absent && EndsBy(FlatNode(root), ObjectOf(key), key + |bytes|)
    ensures 0 < |chunk| < size ==> AtPlace(root, place', res', ObjectOf(key), key + |bytes| + |chunk|)
    ensures Stretch(FlatNode(root), Rank(root, p), res, ObjectOf(key), key + |bytes|, |chunk|)
  {
    if res == Absent {
      chunk := ReadHole(root, p, key, size, bytes);
      res', place' := Present, Some(p);
    } else {
      chunk, res', place' := ReadItem(root, p, key, size, bytes);
    }
  }

  /** What was read is right so far, and the place for the next step is known. */
  ghost predicate OnTheWay(root: Node, place: Option<seq<nat>>, res: Lookup, key: nat, bytes: seq<int>) {
    && SoFar(FlatNode(root), key, bytes) && Narrow(FlatNode(root), key, key + |bytes|)
    && AtPlace(root, place, res, ObjectOf(key), key + |bytes|)
  }

  datatype Progress = More | Done | Wrong | Broken

  /** What is known after a round that began with n bytes. */
  ghost predicate Stepped(root: Node, key: nat, count: nat, n: nat, all: seq<int>, res: Lookup, place: Option<seq<nat>>,
                          state: Progress) {
    match state
    case More => n < |all| < count && OnTheWay(root, place, res, key, all)
    case Done => IsRead(FlatNode(root), key, count, all) && !Wide(FlatNode(root), key, count)
    case Wrong => |all| <= count && Wide(FlatNode(root), key, count)
    case Broken => |all| <= count && SoFar(FlatNode(root), key, all)
  }

  /** Where the loop is: what was read so far, and the hint. */
  ghost predicate Going(root: Node, key: nat, count: nat, buff: nat, bytes: seq<int>, res: Lookup,
                        place: Option<seq<nat>>, state: Progress, offset: nat, specific: nat, left: nat,
                        trouble: nat -> Trouble) {
    match state
    case More =>
      && |bytes| < count && OnTheWay(root, place, res, key, bytes)
      && offset == key + |bytes| && specific == buff + |bytes|
      && Fair(FlatNode(root), key, count, |bytes|, left, trouble)
    case Done =>
      && IsRead(FlatNode(root), key, count, bytes) && !Wide(FlatNode(root), key, count)
      && Fair(FlatNode(root), key, count, |bytes|, left, trouble)
    case Wrong => Wide(FlatNode(root), key, count)
    case Broken =>
      && SoFar(FlatNode(root), key, bytes) && key <= offset <= key + |bytes|
      && var done := offset - key;
      && specific == buff + done && left == count - done && trouble(done) == Cause(Failed(bytes, done))
      && Smooth(FlatNode(root), key, count, done, trouble)
  }

  /** One round of the loop. */
  method Round(root: Node, hint: Hint, key: nat, count: nat, buff: nat, bytes: seq<int>, res: Lookup,
               place: Option<seq<nat>>, trouble: nat -> Trouble)
    returns (all: seq<int>, res': Lookup, place': Option<seq<nat>>, state: Progress)
    requires Filled(root) && Ordered(FlatNode(root))
    requires Going(root, key, count, buff, bytes, res, place, More, hint.offset, hint.specific, hint.count, trouble)
    modifies hint
    ensures |bytes| <= |all| <= count && (state == More ==> |bytes| < |all|)
    ensures Going(root, key, count, buff, all, res', place', state, hint.offset, hint.specific, hint.count, trouble)
  {
    all, res', place', state := bytes, res, place, Done;
    if place.None? {
      NothingBehind(root, key, count, bytes, res);
    } else if res == Present && trouble(|bytes|) == Unread {
      hint.count, state := count - |bytes|, Broken;
    } else {
      all, res', place', state := Take(root, hint, key, count, bytes, res, place.value, trouble);
    }
  }

  /** A round in which the data can be read: the hint's count is set before an
      item is read, offset and buffer go on behind what was read unless more is
      wanted and the next place cannot be reached. */
  method Take(root: Node, hint: Hint, key: nat, count: nat, bytes: seq<int>, res: Lookup, p: seq<nat>,
              trouble: nat -> Trouble)
    returns (all: seq<int>, res': Lookup, place': Option<seq<nat>>, state: Progress)
    requires Filled(root) && Ordered(FlatNode(root)) && |bytes| < count && OnTheWay(root, Some(p), res, key, bytes)
    requires Fair(FlatNode(root), key, count, |bytes|, hint.count, trouble) && hint.offset == key + |bytes|
    requires res == Present ==> trouble(|bytes|) != Unread
    modifies hint
    ensures |bytes| <= |all| && Stepped(root, key, count, |bytes|, all, res', place', state)
    ensures state != Broken ==> hint.offset == key + |all| && hint.specific == old(hint.specific) + |all| - |bytes|
    ensures state in {More, Done} ==> Fair(FlatNode(root), key, count, |all|, hint.count, trouble)
    ensures state == Broken ==> trouble(|bytes|) == Stuck && |bytes| < |all| && hint.count == count - |bytes|
    ensures state == Broken ==> hint.offset == old(hint.offset) && hint.specific == old(hint.specific)
  {
    ghost var left := hint.count;
    all, res', place', state := SafeStep(root, key, count, bytes, res, p, left, trouble);
    if res == Present { hint.count := count - |bytes|; }
    if state != Broken {
      var read := |all| - |bytes|;
      hint.offset, hint.specific := hint.offset + read, hint.specific + read;
    }
  }

  /** What it reads, and whether it can go on. */
  method SafeStep(root: Node, key: nat, count: nat, bytes: seq<int>, res: Lookup, p: seq<nat>, ghost left: int,
                  trouble: nat -> Trouble)
    returns (all: seq<int>, res': Lookup, place': Option<seq<nat>>, state: Progress)
    requires Filled(root) && Ordered(FlatNode(root)) && |bytes| < count && OnTheWay(root, Some(p), res, key, bytes)
    requires Fair(FlatNode(root), key, count, |bytes|, left, trouble)
    requires res == Present ==> trouble(|bytes|) != Unread
    ensures |bytes| <= |all| && Stepped(root, key, count, |bytes|, all, res', place', state)
    ensures state in {More, Done} ==>
      Fair(FlatNode(root), key, count, |all|, if res == Present then count - |bytes| else left, trouble)
    ensures state == Broken ==> res == Present && trouble(|bytes|) == Stuck && |bytes| < |all|
  {
    all, res', place', state := ReadStep(root, key, count, bytes, res, p);
    if res == Present && state == More && trouble(|bytes|) == Stuck {
      state := Broken;
    } else if state != Wrong {
      FairAfter(FlatNode(root), key, count, |bytes|, |all|, Rank(root, p), res, left, trouble);
    }
  }

  /** What it reads. */
  method ReadStep(root: Node, key: nat, count: nat, bytes: seq<int>, res: Lookup, p: seq<nat>)
    returns (all: seq<int>, res': Lookup, place': Option<seq<nat>>, state: Progress)
    requires Filled(root) && Ordered(FlatNode(root)) && |bytes| < count && OnTheWay(root, Some(p), res, key, bytes)
    ensures |bytes| <= |all| && (res == Present && state != Wrong ==> |bytes| < |all|)
    ensures state == Done ==> |all| == |bytes| || |all| == count
    ensures state != Broken && |all| <= count && (state == More ==> |all| < count)
    ensures Stepped(root, key, count, |bytes|, all, res', place', state)
    ensures Stretch(FlatNode(root), Rank(root, p), res, ObjectOf(key), key + |bytes|, |all| - |bytes|)
  {
    ghost var (flat, cur) := (FlatNode(root), key + |bytes|);
    var chunk;
    chunk, res', place' := ReadChunk(root, p, res, key, count - |bytes|, bytes);
    if |chunk| >= WIDE {
      assert WideAt(flat, ObjectOf(key), cur, Rank(root, p));
      all, state := bytes, Wrong;
      return;
    }
    AfterChunk(root, key, count, bytes, chunk, Rank(root, p), place', res');
    all := bytes + chunk;
    state := if chunk == [] || |bytes| + |chunk| == count then Done else More;
  }

  lemma AfterChunk(root: Node, key: nat, count: nat, bytes: seq<int>, chunk: seq<int>, rank: nat,
                   place: Option<seq<nat>>, res: Lookup)
    requires Ordered(FlatNode(root)) && Narrow(FlatNode(root), key, key + |bytes|)
    requires SoFar(FlatNode(root), key, bytes + chunk) && |bytes| + |chunk| <= count && |chunk| < WIDE
    requires chunk == [] ==> EndsBy(FlatNode(root), ObjectOf(key), key + |bytes|)
    requires 0 < |chunk| && |bytes| + |chunk| < count ==>
      && rank < |FlatNode(root)| && AtEdge(FlatNode(root), rank, key + |bytes| + |chunk|)
      && AtPlace(root, place, res, ObjectOf(key), key + |bytes| + |chunk|)
    ensures if chunk == [] || |bytes| + |chunk| == count
            then IsRead(FlatNode(root), key, count, bytes + chunk) && !Wide(FlatNode(root), key, count)
            else OnTheWay(root, place, res, key, bytes + chunk)
  {
    StepTaken(FlatNode(root), key, key + |bytes|, |chunk|, count, rank);
    StepRead(FlatNode(root), key, count, bytes, chunk);
  }

  lemma NothingBehind(root: Node, key: nat, count: nat, bytes: seq<int>, res: Lookup)
    requires Ordered(FlatNode(root)) && |bytes| < count && OnTheWay(root, None, res, key, bytes)
    ensures IsRead(FlatNode(root), key, count, bytes) && !Wide(FlatNode(root), key, count)
  {
    ghost var (flat, cur) := (FlatNode(root), key + |bytes|);
    ObjectMonotone(key, cur);
    NothingLeft(flat, |flat|, ObjectOf(key), cur);
    NarrowEnd(flat, key, cur, count);
  }

  lemma StepRead(flat: seq<Item>, key: nat, count: nat, bytes: seq<int>, chunk: seq<int>)
    requires SoFar(flat, key, bytes + chunk) && |bytes| + |chunk| <= count
    requires chunk == [] ==> EndsBy(flat, ObjectOf(key), key + |bytes|)
    ensures chunk == [] || |bytes| + |chunk| == count ==> IsRead(flat, key, count, bytes + chunk)
    ensures |bytes + chunk| == |bytes| + |chunk|
  {
  }

  lemma StepTaken(flat: seq<Item>, key: nat, cur: nat, n: nat, count: nat, rank: nat)
    requires Ordered(flat) && key <= cur && cur + n <= key + count && Narrow(flat, key, cur) && n < WIDE
    requires n == 0 ==> EndsBy(flat, ObjectOf(key), cur)
    requires 0 < n && cur + n < key + count ==> rank < |flat| && AtEdge(flat, rank, cur + n)
    ensures n == 0 || cur + n == key + count ==> !Wide(flat, key, count)
    ensures 0 < n && cur + n < key + count ==> Narrow(flat, key, cur + n)
  {
    NarrowStep(flat, key, cur, n);
    if n == 0 { NarrowEnd(flat, key, cur, count); }
  }
}

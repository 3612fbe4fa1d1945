/** The in-memory node cache of a reiser4 tree, as one value.

    The physical part is what libreiser4 keeps: the live node objects, the
    hash table from block number to node, the superblock fields, the block
    allocator and the device.  The logical part is specification only: a tree
    of named nodes that never changes when a node merely moves, is written,
    is loaded or is unloaded.  `Inv` ties the two together. */
module CacheState {
  import opened Common

  type Id = nat    // identity of a live node object (a pointer in the source)
  type Name = nat  // identity of a tree node that survives unloading
  type Blk = nat

  const FAKE_VAL: nat := 0xf000_0000_0000_0000
  const FAKE_MASK: nat := 0x8000_0000_0000_0000
  const FAKE_ROOM: nat := 0x1000_0000_0000_0000  // numbers below the four fixed bits
  const LEAF_LEVEL: nat := 1

  /** `gen | FAKE_VAL` on 64-bit words: the four top bits are set, the others
      are those of gen. */
  function FakeBlk(gen: nat): (b: Blk)
    ensures b / FAKE_ROOM == 15 && b % FAKE_ROOM == gen % FAKE_ROOM
  {
    FAKE_VAL + gen % FAKE_ROOM
  }

  /** `blk & FAKE_MASK` on 64-bit words. */
  predicate FakeAck(blk: Blk): (r: bool)
    ensures blk < 0x1_0000_0000_0000_0000 ==> (r <==> blk >= 0x8000_0000_0000_0000)
  {
    blk / FAKE_MASK % 2 == 1
  }

  datatype Item = Branch(down: Blk) | Body(data: int)
  datatype Place = NoPlace | Place(node: Id, pos: nat)
  datatype Node = Node(blk: Blk, level: nat, items: seq<Item>, p: Place, dirty: bool, counter: int)
  datatype Image = Image(level: nat, items: seq<Item>)

  datatype LItem = LBranch(name: Name) | LBody(data: int)
  datatype LNode = LNode(level: nat, items: seq<LItem>)
  datatype Slot = Slot(parent: Name, pos: nat)

  /** The logical tree: named nodes, the slot each one hangs in, and its top. */
  datatype Shape = Shape(nodes: map<Name, LNode>, up: map<Name, Slot>, top: Name)

  datatype State = State(
    mem: map<Id, Node>, nodes: map<Blk, Id>, root: Option<Id>,
    rootBlk: Blk, height: nat, free: nat,
    used: set<Blk>, len: nat, disk: map<Blk, Image>, fakeGen: nat,
    pins: map<Id, nat>, shape: Shape, loc: map<Name, Blk>, names: map<Id, Name>,
    lost: nat, writes: seq<(Blk, Image)>)

  // ---------------------------------------------------------------- logical

  ghost predicate HasLink(sh: Shape, x: Name, i: nat, y: Name) {
    x in sh.nodes && i < |sh.nodes[x].items| && sh.nodes[x].items[i] == LBranch(y)
  }

  /** y hangs in the slot recorded for it. */
  ghost predicate Hangs(sh: Shape, y: Name) {
    y in sh.up && HasLink(sh, sh.up[y].parent, sh.up[y].pos, y)
  }

  /** The link in slot i of x is the only link to y and goes one level down. */
  ghost predicate OnlyLink(sh: Shape, x: Name, i: nat, y: Name) {
    && x in sh.nodes && y in sh.nodes && y in sh.up && sh.up[y] == Slot(x, i)
    && sh.nodes[y].level + 1 == sh.nodes[x].level
  }

  /** Every link goes one level down and is the only link to its target; every
      node but the top hangs in exactly one slot. */
  ghost predicate WellShaped(sh: Shape) {
    && sh.top in sh.nodes
    && sh.up.Keys == sh.nodes.Keys - {sh.top}
    && (forall y {:trigger Hangs(sh, y)} :: y in sh.up ==> Hangs(sh, y))
    && (forall x, i, y {:trigger HasLink(sh, x, i, y)} :: HasLink(sh, x, i, y) ==> OnlyLink(sh, x, i, y))
  }

  /** The k-th ancestor of x. */
  ghost function Ancestor(sh: Shape, x: Name, k: nat): Option<Name>
    decreases k
  {
    if k == 0 then Some(x)
    else if x in sh.up then Ancestor(sh, sh.up[x].parent, k - 1)
    else None
  }

  /** x is y or lies in the subtree of y. */
  ghost predicate Below(sh: Shape, x: Name, y: Name)
  {
    && x in sh.nodes && y in sh.nodes
    && sh.nodes[x].level <= sh.nodes[y].level
    && Ancestor(sh, x, sh.nodes[y].level - sh.nodes[x].level) == Some(y)
  }

  // --------------------------------------------------------------- physical

  /** A logical item as it is stored when nodes sit at the blocks `loc`. */
  ghost function Phys1(it: LItem, loc: map<Name, Blk>): Item {
    match it
    case LBody(d) => Body(d)
    case LBranch(y) => if y in loc then Branch(loc[y]) else Body(0)
  }

  ghost function Phys(items: seq<LItem>, loc: map<Name, Blk>): seq<Item> {
    seq(|items|, i requires 0 <= i < |items| => Phys1(items[i], loc))
  }

  ghost function ImageOf(sh: Shape, x: Name, loc: map<Name, Blk>): Image
    requires x in sh.nodes
  {
    Image(sh.nodes[x].level, Phys(sh.nodes[x].items, loc))
  }

  ghost predicate Connected(s: State, x: Name) { x in s.names.Values }

  /** The connected children of node n: those that hold a lock on it. */
  ghost function Children(s: State, n: Id): set<Id> {
    set c | c in s.names && c in s.mem && s.mem[c].p.Place? && s.mem[c].p.node == n
  }

  ghost predicate RealImage(im: Image) {
    forall i :: 0 <= i < |im.items| && im.items[i].Branch? ==> !FakeAck(im.items[i].down)
  }

  /** The entry of block b leads to a connected node at that block. */
  ghost predicate EntryOk(s: State, b: Blk) {
    b in s.nodes && s.nodes[b] in s.names && s.nodes[b] in s.mem && s.mem[s.nodes[b]].blk == b
  }

  ghost predicate HashOk(s: State, n: Id) {
    n in s.mem && s.mem[n].blk in s.nodes && s.nodes[s.mem[n].blk] == n
  }

  /** The hash table holds exactly the connected nodes, each under its number. */
  ghost predicate TableOk(s: State) {
    && (forall b {:trigger EntryOk(s, b)} :: b in s.nodes ==> EntryOk(s, b))
    && (forall n {:trigger HashOk(s, n)} :: n in s.names ==> HashOk(s, n))
  }

  ghost predicate SameLoc(s: State, x: Name, y: Name) {
    x in s.loc && y in s.loc && s.loc[x] == s.loc[y]
  }

  ghost predicate LocOk(s: State) {
    && s.loc.Keys == s.shape.nodes.Keys
    && (forall x, y {:trigger SameLoc(s, x, y)} :: SameLoc(s, x, y) ==> x == y)
  }

  /** n carries its logical content under the current block numbers. */
  ghost predicate NodeOk(s: State, n: Id) {
    && n in s.names && n in s.mem && s.names[n] in s.loc && s.names[n] in s.shape.nodes
    && s.mem[n].blk == s.loc[s.names[n]]
    && s.mem[n].level == s.shape.nodes[s.names[n]].level
    && s.mem[n].items == Phys(s.shape.nodes[s.names[n]].items, s.loc)
  }

  ghost predicate MemOk(s: State) {
    forall n {:trigger NodeOk(s, n)} :: n in s.names ==> NodeOk(s, n)
  }

  /** Node x lies on the device under its current number. */
  ghost predicate OnDisk(s: State, x: Name) {
    && x in s.loc && x in s.shape.nodes
    && !FakeAck(s.loc[x])
    && s.loc[x] in s.disk && s.disk[s.loc[x]] == ImageOf(s.shape, x, s.loc)
  }

  /** What is not in memory, or is clean there, is on the device. */
  ghost predicate DiskOk(s: State) {
    && (forall x {:trigger OnDisk(s, x)} :: x in s.shape.nodes && !Connected(s, x) ==> OnDisk(s, x))
    && (forall n {:trigger OnDisk(s, s.names[n])} :: n in s.names && n in s.mem && !s.mem[n].dirty ==>
         OnDisk(s, s.names[n]))
  }

  /** A connected node other than the root knows the slot it hangs in, and its
      parent is connected. */
  ghost predicate ParentOk(s: State, n: Id) {
    && n in s.names && n in s.mem
    && if s.names[n] == s.shape.top then s.mem[n].p == NoPlace && s.root == Some(n)
       else
         && s.mem[n].p.Place? && s.mem[n].p.node in s.names
         && s.names[n] in s.shape.up
         && s.shape.up[s.names[n]] == Slot(s.names[s.mem[n].p.node], s.mem[n].p.pos)
  }

  ghost predicate ParentsOk(s: State) {
    forall n {:trigger ParentOk(s, n)} :: n in s.names ==> ParentOk(s, n)
  }

  /** The superblock holds the number of the root and the height of the tree. */
  ghost predicate RootNamed(s: State) {
    && s.shape.top in s.loc && s.rootBlk == s.loc[s.shape.top]
    && s.shape.top in s.shape.nodes && s.height == s.shape.nodes[s.shape.top].level
  }

  ghost predicate RootOk(s: State) {
    && (s.root.Some? ==> s.root.value in s.names && s.names[s.root.value] == s.shape.top)
    && s.shape.top in s.loc
    && (s.rootBlk == INVAL_BLK || RootNamed(s))
  }

  /** The lock counter of n is exact: one lock per connected child plus pins. */
  ghost predicate LockOk(s: State, n: Id) {
    n in s.mem && n in s.pins && s.mem[n].counter == |Children(s, n)| + s.pins[n]
  }

  ghost predicate LocksOk(s: State) {
    && s.pins.Keys == s.mem.Keys
    && (forall n {:trigger LockOk(s, n)} :: n in s.mem ==> LockOk(s, n))
  }

  ghost function Fakes(s: State): set<Id> {
    set n | n in s.mem && FakeAck(s.mem[n].blk)
  }

  /** A block number a live node may carry. */
  ghost predicate GoodBlk(s: State, b: Blk) {
    if FakeAck(b) then FAKE_VAL < b <= FAKE_VAL + s.fakeGen
    else b in s.used
  }

  ghost predicate SameBlk(s: State, n: Id, m: Id) {
    n in s.mem && m in s.mem && s.mem[n].blk == s.mem[m].blk
  }

  /** A live node that is not connected shares no block with the tree. */
  ghost predicate Apart(s: State, n: Id, x: Name) {
    n in s.mem && n !in s.names && x in s.loc ==> s.mem[n].blk != s.loc[x]
  }

  /** Live nodes and tree nodes own their blocks. */
  ghost predicate BlocksOk(s: State) {
    && s.fakeGen < FAKE_ROOM - 1
    && s.len <= FAKE_MASK
    && (forall b :: b in s.used ==> b < s.len)
    && (forall n {:trigger GoodBlk(s, s.mem[n].blk)} :: n in s.mem ==> GoodBlk(s, s.mem[n].blk))
    && (forall n, m {:trigger SameBlk(s, n, m)} :: SameBlk(s, n, m) ==> n == m)
    && (forall x {:trigger GoodBlk(s, s.loc[x])} :: x in s.loc ==> GoodBlk(s, s.loc[x]))
    && (forall n, x {:trigger Apart(s, n, x)} :: Apart(s, n, x))
  }

  /** Space is conserved: the superblock's free count, the nodes that still
      have to get a block and the blocks lost to failed creations together are
      the clear bits of the allocator. */
  ghost predicate SpaceOk(s: State) {
    s.free + |Fakes(s)| + s.lost + |s.used| == s.len
  }

  ghost predicate WritesOk(s: State) {
    forall k :: 0 <= k < |s.writes| ==> !FakeAck(s.writes[k].0) && RealImage(s.writes[k].1)
  }

  ghost predicate Inv(s: State) {
    && WellShaped(s.shape)
    && TableOk(s) && LocOk(s) && MemOk(s) && DiskOk(s)
    && ParentsOk(s) && RootOk(s) && LocksOk(s)
    && BlocksOk(s) && SpaceOk(s) && WritesOk(s)
  }

  // ------------------------------------------------------------ shape facts

  lemma {:induction false} AncestorLevel(sh: Shape, x: Name, k: nat)
    requires WellShaped(sh) && x in sh.nodes
    requires Ancestor(sh, x, k).Some?
    ensures Ancestor(sh, x, k).value in sh.nodes
    ensures sh.nodes[Ancestor(sh, x, k).value].level == sh.nodes[x].level + k
    decreases k
  {
    if k > 0 {
      var s := sh.up[x];
      assert Hangs(sh, x);
      AncestorLevel(sh, s.parent, k - 1);
    }
  }

  lemma {:induction false} AncestorAdd(sh: Shape, x: Name, j: nat, k: nat)
    requires Ancestor(sh, x, j).Some?
    ensures Ancestor(sh, x, j + k) == Ancestor(sh, Ancestor(sh, x, j).value, k)
    decreases j
  {
    if j > 0 { AncestorAdd(sh, sh.up[x].parent, j - 1, k); }
  }

  /** Two subtrees rooted on one level are equal or disjoint. */
  lemma BelowUnique(sh: Shape, x: Name, y: Name, z: Name)
    requires Below(sh, x, y) && Below(sh, x, z)
    requires sh.nodes[y].level == sh.nodes[z].level
    ensures y == z
  {
  }

  lemma BelowTrans(sh: Shape, x: Name, y: Name, z: Name)
    requires WellShaped(sh) && Below(sh, x, y) && Below(sh, y, z)
    ensures Below(sh, x, z)
  {
    AncestorAdd(sh, x, sh.nodes[y].level - sh.nodes[x].level, sh.nodes[z].level - sh.nodes[y].level);
  }

  /** A child lies below its parent. */
  lemma BelowChild(sh: Shape, y: Name, i: nat, c: Name)
    requires WellShaped(sh) && HasLink(sh, y, i, c)
    ensures Below(sh, c, y) && c != y && !Below(sh, y, c)
  {
    assert OnlyLink(sh, y, i, c);
    assert Ancestor(sh, c, 1) == Ancestor(sh, y, 0);
  }

  /** Whatever lies strictly below y lies below one child of y. */
  lemma BelowSplit(sh: Shape, x: Name, y: Name) returns (i: nat, c: Name)
    requires WellShaped(sh) && Below(sh, x, y) && x != y
    ensures HasLink(sh, y, i, c) && Below(sh, x, c)
  {
    var k := sh.nodes[y].level - sh.nodes[x].level;
    if k == 0 { assert false; }
    AncestorPrefix(sh, x, k - 1, 1);
    c := Ancestor(sh, x, k - 1).value;
    AncestorLevel(sh, x, k - 1);
    AncestorAdd(sh, x, k - 1, 1);
    assert Ancestor(sh, c, 1) == Some(y);
    assert Ancestor(sh, sh.up[c].parent, 0) == Some(sh.up[c].parent);
    assert Hangs(sh, c);
    i := sh.up[c].pos;
  }

  lemma {:induction false} AncestorPrefix(sh: Shape, x: Name, j: nat, k: nat)
    requires Ancestor(sh, x, j + k).Some?
    ensures Ancestor(sh, x, j).Some?
    decreases j
  {
    if j > 0 { AncestorPrefix(sh, sh.up[x].parent, j - 1, k); }
  }

  ghost function Higher(sh: Shape, level: nat): set<Name> {
    set z | z in sh.nodes && sh.nodes[z].level > level
  }

  /** Every node of a well-shaped tree lies below its top. */
  lemma {:induction false} BelowTop(sh: Shape, x: Name)
    requires WellShaped(sh) && x in sh.nodes
    ensures Below(sh, x, sh.top)
    decreases |Higher(sh, sh.nodes[x].level)|
  {
    if x != sh.top {
      assert Hangs(sh, x);
      var p := sh.up[x].parent;
      BelowChild(sh, p, sh.up[x].pos, x);
      assert OnlyLink(sh, p, sh.up[x].pos, x);
      var hx, hp := Higher(sh, sh.nodes[x].level), Higher(sh, sh.nodes[p].level);
      assert hp <= hx - {p} && p in hx;
      SubsetSize(hp, hx - {p});
      BelowTop(sh, p);
      BelowTrans(sh, x, p, sh.top);
    }
  }

  lemma {:induction false} SubsetSize<T>(a: set<T>, b: set<T>)
    requires a <= b
    ensures |a| <= |b|
  {
    if a != {} {
      var x :| x in a;
      SubsetSize(a - {x}, b - {x});
    }
  }

  // ------------------------------------------------------ in-order content

  /** The data of the subtree of x from slot i on, in key order. */
  ghost function Content(sh: Shape, x: Name, i: nat): seq<int>
    decreases if x in sh.nodes then sh.nodes[x].level else 0, if x in sh.nodes then |sh.nodes[x].items| - i else 0
  {
    if x !in sh.nodes || i >= |sh.nodes[x].items| then []
    else
      (match sh.nodes[x].items[i]
       case LBody(d) => [d]
       case LBranch(y) =>
         if y in sh.nodes && sh.nodes[y].level < sh.nodes[x].level then Content(sh, y, 0) else [])
      + Content(sh, x, i + 1)
  }

  /** The same, read from the device alone. */
  ghost function DiskContent(disk: map<Blk, Image>, b: Blk, i: nat): seq<int>
    decreases if b in disk then disk[b].level else 0, if b in disk then |disk[b].items| - i else 0
  {
    if b !in disk || i >= |disk[b].items| then []
    else
      (match disk[b].items[i]
       case Body(d) => [d]
       case Branch(c) =>
         if c in disk && disk[c].level < disk[b].level then DiskContent(disk, c, 0) else [])
      + DiskContent(disk, b, i + 1)
  }

  /** When every node lies on the device, reading the device from the block of
      x yields the content of x. */
  lemma {:induction false} ReadBack(s: State, x: Name, i: nat)
    requires WellShaped(s.shape) && LocOk(s)
    requires forall z :: z in s.shape.nodes ==> OnDisk(s, z)
    requires x in s.shape.nodes
    ensures x in s.loc && DiskContent(s.disk, s.loc[x], i) == Content(s.shape, x, i)
    decreases s.shape.nodes[x].level, |s.shape.nodes[x].items| - i
  {
    assert OnDisk(s, x);
    var its := s.shape.nodes[x].items;
    if i < |its| {
      ReadBack(s, x, i + 1);
      assert s.disk[s.loc[x]].items[i] == Phys1(its[i], s.loc);
      if its[i].LBranch? {
        var y := its[i].name;
        assert HasLink(s.shape, x, i, y);
        assert OnlyLink(s.shape, x, i, y);
        assert OnDisk(s, y);
        ReadBack(s, y, 0);
      }
    }
  }
}

/** The elementary steps of the node cache as functions on its state, and the
    proof that each one keeps `Inv`. */
module CacheSteps {
  import opened Common
  import opened CacheState

  // -------------------------------------------------- delayed allocation

  /** Node n, so far under a fake number, moves to the real block b: the link
      in its parent is patched, the hash table entry is moved, and the root
      number in the superblock follows if n is the root. */
  ghost function Adjusted(s: State, n: Id, b: Blk): State
    requires n in s.names && n in s.mem
    requires s.mem[n].p.Place? ==> s.mem[n].p.node in s.mem && s.mem[n].p.pos < |s.mem[s.mem[n].p.node].items|
  {
    var f := s.mem[n].blk;
    var patched := if s.mem[n].p.Place? then Patch(s.mem, s.mem[n].p, b) else s.mem;
    s.(mem := patched[n := s.mem[n].(blk := b, dirty := true)],
       nodes := (s.nodes - {f})[b := n],
       rootBlk := if s.rootBlk == f then b else s.rootBlk,
       used := s.used + {b},
       loc := s.loc[s.names[n] := b])
  }

  /** reiser4_item_update_link: the branch item at place p points to block b. */
  function Patch(mem: map<Id, Node>, p: Place, b: Blk): map<Id, Node>
    requires p.Place? && p.node in mem && p.pos < |mem[p.node].items|
  {
    var m := mem[p.node];
    mem[p.node := m.(items := m.items[p.pos := Branch(b)], dirty := true)]
  }

  ghost predicate CanAdjust(s: State, n: Id, b: Blk) {
    && Inv(s) && n in s.names && n in s.mem && FakeAck(s.mem[n].blk)
    && b < s.len && b !in s.used
  }

  /** The place stored in a connected node names a branch item of a connected
      parent. */
  ghost predicate LinkedBy(s: State, n: Id, p: Place) {
    p.Place? ==>
      && p.node in s.names && p.node in s.mem && p.node != n
      && n in s.names && n in s.mem
      && p.pos < |s.mem[p.node].items|
      && s.mem[p.node].items[p.pos] == Branch(s.mem[n].blk)
      && HasLink(s.shape, s.names[p.node], p.pos, s.names[n])
  }

  lemma PlaceIsLink(s: State, n: Id)
    requires WellShaped(s.shape) && MemOk(s) && ParentsOk(s)
    requires n in s.names && n in s.mem
    ensures LinkedBy(s, n, s.mem[n].p)
  {
    var x := s.names[n];
    assert ParentOk(s, n);
    if s.mem[n].p.Place? {
      assert Hangs(s.shape, x);
      assert NodeOk(s, s.mem[n].p.node) && NodeOk(s, n);
    }
  }

  lemma RealBelowLen(s: State, b: Blk)
    requires s.len <= FAKE_MASK && b < s.len
    ensures !FakeAck(b)
  {
  }

  /** Moving y to a new block changes the stored form of exactly the items
      that link to y. */
  lemma PhysMoved(items: seq<LItem>, loc: map<Name, Blk>, y: Name, b: Blk)
    requires forall i :: 0 <= i < |items| ==> items[i] != LBranch(y)
    ensures Phys(items, loc[y := b]) == Phys(items, loc)
  {
  }

  lemma AdjustNode(s: State, n: Id, b: Blk, m: Id)
    requires WellShaped(s.shape)
    requires n in s.names && n in s.mem && LinkedBy(s, n, s.mem[n].p) && ParentOk(s, n)
    requires NodeOk(s, m) && (m != n ==> s.names[m] != s.names[n])
    requires forall k :: k in s.names && s.names[k] == s.names[m] ==> k == m
    ensures NodeOk(Adjusted(s, n, b), m)
  {
    var t := Adjusted(s, n, b);
    var y := s.names[n];
    var its := s.shape.nodes[s.names[m]].items;
    forall i | 0 <= i < |its|
      ensures t.mem[m].items[i] == Phys1(its[i], t.loc)
    {
      assert s.mem[m].items[i] == Phys1(its[i], s.loc);
      if its[i] == LBranch(y) {
        assert HasLink(s.shape, s.names[m], i, y);
        assert OnlyLink(s.shape, s.names[m], i, y);
      }
    }
    assert t.mem[m].items == Phys(its, t.loc);
  }

  /** A node without a link to n keeps its stored form when n moves. */
  lemma AdjustOnDisk(s: State, n: Id, b: Blk, x: Name)
    requires WellShaped(s.shape)
    requires n in s.names && n in s.mem && LinkedBy(s, n, s.mem[n].p)
    requires OnDisk(s, x) && x != s.names[n]
    requires s.names[n] in s.shape.up ==> s.shape.up[s.names[n]].parent != x
    ensures OnDisk(Adjusted(s, n, b), x)
  {
    var its := s.shape.nodes[x].items;
    var y := s.names[n];
    forall i | 0 <= i < |its| ensures its[i] != LBranch(y) {
      assert HasLink(s.shape, x, i, y) ==> OnlyLink(s.shape, x, i, y);
    }
    PhysMoved(its, s.loc, y, b);
  }

  lemma SameName(s: State, n: Id, m: Id)
    requires MemOk(s) && BlocksOk(s) && n in s.names && m in s.names && s.names[n] == s.names[m]
    ensures n == m
  {
    assert NodeOk(s, n) && NodeOk(s, m);
    assert SameBlk(s, n, m);
  }

  lemma AdjustMem(s: State, n: Id, b: Blk)
    requires WellShaped(s.shape) && MemOk(s) && ParentsOk(s) && BlocksOk(s)
    requires n in s.names && n in s.mem && LinkedBy(s, n, s.mem[n].p)
    ensures MemOk(Adjusted(s, n, b))
  {
    var t := Adjusted(s, n, b);
    forall m | m in t.names ensures NodeOk(t, m) {
      assert NodeOk(s, m) && ParentOk(s, n);
      forall k | k in s.names && s.names[k] == s.names[m] ensures k == m { SameName(s, k, m); }
      AdjustNode(s, n, b, m);
    }
  }

  lemma AdjustDisk(s: State, n: Id, b: Blk)
    requires WellShaped(s.shape) && MemOk(s) && ParentsOk(s) && DiskOk(s) && BlocksOk(s)
    requires n in s.names && n in s.mem && LinkedBy(s, n, s.mem[n].p)
    ensures DiskOk(Adjusted(s, n, b))
  {
    var t := Adjusted(s, n, b);
    var y := s.names[n];
    assert ParentOk(s, n);
    forall x | x in t.shape.nodes && !Connected(t, x) ensures OnDisk(t, x) {
      assert OnDisk(s, x);
      assert x != y;
      if s.mem[n].p.Place? { assert s.names[s.mem[n].p.node] in s.names.Values; }
      else { assert y !in s.shape.up; }
      AdjustOnDisk(s, n, b, x);
    }
    forall m | m in t.names && m in t.mem && !t.mem[m].dirty ensures OnDisk(t, t.names[m]) {
      assert m != n && OnDisk(s, s.names[m]);
      if s.names[m] == y { SameName(s, m, n); }
      if s.mem[n].p.Place? && s.names[m] == s.names[s.mem[n].p.node] { SameName(s, m, s.mem[n].p.node); }
      if !s.mem[n].p.Place? { assert y !in s.shape.up; }
      AdjustOnDisk(s, n, b, s.names[m]);
    }
  }

  /** What `Adjusted` does to single nodes. */
  lemma AdjustFields(s: State, n: Id, b: Blk, m: Id)
    requires n in s.names && n in s.mem && LinkedBy(s, n, s.mem[n].p) && m in s.mem
    ensures Adjusted(s, n, b).mem.Keys == s.mem.Keys
    ensures var k := Adjusted(s, n, b).mem[m];
      k.p == s.mem[m].p && k.counter == s.mem[m].counter && k.blk == if m == n then b else s.mem[m].blk
  {
  }

  lemma AdjustTable(s: State, n: Id, b: Blk)
    requires TableOk(s) && BlocksOk(s) && ParentsOk(s)
    requires n in s.names && n in s.mem && LinkedBy(s, n, s.mem[n].p)
    requires FakeAck(s.mem[n].blk) && b < s.len && b !in s.used
    ensures TableOk(Adjusted(s, n, b)) && ParentsOk(Adjusted(s, n, b))
  {
    var t := Adjusted(s, n, b);
    var f := s.mem[n].blk;
    RealBelowLen(s, b);
    forall m | m in t.names ensures HashOk(t, m) && ParentOk(t, m) {
      assert HashOk(s, m) && ParentOk(s, m);
      AdjustFields(s, n, b, m);
      assert GoodBlk(s, s.mem[m].blk);
      assert SameBlk(s, m, n) ==> m == n;
    }
    forall c | c in t.nodes ensures EntryOk(t, c) {
      assert HashOk(s, n);
      if c != b { assert EntryOk(s, c); AdjustFields(s, n, b, s.nodes[c]); }
      else { AdjustFields(s, n, b, n); }
    }
  }

  lemma AdjustRoot(s: State, n: Id, b: Blk)
    requires MemOk(s) && LocOk(s) && BlocksOk(s) && RootOk(s)
    requires n in s.names && n in s.mem && LinkedBy(s, n, s.mem[n].p)
    requires FakeAck(s.mem[n].blk) && b < s.len && b !in s.used
    ensures LocOk(Adjusted(s, n, b)) && RootOk(Adjusted(s, n, b))
    ensures RootNamed(s) ==> RootNamed(Adjusted(s, n, b))
    ensures s.rootBlk == INVAL_BLK ==> Adjusted(s, n, b).rootBlk == INVAL_BLK
  {
    var t := Adjusted(s, n, b);
    assert NodeOk(s, n);
    assert GoodBlk(s, s.mem[n].blk);
    RealBelowLen(s, b);
    forall x | x in s.loc ensures s.loc[x] != b { assert GoodBlk(s, s.loc[x]); }
    forall x, y | SameLoc(t, x, y) ensures x == y {
      if x != s.names[n] && y != s.names[n] { assert SameLoc(s, x, y); }
    }
    if s.rootBlk == s.mem[n].blk && s.rootBlk == s.loc[s.shape.top] {
      assert SameLoc(s, s.names[n], s.shape.top);
    }
  }

  lemma SameChildren(s: State, t: State, n: Id)
    requires s.names == t.names && s.mem.Keys == t.mem.Keys
    requires forall c :: c in s.names && c in s.mem ==> t.mem[c].p == s.mem[c].p
    ensures Children(s, n) == Children(t, n)
  {
  }

  /** Counters stay exact when they change exactly as the pins do. */
  lemma SameLocks(s: State, t: State)
    requires LocksOk(s)
    requires s.names == t.names && s.mem.Keys == t.mem.Keys == t.pins.Keys
    requires forall c :: c in s.mem ==> t.mem[c].p == s.mem[c].p
    requires forall c :: c in s.mem ==> t.mem[c].counter - t.pins[c] == s.mem[c].counter - s.pins[c]
    ensures LocksOk(t)
  {
    forall m | m in t.mem ensures LockOk(t, m) { assert LockOk(s, m); SameChildren(s, t, m); }
  }

  lemma AdjustLocks(s: State, n: Id, b: Blk)
    requires LocksOk(s)
    requires n in s.names && n in s.mem && LinkedBy(s, n, s.mem[n].p)
    ensures LocksOk(Adjusted(s, n, b))
  {
    var t := Adjusted(s, n, b);
    AdjustFields(s, n, b, n);
    forall m | m in t.mem ensures LockOk(t, m) {
      assert LockOk(s, m);
      forall c | c in s.names && c in s.mem ensures t.mem[c].p == s.mem[c].p { AdjustFields(s, n, b, c); }
      SameChildren(s, t, m);
      AdjustFields(s, n, b, m);
    }
  }

  lemma AdjustSpace(s: State, n: Id, b: Blk)
    requires SpaceOk(s) && s.len <= FAKE_MASK
    requires n in s.names && n in s.mem && LinkedBy(s, n, s.mem[n].p)
    requires FakeAck(s.mem[n].blk) && b < s.len && b !in s.used
    ensures SpaceOk(Adjusted(s, n, b))
  {
    var t := Adjusted(s, n, b);
    RealBelowLen(s, b);
    AdjustFields(s, n, b, n);
    forall m | m in s.mem ensures m in Fakes(t) <==> m in Fakes(s) && m != n { AdjustFields(s, n, b, m); }
    assert Fakes(t) == Fakes(s) - {n};
    assert n in Fakes(s);
    assert |t.used| == |s.used| + 1;
  }

  lemma AdjustBlocks(s: State, n: Id, b: Blk)
    requires BlocksOk(s)
    requires n in s.names && n in s.mem && LinkedBy(s, n, s.mem[n].p)
    requires FakeAck(s.mem[n].blk) && b < s.len && b !in s.used
    ensures BlocksOk(Adjusted(s, n, b))
  {
    var t := Adjusted(s, n, b);
    RealBelowLen(s, b);
    AdjustFields(s, n, b, n);
    forall m | m in t.mem ensures GoodBlk(t, t.mem[m].blk) && s.mem[m].blk != b {
      AdjustFields(s, n, b, m);
      assert GoodBlk(s, s.mem[m].blk);
    }
    forall x | x in t.loc ensures GoodBlk(t, t.loc[x]) {
      assert x in s.loc ==> GoodBlk(s, s.loc[x]);
    }
    forall m, k | SameBlk(t, m, k) ensures m == k {
      AdjustFields(s, n, b, m);
      AdjustFields(s, n, b, k);
      if m != n && k != n { assert SameBlk(s, m, k); }
    }
    forall m, x ensures Apart(t, m, x) {
      assert Apart(s, m, x);
      if m in s.mem { AdjustFields(s, n, b, m); assert GoodBlk(s, s.mem[m].blk); }
    }
  }

  /** Giving a node its real block keeps the whole invariant: in particular
      every parent link is the number of its child, and space is conserved. */
  lemma AdjustKeeps(s: State, n: Id, b: Blk)
    requires CanAdjust(s, n, b)
    ensures LinkedBy(s, n, s.mem[n].p)
    ensures Inv(Adjusted(s, n, b))
    ensures RootNamed(s) ==> RootNamed(Adjusted(s, n, b))
    ensures s.rootBlk == INVAL_BLK ==> Adjusted(s, n, b).rootBlk == INVAL_BLK
  {
    PlaceIsLink(s, n);
    AdjustMem(s, n, b);
    AdjustDisk(s, n, b);
    AdjustTable(s, n, b);
    AdjustRoot(s, n, b);
    AdjustLocks(s, n, b);
    AdjustSpace(s, n, b);
    AdjustBlocks(s, n, b);
  }

  /** A set of numbers below len that holds all of them has len elements. */
  lemma {:induction false} FullSet(used: set<Blk>, len: nat)
    requires forall b: Blk :: b in used <==> b < len
    ensures |used| == len
    decreases len
  {
    if len == 0 { assert used == {}; }
    else {
      FullSet(used - {len - 1}, len - 1);
    }
  }

  /** Delayed allocation never runs out of space: while a live node still has
      a fake number, the allocator has a clear bit. */
  lemma AdjustHasSpace(s: State, n: Id)
    requires Inv(s) && n in s.mem && FakeAck(s.mem[n].blk)
    ensures exists b: Blk :: b < s.len && b !in s.used
  {
    assert n in Fakes(s);
    if forall b: Blk :: b < s.len ==> b in s.used {
      FullSet(s.used, s.len);
      assert false;
    }
  }

  // ------------------------------------------------------ lock and unlock

  /** The node that place p lies in, if any, is locked d times more. */
  function Relocked(mem: map<Id, Node>, p: Place, d: int): map<Id, Node> {
    if p.Place? && p.node in mem then mem[p.node := mem[p.node].(counter := mem[p.node].counter + d)] else mem
  }

  ghost function Pinned(s: State, n: Id, d: int): State
    requires n in s.mem && n in s.pins && s.pins[n] + d >= 0
  {
    s.(mem := s.mem[n := s.mem[n].(counter := s.mem[n].counter + d)],
       pins := s.pins[n := s.pins[n] + d])
  }

  lemma PinKeeps(s: State, n: Id, d: int)
    requires Inv(s) && n in s.mem && n in s.pins && s.pins[n] + d >= 0
    ensures Inv(Pinned(s, n, d))
  {
    var t := Pinned(s, n, d);
    SameNodes(s, t);
    SameLocks(s, t);
  }

  /** Counters, pins and dirty flags apart, s and t hold the same cache. */
  ghost predicate SameCache(s: State, t: State) {
    && t.mem.Keys == s.mem.Keys
    && t.(mem := s.mem, pins := s.pins, writes := s.writes, disk := s.disk) == s
    && (forall n {:trigger t.mem[n]} :: n in s.mem ==>
          t.mem[n].(counter := s.mem[n].counter, dirty := s.mem[n].dirty) == s.mem[n])
  }

  /** Those parts of the invariant that do not look at counters or at the
      device carry over. */
  lemma SameNodes(s: State, t: State)
    requires Inv(s) && SameCache(s, t)
    requires s.disk == t.disk && s.writes == t.writes
    requires forall n :: n in s.mem ==> t.mem[n].dirty == s.mem[n].dirty
    ensures TableOk(t) && LocOk(t) && MemOk(t) && DiskOk(t) && ParentsOk(t) && RootOk(t) && BlocksOk(t) && SpaceOk(t) &&
      WritesOk(t)
  {
    SameStatic(s, t);
    forall x | x in t.shape.nodes && !Connected(t, x) ensures OnDisk(t, x) { assert OnDisk(s, x); }
    forall n | n in t.names && n in t.mem && !t.mem[n].dirty
      ensures OnDisk(t, t.names[n])
    {
      assert OnDisk(s, s.names[n]);
    }
  }

  lemma SameStatic(s: State, t: State)
    requires Inv(s) && SameCache(s, t)
    ensures TableOk(t) && LocOk(t) && MemOk(t) && ParentsOk(t) && RootOk(t) && BlocksOk(t) && SpaceOk(t)
  {
    forall b | b in t.nodes ensures EntryOk(t, b) { assert EntryOk(s, b); }
    forall n | n in t.names ensures HashOk(t, n) && NodeOk(t, n) && ParentOk(t, n) {
      assert HashOk(s, n) && NodeOk(s, n) && ParentOk(s, n);
    }
    forall x, y | SameLoc(t, x, y) ensures x == y { assert SameLoc(s, x, y); }
    SameBlocks(s, t);
  }

  lemma SameBlocks(s: State, t: State)
    requires BlocksOk(s) && SpaceOk(s) && SameCache(s, t)
    ensures BlocksOk(t) && SpaceOk(t)
  {
    forall n | n in t.mem ensures GoodBlk(t, t.mem[n].blk) { assert GoodBlk(s, s.mem[n].blk); }
    forall x | x in t.loc ensures GoodBlk(t, t.loc[x]) { assert GoodBlk(s, s.loc[x]); }
    forall n, m | SameBlk(t, n, m) ensures n == m { assert SameBlk(s, n, m); }
    forall n, x ensures Apart(t, n, x) { assert Apart(s, n, x); }
    assert Fakes(t) == Fakes(s);
  }

  // --------------------------------------------------------------- write

  /** reiser4_node_sync on a dirty node. */
  ghost function Written(s: State, n: Id): State
    requires n in s.mem
  {
    var im := Image(s.mem[n].level, s.mem[n].items);
    s.(mem := s.mem[n := s.mem[n].(dirty := false)],
       disk := s.disk[s.mem[n].blk := im],
       writes := s.writes + [(s.mem[n].blk, im)])
  }

  lemma WriteDisk(s: State, n: Id)
    requires DiskOk(s) && LocOk(s) && NodeOk(s, n) && !FakeAck(s.mem[n].blk)
    ensures DiskOk(Written(s, n))
  {
    var t := Written(s, n);
    assert OnDisk(t, s.names[n]);
    forall x | OnDisk(s, x) ensures OnDisk(t, x) { assert SameLoc(s, x, s.names[n]) ==> x == s.names[n]; }
    forall x | x in t.shape.nodes && !Connected(t, x) ensures OnDisk(t, x) { assert OnDisk(s, x); }
    forall m | m in t.names && m in t.mem && !t.mem[m].dirty ensures OnDisk(t, t.names[m]) {
      if m != n { assert OnDisk(s, s.names[m]); }
    }
  }

  /** Writing a connected node whose number and links are real keeps Inv. */
  lemma WriteKeeps(s: State, n: Id)
    requires Inv(s) && n in s.names && n in s.mem
    requires !FakeAck(s.mem[n].blk) && RealImage(Image(s.mem[n].level, s.mem[n].items))
    ensures Inv(Written(s, n))
  {
    var t := Written(s, n);
    SameStatic(s, t);
    assert NodeOk(s, n);
    WriteDisk(s, n);
    SameLocks(s, t);
  }

  // -------------------------------------------------------------- unload

  /** reiser4_tree_disconnect_node and reiser4_node_close: the hash entry and
      the node are gone, the parent is unlocked. */
  ghost function Unloaded(s: State, n: Id): State
    requires n in s.mem
  {
    s.(mem := Relocked(s.mem, s.mem[n].p, -1) - {n}, nodes := s.nodes - {s.mem[n].blk},
       root := if s.root == Some(n) then None else s.root,
       names := s.names - {n}, pins := s.pins - {n})
  }

  ghost predicate CanUnload(s: State, n: Id) {
    && Inv(s) && n in s.names && n in s.mem
    && s.mem[n].counter == 0 && !s.mem[n].dirty
  }

  /** An unlocked node is nobody's parent. */
  lemma NoChildren(s: State, n: Id, m: Id)
    requires LocksOk(s) && n in s.mem && s.mem[n].counter == 0
    requires m in s.names && m in s.mem && s.mem[m].p.Place?
    ensures s.mem[m].p.node != n
    ensures s.pins[n] == 0
  {
    assert LockOk(s, n);
    assert m in Children(s, n) <==> s.mem[m].p.node == n;
  }

  lemma UnloadFields(s: State, n: Id, m: Id)
    requires n in s.mem && m in s.mem && m != n
    ensures m in Unloaded(s, n).mem
    ensures Unloaded(s, n).mem[m].(counter := s.mem[m].counter) == s.mem[m]
    ensures Unloaded(s, n).mem[m].counter ==
      s.mem[m].counter - (if s.mem[n].p.Place? && s.mem[n].p.node == m then 1 else 0)
    ensures Unloaded(s, n).mem.Keys == s.mem.Keys - {n}
  {
  }

  lemma UnloadTable(s: State, n: Id)
    requires CanUnload(s, n)
    ensures TableOk(Unloaded(s, n)) && MemOk(Unloaded(s, n)) && ParentsOk(Unloaded(s, n)) && RootOk(Unloaded(s, n))
  {
    var t := Unloaded(s, n);
    assert HashOk(s, n);
    forall b | b in t.nodes ensures EntryOk(t, b) {
      assert EntryOk(s, b);
      UnloadFields(s, n, s.nodes[b]);
    }
    forall m | m in t.names ensures HashOk(t, m) && NodeOk(t, m) && ParentOk(t, m) {
      assert HashOk(s, m) && NodeOk(s, m) && ParentOk(s, m);
      UnloadFields(s, n, m);
      if s.mem[m].p.Place? { NoChildren(s, n, m); }
    }
    assert ParentOk(s, n);
    if s.root.Some? && s.root != Some(n) { assert ParentOk(s, s.root.value); }
  }

  lemma UnloadDisk(s: State, n: Id)
    requires CanUnload(s, n)
    ensures DiskOk(Unloaded(s, n))
  {
    var t := Unloaded(s, n);
    assert OnDisk(s, s.names[n]);
    forall x | x in t.shape.nodes && !Connected(t, x) ensures OnDisk(t, x) {
      if x != s.names[n] {
        assert forall m :: m in s.names && m != n ==> t.names[m] == s.names[m];
        assert OnDisk(s, x);
      }
    }
    forall m | m in t.names && m in t.mem && !t.mem[m].dirty ensures OnDisk(t, t.names[m]) {
      UnloadFields(s, n, m);
      assert OnDisk(s, s.names[m]);
    }
  }

  lemma UnloadLocks(s: State, n: Id)
    requires CanUnload(s, n)
    ensures LocksOk(Unloaded(s, n))
  {
    var t := Unloaded(s, n);
    if s.mem[n].p.Place? { assert ParentOk(s, n); }
    forall m | m in t.mem ensures LockOk(t, m) {
      assert LockOk(s, m);
      UnloadFields(s, n, m);
      forall c | c in s.names && c in s.mem && c != n
        ensures c in t.mem && t.mem[c].p == s.mem[c].p
      {
        UnloadFields(s, n, c);
      }
      assert Children(t, m) == Children(s, m) - {n};
      assert n in Children(s, m) <==> s.mem[n].p.Place? && s.mem[n].p.node == m;
    }
  }

  lemma UnloadBlocks(s: State, n: Id)
    requires CanUnload(s, n)
    ensures BlocksOk(Unloaded(s, n)) && SpaceOk(Unloaded(s, n))
  {
    var t := Unloaded(s, n);
    forall m | m in t.mem
      ensures m != n && GoodBlk(t, t.mem[m].blk)
    {
      UnloadFields(s, n, m);
      assert GoodBlk(s, s.mem[m].blk);
    }
    forall x | x in t.loc ensures GoodBlk(t, t.loc[x]) { assert GoodBlk(s, s.loc[x]); }
    forall m, k | SameBlk(t, m, k) ensures m == k {
      UnloadFields(s, n, m);
      UnloadFields(s, n, k);
      assert SameBlk(s, m, k);
    }
    forall m, x
      ensures Apart(t, m, x)
    {
      assert Apart(s, m, x);
      if m in t.mem && m !in t.names { UnloadFields(s, n, m); }
    }
    assert NodeOk(s, n) && OnDisk(s, s.names[n]);
    forall m | m in s.mem && m != n ensures m in Fakes(t) <==> m in Fakes(s) { UnloadFields(s, n, m); }
    assert Fakes(t) == Fakes(s);
  }

  /** Unloading a clean unlocked node keeps Inv: what it held is on the device. */
  lemma UnloadKeeps(s: State, n: Id)
    requires CanUnload(s, n)
    ensures Inv(Unloaded(s, n))
  {
    UnloadTable(s, n);
    UnloadDisk(s, n);
    UnloadLocks(s, n);
    UnloadBlocks(s, n);
    forall x, y | SameLoc(Unloaded(s, n), x, y) ensures x == y { assert SameLoc(s, x, y); }
  }

  // ---------------------------------------------------------------- load

  /** reiser4_tree_load_node on a node that is not in the cache: it is opened
      from the device, bound to its place, hashed, and its parent is locked. */
  ghost function Loaded(s: State, k: Id, x: Name, p: Place): State
    requires OnDisk(s, x)
  {
    var b := s.loc[x];
    s.(mem := Relocked(s.mem, p, 1)[k := Node(b, s.disk[b].level, s.disk[b].items, p, false, 0)],
       nodes := s.nodes[b := k],
       root := if x == s.shape.top then Some(k) else s.root,
       names := s.names[k := x], pins := s.pins[k := 0])
  }

  ghost predicate CanLoad(s: State, k: Id, x: Name, p: Place) {
    && Inv(s) && k !in s.mem && x in s.shape.nodes && !Connected(s, x) && OnDisk(s, x)
    && (x == s.shape.top ==> p == NoPlace && s.root == None)
    && (x != s.shape.top ==>
          && p.Place? && p.node in s.names && p.node in s.mem
          && HasLink(s.shape, s.names[p.node], p.pos, x))
  }

  lemma LoadFields(s: State, k: Id, x: Name, p: Place, m: Id)
    requires OnDisk(s, x) && k !in s.mem && m in s.mem
    ensures m in Loaded(s, k, x, p).mem && m != k
    ensures Loaded(s, k, x, p).mem[m].(counter := s.mem[m].counter) == s.mem[m]
    ensures Loaded(s, k, x, p).mem[m].counter == s.mem[m].counter + (if p.Place? && p.node == m then 1 else 0)
    ensures Loaded(s, k, x, p).mem.Keys == s.mem.Keys + {k}
  {
  }

  lemma NamesLive(s: State)
    requires MemOk(s)
    ensures forall n :: n in s.names ==> n in s.mem
  {
    forall n | n in s.names ensures n in s.mem { assert NodeOk(s, n); }
  }

  /** A node that is not connected is nobody's parent. */
  lemma UnnamedNoChildren(s: State, k: Id)
    requires ParentsOk(s) && k !in s.names
    ensures Children(s, k) == {}
  {
    forall c | c in s.names && c in s.mem && s.mem[c].p.Place?
      ensures s.mem[c].p.node in s.names
    {
      assert ParentOk(s, c);
    }
  }

  /** No live node sits at the block of an unconnected tree node. */
  lemma UnconnectedBlk(s: State, x: Name, m: Id)
    requires MemOk(s) && LocOk(s) && BlocksOk(s)
    requires x in s.loc && !Connected(s, x) && m in s.mem
    ensures s.mem[m].blk != s.loc[x]
  {
    if m in s.names {
      assert NodeOk(s, m);
      assert SameLoc(s, s.names[m], x) <==> s.mem[m].blk == s.loc[x];
      assert s.names[m] in s.names.Values;
    } else {
      assert Apart(s, m, x);
    }
  }

  lemma LoadTable(s: State, k: Id, x: Name, p: Place)
    requires TableOk(s) && MemOk(s) && LocOk(s) && BlocksOk(s)
    requires k !in s.mem && OnDisk(s, x) && !Connected(s, x)
    ensures TableOk(Loaded(s, k, x, p)) && MemOk(Loaded(s, k, x, p))
  {
    var t := Loaded(s, k, x, p);
    var b := s.loc[x];
    NamesLive(s);
    forall c | c in t.nodes ensures EntryOk(t, c) {
      if c != b { assert EntryOk(s, c); LoadFields(s, k, x, p, s.nodes[c]); }
    }
    forall m | m in t.names ensures HashOk(t, m) && NodeOk(t, m) {
      if m != k {
        assert HashOk(s, m) && NodeOk(s, m);
        UnconnectedBlk(s, x, m);
        LoadFields(s, k, x, p, m);
      }
    }
  }

  lemma LoadParents(s: State, k: Id, x: Name, p: Place)
    requires WellShaped(s.shape) && MemOk(s) && ParentsOk(s) && RootOk(s) && LocOk(s)
    requires CanLoad(s, k, x, p)
    ensures ParentsOk(Loaded(s, k, x, p)) && RootOk(Loaded(s, k, x, p)) && LocOk(Loaded(s, k, x, p))
  {
    var t := Loaded(s, k, x, p);
    NamesLive(s);
    forall m | m in t.names ensures ParentOk(t, m) {
      if m != k {
        assert ParentOk(s, m);
        LoadFields(s, k, x, p, m);
        assert s.names[m] in s.names.Values;
      } else if x != s.shape.top {
        assert OnlyLink(s.shape, s.names[p.node], p.pos, x);
      }
    }
    forall y, z | SameLoc(t, y, z) ensures y == z { assert SameLoc(s, y, z); }
  }

  lemma LoadDisk(s: State, k: Id, x: Name, p: Place)
    requires MemOk(s) && DiskOk(s) && k !in s.mem && OnDisk(s, x)
    ensures DiskOk(Loaded(s, k, x, p))
  {
    var t := Loaded(s, k, x, p);
    NamesLive(s);
    forall y | y in t.shape.nodes && !Connected(t, y) ensures OnDisk(t, y) {
      assert forall m :: m in s.names ==> t.names[m] == s.names[m];
      assert OnDisk(s, y);
    }
    forall m | m in t.names && m in t.mem && !t.mem[m].dirty ensures OnDisk(t, t.names[m]) {
      if m == k { assert OnDisk(t, x); }
      else { LoadFields(s, k, x, p, m); assert OnDisk(s, s.names[m]); }
    }
  }

  lemma LoadChildren(s: State, k: Id, x: Name, p: Place, m: Id)
    requires k !in s.mem && k !in s.names && OnDisk(s, x)
    requires forall c :: c in s.names ==> c in s.mem
    ensures Children(Loaded(s, k, x, p), m) == Children(s, m) + (if p.Place? && p.node == m then {k} else {})
  {
    var t := Loaded(s, k, x, p);
    forall c | c in s.names ensures c in t.mem && t.mem[c].p == s.mem[c].p { LoadFields(s, k, x, p, c); }
  }

  lemma LoadLocks(s: State, k: Id, x: Name, p: Place)
    requires LocksOk(s) && MemOk(s) && ParentsOk(s)
    requires k !in s.mem && OnDisk(s, x) && (p.Place? ==> p.node in s.mem)
    ensures LocksOk(Loaded(s, k, x, p))
  {
    var t := Loaded(s, k, x, p);
    NamesLive(s);
    UnnamedNoChildren(s, k);
    forall m | m in t.mem ensures LockOk(t, m) {
      LoadChildren(s, k, x, p, m);
      if m != k {
        assert LockOk(s, m);
        LoadFields(s, k, x, p, m);
      }
    }
  }

  lemma LoadBlocks(s: State, k: Id, x: Name, p: Place)
    requires MemOk(s) && LocOk(s) && BlocksOk(s) && SpaceOk(s)
    requires k !in s.mem && OnDisk(s, x) && !Connected(s, x)
    ensures BlocksOk(Loaded(s, k, x, p)) && SpaceOk(Loaded(s, k, x, p))
  {
    var t := Loaded(s, k, x, p);
    assert GoodBlk(s, s.loc[x]);
    forall m | m in t.mem ensures GoodBlk(t, t.mem[m].blk) {
      if m != k { LoadFields(s, k, x, p, m); assert GoodBlk(s, s.mem[m].blk); }
    }
    forall y | y in t.loc ensures GoodBlk(t, t.loc[y]) { assert GoodBlk(s, s.loc[y]); }
    forall m, j | SameBlk(t, m, j) ensures m == j {
      if m != k { LoadFields(s, k, x, p, m); UnconnectedBlk(s, x, m); }
      if j != k { LoadFields(s, k, x, p, j); UnconnectedBlk(s, x, j); }
      if m != k && j != k { assert SameBlk(s, m, j); }
    }
    forall m, y
      ensures Apart(t, m, y)
    {
      assert Apart(s, m, y);
      if m in t.mem && m !in t.names { LoadFields(s, k, x, p, m); }
    }
    forall m | m in s.mem ensures m in Fakes(t) <==> m in Fakes(s) { LoadFields(s, k, x, p, m); }
    assert Fakes(t) == Fakes(s);
  }

  lemma LoadKeeps(s: State, k: Id, x: Name, p: Place)
    requires CanLoad(s, k, x, p)
    ensures Inv(Loaded(s, k, x, p))
  {
    LoadTable(s, k, x, p);
    LoadParents(s, k, x, p);
    LoadDisk(s, k, x, p);
    LoadLocks(s, k, x, p);
    LoadBlocks(s, k, x, p);
  }

  // ---------------------------------------------------- create and release

  /** reiser4_tree_alloc_node when it succeeds: a fake number is drawn, one
      block is taken off the free count, an unattached empty node appears. */
  ghost function Created(s: State, k: Id, level: nat): State
    requires s.free > 0
  {
    s.(mem := s.mem[k := Node(FakeBlk(s.fakeGen + 1), level, [], NoPlace, false, 0)],
       pins := s.pins[k := 0], free := s.free - 1, fakeGen := s.fakeGen + 1)
  }

  lemma CreateKeeps(s: State, k: Id, level: nat)
    requires Inv(s) && k !in s.mem && s.free > 0 && s.fakeGen + 1 < FAKE_ROOM - 1
    ensures Inv(Created(s, k, level))
  {
    CreateTable(s, k, level);
    CreateDisk(s, k, level);
    CreateLocks(s, k, level);
    CreateBlocks(s, k, level);
  }

  lemma CreateBlocks(s: State, k: Id, level: nat)
    requires BlocksOk(s) && SpaceOk(s) && k !in s.mem && s.free > 0 && s.fakeGen + 1 < FAKE_ROOM - 1
    ensures BlocksOk(Created(s, k, level)) && SpaceOk(Created(s, k, level))
  {
    var t := Created(s, k, level);
    var f := FakeBlk(s.fakeGen + 1);
    assert f == FAKE_VAL + s.fakeGen + 1 && FakeAck(f);
    forall m | m in t.mem ensures GoodBlk(t, t.mem[m].blk) && (m != k ==> t.mem[m].blk != f) {
      if m != k { assert GoodBlk(s, s.mem[m].blk); }
    }
    forall y | y in t.loc ensures GoodBlk(t, t.loc[y]) && t.loc[y] != f { assert GoodBlk(s, s.loc[y]); }
    forall m, j | SameBlk(t, m, j) ensures m == j { if m != k && j != k { assert SameBlk(s, m, j); } }
    forall m, y ensures Apart(t, m, y) { assert Apart(s, m, y); }
    assert Fakes(t) == Fakes(s) + {k};
  }

  lemma CreateTable(s: State, k: Id, level: nat)
    requires TableOk(s) && LocOk(s) && MemOk(s) && ParentsOk(s) && RootOk(s) && k !in s.mem && s.free > 0
    ensures var t := Created(s, k, level); TableOk(t) && LocOk(t) && MemOk(t) && ParentsOk(t) && RootOk(t)
  {
    var t := Created(s, k, level);
    NamesLive(s);
    forall b | b in t.nodes ensures EntryOk(t, b) { assert EntryOk(s, b); }
    forall n | n in t.names ensures HashOk(t, n) && NodeOk(t, n) && ParentOk(t, n) {
      assert HashOk(s, n) && NodeOk(s, n) && ParentOk(s, n);
    }
    forall x, y | SameLoc(t, x, y) ensures x == y { assert SameLoc(s, x, y); }
  }

  lemma CreateDisk(s: State, k: Id, level: nat)
    requires DiskOk(s) && MemOk(s) && k !in s.mem && s.free > 0
    ensures DiskOk(Created(s, k, level))
  {
    var t := Created(s, k, level);
    NamesLive(s);
    forall x | x in t.shape.nodes && !Connected(t, x) ensures OnDisk(t, x) { assert OnDisk(s, x); }
    forall n | n in t.names && n in t.mem && !t.mem[n].dirty
      ensures OnDisk(t, t.names[n])
    {
      assert OnDisk(s, s.names[n]);
    }
  }

  lemma CreateLocks(s: State, k: Id, level: nat)
    requires LocksOk(s) && MemOk(s) && ParentsOk(s) && k !in s.mem && s.free > 0
    ensures LocksOk(Created(s, k, level))
  {
    var t := Created(s, k, level);
    NamesLive(s);
    UnnamedNoChildren(s, k);
    forall m | m in t.mem ensures LockOk(t, m) {
      assert Children(t, m) == Children(s, m);
      if m != k { assert LockOk(s, m); }
    }
  }

  /** reiser4_tree_release_node on an unattached, unlocked node. */
  ghost function Released(s: State, n: Id): State
    requires n in s.mem
  {
    s.(mem := s.mem - {n}, pins := s.pins - {n},
       used := if FakeAck(s.mem[n].blk) then s.used else s.used - {s.mem[n].blk},
       free := s.free + 1)
  }

  lemma ReleaseKeeps(s: State, n: Id)
    requires Inv(s) && n in s.mem && n !in s.names && s.mem[n].counter == 0
    ensures Inv(Released(s, n))
  {
    ReleaseTable(s, n);
    ReleaseBlocks(s, n);
  }

  lemma ReleaseTable(s: State, n: Id)
    requires TableOk(s) && LocOk(s) && MemOk(s) && ParentsOk(s) && RootOk(s) && DiskOk(s) && n in s.mem && n !in s.names
    ensures var t := Released(s, n); TableOk(t) && LocOk(t) && MemOk(t) && ParentsOk(t) && RootOk(t) && DiskOk(t)
  {
    var t := Released(s, n);
    forall b | b in t.nodes ensures EntryOk(t, b) { assert EntryOk(s, b); }
    forall m | m in t.names ensures HashOk(t, m) && NodeOk(t, m) && ParentOk(t, m) {
      assert HashOk(s, m) && NodeOk(s, m) && ParentOk(s, m);
    }
    forall x, y | SameLoc(t, x, y) ensures x == y { assert SameLoc(s, x, y); }
    forall x | x in t.shape.nodes && !Connected(t, x) ensures OnDisk(t, x) { assert OnDisk(s, x); }
    forall m | m in t.names && m in t.mem && !t.mem[m].dirty
      ensures OnDisk(t, t.names[m])
    {
      assert OnDisk(s, s.names[m]);
    }
  }

  lemma ReleaseBlocks(s: State, n: Id)
    requires BlocksOk(s) && SpaceOk(s) && LocksOk(s) && n in s.mem && n !in s.names && s.mem[n].counter == 0
    ensures BlocksOk(Released(s, n)) && SpaceOk(Released(s, n)) && LocksOk(Released(s, n))
  {
    var t := Released(s, n);
    assert GoodBlk(s, s.mem[n].blk);
    forall m | m in t.mem ensures GoodBlk(t, t.mem[m].blk) && LockOk(t, m) {
      assert GoodBlk(s, s.mem[m].blk);
      assert SameBlk(s, n, m) ==> n == m;
      assert LockOk(s, m);
      assert Children(t, m) == Children(s, m);
    }
    forall y | y in t.loc ensures GoodBlk(t, t.loc[y]) { assert GoodBlk(s, s.loc[y]) && Apart(s, n, y); }
    forall m, j | SameBlk(t, m, j) ensures m == j { assert SameBlk(s, m, j); }
    forall m, y ensures Apart(t, m, y) { assert Apart(s, m, y); }
    assert Fakes(t) == Fakes(s) - {n};
    if FakeAck(s.mem[n].blk) { assert n in Fakes(s); }
  }
}

/** The node cache of libreiser4/tree.c: node objects with lock counters, the
    hash table of loaded nodes, fake block numbers for new nodes, and the walk
    that gives them real blocks, writes them and unloads them. */
module TreeCache {
  import opened Common
  import opened CacheState
  import opened CacheSteps
  import opened CacheWalk
  import opened CacheGrow
  import opened CacheShift

  /** The specification part of the state. */
  datatype Spec = Spec(pins: map<Id, nat>, shape: Shape, loc: map<Name, Blk>, names: map<Id, Name>,
                       lost: nat, writes: seq<(Blk, Image)>)

  class Tree {
    // reiser4_tree_t
    var mem: map<Id, Node>
    var nodes: map<Blk, Id>
    var root: Option<Id>
    var adjusting: bool
    var nextId: Id
    // the superblock
    var rootBlk: Blk
    var height: nat
    var free: nat
    // the block allocator
    var used: set<Blk>
    const len: nat
    // the device
    var disk: map<Blk, Image>
    // the static counter of fake.c
    var fakeGen: nat

    // specification only
    ghost var g: Spec

    ghost function S(): State
      reads this
    {
      State(mem, nodes, root, rootBlk, height, free, used, len, disk, fakeGen,
            g.pins, g.shape, g.loc, g.names, g.lost, g.writes)
    }

    ghost predicate Valid()
      reads this
    {
      Inv(S()) && (forall n :: n in mem ==> n < nextId)
    }

    /** An existing tree whose nodes all lie on the device, opened with an
        empty cache. */
    constructor (len: nat, used: set<Blk>, free: nat, rootBlk: Blk, height: nat, disk: map<Blk, Image>,
                 ghost shape: Shape, ghost loc: map<Name, Blk>)
      requires WellShaped(shape) && loc.Keys == shape.nodes.Keys && len <= FAKE_MASK
      requires forall b :: b in used ==> b < len
      requires free + |used| == len
      requires forall x :: x in loc ==> loc[x] in used && loc[x] in disk && disk[loc[x]] == ImageOf(shape, x, loc)
      requires forall x, y :: x in loc && y in loc && loc[x] == loc[y] ==> x == y
      requires rootBlk == loc[shape.top] && height == shape.nodes[shape.top].level
      ensures Valid() && RootNamed(S()) && !adjusting
      ensures S() == State(map[], map[], None, rootBlk, height, free, used, len, disk, 0,
                           map[], shape, loc, map[], 0, [])
    {
      this.mem, this.nodes, this.root, this.adjusting, this.nextId := map[], map[], None, false, 0;
      this.rootBlk, this.height, this.free := rootBlk, height, free;
      this.used, this.len, this.disk, this.fakeGen := used, len, disk, 0;
      this.g := Spec(map[], shape, loc, map[], 0, []);
      new;
      forall x | x in loc ensures GoodBlk(S(), loc[x]) { RealBelowLen(S(), loc[x]); }
      forall x | x in shape.nodes ensures OnDisk(S(), x) { RealBelowLen(S(), loc[x]); }
      forall x, y | SameLoc(S(), x, y) ensures x == y {}
      assert Fakes(S()) == {};
    }

    /** reiser4_node_lock */
    method Lock(n: Id)
      requires Valid() && n in mem && n in g.pins
      modifies this`mem, this`g
      ensures Valid() && S() == Pinned(old(S()), n, 1)
    {
      PinKeeps(S(), n, 1);
      mem := mem[n := mem[n].(counter := mem[n].counter + 1)];
      g := g.(pins := g.pins[n := g.pins[n] + 1]);
    }

    /** reiser4_node_unlock */
    method Unlock(n: Id)
      requires Valid() && n in mem && n in g.pins && g.pins[n] > 0
      modifies this`mem, this`g
      ensures Valid() && S() == Pinned(old(S()), n, -1)
    {
      PinKeeps(S(), n, -1);
      mem := mem[n := mem[n].(counter := mem[n].counter - 1)];
      g := g.(pins := g.pins[n := g.pins[n] - 1]);
    }

    /** alloc40_allocate for one block: the lowest clear bit is marked. */
    method Allocate() returns (found: bool, b: Blk)
      modifies this`used
      ensures found <==> exists c: Blk :: c < len && c !in old(used)
      ensures found ==> b < len && b !in old(used) && used == old(used) + {b}
      ensures found ==> forall c: Blk :: c < b ==> c in old(used)
      ensures !found ==> used == old(used)
    {
      b := 0;
      while b < len && b in used
        invariant b <= len
        invariant forall c: Blk :: c < b ==> c in used
      {
        b := b + 1;
      }
      found := b < len;
      if found { used := used + {b}; }
    }

    /** The tail of cb_node_adjust: the superblock's root number, the parent's
        link (reiser4_item_update_link) and the hash table entry
        (reiser4_tree_rehash_node) go over to the new block. */
    method MoveNode(n: Id, b: Blk)
      requires n in g.names && n in mem && b in used
      requires mem[n].p.Place? ==> mem[n].p.node in mem && mem[n].p.pos < |mem[mem[n].p.node].items|
      modifies this`mem, this`nodes, this`rootBlk, this`g
      ensures S() == Adjusted(old(S()), n, b) && mem.Keys == old(mem.Keys)
    {
      var f := mem[n].blk;
      var patched := if mem[n].p.Place? then Patch(mem, mem[n].p, b) else mem;
      rootBlk := if rootBlk == f then b else rootBlk;
      mem := patched[n := mem[n].(blk := b, dirty := true)];
      nodes := (nodes - {f})[b := n];
      g := g.(loc := g.loc[g.names[n] := b]);
      assert used == used + {b};
    }

    /** cb_node_adjust: a node under a fake number gets a real block; its
        parent's link, the hash table and the superblock follow.  It never
        fails for lack of space. */
    method AdjustNode(n: Id) returns (ok: bool)
      requires Valid() && n in g.names && n in mem
      modifies this`mem, this`nodes, this`rootBlk, this`used, this`g
      ensures ok && Valid()
      ensures n in mem && !FakeAck(mem[n].blk)
      ensures !old(FakeAck(mem[n].blk)) ==> S() == old(S())
      ensures old(FakeAck(mem[n].blk)) ==>
        && mem[n].blk < len && mem[n].blk !in old(used) && LinkedBy(old(S()), n, old(mem[n].p))
        && S() == Adjusted(old(S()), n, mem[n].blk)
    {
      ok := true;
      if FakeAck(mem[n].blk) {
        ghost var s0 := S();
        AdjustHasSpace(s0, n);
        var found, b := Allocate();
        if !found { return false; }
        AdjustKeeps(s0, n, b);
        MoveNode(n, b);
        assert s0.used + {b} + {b} == s0.used + {b};
        RealBelowLen(s0, b);
      }
    }

    /** reiser4_tree_unload_node on a clean node. */
    method UnloadNode(n: Id)
      requires Valid() && CanUnload(S(), n)
      modifies this`mem, this`nodes, this`root, this`g
      ensures Valid() && S() == Unloaded(old(S()), n)
    {
      UnloadKeeps(S(), n);
      nodes, root := nodes - {mem[n].blk}, if root == Some(n) then None else root;
      mem, g := Relocked(mem, mem[n].p, -1) - {n}, g.(names := g.names - {n}, pins := g.pins - {n});
    }

    /** reiser4_node_sync */
    method WriteNode(n: Id)
      requires Valid() && n in g.names && n in mem
      requires !FakeAck(mem[n].blk) && RealImage(Image(mem[n].level, mem[n].items))
      modifies this`mem, this`disk, this`g
      ensures Valid() && S() == Written(old(S()), n)
    {
      WriteKeeps(S(), n);
      var im := Image(mem[n].level, mem[n].items);
      disk := disk[mem[n].blk := im];
      g := g.(writes := g.writes + [(mem[n].blk, im)]);
      mem := mem[n := mem[n].(dirty := false)];
    }

    /** cb_node_unload: a locked node stays; any other is written if dirty and
        then unloaded. */
    method SettleNode(n: Id)
      requires Valid() && NodeOk(S(), n) && !FakeAck(mem[n].blk)
      requires SettledUpTo(S(), g.names[n], |g.shape.nodes[g.names[n]].items|)
      modifies this`mem, this`nodes, this`root, this`g, this`disk
      ensures Valid() && Frame(old(S()), S(), old(g.names[n]))
      ensures Settled(S(), old(g.names[n]))
    {
      ghost var s0 := S();
      ghost var y := g.names[n];
      if mem[n].counter > 0 {
        LockedIsPinned(S(), n);
        assert SettledAt(S(), y);
        SettledJoin(S(), y);
        FrameSelf(S(), y);
        return;
      }
      SettledLinks(S(), n);
      assert LockOk(S(), n) && ParentOk(S(), n);
      if mem[n].dirty { WriteNode(n); }
      ghost var s1 := S();
      UnloadNode(n);
      LeaveFrame(s0, s1, n);
      LeaveSettled(s0, S(), n);
    }

    /** reiser4_tree_walk_node with cb_node_adjust before and cb_node_unload
        after the children: afterwards the whole subtree of n is on real
        blocks, and what is not pinned is written and out of the cache. */
    method WalkNode(n: Id)
      requires Valid() && NodeOk(S(), n)
      modifies this`mem, this`nodes, this`root, this`rootBlk, this`used, this`disk, this`g
      ensures Valid() && Frame(old(S()), S(), old(g.names[n]))
      ensures Settled(S(), old(g.names[n]))
      decreases mem[n].level, 2
    {
      ghost var s0 := S();
      ghost var y := g.names[n];
      var ok := AdjustNode(n);
      if FakeAck(s0.mem[n].blk) { AdjustFrame(s0, n, mem[n].blk); } else { FrameSelf(s0, y); }
      assert NodeOk(S(), n);
      ghost var s1 := S();
      WalkItems(n);
      NamesLive(s1);
      FrameTrans(s0, s1, S(), y, y);
      ghost var s2 := S();
      SettleNode(n);
      NamesLive(s2);
      FrameTrans(s0, s2, S(), y, y);
    }

    /** The walk's loop over the items of n. */
    method WalkItems(n: Id)
      requires Valid() && NodeOk(S(), n) && !FakeAck(mem[n].blk)
      modifies this`mem, this`nodes, this`root, this`rootBlk, this`used, this`disk, this`g
      ensures Valid() && NodeOk(S(), n) && g.names[n] == old(g.names[n]) && !FakeAck(mem[n].blk)
      ensures Frame(old(S()), S(), g.names[n])
      ensures SettledUpTo(S(), g.names[n], |g.shape.nodes[g.names[n]].items|)
      decreases mem[n].level, 1
    {
      ghost var s0 := S();
      ghost var y := g.names[n];
      FrameSelf(s0, y);
      var i := 0;
      while i < |mem[n].items|
        invariant Valid() && NodeOk(S(), n) && g.names[n] == y && mem[n].level == s0.mem[n].level
        invariant !FakeAck(mem[n].blk)
        invariant Frame(s0, S(), y)
        invariant i <= |mem[n].items|
        invariant SettledUpTo(S(), y, i)
        decreases |s0.mem[n].items| - i
      {
        if mem[n].items[i].Branch? {
          ghost var s1 := S();
          ghost var c := LinkAt(s1, n, i);
          WalkChild(n, i, c);
          NamesLive(s1);
          FrameTrans(s0, s1, S(), c, y);
        }
        i := i + 1;
      }
    }

    /** The body of the walk's inner loop: the child behind the branch item i,
        if it is loaded, is walked while its parent is locked. */
    method WalkChild(n: Id, i: nat, ghost c: Name)
      requires Valid() && NodeOk(S(), n) && i < |mem[n].items| && mem[n].items[i].Branch?
      requires HasLink(g.shape, g.names[n], i, c) && c in g.loc && g.loc[c] == mem[n].items[i].down
      requires c in g.shape.nodes && g.shape.nodes[c].level < mem[n].level
      requires SettledUpTo(S(), g.names[n], i)
      modifies this`mem, this`nodes, this`root, this`rootBlk, this`used, this`disk, this`g
      ensures Valid() && NodeOk(S(), n) && g.names[n] == old(g.names[n]) && mem[n].level == old(mem[n].level)
      ensures !old(FakeAck(mem[n].blk)) ==> mem[n].blk == old(mem[n].blk)
      ensures Frame(old(S()), S(), c)
      ensures SettledUpTo(S(), g.names[n], i + 1)
      decreases mem[n].level, 0
    {
      ghost var s1 := S();
      LookupFinds(s1, c);
      if mem[n].items[i].down in nodes {
        var child := nodes[mem[n].items[i].down];
        Lock(n);
        assert NodeOk(S(), child);
        WalkNode(child);
        ghost var w := S();
        ChildWalked(s1, w, n, i, c);
        Unlock(n);
        SettledNext(s1, w, S(), n, i, c);
        assert NodeOk(S(), n);
      } else {
        UnloadedSettled(s1, c);
        FrameSelf(s1, c);
        assert SettledUpTo(s1, g.names[n], i + 1) by {
          forall j: nat, d: Name | j < i + 1 && HasLink(s1.shape, g.names[n], j, d) ensures Settled(s1, d) {}
        }
      }
    }

    /** reiser4_tree_adjust: under memory pressure the cache is walked, unless
        it is being walked already or the root is still empty. */
    method TreeAdjust()
      requires Valid()
      modifies this`mem, this`nodes, this`root, this`rootBlk, this`used, this`disk, this`g, this`adjusting
      ensures Valid() && adjusting == old(adjusting)
      ensures Frame(old(S()), S(), g.shape.top)
      ensures !old(adjusting) && old(root.Some? && root.value in mem && mem[root.value].items != []) ==>
        Settled(S(), g.shape.top)
      ensures old(adjusting || root.None? || root.value !in mem || mem[root.value].items == []) ==> S() == old(S())
    {
      FrameSelf(S(), g.shape.top);
      if root.Some? && !adjusting {
        assert NodeOk(S(), root.value);
        adjusting := true;
        if mem[root.value].items != [] { WalkNode(root.value); }
        adjusting := false;
      }
    }

    /** reiser4_tree_sync.  With nothing pinned the cache ends empty, every
        node of the tree lies on the device under a real number with real
        links, and the superblock names the root. */
    method TreeSync()
      requires Valid() && RootNamed(S())
      modifies this`mem, this`nodes, this`root, this`rootBlk, this`used, this`disk, this`g
      ensures Valid() && Frame(old(S()), S(), g.shape.top) && RootNamed(S())
      ensures Settled(S(), g.shape.top)
      ensures (forall n :: n in old(g.pins) ==> old(g.pins[n]) == 0) ==>
        && nodes == map[] && root == None && (forall x :: x in g.shape.nodes ==> OnDisk(S(), x))
        && DiskContent(disk, rootBlk, 0) == old(Content(g.shape, g.shape.top, 0))
    {
      ghost var s0 := S();
      FrameSelf(s0, g.shape.top);
      if root.Some? {
        assert NodeOk(S(), root.value);
        WalkNode(root.value);
      } else {
        NoRootNoNodes(s0);
        UnloadedSettled(s0, g.shape.top);
      }
      if forall n :: n in s0.pins ==> s0.pins[n] == 0 { AllSettled(s0, S()); ReadBack(S(), g.shape.top, 0); }
    }

    // ------------------------------------------------ creating and loading

    /** reiser4_tree_alloc_node.  `created` says whether the node plugin could
        make the node; when it could not, the reserved block stays lost. */
    method AllocNode(level: nat, created: bool) returns (k: Option<Id>)
      requires Valid() && fakeGen + 1 < FAKE_ROOM - 1
      modifies this`mem, this`free, this`fakeGen, this`nextId, this`g
      ensures Valid() && fakeGen == old(fakeGen) + 1
      ensures k.Some? <==> old(free) > 0 && created
      ensures k.Some? ==> k.value !in old(mem) && S() == Created(old(S()), k.value, level)
      ensures k.None? ==> S() == if old(free) > 0 then Lost(old(S())) else old(S()).(fakeGen := fakeGen)
    {
      ghost var s0 := S();
      if free < 1 || !created {
        LostKeeps(s0, if free > 0 then Lost(s0) else s0.(fakeGen := s0.fakeGen + 1));
        WasteFake();
        return None;
      }
      CreateKeeps(s0, nextId, level);
      var id := NewNode(level);
      k := Some(id);
    }

    /** reiser4_fake_get and reiser4_format_dec_free without a new node. */
    method WasteFake()
      modifies this`free, this`fakeGen, this`g
      ensures S() == if old(free) > 0 then Lost(old(S())) else old(S()).(fakeGen := old(fakeGen) + 1)
    {
      fakeGen := fakeGen + 1;
      if free >= 1 {
        free := free - 1;
        g := g.(lost := g.lost + 1);
      }
    }

    /** reiser4_fake_get, reiser4_format_dec_free and reiser4_node_create. */
    method NewNode(level: nat) returns (k: Id)
      requires free > 0 && nextId !in mem
      modifies this`mem, this`free, this`fakeGen, this`nextId, this`g
      ensures k == old(nextId) && nextId == k + 1 && S() == Created(old(S()), k, level) &&
        mem.Keys == old(mem.Keys) + {k}
    {
      k := nextId;
      fakeGen, free, nextId := fakeGen + 1, free - 1, nextId + 1;
      mem := mem[k := Node(FakeBlk(fakeGen), level, [], NoPlace, false, 0)];
      g := g.(pins := g.pins[k := 0]);
    }

    /** reiser4_tree_release_node on a node that is not in the tree cache. */
    method ReleaseNode(n: Id)
      requires Valid() && n in mem && n !in g.names && mem[n].counter == 0
      modifies this`mem, this`used, this`free, this`g
      ensures Valid() && S() == Released(old(S()), n)
    {
      ReleaseKeeps(S(), n);
      if !FakeAck(mem[n].blk) { used := used - {mem[n].blk}; }
      free := free + 1;
      mem, g := mem - {n}, g.(pins := g.pins - {n});
    }

    /** tree_find_child_pos: the position of the branch item for a block. */
    method FindChildPos(n: Id, blk: Blk) returns (pos: Option<nat>)
      requires n in mem
      ensures pos.Some? ==> pos.value < |mem[n].items| && mem[n].items[pos.value] == Branch(blk)
      ensures pos.None? ==> Branch(blk) !in mem[n].items
    {
      var items := mem[n].items;
      for i := 0 to |items|
        invariant Branch(blk) !in items[..i]
      {
        if items[i] == Branch(blk) { return Some(i); }
      }
      pos := None;
    }

    /** reiser4_node_open and reiser4_tree_connect_node: the node is read from
        the device, entered into the hash table, and its parent is locked. */
    method ReadNode(blk: Blk, p: Place, isRoot: bool, ghost x: Name) returns (k: Id)
      requires OnDisk(S(), x) && blk == g.loc[x] && (isRoot <==> x == g.shape.top)
      modifies this`mem, this`nodes, this`root, this`nextId, this`g
      ensures k == old(nextId) && nextId == k + 1 && S() == Loaded(old(S()), k, x, p)
    {
      k := nextId;
      nextId := nextId + 1;
      mem := Relocked(mem, p, 1)[k := Node(blk, disk[blk].level, disk[blk].items, p, false, 0)];
      nodes, root := nodes[blk := k], if isRoot then Some(k) else root;
      g := g.(names := g.names[k := x], pins := g.pins[k := 0]);
    }

    /** reiser4_tree_load_root.  `pressure` says whether memory pressure is met
        when the root is connected; then the cache is walked while the root is
        locked. */
    method LoadRoot(pressure: bool) returns (r: Id)
      requires Valid() && RootNamed(S())
      modifies this`mem, this`nodes, this`root, this`rootBlk, this`used, this`disk, this`nextId, this`adjusting, this`g
      ensures Valid() && RootNamed(S()) && root == Some(r) && NodeOk(S(), r) && g.names[r] == g.shape.top
      ensures g.shape == old(g.shape) && (old(root.Some?) ==> S() == old(S()))
      ensures forall m :: m in g.pins && m in old(g.pins) ==> g.pins[m] == old(g.pins[m])
    {
      if root.Some? {
        r := root.value;
      } else {
        ghost var s0 := S();
        ghost var x := g.shape.top;
        NoRootNoNodes(s0);
        assert OnDisk(s0, x);
        LoadKeeps(s0, nextId, x, NoPlace);
        r := ReadNode(rootBlk, NoPlace, true, x);
        if pressure { AdjustPinned(r); }
      }
      assert NodeOk(S(), r);
    }

    /** reiser4_tree_load_node for the child behind a branch item of n: the
        node found in the hash table, or else read in.  `pressure` says whether
        reiser4_tree_connect_node met memory pressure; then the cache is
        walked while the new node is locked. */
    method LoadNode(n: Id, blk: Blk, pressure: bool, ghost x: Name) returns (c: Id)
      requires Valid() && NodeOk(S(), n) && Branch(blk) in mem[n].items
      requires x in g.loc && g.loc[x] == blk && exists i: nat :: HasLink(g.shape, g.names[n], i, x)
      modifies this`mem, this`nodes, this`root, this`rootBlk, this`used, this`disk, this`nextId, this`adjusting, this`g
      ensures Valid() && NodeOk(S(), c) && g.names[c] == x && g.shape == old(g.shape)
      ensures RootNamed(old(S())) ==> RootNamed(S())
      ensures old(blk in nodes) ==> c == old(nodes[blk]) && S() == old(S())
      ensures free == old(free) && (old(root.Some?) ==> root == old(root))
      ensures forall m :: m in g.pins && m in old(g.pins) ==> g.pins[m] == old(g.pins[m])
    {
      ghost var s0 := S();
      LookupFinds(s0, x);
      if blk in nodes {
        c := nodes[blk];
        return;
      }
      c := ReadChild(n, blk, x);
      if pressure { AdjustPinned(c); }
    }

    /** reiser4_tree_rebind_node and the reading of a child that is not in the
        cache. */
    method ReadChild(n: Id, blk: Blk, ghost x: Name) returns (c: Id)
      requires Valid() && NodeOk(S(), n) && Branch(blk) in mem[n].items
      requires x in g.loc && g.loc[x] == blk && !Connected(S(), x)
      modifies this`mem, this`nodes, this`root, this`nextId, this`g
      ensures Valid() && NodeOk(S(), c) && g.names[c] == x
      ensures g.shape == old(g.shape) && g.loc == old(g.loc) && root == old(root)
      ensures forall m :: m in g.pins && m in old(g.pins) ==> g.pins[m] == old(g.pins[m])
    {
      ghost var s0 := S();
      var pos := FindChildPos(n, blk);
      ghost var y := LinkAt(s0, n, pos.value);
      assert SameLoc(s0, x, y) && OnDisk(s0, x);
      LoadKeeps(s0, nextId, x, Place(n, pos.value));
      c := ReadNode(blk, Place(n, pos.value), false, x);
      assert NodeOk(S(), c);
    }

    /** The memory pressure part of reiser4_tree_connect_node: the cache is
        walked while node c is locked. */
    method AdjustPinned(c: Id)
      requires Valid() && NodeOk(S(), c)
      modifies this`mem, this`nodes, this`root, this`rootBlk, this`used, this`disk, this`adjusting, this`g
      ensures Valid() && NodeOk(S(), c) && g.names[c] == old(g.names[c])
      ensures g.shape == old(g.shape) && KeepsRoot(old(S()), S()) && (old(root.Some?) ==> root == old(root))
      ensures forall m :: m in g.pins ==> m in old(g.pins) && g.pins[m] == old(g.pins[m])
    {
      ghost var s0 := S();
      Lock(c);
      ghost var s1 := S();
      TreeAdjust();
      ghost var s2 := S();
      assert NodeFrame(s1, s2, s2.shape.top, c);
      assert NodeOk(s2, c);
      Unlock(c);
      assert NodeOk(S(), c);
      UnpinFrame(s0, s2, c);
      PinsKept(s0, S());
      if s0.root.Some? { RootStays(s0, S(), c); }
    }

    // --------------------------------------------------- growing and drying

    /** The heart of reiser4_tree_growup: the old root r is detached, the new
        node k becomes the root, and r is attached below it. */
    method Hoist(r: Id, k: Id, ghost y: Name)
      requires r in mem && k in mem && r != k && g.shape.top in g.shape.nodes && g.shape.top in g.loc
      requires mem[r].blk == g.loc[g.shape.top] &&
        nodes[mem[k].blk := k] == (nodes - {mem[r].blk})[mem[k].blk := k][mem[r].blk := r]
      modifies this`mem, this`nodes, this`root, this`rootBlk, this`height, this`g
      ensures S() == Grown(old(S()), r, k, y) && mem.Keys == old(mem.Keys)
    {
      SwapRoot(r, k);
      AttachRoot(r, k);
      assert nodes == old(nodes[mem[k].blk := k]);
      g := g.(shape := GrownShape(g.shape, y), loc := g.loc[y := mem[k].blk], names := g.names[k := y]);
    }

    /** reiser4_tree_detach_node on the old root, and reiser4_tree_assign_root
        with the new one. */
    method SwapRoot(r: Id, k: Id)
      requires r in mem && k in mem
      modifies this`nodes, this`root, this`rootBlk, this`height
      ensures nodes == (old(nodes) - {mem[r].blk})[mem[k].blk := k] && root == Some(k)
      ensures height == mem[k].level && rootBlk == mem[k].blk
    {
      nodes, root, rootBlk := nodes - {mem[r].blk}, None, INVAL_BLK;
      nodes, root := nodes[mem[k].blk := k], Some(k);
      height, rootBlk := mem[k].level, mem[k].blk;
    }

    /** reiser4_tree_attach_node. */
    method AttachRoot(r: Id, k: Id)
      requires r in mem && k in mem && r != k
      modifies this`mem, this`nodes
      ensures mem == old(mem)[r := old(mem[r]).(p := Place(k, 0))]
        [k := old(mem[k]).(items := [Branch(old(mem[r].blk))], dirty := true, counter := old(mem[k].counter) + 1)]
      ensures nodes == old(nodes)[old(mem[r].blk) := r]
    {
      mem := mem[r := mem[r].(p := Place(k, 0))]
                [k := mem[k].(items := [Branch(mem[r].blk)], dirty := true, counter := mem[k].counter + 1)];
      nodes := nodes[mem[r].blk := r];
    }

    /** reiser4_tree_growup.  The tree gets one level more; its content stays
        and one block is taken off the free count. */
    method Growup(created: bool, pressure: bool) returns (ok: bool, ghost y: Name)
      requires Valid() && RootNamed(S()) && root.Some? && fakeGen + 1 < FAKE_ROOM - 1
      modifies this
      ensures Valid() && RootNamed(S()) && root.Some?
      ensures ok <==> old(free) > 0 && created
      ensures ok ==> height == old(height) + 1 && free == old(free) - 1
      ensures ok ==> y !in old(g.shape.nodes) && g.shape == GrownShape(old(g.shape), y)
      ensures ok ==> Content(g.shape, g.shape.top, 0) == old(Content(g.shape, g.shape.top, 0))
      ensures ok ==> root.value in g.pins && g.pins[root.value] == 0
      ensures !ok ==> g.shape == old(g.shape) && height == old(height)
    {
      ghost var s0 := S();
      assert NodeOk(s0, root.value);
      NamesLive(s0);
      var new_root := AllocNode(height + 1, created);
      ok, y := new_root.Some?, 0;
      if !ok { return; }
      var r := root.value;
      y := RaiseRoot(r, new_root.value, pressure);
    }

    /** The unattached node k becomes the root above r; memory pressure may
        strike when r is connected again. */
    method RaiseRoot(r: Id, k: Id, pressure: bool) returns (ghost y: Name)
      requires Valid() && root == Some(r) && r in mem && k in mem && k !in g.names && mem[k].p == NoPlace
      requires FakeAck(mem[k].blk) && mem[k].level == mem[r].level + 1
      modifies this`mem, this`nodes, this`root, this`rootBlk, this`height, this`used, this`disk, this`adjusting, this`g
      ensures Valid() && RootNamed(S()) && root == Some(k) && k in g.pins && k in old(g.pins) &&
        g.pins[k] == old(g.pins[k])
      ensures y !in old(g.shape.nodes) && g.shape == GrownShape(old(g.shape), y)
      ensures Content(g.shape, g.shape.top, 0) == old(Content(g.shape, g.shape.top, 0))
    {
      y := PutAbove(r, k);
      if pressure { AdjustPinned(r); }
      assert NodeOk(S(), k);
    }

    method PutAbove(r: Id, k: Id) returns (ghost y: Name)
      requires Valid() && root == Some(r) && r in mem && k in mem && k !in g.names && mem[k].p == NoPlace
      requires FakeAck(mem[k].blk) && mem[k].level == mem[r].level + 1
      modifies this`mem, this`nodes, this`root, this`rootBlk, this`height, this`g
      ensures Valid() && RootNamed(S()) && root == Some(k) && g.pins == old(g.pins) && NodeOk(S(), r)
      ensures height == old(mem[k].level)
      ensures y !in old(g.shape.nodes) && g.shape == GrownShape(old(g.shape), y)
      ensures Content(g.shape, g.shape.top, 0) == old(Content(g.shape, g.shape.top, 0))
    {
      ghost var s1 := S();
      y := FreshName(g.shape.nodes.Keys);
      GrowKeeps(s1, r, k, y);
      assert nodes[mem[k].blk := k] == (nodes - {mem[r].blk})[mem[k].blk := k][mem[r].blk := r] by {
        assert SameBlk(s1, r, k) ==> r == k;
        assert HashOk(s1, r);
      }
      assert NodeOk(s1, r);
      Hoist(r, k, y);
      assert NodeOk(S(), r);
    }

    /** The heart of reiser4_tree_dryout: the child m is detached, the empty
        old root r is discarded with its block, and m is the root. */
    method Sink(r: Id, m: Id)
      requires r in mem && m in mem && m in g.names && r != m
      requires nodes - {mem[r].blk} == (nodes - {mem[m].blk} - {mem[r].blk})[mem[m].blk := m]
      modifies this`mem, this`nodes, this`root, this`rootBlk, this`used, this`free, this`g
      ensures S() == Dried(old(S()), r, m) && mem.Keys == old(mem.Keys) - {r}
    {
      // reiser4_tree_detach_node on m, which empties r
      nodes := nodes - {mem[m].blk};
      // reiser4_tree_discard_node on r
      nodes, root, rootBlk := nodes - {mem[r].blk}, None, INVAL_BLK;
      used := if FakeAck(mem[r].blk) then used else used - {mem[r].blk};
      free := free + 1;
      // reiser4_tree_assign_root up to the hash table
      nodes, root := nodes[mem[m].blk := m], Some(m);
      mem := mem[m := mem[m].(p := NoPlace)] - {r};
      g := g.(shape := DriedShape(g.shape, g.names[m]), loc := g.loc - {g.shape.top},
              names := g.names - {r}, pins := g.pins - {r});
    }

    /** The end of reiser4_tree_assign_root. */
    method NameRoot(m: Id)
      requires Valid() && root == Some(m) && m in mem
      modifies this`rootBlk, this`height
      ensures Valid() && S() == Named(old(S()), m) && RootNamed(S())
    {
      NameKeeps(S(), m);
      height, rootBlk := mem[m].level, mem[m].blk;
    }

    /** reiser4_tree_dryout on a root that holds one branch item and that
        nobody else has locked.  The tree loses one level; its content stays
        and the old root's block is free again. */
    method Dryout(loadPressure: bool, pressure: bool, ghost c: Name) returns (ok: bool)
      requires Valid() && RootNamed(S()) && root.Some? && root.value in g.pins && g.pins[root.value] == 0
      requires Singular(g.shape, c)
      modifies this
      ensures Valid() && RootNamed(S())
      ensures ok <==> old(height) > 2
      ensures !ok ==> S() == old(S())
      ensures ok ==> height == old(height) - 1 >= 2 && free == old(free) + 1
      ensures ok ==> g.shape == DriedShape(old(g.shape), c)
      ensures ok ==> Content(g.shape, g.shape.top, 0) == old(Content(g.shape, g.shape.top, 0))
    {
      if height <= 2 { return false; }
      var r := root.value;
      assert NodeOk(S(), r);
      assert HasLink(g.shape, g.shape.top, 0, c) && OnlyLink(g.shape, g.shape.top, 0, c);
      assert mem[r].items[0] == Phys1(LBranch(c), g.loc);
      var m := LoadNode(r, mem[r].items[0].down, loadPressure, c);
      assert NodeOk(S(), r);
      LowerRoot(r, m, pressure);
      ok := true;
    }

    /** The only child m of the root r takes its place; memory pressure may
        strike when m is connected again. */
    method LowerRoot(r: Id, m: Id, pressure: bool)
      requires Valid() && root == Some(r) && NodeOk(S(), m) && r in g.names && r in mem && m != r
      requires r in g.pins && g.pins[r] == 0 && Singular(g.shape, g.names[m])
      modifies this`mem, this`nodes, this`root, this`rootBlk, this`height, this`used, this`free, this`disk
      modifies this`adjusting, this`g
      ensures Valid() && RootNamed(S()) && free == old(free) + 1
      ensures g.shape == DriedShape(old(g.shape), old(g.names[m]))
      ensures Content(g.shape, g.shape.top, 0) == old(Content(g.shape, g.shape.top, 0))
    {
      TakeOff(r, m);
      if pressure { AdjustPinned(m); }
      NameRoot(m);
    }

    method TakeOff(r: Id, m: Id)
      requires Valid() && root == Some(r) && NodeOk(S(), m) && r in g.names && r in mem && m != r
      requires r in g.pins && g.pins[r] == 0 && Singular(g.shape, g.names[m])
      modifies this`mem, this`nodes, this`root, this`rootBlk, this`used, this`free, this`g
      ensures Valid() && root == Some(m) && NodeOk(S(), m) && free == old(free) + 1
      ensures g.shape == DriedShape(old(g.shape), old(g.names[m]))
      ensures Content(g.shape, g.shape.top, 0) == old(Content(g.shape, g.shape.top, 0))
    {
      ghost var s1 := S();
      DryKeeps(s1, r, m);
      assert nodes - {mem[r].blk} == (nodes - {mem[m].blk} - {mem[r].blk})[mem[m].blk := m] by {
        assert SameBlk(s1, r, m) ==> r == m;
        assert HashOk(s1, m);
      }
      Sink(r, m);
      assert NodeOk(S(), m);
    }

    /** Growing and then drying gives back the tree, its height and the free
        count, whatever memory pressure does in between. */
    method GrowThenDry(growPressure: bool, loadPressure: bool, dryPressure: bool)
      requires Valid() && RootNamed(S()) && root.Some? && fakeGen + 1 < FAKE_ROOM - 1
      requires free > 0 && height >= 2
      modifies this
      ensures Valid() && RootNamed(S())
      ensures g.shape == old(g.shape) && height == old(height) && free == old(free)
    {
      ghost var sh := g.shape;
      var ok, y := Growup(true, growPressure);
      DryUndoesGrow(sh, y);
      ok := Dryout(loadPressure, dryPressure, sh.top);
    }

    // -------------------------------------------------------------- shifting

    /** reiser4_tree_update_node: every loaded child behind the items
        [start, end) of n hands its lock over to n and remembers its place in
        n.  The bounds are bytes in the source. */
    method UpdateNode(n: Id, start: nat)
      requires n in mem && start <= |mem[n].items| <= 255
      requires LocksOk(S()) && Bindable(S(), n) && forall b :: b in nodes ==> EntryOk(S(), b)
      modifies this`mem
      ensures n in mem && mem[n].items == old(mem[n].items) && Progress(old(S()), S(), n, start, |mem[n].items|)
    {
      ghost var s0 := S();
      var i := start;
      while i < |mem[n].items|
        invariant n in mem && mem[n].items == s0.mem[n].items
        invariant start <= i <= |mem[n].items| && Progress(s0, S(), n, start, i)
      {
        BindChild(n, s0, start, i);
        i := i + 1;
      }
    }

    /** The child behind item i, if it is loaded, is bound to n. */
    method BindChild(n: Id, ghost s0: State, ghost start: nat, i: nat)
      requires n in mem && n in s0.mem && mem[n].items == s0.mem[n].items && start <= i < |mem[n].items| <= 255
      requires Bindable(s0, n) && (forall b :: b in s0.nodes ==> EntryOk(s0, b)) && Progress(s0, S(), n, start, i)
      modifies this`mem
      ensures n in mem && mem[n].items == s0.mem[n].items && Progress(s0, S(), n, start, i + 1)
    {
      if mem[n].items[i].Branch? && mem[n].items[i].down in nodes {
        ghost var s1 := S();
        var c := nodes[mem[n].items[i].down];
        assert EntryOk(s0, mem[n].items[i].down);
        assert LinkedIn(s0, n, 0, |s0.mem[n].items|, c);
        assert LinkedIn(s0, n, start, i, c) ==> BoundTo(s1, n, c);
        var pos := FindChildPos(n, mem[c].blk);
        RebindProgress(s0, s1, n, start, i, c, pos.value);
        mem := Rebound(mem, n, c, pos.value);
      } else {
        SkipProgress(s0, S(), n, start, i);
      }
    }

    /** reiser4_tree_shift to the left: the first k items of nr go to the end
        of its left neighbour nl, and the parent places of the loaded children
        are repaired in both.  Counters, places and content are right again. */
    method ShiftLeft(nl: Id, nr: Id, k: nat)
      requires Valid() && NodeOk(S(), nl) && NodeOk(S(), nr) && nl != nr
      requires mem[nl].level == mem[nr].level && k <= |mem[nr].items|
      requires |mem[nl].items| + |mem[nr].items| <= 255
      modifies this`mem, this`g
      ensures Valid() && g.names == old(g.names) && g.loc == old(g.loc) && g.pins == old(g.pins)
      ensures mem.Keys == old(mem.Keys) && mem[nl].items == old(mem[nl].items + mem[nr].items[..k])
      ensures mem[nr].items == old(mem[nr].items[k..])
      ensures g.shape == ShiftedShape(old(g.shape), g.names[nl], g.names[nr], old(|mem[nl].items|) + k)
      ensures Content(g.shape, g.names[nl], 0) + Content(g.shape, g.names[nr], 0)
           == old(Content(g.shape, g.names[nl], 0) + Content(g.shape, g.names[nr], 0))
    {
      Shift(nl, nr, |mem[nl].items| + k, true);
      LeftDealt(old(mem[nl].items), old(mem[nr].items), k);
    }

    /** reiser4_tree_shift to the right: the last k items of nl go to the front
        of its right neighbour nr.  What stays in nl stays at its places, so
        only the children behind nr are repaired. */
    method ShiftRight(nl: Id, nr: Id, k: nat)
      requires Valid() && NodeOk(S(), nl) && NodeOk(S(), nr) && nl != nr
      requires mem[nl].level == mem[nr].level && k <= |mem[nl].items|
      requires |mem[nl].items| + |mem[nr].items| <= 255
      modifies this`mem, this`g
      ensures Valid() && g.names == old(g.names) && g.loc == old(g.loc) && g.pins == old(g.pins)
      ensures mem.Keys == old(mem.Keys) && mem[nl].items == old(mem[nl].items[..|mem[nl].items| - k])
      ensures mem[nr].items == old(mem[nl].items[|mem[nl].items| - k..] + mem[nr].items)
      ensures g.shape == ShiftedShape(old(g.shape), g.names[nl], g.names[nr], old(|mem[nl].items|) - k)
      ensures Content(g.shape, g.names[nl], 0) + Content(g.shape, g.names[nr], 0)
           == old(Content(g.shape, g.names[nl], 0) + Content(g.shape, g.names[nr], 0))
    {
      Shift(nl, nr, |mem[nl].items| - k, false);
      RightDealt(old(mem[nl].items), old(mem[nr].items), k);
    }

    /** Items move, and the places of children are repaired in the right node
        and, in a shift to the left, in the left one from its last old item
        on. */
    method Shift(nl: Id, nr: Id, cut: nat, left: bool)
      requires Valid() && CanShift(S(), nl, nr, cut) && |mem[nl].items| + |mem[nr].items| <= 255
      requires if left then |mem[nl].items| <= cut else cut <= |mem[nl].items|
      modifies this`mem, this`g
      ensures Valid() && Shifted(old(S()), S(), nl, nr, cut)
    {
      ghost var s0 := S();
      var start := if |mem[nl].items| > 0 then |mem[nl].items| - 1 else 0;
      ShiftReady(s0, nl, nr, cut);
      MoveItems(nl, nr, cut);
      if left { RepairLeft(s0, nl, nr, cut, start); } else { RepairRight(s0, nl, nr, cut); }
    }

    /** reiser4_tree_update_node for both nodes. */
    method RepairLeft(ghost s0: State, nl: Id, nr: Id, ghost cut: nat, start: nat)
      requires CanShift(s0, nl, nr, cut) && S() == Moved(s0, nl, nr, cut)
      requires start <= |s0.mem[nl].items| && start <= |mem[nl].items| <= 255 && |mem[nr].items| <= 255
      requires LocksOk(S()) && Bindable(S(), nl) && Bindable(S(), nr) && forall b :: b in nodes ==> EntryOk(S(), b)
      modifies this`mem
      ensures Shifted(s0, S(), nl, nr, cut)
    {
      ghost var w := S();
      UpdateNode(nl, start);
      ghost var t := S();
      ShiftHalfway(w, t, nl, nr, start);
      UpdateNode(nr, 0);
      ShiftDone(s0, t, S(), nl, nr, cut, start);
    }

    /** reiser4_tree_update_node for the right node only. */
    method RepairRight(ghost s0: State, nl: Id, nr: Id, ghost cut: nat)
      requires CanShift(s0, nl, nr, cut) && S() == Moved(s0, nl, nr, cut)
      requires cut <= |s0.mem[nl].items| && |mem[nl].items| <= 255 && |mem[nr].items| <= 255
      requires LocksOk(S()) && Bindable(S(), nl) && Bindable(S(), nr) && forall b :: b in nodes ==> EntryOk(S(), b)
      modifies this`mem
      ensures Shifted(s0, S(), nl, nr, cut)
    {
      ghost var w := S();
      assert Progress(w, w, nl, cut, |w.mem[nl].items|);
      UpdateNode(nr, 0);
      ShiftDone(s0, w, S(), nl, nr, cut, cut);
    }

    /** reiser4_node_shift */
    method MoveItems(nl: Id, nr: Id, cut: nat)
      requires NodeOk(S(), nl) && NodeOk(S(), nr) && cut <= |mem[nl].items| + |mem[nr].items|
      modifies this`mem, this`g
      ensures S() == Moved(old(S()), nl, nr, cut)
    {
      var all := mem[nl].items + mem[nr].items;
      mem := mem[nl := mem[nl].(items := all[..cut], dirty := true)]
                [nr := mem[nr].(items := all[cut..], dirty := true)];
      g := g.(shape := ShiftedShape(g.shape, g.names[nl], g.names[nr], cut));
    }
  }

  lemma LeftDealt(a: seq<Item>, b: seq<Item>, k: nat)
    requires k <= |b|
    ensures (a + b)[..|a| + k] == a + b[..k] && (a + b)[|a| + k..] == b[k..]
  {
  }

  lemma RightDealt(a: seq<Item>, b: seq<Item>, k: nat)
    requires k <= |a|
    ensures (a + b)[..|a| - k] == a[..|a| - k] && (a + b)[|a| - k..] == a[|a| - k..] + b
  {
  }

  /** An unlocked, written node leaves: nothing outside its subtree changes. */
  lemma LeaveFrame(s: State, w: State, n: Id)
    requires CanUnload(w, n) && NodeOk(s, n) && ParentOk(s, n) && s.pins.Keys == s.mem.Keys && s.pins[n] == 0
    requires w == s || w == Written(s, n)
    ensures Frame(s, Unloaded(w, n), s.names[n])
  {
    var t := Unloaded(w, n);
    var y := s.names[n];
    assert Below(s.shape, y, y);
    forall m ensures NodeFrame(s, t, y, m) {
      if m in s.mem && m != n && m !in s.names { UnloadFields(w, n, m); }
    }
    forall x ensures LocFrame(s, t, y, x) {}
  }

  /** After the last node of a settled subtree has left, it is still settled. */
  lemma LeaveSettled(s: State, t: State, n: Id)
    requires WellShaped(s.shape) && MemOk(s) && BlocksOk(s)
    requires NodeOk(s, n) && !FakeAck(s.mem[n].blk) && n in s.pins && s.pins[n] == 0
    requires t.shape == s.shape && t.loc == s.loc && t.names == s.names - {n} && t.pins == s.pins - {n}
    requires SettledUpTo(s, s.names[n], |s.shape.nodes[s.names[n]].items|)
    ensures Settled(t, s.names[n])
  {
    var y := s.names[n];
    assert !Connected(t, y) by {
      forall m | m in t.names ensures t.names[m] != y {
        if t.names[m] == y { SameName(s, n, m); }
      }
    }
    assert SettledAt(t, y);
    forall j: nat, c: Name | j < |s.shape.nodes[y].items| && HasLink(t.shape, y, j, c) ensures Settled(t, c) {
      assert HasLink(s.shape, y, j, c);
      ParentNotBelow(s.shape, y, j, c);
      assert Settled(s, c);
      forall x | Below(t.shape, x, c) ensures SettledAt(t, x) {
        assert SettledAt(s, x);
        if Connected(t, x) {
          assert Connected(s, x) by { var k :| k in t.names && t.names[k] == x; assert s.names[k] == x; }
          var m :| m in s.names && m in s.pins && s.pins[m] > 0 && Below(s.shape, s.names[m], x);
          assert m in t.names && t.pins[m] > 0;
        }
      }
    }
    SettledJoin(t, y);
  }

  /** Without a loaded root nothing is loaded. */
  lemma NoRootNoNodes(s: State)
    requires Inv(s) && s.root == None
    ensures !Connected(s, s.shape.top)
  {
    forall n | n in s.names ensures s.names[n] != s.shape.top { assert ParentOk(s, n); }
  }

  /** A settled tree without pins has an empty cache and lies on the device. */
  lemma AllSettled(s: State, t: State)
    requires Inv(s) && Inv(t) && Frame(s, t, s.shape.top) && Settled(t, t.shape.top)
    requires forall n :: n in s.pins ==> s.pins[n] == 0
    ensures t.nodes == map[] && t.root == None && forall x :: x in t.shape.nodes ==> OnDisk(t, x)
  {
    forall m | m in t.names ensures m in t.pins && t.pins[m] == 0 {
      assert NodeOk(t, m) && NodeFrame(s, t, s.shape.top, m);
    }
    forall x | x in t.shape.nodes ensures !Connected(t, x) && OnDisk(t, x) {
      BelowTop(t.shape, x);
      assert SettledAt(t, x);
      assert !PinnedUnder(t, x);
    }
    forall n | n in t.names ensures t.names[n] in t.shape.nodes && t.names[n] in t.names.Values { assert NodeOk(t, n); }
    assert forall n :: n !in t.names;
    forall b | b in t.nodes ensures t.nodes[b] in t.names { assert EntryOk(t, b); }
    assert t.nodes == map[];
  }

  /** A change made under an extra pin, seen without that pin. */
  lemma UnpinFrame(s: State, w: State, c: Id)
    requires NodeOk(s, c) && NodeOk(w, c) && c in s.pins && c in w.pins && w.pins[c] > 0
    requires Frame(Pinned(s, c, 1), w, s.shape.top)
    ensures Frame(s, Pinned(w, c, -1), s.shape.top)
  {
    var t := Pinned(w, c, -1);
    forall m ensures NodeFrame(s, t, s.shape.top, m) { assert NodeFrame(Pinned(s, c, 1), w, s.shape.top, m); }
    forall x ensures LocFrame(s, t, s.shape.top, x) { assert LocFrame(Pinned(s, c, 1), w, s.shape.top, x); }
  }

  lemma PinsKept(s: State, t: State)
    requires Frame(s, t, s.shape.top) && t.pins.Keys == t.mem.Keys
    ensures forall m :: m in t.pins ==> m in s.pins && t.pins[m] == s.pins[m]
  {
    forall m | m in t.pins ensures m in s.pins && t.pins[m] == s.pins[m] { assert NodeFrame(s, t, s.shape.top, m); }
  }

  /** While a node is in the cache, so is the root. */
  lemma RootStays(s: State, t: State, c: Id)
    requires Inv(s) && Inv(t) && Frame(s, t, s.shape.top) && NodeOk(t, c) && s.root.Some?
    ensures t.root == s.root
  {
    assert t.names[c] in t.names.Values;
    BelowTop(t.shape, t.names[c]);
    ConnectedUp(t, t.names[c], t.shape.top);
    var r :| r in t.names && t.names[r] == t.shape.top;
    assert ParentOk(t, r);
    assert NodeFrame(s, t, s.shape.top, r);
    SameName(s, r, s.root.value);
  }
}

/** What the pre-order/post-order walk over the cache achieves, stated between
    two states of the cache. */
module CacheWalk {
  import opened Common
  import opened CacheState
  import opened CacheSteps

  /** Some pinned node lies below x. */
  ghost predicate PinnedUnder(s: State, x: Name) {
    exists n :: n in s.names && n in s.pins && s.pins[n] > 0 && Below(s.shape, s.names[n], x)
  }

  ghost predicate SettledAt(s: State, x: Name) {
    x in s.loc && !FakeAck(s.loc[x]) && (Connected(s, x) ==> PinnedUnder(s, x))
  }

  /** The subtree of y is on real blocks, and only pinned nodes and their
      ancestors are still in the cache. */
  ghost predicate Settled(s: State, y: Name) {
    forall x {:trigger SettledAt(s, x)} :: Below(s.shape, x, y) ==> SettledAt(s, x)
  }

  ghost predicate NodeFrame(s: State, t: State, y: Name, n: Id) {
    && (n in t.names ==> n in s.names && t.names[n] == s.names[n])
    && (n in s.names && (!Below(s.shape, s.names[n], y) || (n in s.pins && s.pins[n] > 0)) ==> n in t.names)
    && (n in t.mem ==> n in s.mem && n in s.pins && n in t.pins && t.pins[n] == s.pins[n])
    && (n in s.mem && n !in s.names ==> n in t.mem && t.mem[n] == s.mem[n])
  }

  ghost predicate LocFrame(s: State, t: State, y: Name, x: Name) {
    && (x in s.loc <==> x in t.loc)
    && (x in s.loc && (!Below(s.shape, x, y) || !FakeAck(s.loc[x])) ==> t.loc[x] == s.loc[x])
  }

  /** From s to t only the cache of the subtree of y changed, no pinned node
      left it, and no node changed its content or a real number. */
  ghost predicate Frame(s: State, t: State, y: Name) {
    && t.shape == s.shape && t.len == s.len && t.free == s.free && t.lost == s.lost
    && t.fakeGen == s.fakeGen && t.height == s.height && s.used <= t.used
    && (forall n {:trigger NodeFrame(s, t, y, n)} :: NodeFrame(s, t, y, n))
    && (forall x {:trigger LocFrame(s, t, y, x)} :: LocFrame(s, t, y, x))
    && KeepsRoot(s, t)
  }

  /** The superblock goes on naming the root, or goes on naming nothing. */
  ghost predicate KeepsRoot(s: State, t: State) {
    && (s.rootBlk == INVAL_BLK ==> t.rootBlk == INVAL_BLK)
    && (RootNamed(s) ==> RootNamed(t))
  }

  lemma FrameSelf(s: State, y: Name)
    requires s.pins.Keys == s.mem.Keys
    ensures Frame(s, s, y)
  {
  }

  lemma FrameTrans(s: State, t: State, u: State, z: Name, y: Name)
    requires WellShaped(s.shape) && Frame(s, t, y) && Frame(t, u, z)
    requires Below(s.shape, z, y)
    requires s.pins.Keys == s.mem.Keys && t.pins.Keys == t.mem.Keys
    requires forall n :: n in t.names ==> n in t.mem
    ensures Frame(s, u, y)
  {
    forall n ensures NodeFrame(s, u, y, n) {
      assert NodeFrame(s, t, y, n) && NodeFrame(t, u, z, n);
      if n in s.names && Below(s.shape, s.names[n], z) { BelowTrans(s.shape, s.names[n], z, y); }
    }
    forall x ensures LocFrame(s, u, y, x) {
      assert LocFrame(s, t, y, x) && LocFrame(t, u, z, x);
      if Below(s.shape, x, z) { BelowTrans(s.shape, x, z, y); }
    }
  }

  /** A settled subtree stays settled while only a disjoint one is changed. */
  lemma SettledStable(s: State, t: State, y: Name, z: Name)
    requires WellShaped(s.shape) && Settled(s, y) && Frame(s, t, z)
    requires s.pins.Keys == s.mem.Keys && t.pins.Keys == t.mem.Keys
    requires forall n :: n in s.names ==> n in s.mem
    requires forall n :: n in t.names ==> n in t.mem
    requires forall x :: Below(s.shape, x, y) ==> !Below(s.shape, x, z)
    ensures Settled(t, y)
  {
    forall x | Below(t.shape, x, y) ensures SettledAt(t, x) {
      assert SettledAt(s, x) && LocFrame(s, t, z, x);
      if Connected(t, x) {
        var n :| n in t.names && t.names[n] == x;
        assert NodeFrame(s, t, z, n);
        assert s.names[n] == x;
        var m :| m in s.names && m in s.pins && s.pins[m] > 0 && Below(s.shape, s.names[m], x);
        BelowTrans(s.shape, s.names[m], x, y);
        assert NodeFrame(s, t, z, m);
        assert m in t.names && t.pins[m] > 0;
      }
    }
  }

  /** Removing a pin from a node outside the subtree does not unsettle it. */
  lemma SettledUnpin(s: State, t: State, y: Name, n: Id)
    requires Settled(s, y) && t.shape == s.shape && t.names == s.names && t.loc == s.loc
    requires forall m :: m in s.names && m in s.pins && m != n ==> m in t.pins && t.pins[m] == s.pins[m]
    requires n in s.names && n in t.pins && n in s.pins
    requires forall x :: Below(s.shape, x, y) ==> !Below(s.shape, s.names[n], x)
    ensures Settled(t, y)
  {
    forall x | Below(t.shape, x, y) ensures SettledAt(t, x) {
      assert SettledAt(s, x);
      if Connected(t, x) {
        assert Connected(s, x);
        var m :| m in s.names && m in s.pins && s.pins[m] > 0 && Below(s.shape, s.names[m], x);
        assert m != n;
      }
    }
  }

  /** A child's subtree does not contain the parent. */
  lemma ParentNotBelow(sh: Shape, y: Name, i: nat, c: Name)
    requires WellShaped(sh) && HasLink(sh, y, i, c)
    ensures forall x :: Below(sh, x, c) ==> !Below(sh, y, x)
  {
    assert OnlyLink(sh, y, i, c);
  }

  /** The subtrees of two children are disjoint. */
  lemma ChildrenDisjoint(sh: Shape, y: Name, i: nat, c: Name, j: nat, d: Name)
    requires WellShaped(sh) && HasLink(sh, y, i, c) && HasLink(sh, y, j, d) && i != j
    ensures forall x :: Below(sh, x, c) ==> !Below(sh, x, d)
  {
    assert OnlyLink(sh, y, i, c) && OnlyLink(sh, y, j, d);
    forall x | Below(sh, x, c) ensures !Below(sh, x, d) {
      if Below(sh, x, d) { BelowUnique(sh, x, c, d); }
    }
  }

  /** All children of y in slots before i are settled. */
  ghost predicate SettledUpTo(s: State, y: Name, i: nat) {
    forall j: nat, c: Name {:trigger HasLink(s.shape, y, j, c)} :: j < i && HasLink(s.shape, y, j, c) ==> Settled(s, c)
  }

  /** With all children settled, the links of y are real. */
  lemma SettledLinks(s: State, n: Id)
    requires WellShaped(s.shape) && NodeOk(s, n) && LocOk(s)
    requires SettledUpTo(s, s.names[n], |s.shape.nodes[s.names[n]].items|)
    ensures RealImage(Image(s.mem[n].level, s.mem[n].items))
  {
    var its := s.shape.nodes[s.names[n]].items;
    forall i | 0 <= i < |s.mem[n].items| && s.mem[n].items[i].Branch?
      ensures !FakeAck(s.mem[n].items[i].down)
    {
      assert s.mem[n].items[i] == Phys1(its[i], s.loc);
      if its[i].LBranch? {
        var c := its[i].name;
        assert HasLink(s.shape, s.names[n], i, c);
        assert OnlyLink(s.shape, s.names[n], i, c);
        assert Below(s.shape, c, c);
        assert SettledAt(s, c);
      }
    }
  }

  /** With all children settled, y can only be locked by a pin below it. */
  lemma LockedIsPinned(s: State, n: Id)
    requires Inv(s) && NodeOk(s, n) && s.mem[n].counter > 0
    requires SettledUpTo(s, s.names[n], |s.shape.nodes[s.names[n]].items|)
    ensures PinnedUnder(s, s.names[n])
  {
    var y := s.names[n];
    assert LockOk(s, n) && NodeOk(s, n);
    if s.pins[n] > 0 {
      assert Below(s.shape, y, y);
    } else {
      assert Children(s, n) != {};
      var m :| m in Children(s, n);
      assert ParentOk(s, m);
      assert Hangs(s.shape, s.names[m]);
      var i := s.mem[m].p.pos;
      assert HasLink(s.shape, y, i, s.names[m]);
      BelowChild(s.shape, y, i, s.names[m]);
      assert Below(s.shape, s.names[m], s.names[m]);
      assert SettledAt(s, s.names[m]);
      var k :| k in s.names && k in s.pins && s.pins[k] > 0 && Below(s.shape, s.names[k], s.names[m]);
      BelowTrans(s.shape, s.names[k], s.names[m], y);
    }
  }

  /** A node whose children are settled and which is itself settled has a
      settled subtree. */
  lemma SettledJoin(s: State, y: Name)
    requires WellShaped(s.shape) && y in s.shape.nodes
    requires SettledUpTo(s, y, |s.shape.nodes[y].items|) && SettledAt(s, y)
    ensures Settled(s, y)
  {
    forall x | Below(s.shape, x, y) ensures SettledAt(s, x) {
      if x != y {
        var i, c := BelowSplit(s.shape, x, y);
        assert Settled(s, c);
      }
    }
  }

  // ------------------------------------------------------ one walk step

  lemma AdjustFrame(s: State, n: Id, b: Blk)
    requires CanAdjust(s, n, b) && NodeOk(s, n) && LinkedBy(s, n, s.mem[n].p)
    ensures var t := Adjusted(s, n, b);
      Frame(s, t, s.names[n]) && n in t.mem && t.mem[n].level == s.mem[n].level
  {
    var t := Adjusted(s, n, b);
    var y := s.names[n];
    assert Below(s.shape, y, y);
    AdjustFields(s, n, b, n);
    forall m ensures NodeFrame(s, t, y, m) {}
    forall x ensures LocFrame(s, t, y, x) {}
    AdjustRoot(s, n, b);
  }

  /** The item in slot i of a connected node, seen logically. */
  lemma LinkAt(s: State, n: Id, i: nat) returns (c: Name)
    requires WellShaped(s.shape) && LocOk(s) && NodeOk(s, n)
    requires i < |s.mem[n].items| && s.mem[n].items[i].Branch?
    ensures HasLink(s.shape, s.names[n], i, c) && OnlyLink(s.shape, s.names[n], i, c)
    ensures c in s.loc && s.loc[c] == s.mem[n].items[i].down
    ensures Below(s.shape, c, s.names[n]) && s.shape.nodes[c].level < s.mem[n].level
  {
    var its := s.shape.nodes[s.names[n]].items;
    assert s.mem[n].items[i] == Phys1(its[i], s.loc);
    c := its[i].name;
    assert HasLink(s.shape, s.names[n], i, c);
    BelowChild(s.shape, s.names[n], i, c);
  }

  /** Looking a block up in the hash table finds the node of that name. */
  lemma LookupFinds(s: State, c: Name)
    requires TableOk(s) && MemOk(s) && LocOk(s) && c in s.loc
    ensures s.loc[c] in s.nodes <==> Connected(s, c)
    ensures s.loc[c] in s.nodes ==> NodeOk(s, s.nodes[s.loc[c]]) && s.names[s.nodes[s.loc[c]]] == c
  {
    if s.loc[c] in s.nodes {
      assert EntryOk(s, s.loc[c]);
      var m := s.nodes[s.loc[c]];
      assert NodeOk(s, m);
      assert SameLoc(s, s.names[m], c);
    }
    if Connected(s, c) {
      var m :| m in s.names && s.names[m] == c;
      assert NodeOk(s, m) && HashOk(s, m);
    }
  }

  /** The ancestors of a connected node are connected. */
  lemma {:induction false} ConnectedUp(s: State, x: Name, y: Name)
    requires WellShaped(s.shape) && ParentsOk(s) && Connected(s, x) && Below(s.shape, x, y)
    ensures Connected(s, y)
    decreases s.shape.nodes[y].level - s.shape.nodes[x].level
  {
    if x != y {
      var n :| n in s.names && s.names[n] == x;
      assert ParentOk(s, n);
      if s.shape.nodes[x].level == s.shape.nodes[y].level { assert false; }
      var k: nat := s.shape.nodes[y].level - s.shape.nodes[x].level;
      assert Ancestor(s.shape, x, k) == Ancestor(s.shape, s.shape.up[x].parent, k - 1);
      assert Hangs(s.shape, x);
      var z := s.shape.up[x].parent;
      assert OnlyLink(s.shape, z, s.shape.up[x].pos, x);
      assert Connected(s, z);
      ConnectedUp(s, z, y);
    }
  }

  /** A subtree whose top is not loaded is on the device already. */
  lemma UnloadedSettled(s: State, c: Name)
    requires WellShaped(s.shape) && ParentsOk(s) && DiskOk(s) && c in s.shape.nodes && !Connected(s, c)
    ensures Settled(s, c)
  {
    forall x | Below(s.shape, x, c) ensures SettledAt(s, x) {
      if Connected(s, x) { ConnectedUp(s, x, c); }
      assert OnDisk(s, x);
    }
  }

  /** What a walk over the child c of n, made while n is pinned once more,
      leaves behind when that pin is gone. */
  lemma ChildWalked(s: State, w: State, n: Id, i: nat, c: Name)
    requires Inv(s) && Inv(w) && NodeOk(s, n) && n in s.pins && HasLink(s.shape, s.names[n], i, c)
    requires Frame(Pinned(s, n, 1), w, c)
    ensures NodeOk(w, n) && w.names[n] == s.names[n] && w.mem[n].level == s.mem[n].level
    ensures !FakeAck(s.mem[n].blk) ==> w.mem[n].blk == s.mem[n].blk
    ensures n in w.pins && w.pins[n] == s.pins[n] + 1
    ensures Frame(s, Pinned(w, n, -1), c)
  {
    var p := Pinned(s, n, 1);
    var y := s.names[n];
    BelowChild(s.shape, y, i, c);
    assert NodeFrame(p, w, c, n) && LocFrame(p, w, c, y);
    assert NodeOk(w, n);
    var t := Pinned(w, n, -1);
    forall m ensures NodeFrame(s, t, c, m) {
      assert NodeFrame(p, w, c, m);
    }
    forall x ensures LocFrame(s, t, c, x) { assert LocFrame(p, w, c, x); }
  }

  /** After the walk over child i the children up to and including i are
      settled. */
  lemma SettledNext(s: State, w: State, t: State, n: Id, i: nat, c: Name)
    requires WellShaped(s.shape) && NodeOk(s, n) && HasLink(s.shape, s.names[n], i, c)
    requires LocksOk(s) && MemOk(s) && LocksOk(t) && MemOk(t)
    requires Frame(s, t, c) && Settled(w, c) && SettledUpTo(s, s.names[n], i)
    requires n in w.pins && n in w.names && w.names[n] == s.names[n] && w.pins[n] > 0 && n in w.mem &&
      t == Pinned(w, n, -1)
    ensures SettledUpTo(t, s.names[n], i + 1)
  {
    var y := s.names[n];
    NamesLive(s);
    NamesLive(t);
    forall j: nat, d: Name | j < i + 1 && HasLink(t.shape, y, j, d) ensures Settled(t, d) {
      assert HasLink(s.shape, y, j, d);
      if j == i {
        ParentNotBelow(s.shape, y, i, c);
        SettledUnpin(w, t, c, n);
      } else {
        ChildrenDisjoint(s.shape, y, j, d, i, c);
        SettledStable(s, t, d, c);
      }
    }
  }
}

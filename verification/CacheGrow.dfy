/** Growing and drying the root, on the state of the cache. */
module CacheGrow {
  import opened Common
  import opened CacheState
  import opened CacheSteps

  /** Some name is not taken. */
  lemma {:induction false} FreshName(taken: set<Name>) returns (x: Name)
    ensures x !in taken
  {
    x := Above(taken);
  }

  lemma {:induction false} Above(taken: set<Name>) returns (x: Name)
    ensures forall y :: y in taken ==> y < x
    decreases taken
  {
    if taken == {} { x := 0; }
    else {
      var z :| z in taken;
      x := Above(taken - {z});
      if x <= z { x := z + 1; }
      assert forall y :: y in taken ==> y == z || y in taken - {z};
    }
  }

  // ------------------------------------------------------------- growing

  ghost function GrownShape(sh: Shape, y: Name): Shape
    requires sh.top in sh.nodes
  {
    Shape(sh.nodes[y := LNode(sh.nodes[sh.top].level + 1, [LBranch(sh.top)])], sh.up[sh.top := Slot(y, 0)], y)
  }

  lemma GrownWellShaped(sh: Shape, y: Name)
    requires WellShaped(sh) && y !in sh.nodes
    ensures WellShaped(GrownShape(sh, y))
  {
    var gr := GrownShape(sh, y);
    forall z | z in gr.up ensures Hangs(gr, z) { if z != sh.top { assert Hangs(sh, z); } }
    forall x, i, z | HasLink(gr, x, i, z) ensures OnlyLink(gr, x, i, z) {
      if x != y { assert HasLink(sh, x, i, z); assert OnlyLink(sh, x, i, z); }
    }
  }

  /** Content depends only on the nodes of the subtree. */
  lemma {:induction false} SameContent(sh: Shape, gr: Shape, x: Name, i: nat)
    requires WellShaped(sh) && x in sh.nodes
    requires forall z :: z in sh.nodes && Below(sh, z, x) ==> z in gr.nodes && gr.nodes[z] == sh.nodes[z]
    ensures Content(gr, x, i) == Content(sh, x, i)
    decreases sh.nodes[x].level, |sh.nodes[x].items| - i
  {
    assert Below(sh, x, x);
    var its := sh.nodes[x].items;
    if i < |its| {
      SameContent(sh, gr, x, i + 1);
      if its[i].LBranch? {
        var y := its[i].name;
        assert HasLink(sh, x, i, y);
        assert OnlyLink(sh, x, i, y);
        BelowChild(sh, x, i, y);
        forall z | z in sh.nodes && Below(sh, z, y)
          ensures z in gr.nodes && gr.nodes[z] == sh.nodes[z]
        {
          BelowTrans(sh, z, y, x);
        }
        SameContent(sh, gr, y, 0);
      }
    }
  }

  lemma GrownContent(sh: Shape, y: Name)
    requires WellShaped(sh) && y !in sh.nodes
    ensures Content(GrownShape(sh, y), y, 0) == Content(sh, sh.top, 0)
  {
    var gr := GrownShape(sh, y);
    SameContent(sh, gr, sh.top, 0);
    assert Content(gr, y, 1) == [];
    assert gr.nodes[y].items[0] == LBranch(sh.top);
    assert Content(gr, y, 0) == Content(gr, sh.top, 0) + Content(gr, y, 1);
  }

  /** reiser4_tree_growup once its new node k exists: k becomes the root and
      holds one branch item for the old root r. */
  ghost function Grown(s: State, r: Id, k: Id, y: Name): State
    requires s.shape.top in s.shape.nodes && s.shape.top in s.loc && r in s.mem && k in s.mem
  {
    s.(mem := s.mem[r := s.mem[r].(p := Place(k, 0))]
                   [k := s.mem[k].(items := [Branch(s.loc[s.shape.top])], dirty := true,
                                     counter := s.mem[k].counter + 1)],
       nodes := s.nodes[s.mem[k].blk := k],
       root := Some(k), rootBlk := s.mem[k].blk, height := s.mem[k].level,
       shape := GrownShape(s.shape, y),
       loc := s.loc[y := s.mem[k].blk], names := s.names[k := y])
  }

  ghost predicate CanGrow(s: State, r: Id, k: Id, y: Name) {
    && Inv(s) && s.root == Some(r) && r in s.mem
    && k in s.mem && k !in s.names && s.mem[k].p == NoPlace && FakeAck(s.mem[k].blk)
    && s.mem[k].level == s.mem[r].level + 1
    && y !in s.shape.nodes
  }

  lemma GrowMem(s: State, r: Id, k: Id, y: Name)
    requires WellShaped(s.shape) && TableOk(s) && LocOk(s) && MemOk(s) && RootOk(s) && BlocksOk(s) &&
      CanGrow(s, r, k, y)
    ensures TableOk(Grown(s, r, k, y)) && MemOk(Grown(s, r, k, y)) && LocOk(Grown(s, r, k, y))
  {
    var t := Grown(s, r, k, y);
    forall b | b in t.nodes ensures EntryOk(t, b) { if b != s.mem[k].blk { assert EntryOk(s, b); } }
    forall n | n in t.names ensures HashOk(t, n) && NodeOk(t, n) {
      if n != k {
        assert HashOk(s, n) && NodeOk(s, n);
        assert SameBlk(s, n, k) ==> n == k;
        GrowPhys(s, y, s.names[n], s.mem[k].blk);
      } else {
        assert NodeOk(s, r);
        var its := t.shape.nodes[y].items;
        assert t.mem[k].items == Phys(its, t.loc);
      }
    }
    forall x, z | SameLoc(t, x, z) ensures x == z {
      assert Apart(s, k, x) && Apart(s, k, z);
      if x != y && z != y { assert SameLoc(s, x, z); }
    }
  }

  lemma GrowPhys(s: State, y: Name, x: Name, b: Blk)
    requires WellShaped(s.shape) && y !in s.shape.nodes && x in s.shape.nodes
    ensures Phys(s.shape.nodes[x].items, s.loc[y := b]) == Phys(s.shape.nodes[x].items, s.loc)
  {
    var its := s.shape.nodes[x].items;
    forall i | 0 <= i < |its| ensures its[i] != LBranch(y) {
      assert HasLink(s.shape, x, i, y) ==> OnlyLink(s.shape, x, i, y);
    }
    PhysMoved(its, s.loc, y, b);
  }

  lemma GrowDisk(s: State, r: Id, k: Id, y: Name)
    requires WellShaped(s.shape) && DiskOk(s) && LocOk(s) && CanGrow(s, r, k, y)
    ensures DiskOk(Grown(s, r, k, y))
  {
    var t := Grown(s, r, k, y);
    forall x | OnDisk(s, x) ensures OnDisk(t, x) { GrowPhys(s, y, x, s.mem[k].blk); }
    forall x | x in t.shape.nodes && !Connected(t, x) ensures OnDisk(t, x) {
      assert t.names[k] == y;
      assert forall n :: n in s.names ==> t.names[n] == s.names[n];
      assert OnDisk(s, x);
    }
    forall n | n in t.names && n in t.mem && !t.mem[n].dirty
      ensures OnDisk(t, t.names[n])
    {
      assert OnDisk(s, s.names[n]);
    }
  }

  lemma GrowParents(s: State, r: Id, k: Id, y: Name)
    requires WellShaped(s.shape) && MemOk(s) && ParentsOk(s) && RootOk(s) && BlocksOk(s) && CanGrow(s, r, k, y)
    ensures ParentsOk(Grown(s, r, k, y)) && RootOk(Grown(s, r, k, y)) && RootNamed(Grown(s, r, k, y))
  {
    var t := Grown(s, r, k, y);
    forall n | n in t.names ensures ParentOk(t, n) {
      if n != k {
        assert ParentOk(s, n) && NodeOk(s, n);
        if s.names[n] == s.shape.top { SameName(s, n, r); }
      }
    }
    assert NodeOk(s, r);
  }

  lemma GrowLocks(s: State, r: Id, k: Id, y: Name)
    requires LocksOk(s) && MemOk(s) && ParentsOk(s) && RootOk(s) && CanGrow(s, r, k, y)
    ensures LocksOk(Grown(s, r, k, y))
  {
    var t := Grown(s, r, k, y);
    NamesLive(s);
    UnnamedNoChildren(s, k);
    assert ParentOk(s, r);
    forall m | m in t.mem ensures LockOk(t, m) {
      assert LockOk(s, m);
      if m == k { assert Children(t, k) == {r}; }
      else { assert Children(t, m) == Children(s, m); }
    }
  }

  lemma GrowBlocks(s: State, r: Id, k: Id, y: Name)
    requires BlocksOk(s) && SpaceOk(s) && MemOk(s) && CanGrow(s, r, k, y)
    ensures BlocksOk(Grown(s, r, k, y)) && SpaceOk(Grown(s, r, k, y))
  {
    var t := Grown(s, r, k, y);
    forall m | m in t.mem ensures GoodBlk(t, t.mem[m].blk) { assert GoodBlk(s, s.mem[m].blk); }
    forall x | x in t.loc
      ensures GoodBlk(t, t.loc[x])
    {
      if x != y { assert GoodBlk(s, s.loc[x]); } else { assert GoodBlk(s, s.mem[k].blk); }
    }
    forall m, j | SameBlk(t, m, j) ensures m == j { assert SameBlk(s, m, j); }
    forall m, x ensures Apart(t, m, x) { assert Apart(s, m, x); assert SameBlk(s, m, k) ==> m == k; }
    assert Fakes(t) == Fakes(s);
  }

  lemma GrowKeeps(s: State, r: Id, k: Id, y: Name)
    requires CanGrow(s, r, k, y)
    ensures Inv(Grown(s, r, k, y)) && RootNamed(Grown(s, r, k, y))
    ensures Content(Grown(s, r, k, y).shape, y, 0) == Content(s.shape, s.shape.top, 0)
  {
    assert NodeOk(s, r);
    GrownWellShaped(s.shape, y);
    GrownContent(s.shape, y);
    GrowMem(s, r, k, y);
    GrowDisk(s, r, k, y);
    GrowParents(s, r, k, y);
    GrowLocks(s, r, k, y);
    GrowBlocks(s, r, k, y);
  }

  // -------------------------------------------------------------- drying

  ghost function DriedShape(sh: Shape, c: Name): Shape {
    Shape(sh.nodes - {sh.top}, sh.up - {c}, c)
  }

  /** The root holds a single item, a branch to c. */
  ghost predicate Singular(sh: Shape, c: Name) {
    sh.top in sh.nodes && sh.nodes[sh.top].items == [LBranch(c)]
  }

  lemma DriedWellShaped(sh: Shape, c: Name)
    requires WellShaped(sh) && Singular(sh, c)
    ensures WellShaped(DriedShape(sh, c))
    ensures Content(DriedShape(sh, c), c, 0) == Content(sh, sh.top, 0)
  {
    var dr := DriedShape(sh, c);
    assert HasLink(sh, sh.top, 0, c);
    assert OnlyLink(sh, sh.top, 0, c);
    forall z | z in dr.up ensures Hangs(dr, z) {
      assert Hangs(sh, z);
      assert OnlyLink(sh, sh.up[z].parent, sh.up[z].pos, z);
    }
    forall x, i, z | HasLink(dr, x, i, z) ensures OnlyLink(dr, x, i, z) {
      assert HasLink(sh, x, i, z);
      assert OnlyLink(sh, x, i, z);
    }
    BelowChild(sh, sh.top, 0, c);
    forall z | z in sh.nodes && Below(sh, z, c) ensures z in dr.nodes && dr.nodes[z] == sh.nodes[z] {}
    SameContent(sh, dr, c, 0);
    assert Content(sh, sh.top, 1) == [];
    assert Content(sh, sh.top, 0) == Content(sh, c, 0) + Content(sh, sh.top, 1);
  }

  /** Drying undoes growing. */
  lemma DryUndoesGrow(sh: Shape, y: Name)
    requires WellShaped(sh) && y !in sh.nodes
    ensures Singular(GrownShape(sh, y), sh.top)
    ensures DriedShape(GrownShape(sh, y), sh.top) == sh
  {
    assert sh.nodes[y := LNode(sh.nodes[sh.top].level + 1, [LBranch(sh.top)])] - {y} == sh.nodes;
    assert sh.up[sh.top := Slot(y, 0)] - {sh.top} == sh.up;
  }

  /** reiser4_tree_dryout up to the point where the superblock names no root:
      the old root r is discarded and its only child m is the root. */
  ghost function Dried(s: State, r: Id, m: Id): State
    requires r in s.mem && m in s.mem && m in s.names
  {
    s.(mem := s.mem[m := s.mem[m].(p := NoPlace)] - {r},
       nodes := s.nodes - {s.mem[r].blk},
       root := Some(m), rootBlk := INVAL_BLK,
       used := if FakeAck(s.mem[r].blk) then s.used else s.used - {s.mem[r].blk},
       free := s.free + 1,
       shape := DriedShape(s.shape, s.names[m]),
       loc := s.loc - {s.shape.top}, names := s.names - {r}, pins := s.pins - {r})
  }

  ghost predicate CanDry(s: State, r: Id, m: Id) {
    && Inv(s) && s.root == Some(r) && r in s.mem && r in s.names && r in s.pins && s.pins[r] == 0
    && m in s.mem && m in s.names && m != r && Singular(s.shape, s.names[m])
  }

  lemma DryMem(s: State, r: Id, m: Id)
    requires WellShaped(s.shape) && TableOk(s) && LocOk(s) && MemOk(s) && BlocksOk(s) && RootOk(s) && CanDry(s, r, m)
    ensures TableOk(Dried(s, r, m)) && MemOk(Dried(s, r, m)) && LocOk(Dried(s, r, m))
  {
    var t := Dried(s, r, m);
    assert HashOk(s, r);
    forall b | b in t.nodes ensures EntryOk(t, b) { assert EntryOk(s, b); }
    forall n | n in t.names ensures HashOk(t, n) && NodeOk(t, n) {
      assert HashOk(s, n) && NodeOk(s, n);
      assert SameBlk(s, n, r) ==> n == r;
      if s.names[n] == s.shape.top { SameName(s, n, r); }
      DryPhys(s, s.names[n]);
    }
    forall x, z | SameLoc(t, x, z) ensures x == z { assert SameLoc(s, x, z); }
  }

  /** Nothing links to the top, so taking it away changes no stored item. */
  lemma DryPhys(s: State, x: Name)
    requires WellShaped(s.shape) && x in s.shape.nodes
    ensures Phys(s.shape.nodes[x].items, s.loc - {s.shape.top}) == Phys(s.shape.nodes[x].items, s.loc)
  {
    var its := s.shape.nodes[x].items;
    forall i | 0 <= i < |its| ensures its[i] != LBranch(s.shape.top) {
      assert HasLink(s.shape, x, i, s.shape.top) ==> OnlyLink(s.shape, x, i, s.shape.top);
    }
  }

  lemma DryDisk(s: State, r: Id, m: Id)
    requires WellShaped(s.shape) && DiskOk(s) && LocOk(s) && MemOk(s) && BlocksOk(s) && RootOk(s) && CanDry(s, r, m)
    ensures DiskOk(Dried(s, r, m))
  {
    var t := Dried(s, r, m);
    forall x | OnDisk(s, x) && x != s.shape.top ensures OnDisk(t, x) { DryPhys(s, x); }
    forall x | x in t.shape.nodes && !Connected(t, x) ensures OnDisk(t, x) {
      assert forall n :: n in s.names && n != r ==> t.names[n] == s.names[n];
      assert OnDisk(s, x);
    }
    forall n | n in t.names && n in t.mem && !t.mem[n].dirty ensures OnDisk(t, t.names[n]) {
      assert OnDisk(s, s.names[n]);
      if s.names[n] == s.shape.top { SameName(s, n, r); }
    }
  }

  lemma DryParents(s: State, r: Id, m: Id)
    requires WellShaped(s.shape) && MemOk(s) && ParentsOk(s) && RootOk(s) && LocOk(s) && BlocksOk(s) && CanDry(s, r, m)
    ensures ParentsOk(Dried(s, r, m)) && RootOk(Dried(s, r, m))
  {
    var t := Dried(s, r, m);
    var c := s.names[m];
    assert HasLink(s.shape, s.shape.top, 0, c);
    assert OnlyLink(s.shape, s.shape.top, 0, c);
    forall n | n in t.names ensures ParentOk(t, n) {
      assert ParentOk(s, n) && NodeOk(s, n);
      if s.names[n] == c { SameName(s, n, m); }
      else if s.names[n] == s.shape.top { SameName(s, n, r); }
      else {
        assert Hangs(s.shape, s.names[n]);
        assert OnlyLink(s.shape, s.shape.up[s.names[n]].parent, s.shape.up[s.names[n]].pos, s.names[n]);
      }
    }
    assert NodeOk(s, m);
  }

  lemma DryLocks(s: State, r: Id, m: Id)
    requires WellShaped(s.shape) && LocksOk(s) && MemOk(s) && ParentsOk(s) && RootOk(s) && BlocksOk(s) &&
      CanDry(s, r, m)
    ensures s.mem[r].counter == 1 && s.mem[m].p == Place(r, 0)
    ensures LocksOk(Dried(s, r, m))
  {
    var t := Dried(s, r, m);
    var c := s.names[m];
    assert HasLink(s.shape, s.shape.top, 0, c);
    assert OnlyLink(s.shape, s.shape.top, 0, c);
    NamesLive(s);
    assert ParentOk(s, m);
    SameName(s, s.mem[m].p.node, r);
    forall n | n in s.names && s.mem[n].p.Place? && s.mem[n].p.node == r ensures n == m {
      assert ParentOk(s, n);
      assert Hangs(s.shape, s.names[n]);
      SameName(s, n, m);
    }
    assert Children(s, r) == {m};
    assert LockOk(s, r) && ParentOk(s, r);
    forall n | n in t.mem ensures LockOk(t, n) {
      assert LockOk(s, n);
      assert Children(t, n) == Children(s, n);
    }
  }

  lemma DryBlocks(s: State, r: Id, m: Id)
    requires BlocksOk(s) && SpaceOk(s) && MemOk(s) && LocOk(s) && RootOk(s) && CanDry(s, r, m)
    ensures BlocksOk(Dried(s, r, m)) && SpaceOk(Dried(s, r, m))
  {
    var t := Dried(s, r, m);
    assert GoodBlk(s, s.mem[r].blk) && NodeOk(s, r);
    forall n | n in t.mem
      ensures GoodBlk(t, t.mem[n].blk)
    {
      assert GoodBlk(s, s.mem[n].blk);
      assert SameBlk(s, n, r) ==> n == r;
    }
    forall x | x in t.loc
      ensures GoodBlk(t, t.loc[x])
    {
      assert GoodBlk(s, s.loc[x]);
      assert SameLoc(s, x, s.shape.top) ==> x == s.shape.top;
    }
    forall n, j | SameBlk(t, n, j) ensures n == j { assert SameBlk(s, n, j); }
    forall n, x ensures Apart(t, n, x) { assert Apart(s, n, x); }
    assert Fakes(t) == Fakes(s) - {r};
    assert r in Fakes(s) <==> FakeAck(s.mem[r].blk);
  }

  lemma DryKeeps(s: State, r: Id, m: Id)
    requires CanDry(s, r, m)
    ensures s.mem[r].counter == 1 && s.mem[m].p == Place(r, 0)
    ensures Inv(Dried(s, r, m))
    ensures Content(Dried(s, r, m).shape, s.names[m], 0) == Content(s.shape, s.shape.top, 0)
  {
    DriedWellShaped(s.shape, s.names[m]);
    DryMem(s, r, m);
    DryDisk(s, r, m);
    DryParents(s, r, m);
    DryLocks(s, r, m);
    DryBlocks(s, r, m);
  }

  // ---------------------------------------------------------- other steps

  /** The superblock is told the root's number and level. */
  ghost function Named(s: State, r: Id): State
    requires r in s.mem
  {
    s.(rootBlk := s.mem[r].blk, height := s.mem[r].level)
  }

  lemma NameKeeps(s: State, r: Id)
    requires Inv(s) && s.root == Some(r) && r in s.mem
    ensures Inv(Named(s, r)) && RootNamed(Named(s, r))
  {
    var t := Named(s, r);
    assert NodeOk(s, r);
    forall b | b in t.nodes ensures EntryOk(t, b) { assert EntryOk(s, b); }
    forall n | n in t.names ensures HashOk(t, n) && NodeOk(t, n) && ParentOk(t, n) {
      assert HashOk(s, n) && NodeOk(s, n) && ParentOk(s, n);
    }
    forall x, y | SameLoc(t, x, y) ensures x == y { assert SameLoc(s, x, y); }
    forall x | x in t.shape.nodes && !Connected(t, x) ensures OnDisk(t, x) { assert OnDisk(s, x); }
    forall n | n in t.names && n in t.mem && !t.mem[n].dirty
      ensures OnDisk(t, t.names[n])
    {
      assert OnDisk(s, s.names[n]);
    }
    NameRest(s, r);
  }

  lemma NameRest(s: State, r: Id)
    requires LocksOk(s) && BlocksOk(s) && SpaceOk(s) && r in s.mem
    ensures LocksOk(Named(s, r)) && BlocksOk(Named(s, r)) && SpaceOk(Named(s, r))
  {
    var t := Named(s, r);
    SameLocks(s, t);
    forall n | n in t.mem ensures GoodBlk(t, t.mem[n].blk) { assert GoodBlk(s, s.mem[n].blk); }
    forall x | x in t.loc ensures GoodBlk(t, t.loc[x]) { assert GoodBlk(s, s.loc[x]); }
    forall n, m | SameBlk(t, n, m) ensures n == m { assert SameBlk(s, n, m); }
    forall n, x ensures Apart(t, n, x) { assert Apart(s, n, x); }
    assert Fakes(t) == Fakes(s);
  }

  /** A failed creation: the free count was lowered, no node appeared. */
  ghost function Lost(s: State): State
    requires s.free > 0
  {
    s.(free := s.free - 1, lost := s.lost + 1, fakeGen := s.fakeGen + 1)
  }

  /** Only the counters of the superblock and of fake.c move. */
  lemma LostKeeps(s: State, t: State)
    requires Inv(s) && s.fakeGen + 1 < FAKE_ROOM - 1
    requires (s.free > 0 && t == Lost(s)) || t == s.(fakeGen := s.fakeGen + 1)
    ensures Inv(t)
  {
    forall b | b in t.nodes ensures EntryOk(t, b) { assert EntryOk(s, b); }
    forall n | n in t.names ensures HashOk(t, n) && NodeOk(t, n) && ParentOk(t, n) {
      assert HashOk(s, n) && NodeOk(s, n) && ParentOk(s, n);
    }
    forall x, y | SameLoc(t, x, y) ensures x == y { assert SameLoc(s, x, y); }
    forall x | x in t.shape.nodes && !Connected(t, x) ensures OnDisk(t, x) { assert OnDisk(s, x); }
    forall n | n in t.names && n in t.mem && !t.mem[n].dirty
      ensures OnDisk(t, t.names[n])
    {
      assert OnDisk(s, s.names[n]);
    }
    LostRest(s, t);
  }

  lemma LostRest(s: State, t: State)
    requires LocksOk(s) && BlocksOk(s) && SpaceOk(s) && s.fakeGen + 1 < FAKE_ROOM - 1
    requires (s.free > 0 && t == Lost(s)) || t == s.(fakeGen := s.fakeGen + 1)
    ensures LocksOk(t) && BlocksOk(t) && SpaceOk(t)
  {
    SameLocks(s, t);
    forall n | n in t.mem ensures GoodBlk(t, t.mem[n].blk) { assert GoodBlk(s, s.mem[n].blk); }
    forall x | x in t.loc ensures GoodBlk(t, t.loc[x]) { assert GoodBlk(s, s.loc[x]); }
    forall n, m | SameBlk(t, n, m) ensures n == m { assert SameBlk(s, n, m); }
    forall n, x ensures Apart(t, n, x) { assert Apart(s, n, x); }
    assert Fakes(t) == Fakes(s);
  }
}

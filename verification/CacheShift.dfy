/** Moving items between two neighbouring nodes and repairing the parent
    places of the children that moved (reiser4_tree_shift and
    reiser4_tree_update_node). */
module CacheShift {
  import opened CacheState
  import opened CacheSteps
  import opened CacheGrow

  /** reiser4_tree_update_node for one child: the lock goes from the parent the
      child remembers to n, and the child remembers n.  A child that remembers
      no parent takes no lock. */
  function Rebound(mem: map<Id, Node>, n: Id, c: Id, pos: nat): map<Id, Node>
    requires c in mem
  {
    var relocked := if mem[c].p.Place? then Relocked(Relocked(mem, mem[c].p, -1), Place(n, pos), 1) else mem;
    relocked[c := relocked[c].(p := Place(n, pos))]
  }

  lemma ReboundFields(mem: map<Id, Node>, n: Id, c: Id, pos: nat, m: Id)
    requires c in mem && n in mem && m in mem && c != n && (mem[c].p.Place? ==> mem[c].p.node in mem)
    ensures Rebound(mem, n, c, pos).Keys == mem.Keys
    ensures var a, b := mem[m], Rebound(mem, n, c, pos)[m];
      && b == a.(p := b.p, counter := b.counter)
      && b.p == (if m == c then Place(n, pos) else a.p)
      && b.counter == a.counter
           - (if mem[c].p.Place? && mem[c].p.node == m then 1 else 0)
           + (if mem[c].p.Place? && n == m then 1 else 0)
  {
  }

  lemma ReboundChildren(s: State, n: Id, c: Id, pos: nat, m: Id)
    requires c in s.names && c in s.mem && n in s.mem && c != n
    requires s.mem[c].p.Place? ==> s.mem[c].p.node in s.mem
    ensures Children(s.(mem := Rebound(s.mem, n, c, pos)), m) == (Children(s, m) - {c}) + (if m == n then {c} else {})
  {
    ReboundFields(s.mem, n, c, pos, n);
    forall k | k in s.mem ensures Rebound(s.mem, n, c, pos)[k].p == (if k == c then Place(n, pos) else s.mem[k].p) {
      ReboundFields(s.mem, n, c, pos, k);
    }
  }

  /** Lock counters stay exact across update_node if and only if the child
      remembers a parent. */
  lemma RebindLocks(s: State, n: Id, c: Id, pos: nat)
    requires LocksOk(s) && c in s.names && c in s.mem && n in s.mem && c != n
    requires s.mem[c].p.Place? ==> s.mem[c].p.node in s.mem
    ensures LocksOk(s.(mem := Rebound(s.mem, n, c, pos))) <==> s.mem[c].p.Place?
  {
    var t := s.(mem := Rebound(s.mem, n, c, pos));
    ReboundFields(s.mem, n, c, pos, n);
    ReboundChildren(s, n, c, pos, n);
    assert LockOk(s, n);
    if s.mem[c].p.Place? {
      forall m | m in t.mem ensures LockOk(t, m) {
        assert LockOk(s, m);
        ReboundFields(s.mem, n, c, pos, m);
        ReboundChildren(s, n, c, pos, m);
        assert c in Children(s, m) <==> s.mem[c].p.node == m;
      }
    } else {
      assert |Children(t, n)| == |Children(s, n)| + 1;
      assert !LockOk(t, n);
    }
  }

  // ---------------------------------------------------------------- shift

  /** The items of l and of r, one after the other. */
  ghost function Joint(sh: Shape, l: Name, r: Name): seq<LItem>
    requires l in sh.nodes && r in sh.nodes
  {
    sh.nodes[l].items + sh.nodes[r].items
  }

  /** The items of two neighbours are dealt out anew: the first cut of them to
      l, the others to r. */
  ghost function ShiftedShape(sh: Shape, l: Name, r: Name, cut: nat): Shape
    requires l in sh.nodes && r in sh.nodes && cut <= |Joint(sh, l, r)|
  {
    var a, b, all := sh.nodes[l], sh.nodes[r], Joint(sh, l, r);
    Shape(sh.nodes[l := a.(items := all[..cut])][r := b.(items := all[cut..])],
          map y | y in sh.up :: MovedSlot(sh.up[y], l, r, cut, |a.items|),
          sh.top)
  }

  ghost function MovedSlot(sl: Slot, l: Name, r: Name, cut: nat, room: nat): Slot {
    if sl.parent != l && sl.parent != r then sl
    else
      var at := if sl.parent == l then sl.pos else room + sl.pos;
      if at < cut then Slot(l, at) else Slot(r, at - cut)
  }

  lemma ShiftedWellShaped(sh: Shape, l: Name, r: Name, cut: nat)
    requires WellShaped(sh) && l in sh.nodes && r in sh.nodes && l != r
    requires sh.nodes[l].level == sh.nodes[r].level && cut <= |Joint(sh, l, r)|
    ensures WellShaped(ShiftedShape(sh, l, r, cut))
  {
    var t := ShiftedShape(sh, l, r, cut);
    var room := |sh.nodes[l].items|;
    forall y | y in t.up ensures Hangs(t, y) { assert Hangs(sh, y); }
    forall x, i: nat, y | HasLink(t, x, i, y) ensures OnlyLink(t, x, i, y) {
      var at := if x == r then cut + i else i;
      if x != l && x != r {
        assert HasLink(sh, x, i, y) && OnlyLink(sh, x, i, y);
      } else if at < room {
        assert HasLink(sh, l, at, y) && OnlyLink(sh, l, at, y);
      } else {
        assert HasLink(sh, r, at - room, y) && OnlyLink(sh, r, at - room, y);
      }
    }
  }

  /** The content of one item of a node on the given level. */
  ghost function ItemContent(sh: Shape, level: nat, it: LItem): seq<int> {
    match it
    case LBody(d) => [d]
    case LBranch(y) => if y in sh.nodes && sh.nodes[y].level < level then Content(sh, y, 0) else []
  }

  ghost function Run(sh: Shape, level: nat, items: seq<LItem>): seq<int> {
    if items == [] then [] else ItemContent(sh, level, items[0]) + Run(sh, level, items[1..])
  }

  lemma {:induction false} ContentIsRun(sh: Shape, x: Name, i: nat)
    requires x in sh.nodes && i <= |sh.nodes[x].items|
    ensures Content(sh, x, i) == Run(sh, sh.nodes[x].level, sh.nodes[x].items[i..])
    decreases |sh.nodes[x].items| - i
  {
    if i < |sh.nodes[x].items| {
      ContentIsRun(sh, x, i + 1);
      assert sh.nodes[x].items[i..][1..] == sh.nodes[x].items[i + 1..];
    }
  }

  lemma RunCons(sh: Shape, level: nat, it: LItem, rest: seq<LItem>)
    ensures Run(sh, level, [it] + rest) == ItemContent(sh, level, it) + Run(sh, level, rest)
  {
    assert ([it] + rest)[1..] == rest;
  }

  lemma {:induction false} RunConcat(sh: Shape, level: nat, a: seq<LItem>, b: seq<LItem>)
    ensures Run(sh, level, a + b) == Run(sh, level, a) + Run(sh, level, b)
  {
    if a == [] {
      assert a + b == b;
    } else {
      var (it, rest) := (a[0], a[1..]);
      RunConcat(sh, level, rest, b);
      RunOneMore(sh, level, it, rest, b);
      assert a == [it] + rest && a + b == [it] + (rest + b);
    }
  }

  lemma RunOneMore(sh: Shape, level: nat, it: LItem, rest: seq<LItem>, b: seq<LItem>)
    requires Run(sh, level, rest + b) == Run(sh, level, rest) + Run(sh, level, b)
    ensures Run(sh, level, [it] + (rest + b)) == Run(sh, level, [it] + rest) + Run(sh, level, b)
  {
    RunCons(sh, level, it, rest);
    RunCons(sh, level, it, rest + b);
    Regroup(ItemContent(sh, level, it), Run(sh, level, rest), Run(sh, level, b));
  }

  lemma Regroup(x: seq<int>, y: seq<int>, z: seq<int>)
    ensures x + (y + z) == (x + y) + z
  {
  }

  lemma {:induction false} SameRun(sh: Shape, t: Shape, level: nat, items: seq<LItem>)
    requires forall it :: it in items ==> ItemContent(sh, level, it) == ItemContent(t, level, it)
    ensures Run(sh, level, items) == Run(t, level, items)
  {
    if items != [] { SameRun(sh, t, level, items[1..]); }
  }

  /** A shift changes nothing below the items of its two nodes. */
  lemma ShiftedItem(sh: Shape, l: Name, r: Name, cut: nat, x: Name, i: nat)
    requires WellShaped(sh) && l in sh.nodes && r in sh.nodes && l != r && (x == l || x == r)
    requires sh.nodes[l].level == sh.nodes[r].level && cut <= |Joint(sh, l, r)| && i < |sh.nodes[x].items|
    ensures ItemContent(sh, sh.nodes[l].level, sh.nodes[x].items[i]) ==
      ItemContent(ShiftedShape(sh, l, r, cut), sh.nodes[l].level, sh.nodes[x].items[i])
  {
    var it := sh.nodes[x].items[i];
    if it.LBranch? {
      assert HasLink(sh, x, i, it.name) && OnlyLink(sh, x, i, it.name);
      SameContent(sh, ShiftedShape(sh, l, r, cut), it.name, 0);
    }
  }

  lemma SameParts(sh: Shape, l: Name, r: Name, cut: nat)
    requires WellShaped(sh) && l in sh.nodes && r in sh.nodes && l != r
    requires sh.nodes[l].level == sh.nodes[r].level && cut <= |Joint(sh, l, r)|
    ensures forall it :: it in Joint(sh, l, r) ==>
      ItemContent(sh, sh.nodes[l].level, it) == ItemContent(ShiftedShape(sh, l, r, cut), sh.nodes[l].level, it)
  {
    forall i: nat | i < |sh.nodes[l].items| { ShiftedItem(sh, l, r, cut, l, i); }
    forall i: nat | i < |sh.nodes[r].items| { ShiftedItem(sh, l, r, cut, r, i); }
  }

  /** A shift keeps the content of its two nodes, read one after the other. */
  lemma ShiftedContent(sh: Shape, l: Name, r: Name, cut: nat)
    requires WellShaped(sh) && l in sh.nodes && r in sh.nodes && l != r
    requires sh.nodes[l].level == sh.nodes[r].level && cut <= |Joint(sh, l, r)|
    ensures var t := ShiftedShape(sh, l, r, cut);
      Content(t, l, 0) + Content(t, r, 0) == Content(sh, l, 0) + Content(sh, r, 0)
  {
    var (t, all, lv) := (ShiftedShape(sh, l, r, cut), Joint(sh, l, r), sh.nodes[l].level);
    WholeRun(sh, l);
    WholeRun(sh, r);
    WholeRun(t, l);
    WholeRun(t, r);
    SameParts(sh, l, r, cut);
    CutInTwo(all, cut);
    SameRun(sh, t, lv, all[..cut]);
    SameRun(sh, t, lv, all[cut..]);
    RunsCut(sh, lv, sh.nodes[l].items, sh.nodes[r].items, all[..cut], all[cut..]);
  }

  lemma CutInTwo(all: seq<LItem>, cut: nat)
    requires cut <= |all|
    ensures all == all[..cut] + all[cut..]
    ensures forall it :: it in all[..cut] || it in all[cut..] ==> it in all
  {
  }

  lemma RunsCut(sh: Shape, level: nat, a: seq<LItem>, b: seq<LItem>, front: seq<LItem>, rest: seq<LItem>)
    requires a + b == front + rest
    ensures Run(sh, level, front) + Run(sh, level, rest) == Run(sh, level, a) + Run(sh, level, b)
  {
    RunConcat(sh, level, front, rest);
    RunConcat(sh, level, a, b);
  }

  lemma WholeRun(sh: Shape, x: Name)
    requires x in sh.nodes
    ensures Content(sh, x, 0) == Run(sh, sh.nodes[x].level, sh.nodes[x].items)
  {
    ContentIsRun(sh, x, 0);
    assert sh.nodes[x].items[0..] == sh.nodes[x].items;
  }

  // ------------------------------------------------- the shift in the cache

  /** reiser4_node_shift, before any parent place is repaired: the first cut of
      the items of both nodes are in nl, the others in nr. */
  ghost function Moved(s: State, nl: Id, nr: Id, cut: nat): State
    requires nl in s.mem && nr in s.mem && nl in s.names && nr in s.names
    requires s.names[nl] in s.shape.nodes && s.names[nr] in s.shape.nodes
    requires cut <= |s.mem[nl].items + s.mem[nr].items| && cut <= |Joint(s.shape, s.names[nl], s.names[nr])|
  {
    var all := s.mem[nl].items + s.mem[nr].items;
    s.(mem := s.mem[nl := s.mem[nl].(items := all[..cut], dirty := true)]
                   [nr := s.mem[nr].(items := all[cut..], dirty := true)],
       shape := ShiftedShape(s.shape, s.names[nl], s.names[nr], cut))
  }

  /** t differs from s only in parent places and lock counters. */
  ghost predicate Rewired(s: State, t: State) {
    && t.mem.Keys == s.mem.Keys && t.(mem := s.mem) == s
    && (forall n {:trigger t.mem[n]} :: n in s.mem ==>
         t.mem[n] == s.mem[n].(p := t.mem[n].p, counter := t.mem[n].counter))
  }

  /** Some item of n in the given range is the branch item for c. */
  ghost predicate LinkedIn(s: State, n: Id, lo: nat, hi: nat, c: Id) {
    && n in s.mem && c in s.mem && s.mem[c].blk in s.nodes && s.nodes[s.mem[c].blk] == c
    && exists i: nat :: lo <= i < hi && i < |s.mem[n].items| && s.mem[n].items[i] == Branch(s.mem[c].blk)
  }

  /** c remembers a place in n that holds its branch item. */
  ghost predicate BoundTo(s: State, n: Id, c: Id) {
    && n in s.mem && c in s.mem && s.mem[c].p.Place? && s.mem[c].p.node == n
    && s.mem[c].p.pos < |s.mem[n].items| && s.mem[n].items[s.mem[c].p.pos] == Branch(s.mem[c].blk)
  }

  ghost predicate CanShift(s: State, nl: Id, nr: Id, cut: nat) {
    && Inv(s) && NodeOk(s, nl) && NodeOk(s, nr) && nl != nr
    && s.mem[nl].level == s.mem[nr].level && cut <= |s.mem[nl].items| + |s.mem[nr].items|
  }

  lemma MovedNodes(s: State, nl: Id, nr: Id, cut: nat)
    requires MemOk(s) && BlocksOk(s) && NodeOk(s, nl) && NodeOk(s, nr) && nl != nr
    requires cut <= |s.mem[nl].items| + |s.mem[nr].items|
    ensures MemOk(Moved(s, nl, nr, cut))
  {
    var t := Moved(s, nl, nr, cut);
    forall n | n in t.names ensures NodeOk(t, n) {
      assert NodeOk(s, n);
      if s.names[n] == s.names[nl] { SameName(s, n, nl); }
      if s.names[n] == s.names[nr] { SameName(s, n, nr); }
      if s.names[nl] == s.names[nr] { SameName(s, nl, nr); }
      assert t.mem[n].items == Phys(t.shape.nodes[t.names[n]].items, t.loc);
    }
  }

  lemma MovedDisk(s: State, nl: Id, nr: Id, cut: nat)
    requires DiskOk(s) && MemOk(s) && BlocksOk(s) && NodeOk(s, nl) && NodeOk(s, nr) && nl != nr &&
      cut <= |s.mem[nl].items| + |s.mem[nr].items|
    ensures DiskOk(Moved(s, nl, nr, cut))
  {
    var t := Moved(s, nl, nr, cut);
    forall x | x in t.shape.nodes && !Connected(t, x) ensures OnDisk(t, x) {
      assert OnDisk(s, x);
      assert s.names[nl] in s.names.Values && s.names[nr] in s.names.Values;
    }
    forall n | n in t.names && n in t.mem && !t.mem[n].dirty ensures OnDisk(t, t.names[n]) {
      assert OnDisk(s, s.names[n]);
      if s.names[n] == s.names[nl] { SameName(s, n, nl); }
      if s.names[n] == s.names[nr] { SameName(s, n, nr); }
    }
  }

  /** A stored branch item determines the logical slot. */
  lemma BoundSlot(t: State, n: Id, c: Id)
    requires WellShaped(t.shape) && LocOk(t) && NodeOk(t, n) && NodeOk(t, c) && BoundTo(t, n, c)
    ensures t.names[c] in t.shape.up && t.shape.up[t.names[c]] == Slot(t.names[n], t.mem[c].p.pos)
  {
    var i := t.mem[c].p.pos;
    var its := t.shape.nodes[t.names[n]].items;
    assert t.mem[n].items[i] == Phys1(its[i], t.loc);
    var z := its[i].name;
    assert HasLink(t.shape, t.names[n], i, z) && OnlyLink(t.shape, t.names[n], i, z);
    assert SameLoc(t, z, t.names[c]);
  }

  /** A child is linked from one of the ranges to be repaired, or it hangs
      where it hung. */
  lemma StaysPut(s: State, t: State, nl: Id, nr: Id, cut: nat, lo: nat, c: Id)
    requires WellShaped(s.shape) && NodeOk(s, nl) && NodeOk(s, nr) && cut <= |s.mem[nl].items| + |s.mem[nr].items|
    requires nl != nr && Rewired(Moved(s, nl, nr, cut), t)
    requires NodeOk(s, c) && HashOk(s, c) && s.names[c] in s.shape.up && lo <= |s.mem[nl].items|
    ensures t.shape.up[t.names[c]] == s.shape.up[s.names[c]]
      || LinkedIn(t, nl, lo, |t.mem[nl].items|, c) || LinkedIn(t, nr, 0, |t.mem[nr].items|, c)
  {
    var sl := s.shape.up[s.names[c]];
    var room := |s.mem[nl].items|;
    assert Hangs(s.shape, s.names[c]);
    if sl.parent == s.names[nl] || sl.parent == s.names[nr] {
      var n := if sl.parent == s.names[nl] then nl else nr;
      var at := if n == nl then sl.pos else room + sl.pos;
      assert s.mem[n].items[sl.pos] == Phys1(s.shape.nodes[s.names[n]].items[sl.pos], s.loc);
      if at < cut {
        assert t.mem[nl].items[at] == Branch(s.mem[c].blk);
      } else {
        assert t.mem[nr].items[at - cut] == Branch(s.mem[c].blk);
      }
    }
  }

  /** Where a child stands after the repair. */
  ghost predicate Repaired(s: State, t: State, nl: Id, nr: Id, lo: nat, c: Id)
    requires nl in t.mem && nr in t.mem
  {
    BoundTo(t, nl, c) || BoundTo(t, nr, c) ||
    (c in s.mem && c in t.mem && t.mem[c].p == s.mem[c].p
     && !LinkedIn(t, nl, lo, |t.mem[nl].items|, c) && !LinkedIn(t, nr, 0, |t.mem[nr].items|, c))
  }

  lemma ShiftParent(s: State, t: State, nl: Id, nr: Id, cut: nat, lo: nat, c: Id)
    requires WellShaped(s.shape) && WellShaped(t.shape) && LocOk(t) && NodeOk(s, nl) && NodeOk(s, nr) &&
      cut <= |s.mem[nl].items| + |s.mem[nr].items|
    requires nl != nr && Rewired(Moved(s, nl, nr, cut), t) && lo <= |s.mem[nl].items|
    requires ParentOk(s, c) && NodeOk(s, c) && HashOk(s, c) && NodeOk(t, c) && NodeOk(t, nl) && NodeOk(t, nr)
    requires Repaired(s, t, nl, nr, lo, c)
    ensures ParentOk(t, c)
  {
    if BoundTo(t, nl, c) { BoundSlot(t, nl, c); }
    else if BoundTo(t, nr, c) { BoundSlot(t, nr, c); }
    else if s.names[c] != s.shape.top { StaysPut(s, t, nl, nr, cut, lo, c); }
  }

  /** A shift followed by the repair of the parent places keeps Inv. */
  lemma ShiftKeeps(s: State, t: State, nl: Id, nr: Id, cut: nat, lo: nat)
    requires CanShift(s, nl, nr, cut) && Rewired(Moved(s, nl, nr, cut), t) && LocksOk(t) && lo <= |s.mem[nl].items|
    requires forall c :: c in t.mem ==> Repaired(s, t, nl, nr, lo, c)
    ensures Inv(t)
  {
    if s.names[nl] == s.names[nr] { SameName(s, nl, nr); }
    ShiftedWellShaped(s.shape, s.names[nl], s.names[nr], cut);
    MovedNodes(s, nl, nr, cut);
    MovedDisk(s, nl, nr, cut);
    RewiredKeeps(s, Moved(s, nl, nr, cut), t);
    ShiftParents(s, t, nl, nr, cut, lo);
  }

  lemma ShiftParents(s: State, t: State, nl: Id, nr: Id, cut: nat, lo: nat)
    requires WellShaped(s.shape) && ParentsOk(s) && MemOk(s) && TableOk(s) && NodeOk(s, nl) && NodeOk(s, nr) &&
      cut <= |s.mem[nl].items| + |s.mem[nr].items|
    requires WellShaped(t.shape) && LocOk(t) && MemOk(t) && nl != nr && Rewired(Moved(s, nl, nr, cut), t) &&
      lo <= |s.mem[nl].items|
    requires nl in t.mem && nr in t.mem && forall c :: c in t.mem ==> Repaired(s, t, nl, nr, lo, c)
    ensures ParentsOk(t)
  {
    forall c | c in t.names ensures ParentOk(t, c) {
      assert ParentOk(s, c) && NodeOk(s, c) && HashOk(s, c) && NodeOk(t, c) && NodeOk(t, nl) && NodeOk(t, nr);
      ShiftParent(s, t, nl, nr, cut, lo, c);
    }
  }

  /** What does not look at parent places or counters carries over. */
  lemma RewiredKeeps(s: State, w: State, t: State)
    requires TableOk(s) && LocOk(s) && RootOk(s) && BlocksOk(s) && SpaceOk(s) && MemOk(w) && DiskOk(w)
    requires Rewired(w, t) && w.mem.Keys == s.mem.Keys && w.(mem := s.mem, shape := s.shape) == s
    requires w.shape.top == s.shape.top && w.shape.nodes.Keys == s.shape.nodes.Keys
    requires s.shape.top in s.shape.nodes && w.shape.nodes[s.shape.top].level == s.shape.nodes[s.shape.top].level
    requires forall n :: n in s.mem ==> w.mem[n].blk == s.mem[n].blk
    ensures TableOk(t) && LocOk(t) && MemOk(t) && DiskOk(t) && RootOk(t) && BlocksOk(t) && SpaceOk(t)
  {
    forall b | b in t.nodes ensures EntryOk(t, b) { assert EntryOk(s, b); }
    forall n | n in t.names ensures HashOk(t, n) && NodeOk(t, n) { assert HashOk(s, n) && NodeOk(w, n); }
    forall x, y | SameLoc(t, x, y) ensures x == y { assert SameLoc(s, x, y); }
    forall x | x in t.shape.nodes && !Connected(t, x) ensures OnDisk(t, x) { assert OnDisk(w, x); }
    forall n | n in t.names && n in t.mem && !t.mem[n].dirty
      ensures OnDisk(t, t.names[n])
    {
      assert OnDisk(w, w.names[n]);
    }
    RewiredBlocks(s, t);
  }

  lemma RewiredBlocks(s: State, t: State)
    requires BlocksOk(s) && SpaceOk(s) && t.mem.Keys == s.mem.Keys && t.(mem := s.mem, shape := s.shape) == s
    requires forall n :: n in s.mem ==> t.mem[n].blk == s.mem[n].blk
    ensures BlocksOk(t) && SpaceOk(t)
  {
    forall n | n in t.mem ensures GoodBlk(t, t.mem[n].blk) { assert GoodBlk(s, s.mem[n].blk); }
    forall x | x in t.loc ensures GoodBlk(t, t.loc[x]) { assert GoodBlk(s, s.loc[x]); }
    forall n, m | SameBlk(t, n, m) ensures n == m { assert SameBlk(s, n, m); }
    forall n, x ensures Apart(t, n, x) { assert Apart(s, n, x); }
    assert Fakes(t) == Fakes(s);
  }

  // ------------------------------------------------------ repairing places

  /** The children behind items [start, i) of n are bound, all others are as
      they were. */
  ghost predicate Progress(s: State, t: State, n: Id, start: nat, i: nat) {
    && Rewired(s, t) && LocksOk(t)
    && (forall c {:trigger BoundTo(t, n, c)} {:trigger LinkedIn(s, n, start, i, c)} :: c in s.mem ==>
          if LinkedIn(s, n, start, i, c) then BoundTo(t, n, c) else t.mem[c].p == s.mem[c].p)
  }

  lemma RebindProgress(s: State, t: State, n: Id, start: nat, i: nat, c: Id, pos: nat)
    requires Progress(s, t, n, start, i) && n in s.mem && start <= i < |s.mem[n].items|
    requires c in s.names && c in s.mem && c != n && s.mem[n].items[i] == Branch(s.mem[c].blk)
    requires s.mem[c].blk in s.nodes && s.nodes[s.mem[c].blk] == c
    requires t.mem[c].p.Place? && t.mem[c].p.node in t.mem
    requires pos < |s.mem[n].items| && s.mem[n].items[pos] == Branch(s.mem[c].blk)
    ensures Progress(s, t.(mem := Rebound(t.mem, n, c, pos)), n, start, i + 1)
  {
    var u := t.(mem := Rebound(t.mem, n, c, pos));
    RebindLocks(t, n, c, pos);
    forall m | m in s.mem
      ensures u.mem[m] == s.mem[m].(p := u.mem[m].p, counter := u.mem[m].counter)
      ensures if LinkedIn(s, n, start, i + 1, m) then BoundTo(u, n, m) else u.mem[m].p == s.mem[m].p
    {
      assert LinkedIn(s, n, start, i, m) ==> BoundTo(t, n, m);
      RebindOne(s, t, n, start, i, c, pos, m);
    }
  }

  lemma RebindOne(s: State, t: State, n: Id, start: nat, i: nat, c: Id, pos: nat, m: Id)
    requires Rewired(s, t) && n in s.mem && start <= i < |s.mem[n].items| && m in s.mem
    requires c in s.mem && c != n && s.mem[n].items[i] == Branch(s.mem[c].blk)
    requires s.mem[c].blk in s.nodes && s.nodes[s.mem[c].blk] == c
    requires t.mem[c].p.Place? && t.mem[c].p.node in t.mem
    requires pos < |s.mem[n].items| && s.mem[n].items[pos] == Branch(s.mem[c].blk)
    requires if LinkedIn(s, n, start, i, m) then BoundTo(t, n, m) else t.mem[m].p == s.mem[m].p
    ensures var u := t.(mem := Rebound(t.mem, n, c, pos));
      && m in u.mem && u.mem[m] == s.mem[m].(p := u.mem[m].p, counter := u.mem[m].counter)
      && if LinkedIn(s, n, start, i + 1, m) then BoundTo(u, n, m) else u.mem[m].p == s.mem[m].p
  {
    ReboundFields(t.mem, n, c, pos, n);
    ReboundFields(t.mem, n, c, pos, m);
    assert LinkedIn(s, n, start, i + 1, m) <==> LinkedIn(s, n, start, i, m) || m == c;
  }

  lemma SkipProgress(s: State, t: State, n: Id, start: nat, i: nat)
    requires Progress(s, t, n, start, i) && n in s.mem && start <= i < |s.mem[n].items|
    requires s.mem[n].items[i].Branch? ==> s.mem[n].items[i].down !in s.nodes
    ensures Progress(s, t, n, start, i + 1)
  {
    forall m | m in s.mem
      ensures if LinkedIn(s, n, start, i + 1, m) then BoundTo(t, n, m) else t.mem[m].p == s.mem[m].p
    {
      assert LinkedIn(s, n, start, i + 1, m) <==> LinkedIn(s, n, start, i, m);
    }
  }

  /** Children behind the items of n may be bound anew: they are other nodes
      and remember a live parent. */
  ghost predicate Bindable(t: State, n: Id) {
    forall c {:trigger LinkedIn(t, n, 0, |t.mem[n].items|, c)} ::
      n in t.mem && LinkedIn(t, n, 0, |t.mem[n].items|, c) ==>
        c in t.names && c != n && t.mem[c].p.Place? && t.mem[c].p.node in t.mem
  }

  lemma MovedLocks(s: State, nl: Id, nr: Id, cut: nat)
    requires LocksOk(s) && NodeOk(s, nl) && NodeOk(s, nr) && cut <= |s.mem[nl].items| + |s.mem[nr].items|
    ensures LocksOk(Moved(s, nl, nr, cut))
  {
    SameLocks(s, Moved(s, nl, nr, cut));
  }

  lemma MovedBindable(s: State, nl: Id, nr: Id, cut: nat, n: Id)
    requires CanShift(s, nl, nr, cut) && (n == nl || n == nr)
    ensures Bindable(Moved(s, nl, nr, cut), n)
  {
    var t := Moved(s, nl, nr, cut);
    if s.names[nl] == s.names[nr] { SameName(s, nl, nr); }
    ShiftedWellShaped(s.shape, s.names[nl], s.names[nr], cut);
    MovedNodes(s, nl, nr, cut);
    assert NodeOk(t, n);
    forall c | n in t.mem && LinkedIn(t, n, 0, |t.mem[n].items|, c)
      ensures c in t.names && c != n && t.mem[c].p.Place? && t.mem[c].p.node in t.mem
    {
      var i: nat :| i < |t.mem[n].items| && t.mem[n].items[i] == Branch(t.mem[c].blk);
      LinkedHasParent(s, t, n, c, i);
    }
  }

  lemma LinkedHasParent(s: State, t: State, n: Id, c: Id, i: nat)
    requires Inv(s) && WellShaped(t.shape) && NodeOk(t, n) && i < |t.mem[n].items|
    requires t.nodes == s.nodes && t.names == s.names && t.loc == s.loc && t.mem.Keys == s.mem.Keys &&
      t.shape.top == s.shape.top
    requires c in t.mem && t.mem[c].blk == s.mem[c].blk && t.mem[c].p == s.mem[c].p
    requires s.mem[c].blk in s.nodes && s.nodes[s.mem[c].blk] == c && t.mem[n].items[i] == Branch(t.mem[c].blk)
    ensures c in t.names && c != n && t.mem[c].p.Place? && t.mem[c].p.node in t.mem
  {
    assert EntryOk(s, s.mem[c].blk);
    assert NodeOk(s, c) && ParentOk(s, c);
    assert t.mem[n].items[i] == Phys1(t.shape.nodes[t.names[n]].items[i], t.loc);
    var z := t.shape.nodes[t.names[n]].items[i].name;
    assert SameLoc(s, z, s.names[c]);
    assert HasLink(t.shape, t.names[n], i, z) && OnlyLink(t.shape, t.names[n], i, z);
    if s.mem[c].p.Place? { assert NodeOk(s, s.mem[c].p.node); }
  }

  /** After the first pass the second node's children are still bindable. */
  lemma StillBindable(w: State, t: State, nl: Id, nr: Id, lo: nat)
    requires nl in w.mem && nr in w.mem && Bindable(w, nr)
    requires Progress(w, t, nl, lo, |w.mem[nl].items|)
    ensures Bindable(t, nr)
  {
    forall c | LinkedIn(t, nr, 0, |t.mem[nr].items|, c)
      ensures c in t.names && c != nr && t.mem[c].p.Place? && t.mem[c].p.node in t.mem
    {
      SameLinks(w, t, nr, 0, |w.mem[nr].items|, c);
      assert LinkedIn(w, nl, lo, |w.mem[nl].items|, c) ==> BoundTo(t, nl, c);
    }
  }

  lemma SameLinks(w: State, t: State, n: Id, lo: nat, hi: nat, c: Id)
    requires Rewired(w, t)
    ensures LinkedIn(w, n, lo, hi, c) <==> LinkedIn(t, n, lo, hi, c)
  {
    if n in w.mem { assert t.mem[n].items == w.mem[n].items; }
    if c in w.mem { assert t.mem[c].blk == w.mem[c].blk; }
  }

  /** Both passes together repair every child. */
  lemma RepairDone(s: State, w: State, t: State, u: State, nl: Id, nr: Id, lo: nat)
    requires nl in w.mem && nr in w.mem && w.mem.Keys == s.mem.Keys
    requires forall c :: c in s.mem ==> w.mem[c].p == s.mem[c].p
    requires Progress(w, t, nl, lo, |w.mem[nl].items|) && Progress(t, u, nr, 0, |t.mem[nr].items|)
    ensures Rewired(w, u)
    ensures nl in u.mem && nr in u.mem && forall c :: c in u.mem ==> Repaired(s, u, nl, nr, lo, c)
  {
    assert t.mem[nl].items == w.mem[nl].items && u.mem[nl].items == t.mem[nl].items &&
      u.mem[nr].items == t.mem[nr].items;
    forall c | c in u.mem
      ensures Repaired(s, u, nl, nr, lo, c) && u.mem[c] == w.mem[c].(p := u.mem[c].p, counter := u.mem[c].counter)
    {
      SameLinks(w, t, nl, lo, |w.mem[nl].items|, c);
      SameLinks(t, u, nl, lo, |w.mem[nl].items|, c);
      SameLinks(t, u, nr, 0, |t.mem[nr].items|, c);
      assert LinkedIn(w, nl, lo, |w.mem[nl].items|, c) ==> BoundTo(t, nl, c);
      assert LinkedIn(t, nr, 0, |t.mem[nr].items|, c) ==> BoundTo(u, nr, c);
      assert u.mem[c].blk == t.mem[c].blk;
    }
  }

  /** Everything the first pass over nl needs. */
  lemma ShiftReady(s: State, nl: Id, nr: Id, cut: nat)
    requires CanShift(s, nl, nr, cut)
    ensures var w := Moved(s, nl, nr, cut);
      LocksOk(w) && Bindable(w, nl) && Bindable(w, nr) && forall b :: b in w.nodes ==> EntryOk(w, b)
  {
    var w := Moved(s, nl, nr, cut);
    MovedLocks(s, nl, nr, cut);
    MovedBindable(s, nl, nr, cut, nl);
    MovedBindable(s, nl, nr, cut, nr);
    forall b | b in w.nodes ensures EntryOk(w, b) { assert EntryOk(s, b); }
  }

  /** Everything the second pass over nr needs. */
  lemma ShiftHalfway(w: State, t: State, nl: Id, nr: Id, lo: nat)
    requires nl in w.mem && nr in w.mem && Bindable(w, nr) && (forall b :: b in w.nodes ==> EntryOk(w, b))
    requires Progress(w, t, nl, lo, |w.mem[nl].items|)
    ensures LocksOk(t) && Bindable(t, nr) && (forall b :: b in t.nodes ==> EntryOk(t, b)) &&
      t.mem[nr].items == w.mem[nr].items
  {
    StillBindable(w, t, nl, nr, lo);
    forall b | b in t.nodes ensures EntryOk(t, b) { assert EntryOk(w, b); }
  }

  /** t is s after a shift whose places have been repaired. */
  ghost predicate Shifted(s: State, t: State, nl: Id, nr: Id, cut: nat)
    requires CanShift(s, nl, nr, cut)
  {
    && Inv(t) && t.(mem := s.mem, shape := s.shape) == s && t.mem.Keys == s.mem.Keys
    && t.shape == ShiftedShape(s.shape, s.names[nl], s.names[nr], cut)
    && t.mem[nl].items == (s.mem[nl].items + s.mem[nr].items)[..cut]
    && t.mem[nr].items == (s.mem[nl].items + s.mem[nr].items)[cut..]
    && SameJoint(s.shape, t.shape, s.names[nl], s.names[nr])
  }

  /** The two nodes have the same content, read one after the other. */
  ghost predicate SameJoint(sh: Shape, t: Shape, l: Name, r: Name) {
    Content(t, l, 0) + Content(t, r, 0) == Content(sh, l, 0) + Content(sh, r, 0)
  }

  lemma ShiftDone(s: State, t: State, u: State, nl: Id, nr: Id, cut: nat, lo: nat)
    requires CanShift(s, nl, nr, cut) && lo <= |s.mem[nl].items|
    requires var w := Moved(s, nl, nr, cut);
      Progress(w, t, nl, lo, |w.mem[nl].items|) && nr in t.mem && Progress(t, u, nr, 0, |t.mem[nr].items|)
    ensures Shifted(s, u, nl, nr, cut)
  {
    RepairDone(s, Moved(s, nl, nr, cut), t, u, nl, nr, lo);
    ShiftKeeps(s, u, nl, nr, cut, lo);
    ShiftSameContent(s, nl, nr, cut);
  }

  lemma ShiftSameContent(s: State, nl: Id, nr: Id, cut: nat)
    requires CanShift(s, nl, nr, cut)
    ensures var (l, r) := (s.names[nl], s.names[nr]); SameJoint(s.shape, ShiftedShape(s.shape, l, r, cut), l, r)
  {
    if s.names[nl] == s.names[nr] { SameName(s, nl, nr); }
    ShiftedContent(s.shape, s.names[nl], s.names[nr], cut);
  }
}

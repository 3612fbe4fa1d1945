/** The last pass of fsck's BUILD mode: the nodes found outside the tree are
    inserted as a whole or item by item (librepair/add_missing.c), while the
    allocator's hooks keep the used bitmap (cb_alloc and cb_release of
    repair.c).  Until a node is in the tree or copied, neither its block nor the
    blocks its extents point to may be handed out again. */
module AddMissing {
  import opened Arithmetic
  import opened BlockSet
  import opened Owners
  import opened Joining
  import opened Recovery

  /** How a node found outside the tree was dealt with. */
  datatype How = Attached | Copied | Emptied

  /** What is remembered of a node when it is dealt with: its block and the
      blocks it pointed to, what the allocator had handed out by then, and
      which blocks had gone into the tree, each with what had been handed out
      when it did. */
  datatype Fate = Fate(how: How, blocks: set<Blk>, written: set<Blk>, put: map<Blk, set<Blk>>)

  /** What comes of attaching a node as a whole: it is in the tree, there is no
      place for it as it is, or the tree cannot do it. */
  datatype Attempt = Fits | NoPlace | Refused

  /** What the tree and the device have to say to the pass: whether a node can
      be read for its insertion as a whole and for that item by item, what comes
      of attaching it, whether its k-th item can be inserted (or is left out for
      another one under its keys), and the regions of that item that go in. */
  datatype Answers = Answers(opens: Blk -> bool, attaches: Blk -> Attempt, reopens: Blk -> bool,
                             inserts: (Blk, nat) -> bool, regions: (Blk, nat) -> seq<Unit>)
  {
    /** The node is left for the insertion of its items. */
    ghost predicate Stays(b: Blk, items: seq<Item>) { HasData(items) && attaches(b) == NoPlace }

    /** The insertion of whole nodes gets past the node. */
    ghost predicate Enters(b: Blk, items: seq<Item>) { opens(b) && (HasData(items) ==> attaches(b) != Refused) }

    /** The insertion of items gets past the node. */
    ghost predicate Copies(b: Blk, items: seq<Item>) {
      reopens(b) && forall k: nat :: k < |items| ==> ItemGoes(b, k, items[k])
    }

    ghost predicate ItemGoes(b: Blk, k: nat, item: Item) { item != Branch && inserts(b, k) }

    /** Both together. */
    ghost predicate Goes(b: Blk, items: seq<Item>) {
      Enters(b, items) && (Stays(b, items) ==> Copies(b, WithoutBranches(items)))
    }

    /** What becomes of a node that gets through. */
    ghost function HowOf(b: Blk, items: seq<Item>): How {
      if !HasData(items) then Emptied else if attaches(b) == Fits then Attached else Copied
    }
  }

  /** The regions that go in of an item which points to those blocks: each lies
      in it and did not go in before. */
  ghost function Taken(us: seq<Unit>, all: set<Blk>): (r: set<Blk>)
    ensures r <= all
  {
    if us == [] then {} else
      var (before, next) := (Taken(us[..|us| - 1], all), Region(us[|us| - 1].start, us[|us| - 1].width));
      if next <= all - before then before + next else before
  }

  lemma TakenSnoc(us: seq<Unit>, j: nat, all: set<Blk>)
    requires j < |us|
    ensures var (before, next) := (Taken(us[..j], all), Region(us[j].start, us[j].width));
      Taken(us[..j + 1], all) == if next <= all - before then before + next else before
  {
    assert us[..j + 1][..j] == us[..j];
  }

  ghost function Blocks(u: Unit): set<Blk> { Region(u.start, u.width) }

  /** Regions apart from each other that lie in the item all go in. */
  lemma {:induction false} AllTaken(us: seq<Unit>, all: set<Blk>)
    requires forall j :: 0 <= j < |us| ==> Blocks(us[j]) <= all
    requires forall i, j :: 0 <= i < j < |us| ==> Blocks(us[i]) !! Blocks(us[j])
    ensures forall j :: 0 <= j < |us| ==> Blocks(us[j]) <= Taken(us, all)
  {
    if us != [] {
      var front := us[..|us| - 1];
      AllTaken(front, all);
      OnlyTheirs(front, all, Blocks(us[|us| - 1]));
      forall j | 0 <= j < |us| - 1 ensures Blocks(us[j]) <= Taken(us, all) {
        assert Blocks(front[j]) <= Taken(front, all);
      }
    }
  }

  /** Nothing goes in but what lies in them. */
  lemma {:induction false} OnlyTheirs(us: seq<Unit>, all: set<Blk>, other: set<Blk>)
    requires forall j :: 0 <= j < |us| ==> Blocks(us[j]) !! other
    ensures Taken(us, all) !! other
  {
    if us != [] {
      OnlyTheirs(us[..|us| - 1], all, other);
      assert Blocks(us[|us| - 1]) !! other;
    }
  }

  /** A block went into the tree before anything was allocated over it, or
      nothing was until its node was dealt with. */
  ghost predicate Intact(f: Fate, c: Blk) { if c in f.put then c !in f.put[c] else c !in f.written }

  /** Nothing was lost of the node: and all of an attached one is in the tree. */
  ghost predicate Story(f: Fate) {
    && (forall c {:trigger Intact(f, c)} :: c in f.blocks ==> Intact(f, c))
    && (f.how == Attached ==> f.blocks <= f.put.Keys)
  }

  /** The blocks whose contents would be lost if they were allocated: the
      waiting nodes and what they point to. */
  ghost function Unsaved(disk: map<Blk, Image>, waiting: set<Blk>): (r: set<Blk>) {
    waiting + Extents(disk, waiting)
  }

  /** Every waiting node and every block it points to has one owner. */
  ghost predicate Placed(disk: map<Blk, Image>, waiting: set<Blk>) {
    Owned(disk, waiting) && forall b {:trigger b in waiting} :: b in waiting ==>
      b in disk && b !in Extents(disk, waiting)
  }

  lemma DropWaiting(disk: map<Blk, Image>, waiting: set<Blk>, b: Blk)
    requires Placed(disk, waiting) && b in waiting
    ensures b in disk && Placed(disk, waiting - {b})
    ensures Unsaved(disk, waiting - {b}) <= Unsaved(disk, waiting)
    ensures Unsaved(disk, waiting - {b}) !! {b} + ItemsBlocks(disk[b].items)
    ensures {b} + ItemsBlocks(disk[b].items) <= Unsaved(disk, waiting)
  {
    var rest := waiting - {b};
    BlocksInExtents(disk, waiting, b);
    InExtents(disk, waiting);
    InExtents(disk, rest);
    forall t | t in rest && t in disk ensures ItemsBlocks(disk[t].items) !! ItemsBlocks(disk[b].items) {
      assert Foreign(disk, t, b);
    }
  }

  lemma StripWaiting(disk: map<Blk, Image>, waiting: set<Blk>, b: Blk)
    requires Placed(disk, waiting) && b in waiting
    ensures var stripped := disk[b := disk[b].(items := WithoutBranches(disk[b].items))];
      Placed(stripped, waiting) && Unsaved(stripped, waiting) == Unsaved(disk, waiting)
  {
    var img := disk[b].(items := WithoutBranches(disk[b].items));
    BranchesHoldNoBlocks(disk[b].items);
    var stripped := disk[b := img];
    assert forall t :: t in disk ==> ItemsBlocks(stripped[t].items) == ItemsBlocks(disk[t].items);
    forall t | t in waiting ensures SelfApart(stripped, t) { assert SelfApart(disk, t); }
    forall s, t | s in waiting && t in waiting ensures Foreign(stripped, s, t) { assert Foreign(disk, s, t); }
    SameExtents(stripped, disk, waiting);
  }

  /** The blocks of h are reserved and untouched. */
  ghost predicate HeldAt(h: set<Blk>, alloc: set<Blk>, used: set<Blk>, written: set<Blk>, put: set<Blk>, sys: set<Blk>,
                         total: nat) {
    && (forall b {:trigger b in h} :: b in h ==> b in alloc && b !in used && b !in written && b !in put)
    && (forall b {:trigger b in used} :: b in used ==> b in alloc)
    && (forall b {:trigger b in sys} :: b in sys ==> b in used)
    && (forall b {:trigger b in alloc} :: b in alloc ==> b < total)
  }

  /** Nothing that waits can be handed out, and nothing that waits is used. */
  ghost predicate SafeAt(disk: map<Blk, Image>, twig: set<Blk>, leaf: set<Blk>,
                         alloc: set<Blk>, used: set<Blk>, written: set<Blk>, put: set<Blk>, sys: set<Blk>, total: nat) {
    && HeldAt(Unsaved(disk, twig + leaf), alloc, used, written, put, sys, total)
    && Placed(disk, twig + leaf) && twig !! leaf
  }

  function Less(now: bool, s: set<Blk>, b: Blk): set<Blk> { if now then s - {b} else s }

  lemma LessWaiting(twigs: bool, twig: set<Blk>, leaf: set<Blk>, b: Blk)
    requires twig !! leaf && b in (if twigs then twig else leaf)
    ensures Less(twigs, twig, b) + Less(!twigs, leaf, b) == twig + leaf - {b}
    ensures Less(twigs, twig, b) !! Less(!twigs, leaf, b)
  {
  }

  lemma FreeKeeps(disk: map<Blk, Image>, twig: set<Blk>, leaf: set<Blk>, b: Blk,
                  alloc: set<Blk>, used: set<Blk>, written: set<Blk>, put: set<Blk>, sys: set<Blk>, total: nat)
    requires SafeAt(disk, twig, leaf, alloc, used, written, put, sys, total)
    requires b !in Unsaved(disk, twig + leaf) && b in alloc && b !in used
    ensures SafeAt(disk, twig, leaf, alloc - {b}, used, written, put, sys, total)
    ensures Cleared(alloc, total, b, 1) == alloc - {b} && Cleared(used, total, b, 1) == used
  {
    RegionOne(b);
  }

  /** The other nodes stay safe when b leaves. */
  lemma OthersSafe(disk: map<Blk, Image>, twigs: bool, twig: set<Blk>, leaf: set<Blk>, b: Blk, hold: set<Blk>,
                   alloc: set<Blk>, used: set<Blk>, written: set<Blk>, put: set<Blk>, sys: set<Blk>, total: nat)
    requires Placed(disk, twig + leaf) && twig !! leaf && b in (if twigs then twig else leaf)
    requires HeldAt(hold, alloc, used, written, put, sys, total) && hold >= Unsaved(disk, twig + leaf - {b})
    ensures SafeAt(disk, Less(twigs, twig, b), Less(!twigs, leaf, b), alloc, used, written, put, sys, total)
    ensures b !in Unsaved(disk, Less(twigs, twig, b) + Less(!twigs, leaf, b))
  {
    DropWaiting(disk, twig + leaf, b);
    LessWaiting(twigs, twig, leaf, b);
  }

  lemma HeldUse(h: set<Blk>, rest: set<Blk>, taken: set<Blk>, alloc: set<Blk>, used: set<Blk>, written: set<Blk>,
                put: set<Blk>, sys: set<Blk>, total: nat)
    requires HeldAt(h, alloc, used, written, put, sys, total)
    requires rest <= h && taken <= h && rest !! taken
    ensures HeldAt(rest, alloc, used + taken, written, put + taken, sys, total) && InFs(taken, total)
  {
  }

  lemma UseKeeps(disk: map<Blk, Image>, twigs: bool, twig: set<Blk>, leaf: set<Blk>, b: Blk,
                 alloc: set<Blk>, used: set<Blk>, written: set<Blk>, put: set<Blk>, sys: set<Blk>, total: nat)
    requires SafeAt(disk, twig, leaf, alloc, used, written, put, sys, total)
    requires b in (if twigs then twig else leaf)
    ensures SafeAt(disk, Less(twigs, twig, b), Less(!twigs, leaf, b), alloc,
                   used + {b} + ItemsBlocks(disk[b].items), written,
                   put + {b} + ItemsBlocks(disk[b].items), sys, total)
    ensures Marked(used, total, b, 1) == used + {b} && InFs(ItemsBlocks(disk[b].items), total)
  {
    var (waiting, rest) := (twig + leaf, twig + leaf - {b});
    DropWaiting(disk, waiting, b);
    LessWaiting(twigs, twig, leaf, b);
    RegionOne(b);
    HeldUse(Unsaved(disk, waiting), Unsaved(disk, rest), {b} + ItemsBlocks(disk[b].items),
            alloc, used, written, put, sys, total);
    assert used + {b} + ItemsBlocks(disk[b].items) == used + ({b} + ItemsBlocks(disk[b].items));
    assert put + {b} + ItemsBlocks(disk[b].items) == put + ({b} + ItemsBlocks(disk[b].items));
  }

  /** A node on its way out: what went in of its k-th item leaves the hold. */
  lemma HoldItem(hold: set<Blk>, all: set<Blk>, item: set<Blk>, put: set<Blk>, next: set<Blk>)
    requires hold !! all && item <= all && item !! put && put <= next && next <= put + item
    ensures hold + (all - put) == (hold + (all - put) - item) + item
    ensures hold + (all - next) == (hold + (all - put) - item) + (item - next)
  {
  }

  lemma ItemIn(items: seq<Item>, k: nat)
    requires k < |items| && Apart(items[k..])
    ensures Apart(items[k + 1..]) && ItemsBlocks(items[k..]) == ItemBlocks(items[k]) + ItemsBlocks(items[k + 1..])
    ensures ItemBlocks(items[k]) !! ItemsBlocks(items[k + 1..])
  {
    assert items[k..][0] == items[k] && items[k..][1..] == items[k + 1..];
  }

  lemma HoldStarts(disk: map<Blk, Image>, twig: set<Blk>, leaf: set<Blk>, b: Blk,
                   alloc: set<Blk>, used: set<Blk>, written: set<Blk>, put: set<Blk>, sys: set<Blk>, total: nat)
    requires SafeAt(disk, twig, leaf, alloc, used, written, put, sys, total) && b in twig + leaf
    ensures b in disk
    ensures var hold := Unsaved(disk, twig + leaf - {b}) + {b};
      && HeldAt(hold + ItemsBlocks(disk[b].items), alloc, used, written, put, sys, total)
      && hold !! ItemsBlocks(disk[b].items)
    ensures Apart(disk[b].items) && b !in used
  {
    DropWaiting(disk, twig + leaf, b);
    BlocksInExtents(disk, twig + leaf, b);
    assert SelfApart(disk, b);
  }

  lemma SameSize(a: set<Blk>, b: set<Blk>)
    requires a <= b
    ensures |a| == |b| <==> a == b
  {
    assert b == a + (b - a);
    if |a| == |b| { assert |b - a| == 0; }
  }

  /** What the passes leave behind is safe for the insertion. */
  lemma FinishedSafe(disk: map<Blk, Image>, twig: set<Blk>, leaf: set<Blk>, met: set<Blk>, used: set<Blk>,
                     sys: set<Blk>, total: nat)
    requires PassesDone(disk, twig, leaf, met, used, sys, total)
    ensures SafeAt(disk, twig, leaf, met, used, {}, {}, sys, total)
  {
    var waiting := twig + leaf;
    InExtents(disk, waiting);
    InExtents(disk, twig);
    forall t | t in leaf ensures ItemsBlocks(disk[t].items) == {} && Apart(disk[t].items) {
      LeafPointsNowhere(disk[t].items);
    }
    assert Extents(disk, waiting) == Extents(disk, twig);
    forall t | t in waiting ensures SelfApart(disk, t) { if t in twig { assert SelfApart(disk, t); } }
    forall s, t | s in waiting && t in waiting ensures Foreign(disk, s, t) {
      if s in twig && t in twig { assert Foreign(disk, s, t); }
    }
  }

  /** Nodes may lose node pointers, but not what they point to. */
  ghost predicate SameData(found: map<Blk, Image>, disk: map<Blk, Image>) {
    disk.Keys == found.Keys && forall t {:trigger disk[t]} :: t in disk ==>
      ItemsBlocks(disk[t].items) == ItemsBlocks(found[t].items)
  }

  lemma UnsavedSplits(disk: map<Blk, Image>, waiting: set<Blk>, b: Blk)
    requires b in waiting && b in disk
    ensures Unsaved(disk, waiting) == Unsaved(disk, waiting - {b}) + {b} + ItemsBlocks(disk[b].items)
  {
    InExtents(disk, waiting);
    InExtents(disk, waiting - {b});
    forall c
      ensures c in Extents(disk, waiting) <==> c in Extents(disk, waiting - {b}) || c in ItemsBlocks(disk[b].items)
    {
      if c in Extents(disk, waiting) {
        var t :| t in waiting && t in disk && c in ItemsBlocks(disk[t].items);
        if t != b { assert t in waiting - {b}; }
      }
      if c in Extents(disk, waiting - {b}) {
        var t :| t in waiting - {b} && t in disk && c in ItemsBlocks(disk[t].items);
        assert t in waiting;
      }
    }
  }

  /** After a failure on node b it is safe exactly if none of its data went in. */
  lemma HalfDone(disk: map<Blk, Image>, twig: set<Blk>, leaf: set<Blk>, b: Blk,
                 alloc: set<Blk>, used: set<Blk>, written: set<Blk>, put: set<Blk>, sys: set<Blk>, total: nat)
    requires Placed(disk, twig + leaf) && twig !! leaf && b in twig + leaf && b in disk
    requires var (hold, all) := (Unsaved(disk, twig + leaf - {b}) + {b}, ItemsBlocks(disk[b].items));
      HeldAt(hold + (all - put), alloc, used, written, put, sys, total)
    ensures SafeAt(disk, twig, leaf, alloc, used, written, put, sys, total) <==> ItemsBlocks(disk[b].items) !! put
  {
    var (waiting, all) := (twig + leaf, ItemsBlocks(disk[b].items));
    DropWaiting(disk, waiting, b);
    UnsavedSplits(disk, waiting, b);
    if all !! put { assert all - put == all; }
  }

  lemma {:induction false} UnitsFromTwo(us: seq<Unit>)
    ensures 0 !in UnitsBlocks(us)
  {
    if us != [] { UnitsFromTwo(us[..|us| - 1]); }
  }

  /** Extents point to no block of the boot area's start. */
  lemma BlocksFromTwo(item: Item)
    ensures 0 !in ItemBlocks(item)
  {
    if item.Extent? { UnitsFromTwo(item.units); }
  }

  lemma UnitsGrow(us: seq<Unit>, k: nat)
    requires k < |us|
    ensures UnitsBlocks(us[..k + 1]) == UnitsBlocks(us[..k]) + UnitBlocks(us[k])
    ensures UnitBlocks(us[k]) <= UnitsBlocks(us)
  {
    var front := us[..k];
    assert us[..k + 1] == front + [us[k]];
    UnitsSnoc(front, us[k]);
    UnitMember(us, k);
  }

  lemma InsideFs(u: Unit, total: nat)
    requires InFs(Region(u.start, u.width), total)
    ensures forall s :: Marked(s, total, u.start, u.width) == s + Region(u.start, u.width)
  {
    if u.width > 0 {
      assert u.start + u.width - 1 in Region(u.start, u.width);
    }
  }

  // ---- What a loop over one kind of nodes does ----

  /** The nodes of the kind that wait, those of the other kind, what the nodes
      hold, and what became of those dealt with. */
  datatype State = State(nodes: set<Blk>, others: set<Blk>, disk: map<Blk, Image>, fate: map<Blk, Fate>)

  /** Nothing but those nodes was touched, and they are accounted for. */
  ghost predicate Only(s: State, z: State, bs: set<Blk>) {
    && z.nodes <= s.nodes && z.others == s.others
    && (forall b {:trigger b in z.nodes} :: b in s.nodes && b !in bs ==> b in z.nodes)
    && z.fate.Keys + (z.nodes + z.others) == s.fate.Keys + (s.nodes + s.others)
    && z.disk.Keys == s.disk.Keys
    && (forall b {:trigger z.disk[b]} :: b in z.disk && b !in bs ==> z.disk[b] == s.disk[b])
    && forall b {:trigger b in s.fate} :: b in s.fate && b !in bs ==> b in z.fate && z.fate[b] == s.fate[b]
  }

  lemma OneNode(s: State, z: State, b: Blk)
    requires b in s.nodes && b in s.disk && b in z.disk && z.others == s.others && z.disk == s.disk[b := z.disk[b]]
    requires z.nodes == s.nodes ==> z.fate == s.fate
    requires z.nodes != s.nodes ==> z.nodes == s.nodes - {b} && b in z.fate && z.fate == s.fate[b := z.fate[b]]
    ensures Only(s, z, {b})
  {
    assert z.nodes != s.nodes ==> z.fate.Keys == s.fate.Keys + {b};
    forall c ensures c in z.fate || c in z.nodes || c in z.others <==> c in s.fate || c in s.nodes || c in s.others {}
  }

  lemma StillOnly(s: State, a: State, z: State, b: Blk)
    requires Only(s, a, s.nodes) && Only(a, z, {b}) && b in s.nodes
    ensures Only(s, z, s.nodes)
  {
  }

  /** What the insertion of whole nodes does with b. */
  ghost predicate Entered(says: Answers, s: State, z: State, b: Blk) {
    && b in s.disk && b in z.disk && says.Enters(b, s.disk[b].items)
    && (b in z.nodes <==> says.Stays(b, s.disk[b].items))
    && (b in z.nodes ==> z.disk[b].items == WithoutBranches(s.disk[b].items))
    && (b !in z.nodes ==> b in z.fate && z.fate[b].how == says.HowOf(b, s.disk[b].items))
  }

  /** It has not come to b yet. */
  ghost predicate Ahead(s: State, z: State, b: Blk) {
    b in z.nodes && b in s.disk && b in z.disk && z.disk[b] == s.disk[b]
  }

  /** The turns for the blocks before blk are done. */
  ghost predicate EnteredTo(says: Answers, s: State, z: State, blk: Blk) {
    && (forall b {:trigger Entered(says, s, z, b)} :: b in s.nodes && b < blk ==> Entered(says, s, z, b))
    && forall b {:trigger Ahead(s, z, b)} :: b in s.nodes && b >= blk ==> Ahead(s, z, b)
  }

  lemma SkipTo(says: Answers, s: State, z: State, k: Blk, blk: Blk)
    requires k <= blk && EnteredTo(says, s, z, k) && forall c :: k <= c < blk ==> c !in z.nodes
    ensures EnteredTo(says, s, z, blk)
  {
    forall b | b in s.nodes && b < blk ensures Entered(says, s, z, b) { assert b < k || !Ahead(s, z, b); }
    forall b | b in s.nodes && b >= blk ensures Ahead(s, z, b) {}
  }

  lemma AllEntered(says: Answers, s: State, z: State, blk: Blk)
    requires EnteredTo(says, s, z, blk) && forall b :: b in s.nodes ==> b < blk
    ensures forall b :: b in s.nodes ==> b in s.disk && says.Enters(b, s.disk[b].items) && Entered(says, s, z, b)
  {
    forall b | b in s.nodes
      ensures b in s.disk && says.Enters(b, s.disk[b].items) && Entered(says, s, z, b) {
      assert Entered(says, s, z, b);
    }
  }

  lemma OthersEntered(says: Answers, s: State, a: State, z: State, blk: Blk)
    requires Only(a, z, {blk}) && EnteredTo(says, s, a, blk) && (blk in s.nodes ==> Entered(says, s, z, blk))
    ensures EnteredTo(says, s, z, blk + 1)
  {
    forall b | b in s.nodes && b < blk ensures Entered(says, s, z, b) {
      assert Entered(says, s, a, b);
      assert z.disk[b] == a.disk[b];
    }
    forall b | b in s.nodes && b > blk ensures Ahead(s, z, b) {
      assert Ahead(s, a, b);
      assert z.disk[b] == a.disk[b];
    }
  }

  /** The items that were inserted, and the blocks that went in. */
  datatype Log = Log(given: set<(Blk, nat)>, put: set<Blk>)
  {
    /** The k-th item of node b was inserted, with the regions that go in. */
    ghost predicate Went(says: Answers, b: Blk, k: nat, item: Item) {
      (b, k) in given && Taken(says.regions(b, k), ItemBlocks(item)) <= put
    }

    /** All of these were. */
    ghost predicate Inserted(says: Answers, b: Blk, items: seq<Item>) {
      forall k: nat {:trigger Went(says, b, k, items[k])} :: k < |items| ==> Went(says, b, k, items[k])
    }

    ghost predicate Within(l: Log) { given <= l.given && put <= l.put }
  }

  lemma StillInserted(l: Log, m: Log, says: Answers, b: Blk, items: seq<Item>)
    requires l.Within(m) && l.Inserted(says, b, items)
    ensures m.Inserted(says, b, items)
  {
    forall k: nat | k < |items| ensures m.Went(says, b, k, items[k]) { assert l.Went(says, b, k, items[k]); }
  }

  /** The items of b were inserted. */
  ghost predicate IsCopied(says: Answers, s: State, z: State, l: Log, b: Blk) {
    && b !in z.nodes && b in s.disk && says.Copies(b, s.disk[b].items)
    && b in z.fate && z.fate[b].how == Copied && l.Inserted(says, b, s.disk[b].items)
  }

  ghost predicate CopiedTo(says: Answers, s: State, z: State, l: Log, blk: Blk) {
    && (forall b {:trigger IsCopied(says, s, z, l, b)} :: b in s.nodes && b < blk ==> IsCopied(says, s, z, l, b))
    && forall b {:trigger Ahead(s, z, b)} :: b in s.nodes && b >= blk ==> Ahead(s, z, b)
  }

  lemma CopySkipTo(says: Answers, s: State, z: State, l: Log, k: Blk, blk: Blk)
    requires k <= blk && CopiedTo(says, s, z, l, k) && forall c :: k <= c < blk ==> c !in z.nodes
    ensures CopiedTo(says, s, z, l, blk)
  {
    forall b | b in s.nodes && b < blk ensures IsCopied(says, s, z, l, b) { assert b < k || !Ahead(s, z, b); }
    forall b | b in s.nodes && b >= blk ensures Ahead(s, z, b) {}
  }

  lemma AllCopied(says: Answers, s: State, z: State, l: Log, blk: Blk)
    requires CopiedTo(says, s, z, l, blk) && forall b :: b in s.nodes ==> b < blk
    ensures forall b :: b in s.nodes ==>
      b in s.disk && says.Copies(b, s.disk[b].items) && IsCopied(says, s, z, l, b) && b !in z.nodes
  {
    forall b | b in s.nodes
      ensures b in s.disk && says.Copies(b, s.disk[b].items) && IsCopied(says, s, z, l, b) && b !in z.nodes {
      assert IsCopied(says, s, z, l, b);
    }
  }

  lemma OthersCopied(says: Answers, s: State, a: State, z: State, l: Log, m: Log, blk: Blk)
    requires Only(a, z, {blk}) && l.Within(m) && CopiedTo(says, s, a, l, blk)
    requires blk in s.nodes ==> IsCopied(says, s, z, m, blk)
    ensures CopiedTo(says, s, z, m, blk + 1)
  {
    forall b | b in s.nodes && b < blk ensures IsCopied(says, s, z, m, b) {
      assert IsCopied(says, s, a, l, b);
      StillInserted(l, m, says, b, s.disk[b].items);
    }
    forall b | b in s.nodes && b > blk ensures Ahead(s, z, b) {
      assert Ahead(s, a, b);
      assert z.disk[b] == a.disk[b];
    }
  }

  /** The node was dealt with as it should be, with all its items if one by
      one. */
  ghost predicate Ended(says: Answers, fate: map<Blk, Fate>, l: Log, b: Blk, items: seq<Item>) {
    && b in fate && fate[b].how == says.HowOf(b, items)
    && (fate[b].how == Copied ==> l.Inserted(says, b, WithoutBranches(items)))
  }

  /** All these nodes get through. */
  ghost predicate AllGo(says: Answers, nodes: set<Blk>, disk: map<Blk, Image>) {
    forall b {:trigger b in nodes} :: b in nodes ==> b in disk && says.Goes(b, disk[b].items)
  }

  /** All these nodes were dealt with as they should be. */
  ghost predicate AllEnded(says: Answers, nodes: set<Blk>, disk: map<Blk, Image>, fate: map<Blk, Fate>, l: Log) {
    forall b {:trigger b in nodes} :: b in nodes ==> b in disk && Ended(says, fate, l, b, disk[b].items)
  }

  /** Both loops one after the other. */
  lemma BothLoops(says: Answers, s: State, a: State, z: State, l: Log, b: Blk)
    requires Entered(says, s, a, b) && Only(s, a, s.nodes) && Only(a, z, a.nodes) && b in s.nodes
    requires b in a.nodes ==> b in a.disk
    ensures b in a.nodes && IsCopied(says, a, z, l, b) ==> Ended(says, z.fate, l, b, s.disk[b].items)
    ensures b !in a.nodes ==> Ended(says, z.fate, l, b, s.disk[b].items)
    ensures says.Goes(b, s.disk[b].items) <==> b !in a.nodes || says.Copies(b, a.disk[b].items)
  {
  }

  /** The same for all nodes of a kind. */
  lemma KindEnds(says: Answers, s: State, a: State, z: State, l: Log, ok: bool)
    requires Only(s, a, s.nodes) && Only(a, z, a.nodes)
    requires forall b :: b in s.nodes ==> Entered(says, s, a, b)
    requires forall b :: b in a.nodes ==> b in a.disk
    requires ok <==> forall b :: b in a.nodes ==> says.Copies(b, a.disk[b].items)
    requires ok ==> forall b :: b in a.nodes ==> IsCopied(says, a, z, l, b)
    ensures ok <==> AllGo(says, s.nodes, s.disk)
    ensures ok ==> AllEnded(says, s.nodes, s.disk, z.fate, l)
  {
    forall b | b in s.nodes
      ensures b in s.disk && (says.Goes(b, s.disk[b].items) <==> b in a.nodes ==> says.Copies(b, a.disk[b].items))
      ensures ok ==> Ended(says, z.fate, l, b, s.disk[b].items)
    {
      assert Entered(says, s, a, b);
      BothLoops(says, s, a, z, l, b);
    }
  }

  /** One kind after the other. */
  lemma BothKinds(says: Answers, s: State, a: State, z: State, l: Log, m: Log)
    requires s.nodes !! s.others && a.nodes == s.others && a.others == {}
    requires Only(s, State(a.others, a.nodes, a.disk, a.fate), s.nodes)
    requires AllEnded(says, s.nodes, s.disk, a.fate, l) && l.Within(m) && Only(a, z, a.nodes)
    ensures AllGo(says, a.nodes, a.disk) && AllGo(says, s.nodes, s.disk) <==> AllGo(says, s.nodes + s.others, s.disk)
    ensures AllEnded(says, a.nodes, a.disk, z.fate, m) ==> AllEnded(says, s.nodes + s.others, s.disk, z.fate, m)
    ensures z.fate.Keys + (z.nodes + z.others) == s.fate.Keys + (s.nodes + s.others)
  {
    assert forall b :: b in a.disk && b !in s.nodes ==> a.disk[b] == s.disk[b];
    forall b ensures b in s.nodes + s.others <==> b in s.nodes || b in a.nodes {}
    forall b | b in s.nodes ensures b in s.disk && Ended(says, z.fate, m, b, s.disk[b].items) {
      if a.fate[b].how == Copied { StillInserted(l, m, says, b, WithoutBranches(s.disk[b].items)); }
    }
  }

  class Adding {
    const total: nat
    const sys: set<Blk>
    const says: Answers

    var used: set<Blk>
    var twig: set<Blk>
    var leaf: set<Blk>
    var alloc: set<Blk>
    var disk: map<Blk, Image>

    ghost const found: map<Blk, Image>     // the nodes as the pass found them

    ghost var written: set<Blk>            // the blocks handed out by the allocator
    ghost var put: map<Blk, set<Blk>>      // what went into the tree, and what was handed out then
    ghost var freed: set<Blk>              // the blocks the tree has given up since
    ghost var given: set<(Blk, nat)>       // the items inserted one by one: their node and place in it
    ghost var fate: map<Blk, Fate>         // what became of the nodes dealt with

    /** repair_am_prepare: of what was found, that in the tree is dropped, and
        the allocator takes over the map of everything that was met. */
    constructor Prepare(p: Passes, says: Answers)
      requires p.Finished()
      ensures this.says == says
      ensures total == p.total && sys == p.sys && used == p.used && disk == p.disk && found == p.disk
      ensures twig == p.twig && leaf == p.leaf && written == {} && fate == map[] && Kept()
      ensures alloc == if p.met != p.sys then p.met else p.alloc
      ensures Safe() || Waiting() == {}
      ensures p.met != p.sys ==> Safe()
    {
      this.says := says;
      total, sys, used, disk, found := p.total, p.sys, p.used, p.disk, p.disk;
      written, put, freed, given, fate := {}, map[], {}, {}, map[];
      twig, leaf := p.twig - p.used, p.leaf - p.used;
      alloc := if |p.met| != |p.sys| then p.met else p.alloc;
      SameSize(p.sys, p.met);
      FinishedSafe(p.disk, p.twig, p.leaf, p.met, p.used, p.sys, p.total);
      assert p.twig - p.used == p.twig && p.leaf - p.used == p.leaf;
    }

    ghost function Waiting(): set<Blk>
      reads this`twig, this`leaf
    {
      twig + leaf
    }

    function Bits(twigs: bool): set<Blk>
      reads this`twig, this`leaf
    {
      if twigs then twig else leaf
    }

    ghost predicate Held(h: set<Blk>)
      reads this`alloc, this`used, this`written, this`put
    {
      HeldAt(h, alloc, used, written, put.Keys, sys, total)
    }

    ghost predicate Safe()
      reads this`disk, this`twig, this`leaf, this`alloc, this`used, this`written, this`put
    {
      SafeAt(disk, twig, leaf, alloc, used, written, put.Keys, sys, total)
    }

    /** The same for all waiting nodes but b. */
    ghost predicate SafeBut(twigs: bool, b: Blk)
      reads this`disk, this`twig, this`leaf, this`alloc, this`used, this`written, this`put
    {
      SafeAt(disk, Less(twigs, twig, b), Less(!twigs, leaf, b), alloc, used, written, put.Keys, sys, total)
    }

    /** What is remembered of node b is right. */
    ghost predicate Told(b: Blk)
      requires b in fate
      reads this`written, this`put, this`fate
    {
      && b in found && fate[b].blocks == {b} + ItemsBlocks(found[b].items) && Story(fate[b])
      && fate[b].written <= written && fate[b].put.Keys <= put.Keys
    }

    /** What went into the tree is used, unless the tree gave it up itself;
        nothing had been allocated over it; and the stories are right. */
    ghost predicate Kept()
      reads this`written, this`put, this`used, this`freed, this`fate, this`disk
    {
      && (forall c {:trigger c in put} :: c in put ==> (c in used || c in freed) && c !in put[c])
      && (forall b {:trigger Told(b)} :: b in fate ==> Told(b))
      && SameData(found, disk)
    }

    /** What was handed out stays handed out, and what went in stays known. */
    twostate predicate Onward()
      reads this`written, this`put, this`given
    {
      && old(written) <= written && old(Logged()).Within(Logged())
      && forall c {:trigger old(put)[c]} :: c in old(put) && c in put ==> put[c] == old(put)[c]
    }

    ghost function Here(twigs: bool): State
      reads this`twig, this`leaf, this`disk, this`fate
    {
      State(Bits(twigs), Bits(!twigs), disk, fate)
    }

    ghost function Logged(): Log
      reads this`put, this`given
    {
      Log(given, put.Keys)
    }

    // ---- The allocator with its hooks ----

    /** reiser4_alloc_allocate with cb_alloc: some region of at most want free
        blocks, or none. */
    method Allocate(want: nat, ghost hold: set<Blk>) returns (got: set<Blk>)
      requires Held(hold) && Kept()
      modifies this`alloc, this`used, this`written
      ensures Kept() && Held(hold) && got !! old(alloc) && got !! hold
      ensures alloc == old(alloc) + got && used == old(used) + got && written == old(written) + got
    {
      var start: Blk, count: nat := *, *;
      if count <= want && Inside(total, start, count) && Region(start, count) !! alloc {
        got := Region(start, count);
        alloc := Marked(alloc, total, start, count);
        used := Marked(used, total, start, count);
        written := written + got;
      } else {
        got := {};
      }
      assert forall b :: b in fate ==> old(Told(b));
    }

    /** reiser4_alloc_release with cb_release, called for blocks of the tree. */
    method Release(start: Blk, count: nat, ghost hold: set<Blk>)
      requires Held(hold) && Kept() && Region(start, count) !! hold && Region(start, count) !! sys
      modifies this`alloc, this`used, this`freed
      ensures Held(hold) && Kept() && freed == old(freed) + Region(start, count)
      ensures alloc == Cleared(old(alloc), total, start, count) && used == Cleared(old(used), total, start, count)
    {
      alloc := Cleared(alloc, total, start, count);
      used := Cleared(used, total, start, count);
      freed := freed + Region(start, count);
      assert forall b :: b in fate ==> old(Told(b));
    }

    /** What the tree may do meanwhile: allocate blocks, and release blocks of
        its own, any number of times. */
    method TreeActivity(ghost hold: set<Blk>)
      requires Held(hold) && Kept()
      modifies this`alloc, this`used, this`written, this`freed
      ensures Held(hold) && Kept() && Onward()
    {
      var steps: int := *;
      while steps > 0
        invariant Held(hold) && Kept() && Onward()
      {
        steps := steps - 1;
        var start: Blk, count: nat, take: bool := *, *, *;
        if take {
          var got := Allocate(count, hold);
        } else if Region(start, count) <= used - sys {
          Release(start, count, hold);
        }
      }
    }

    // ---- Steps on one node ----

    /** The story of a node dealt with in that way can be told. */
    ghost predicate Tellable(blk: Blk, how: How)
      reads this`put, this`written
    {
      && blk in found
      && (forall c :: c in {blk} + ItemsBlocks(found[blk].items) ==> c in put || c !in written)
      && (how == Attached ==> {blk} + ItemsBlocks(found[blk].items) <= put.Keys)
    }

    /** The pass forgets a waiting node; its story is remembered. */
    method Forget(twigs: bool, blk: Blk, ghost how: How)
      requires Kept() && Tellable(blk, how)
      modifies this`twig, this`leaf, this`fate
      ensures Kept()
      ensures fate == old(fate)[blk := Fate(how, {blk} + ItemsBlocks(found[blk].items), written, put)]
      ensures twig == Less(twigs, old(twig), blk) && leaf == Less(!twigs, old(leaf), blk)
    {
      if twigs { twig := twig - {blk}; } else { leaf := leaf - {blk}; }
      fate := fate[blk := Fate(how, {blk} + ItemsBlocks(found[blk].items), written, put)];
      assert Told(blk);
      assert forall b :: b in old(fate) ==> old(Told(b));
    }

    /** cb_item_mark_region. */
    method MarkRegion(u: Unit)
      modifies this`used
      ensures used == if u.start != 0 then Marked(old(used), total, u.start, u.width) else old(used)
    {
      if u.start != 0 { used := Marked(used, total, u.start, u.width); }
    }

    /** The layout of an extent item, handed to cb_item_mark_region. */
    method MarkUnits(us: seq<Unit>)
      requires InFs(UnitsBlocks(us), total)
      modifies this`used
      ensures used == old(used) + UnitsBlocks(us)
    {
      for k := 0 to |us|
        invariant used == old(used) + UnitsBlocks(us[..k])
      {
        UnitsGrow(us, k);
        if us[k].start != HOLE_UNIT && us[k].start != UNALLOC_UNIT {
          InsideFs(us[k], total);
          MarkRegion(us[k]);
        }
      }
      assert us[..|us|] == us;
    }

    /** reiser4_node_trav with cb_layout over a node without pointers. */
    method MarkItems(items: seq<Item>)
      requires InFs(ItemsBlocks(items), total)
      modifies this`used
      ensures used == old(used) + ItemsBlocks(items)
    {
      for k := 0 to |items|
        invariant used == old(used) + ItemsBlocks(items[..k])
      {
        ItemsSplit(items[..k], items[k..]);
        assert items == items[..k] + items[k..] && items[k..][0] == items[k];
        ItemsSnoc(items[..k], items[k]);
        assert items[..k] + [items[k]] == items[..k + 1];
        if items[k].Extent? { MarkUnits(items[k].units); }
      }
      assert items[..|items|] == items;
    }

    /** Its block is reserved for it and nothing else. */
    ghost predicate Untaken(twigs: bool, blk: Blk)
      reads this`disk, this`twig, this`leaf, this`alloc, this`used
    {
      blk in alloc && blk !in used && blk !in Unsaved(disk, Less(twigs, twig, blk) + Less(!twigs, leaf, blk))
    }

    /** The node is forgotten and its block given back (repair_am_blk_free). */
    method FreeNode(twigs: bool, blk: Blk, ghost how: How)
      requires SafeBut(twigs, blk) && Kept() && Tellable(blk, how) && Untaken(twigs, blk)
      modifies this`twig, this`leaf, this`fate, this`alloc, this`used
      ensures Kept() && Safe() && alloc == old(alloc) - {blk} && used == old(used)
      ensures fate == old(fate)[blk := Fate(how, {blk} + ItemsBlocks(found[blk].items), written, put)]
      ensures twig == Less(twigs, old(twig), blk) && leaf == Less(!twigs, old(leaf), blk)
    {
      FreeKeeps(disk, Less(twigs, twig, blk), Less(!twigs, leaf, blk), blk, alloc, used, written, put.Keys, sys, total);
      Forget(twigs, blk, how);
      alloc, used := Cleared(alloc, total, blk, 1), Cleared(used, total, blk, 1);
    }

    /** The blocks go into the tree. */
    ghost method PutIn(blocks: set<Blk>)
      requires Kept() && blocks <= used && blocks !! written && blocks !! put.Keys
      modifies this`put
      ensures Kept() && Onward() && put == old(put) + (map c | c in blocks :: written)
    {
      put := put + (map c | c in blocks :: written);
      assert forall b :: b in fate ==> old(Told(b));
      assert forall b :: b in fate ==> Told(b);
    }

    lemma CanTell(blk: Blk)
      requires SameData(found, disk) && blk in disk && {blk} + ItemsBlocks(disk[blk].items) <= put.Keys
      ensures Tellable(blk, Attached)
    {
      assert ItemsBlocks(disk[blk].items) == ItemsBlocks(found[blk].items);
    }

    /** Its block and the layout of its items, none of them handed out or in the
        tree before. */
    method MarkBlocks(twigs: bool, blk: Blk)
      requires Safe() && blk in Bits(twigs)
      modifies this`used
      ensures blk in disk && used == old(used) + {blk} + ItemsBlocks(disk[blk].items)
      ensures {blk} + ItemsBlocks(disk[blk].items) !! written + put.Keys
    {
      UseKeeps(disk, twigs, twig, leaf, blk, alloc, used, written, put.Keys, sys, total);
      DropWaiting(disk, Waiting(), blk);
      used := Marked(used, total, blk, 1);
      MarkItems(disk[blk].items);
    }

    method MarkNode(twigs: bool, blk: Blk)
      requires Safe() && Kept() && blk in Bits(twigs)
      modifies this`used, this`put
      ensures Kept() && Onward() && blk in disk && Tellable(blk, Attached)
      ensures used == old(used) + {blk} + ItemsBlocks(disk[blk].items)
      ensures put.Keys == old(put.Keys) + {blk} + ItemsBlocks(disk[blk].items)
    {
      MarkBlocks(twigs, blk);
      PutIn({blk} + ItemsBlocks(disk[blk].items));
      CanTell(blk);
    }

    /** The node is in the tree now: its block and what it points to are used. */
    method UseNode(twigs: bool, blk: Blk)
      requires Safe() && Kept() && blk in Bits(twigs)
      modifies this`twig, this`leaf, this`fate, this`used, this`put
      ensures Safe() && Kept() && Onward() && blk in found
      ensures fate == old(fate)[blk := Fate(Attached, {blk} + ItemsBlocks(found[blk].items), written, put)]
      ensures used == old(used) + {blk} + ItemsBlocks(disk[blk].items)
      ensures twig == Less(twigs, old(twig), blk) && leaf == Less(!twigs, old(leaf), blk)
    {
      UseKeeps(disk, twigs, twig, leaf, blk, alloc, used, written, put.Keys, sys, total);
      MarkNode(twigs, blk);
      assert SafeBut(twigs, blk);
      Forget(twigs, blk, Attached);
    }

    // ---- Insertion of whole nodes ----

    /** Nothing but the node blk of the given bitmap was touched, and it is
        accounted for. */
    twostate predicate OnlyNode(twigs: bool, blk: Blk)
      reads this`twig, this`leaf, this`fate, this`disk
    {
      Only(old(Here(twigs)), Here(twigs), {blk})
    }

    /** The same, seen from the loops. */
    method DropNode(twigs: bool, blk: Blk, ghost how: How)
      requires SafeBut(twigs, blk) && Kept() && Tellable(blk, how) && Untaken(twigs, blk)
      requires blk in Bits(twigs) && blk in disk
      modifies this`twig, this`leaf, this`fate, this`alloc, this`used
      ensures Kept() && Safe() && OnlyNode(twigs, blk) && blk !in Bits(twigs)
      ensures blk in fate && fate[blk].how == how && blk !in alloc
    {
      ghost var s := Here(twigs);
      FreeNode(twigs, blk, how);
      OneNode(s, Here(twigs), blk);
    }

    /** A node without data: it is forgotten, and its block given back. */
    method FreeEmpty(twigs: bool, blk: Blk)
      requires Safe() && Kept() && blk in Bits(twigs) && blk in disk && WithoutBranches(disk[blk].items) == []
      modifies this`twig, this`leaf, this`fate, this`alloc, this`used
      ensures Safe() && Kept() && OnlyNode(twigs, blk) && blk !in Bits(twigs)
      ensures blk in fate && fate[blk].how == Emptied && blk !in alloc
    {
      DropWaiting(disk, Waiting(), blk);
      BranchesHoldNoBlocks(disk[blk].items);
      OthersSafe(disk, twigs, twig, leaf, blk, Unsaved(disk, Waiting()), alloc, used, written, put.Keys, sys, total);
      DropNode(twigs, blk, Emptied);
    }

    /** The node pointers are out of the node. */
    method StripNode(twigs: bool, blk: Blk)
      requires Safe() && Kept() && blk in Bits(twigs) && blk in disk
      modifies this`disk
      ensures Safe() && Kept() &&
        disk == old(disk)[blk := old(disk)[blk].(items := WithoutBranches(old(disk)[blk].items))]
      ensures Branch !in disk[blk].items
    {
      BranchesHoldNoBlocks(disk[blk].items);
      StripWaiting(disk, Waiting(), blk);
      disk := disk[blk := disk[blk].(items := WithoutBranches(disk[blk].items))];
      assert forall b :: b in fate ==> Told(b);
    }

    /** repair_tree_attach_node on a node with data: the tree does what it needs,
        and the node is in it or waits on. */
    method Attach(twigs: bool, blk: Blk) returns (ok: bool)
      requires Safe() && Kept() && blk in Bits(twigs) && blk in disk
      modifies this
      ensures Safe() && Kept() && OnlyNode(twigs, blk) && Onward()
      ensures ok <==> says.attaches(blk) != Refused
      ensures ok ==> disk[blk].items == WithoutBranches(old(disk)[blk].items)
      ensures ok ==> (blk in Bits(twigs) <==> says.attaches(blk) == NoPlace)
      ensures ok && blk !in Bits(twigs) ==> blk in fate && fate[blk].how == Attached
    {
      ghost var s := Here(twigs);
      TreeActivity(Unsaved(disk, Waiting()));
      ok := says.attaches(blk) != Refused;
      if ok {
        StripNode(twigs, blk);
        if says.attaches(blk) == Fits { UseNode(twigs, blk); }
      }
      OneNode(s, Here(twigs), blk);
    }

    /** One turn of repair_am_nodes_insert: a node without data is freed, one
        that fits between its neighbours is attached, any other one waits. */
    method InsertNode(twigs: bool, blk: Blk) returns (ok: bool)
      requires Safe() && Kept() && blk in Bits(twigs)
      modifies this
      ensures Safe() && Kept() && OnlyNode(twigs, blk) && Onward()
      ensures blk in old(disk) && (ok <==> says.Enters(blk, old(disk)[blk].items))
      ensures ok ==> (blk in Bits(twigs) <==> says.Stays(blk, old(disk)[blk].items))
      ensures ok && blk in Bits(twigs) ==> disk[blk].items == WithoutBranches(old(disk)[blk].items)
      ensures ok && blk !in Bits(twigs) ==> blk in fate && fate[blk].how == says.HowOf(blk, old(disk)[blk].items)
      ensures ok && !HasData(old(disk)[blk].items) ==> blk !in alloc
    {
      DropWaiting(disk, Waiting(), blk);
      if !says.opens(blk) { return false; }
      BranchesGo(disk[blk].items, []);
      if WithoutBranches(disk[blk].items) == [] {
        FreeEmpty(twigs, blk);
        ok := true;
      } else {
        ok := Attach(twigs, blk);
      }
    }

    // ---- Insertion item by item ----

    /** A region of the item went in: cb_item_mark_region. */
    method HandOver(item: Item, u: Unit, ghost left: set<Blk>, ghost rest: set<Blk>)
      requires Region(u.start, u.width) <= left <= ItemBlocks(item) && Held(rest + left) && Kept() && rest !! left
      modifies this`used, this`put
      ensures used == old(used) + Region(u.start, u.width) && put.Keys == old(put.Keys) + Region(u.start, u.width)
      ensures Held(rest + (left - Region(u.start, u.width))) && Kept() && Onward()
    {
      InsideFs(u, total);
      BlocksFromTwo(item);
      assert u.width > 0 ==> u.start in Region(u.start, u.width);
      MarkRegion(u);
      PutIn(Region(u.start, u.width));
    }

    /** One region: it goes in if it lies in what is left of the item. */
    method HandRegion(item: Item, u: Unit, left: set<Blk>, ghost rest: set<Blk>) returns (less: set<Blk>)
      requires Held(rest + left) && Kept() && rest !! left && left <= ItemBlocks(item)
      modifies this`alloc, this`used, this`written, this`put, this`freed
      ensures Held(rest + less) && Kept() && Onward()
      ensures less == left - (if Blocks(u) <= left then Blocks(u) else {})
      ensures put.Keys == old(put.Keys) + (if Blocks(u) <= left then Blocks(u) else {})
    {
      less := left;
      TreeActivity(rest + left);
      if Region(u.start, u.width) <= left {
        HandOver(item, u, left, rest);
        less := left - Region(u.start, u.width);
      }
    }

    /** The regions of an item go in one after the other. */
    method HandRegions(item: Item, us: seq<Unit>, ghost rest: set<Blk>)
      requires Held(rest + ItemBlocks(item)) && Kept() && rest !! ItemBlocks(item)
      modifies this`alloc, this`used, this`written, this`put, this`freed
      ensures Held(rest + (ItemBlocks(item) - put.Keys)) && Kept() && Onward()
      ensures put.Keys == old(put.Keys) + Taken(us, ItemBlocks(item))
    {
      ghost var all := ItemBlocks(item);
      var left := ItemBlocks(item);
      assert all !! put.Keys;
      for j := 0 to |us|
        invariant left == all - Taken(us[..j], all) && Held(rest + left) && Kept() && Onward()
        invariant put.Keys == old(put.Keys) + Taken(us[..j], all)
      {
        TakenSnoc(us, j, all);
        left := HandRegion(item, us[j], left, rest);
      }
      assert us[..|us|] == us;
      assert all - put.Keys == left;
    }

    /** repair_tree_insert on one item: the tree does what it needs, and the
        regions of the item that went in are marked as used. */
    method InsertItem(blk: Blk, k: nat, item: Item, ghost rest: set<Blk>) returns (ok: bool)
      requires Held(rest + ItemBlocks(item)) && Kept() && rest !! ItemBlocks(item)
      modifies this`alloc, this`used, this`written, this`put, this`freed, this`given
      ensures Held(rest + (ItemBlocks(item) - put.Keys)) && Kept() && Onward()
      ensures put.Keys <= old(put.Keys) + ItemBlocks(item)
      ensures ok <==> says.ItemGoes(blk, k, item)
      ensures ok ==> Logged().Went(says, blk, k, item)
    {
      ok := !item.Branch?;
      if ok {
        HandRegions(item, says.regions(blk, k), rest);
        ok := says.inserts(blk, k);
        if ok { given := given + {(blk, k)}; }
      } else {
        assert ItemBlocks(item) - put.Keys == ItemBlocks(item);
      }
    }

    /** The loop over the items of one node. */
    method CopyItems(blk: Blk, items: seq<Item>, ghost hold: set<Blk>) returns (ok: bool)
      requires Apart(items) && Held(hold + ItemsBlocks(items)) && Kept() && hold !! ItemsBlocks(items)
      modifies this`alloc, this`used, this`written, this`put, this`freed, this`given
      ensures Held(hold + (ItemsBlocks(items) - put.Keys)) && Kept() && Onward()
      ensures ok <==> forall k: nat :: k < |items| ==> says.ItemGoes(blk, k, items[k])
      ensures ok ==> Logged().Inserted(says, blk, items)
    {
      var k := 0;
      ghost var all := ItemsBlocks(items);
      assert items[0..] == items && all - put.Keys == all;
      while k < |items|
        invariant k <= |items| && Apart(items[k..]) && ItemsBlocks(items[k..]) <= all - put.Keys
        invariant Held(hold + (all - put.Keys)) && Kept() && Onward()
        invariant forall j: nat :: j < k ==> says.ItemGoes(blk, j, items[j]) && Logged().Went(says, blk, j, items[j])
      {
        ItemIn(items, k);
        ghost var was := put.Keys;
        ghost var rest := hold + (all - put.Keys) - ItemBlocks(items[k]);
        HoldItem(hold, all, ItemBlocks(items[k]), was, was);
        var done := InsertItem(blk, k, items[k], rest);
        HoldItem(hold, all, ItemBlocks(items[k]), was, put.Keys);
        if !done { return false; }
        k := k + 1;
      }
      return true;
    }

    /** The node is read and its items are inserted. */
    method CopyBody(twigs: bool, blk: Blk) returns (ok: bool)
      requires Safe() && Kept() && blk in Bits(twigs)
      modifies this`alloc, this`used, this`written, this`put, this`freed, this`given
      ensures Kept() && Onward() && SafeBut(twigs, blk)
      ensures Untaken(twigs, blk) && blk !in written && blk in disk && (ok ==> Tellable(blk, Copied))
      ensures ok <==> says.Copies(blk, disk[blk].items)
      ensures ok ==> Logged().Inserted(says, blk, disk[blk].items)
      ensures !ok ==> (Safe() <==> ItemsBlocks(disk[blk].items) !! put.Keys)
    {
      HoldStarts(disk, twig, leaf, blk, alloc, used, written, put.Keys, sys, total);
      ghost var hold := Unsaved(disk, twig + leaf - {blk}) + {blk};
      ghost var all := ItemsBlocks(disk[blk].items);
      ok := says.reopens(blk);
      if ok { ok := CopyItems(blk, disk[blk].items, hold); }
      OthersSafe(disk, twigs, twig, leaf, blk, hold, alloc, used, written, put.Keys, sys, total);
      if ok {
        assert forall c :: c in all ==> c in put || c in hold + (all - put.Keys);
      } else {
        HalfDone(disk, twig, leaf, blk, alloc, used, written, put.Keys, sys, total);
      }
    }

    /** One turn of repair_am_items_insert.  Its node is not in the tree; when
        an item cannot be inserted the other nodes are safe still, and the node
        itself is exactly if no region of it has gone in. */
    method CopyNode(twigs: bool, blk: Blk) returns (ok: bool)
      requires Safe() && Kept() && blk in Bits(twigs)
      modifies this`twig, this`leaf, this`fate, this`alloc, this`used, this`written, this`put, this`freed, this`given
      ensures OnlyNode(twigs, blk) && Kept() && Onward()
      ensures blk in disk && (ok <==> says.Copies(blk, disk[blk].items))
      ensures ok ==> Safe() && blk !in Bits(twigs) && blk in fate && fate[blk].how == Copied && blk !in alloc
      ensures ok ==> Logged().Inserted(says, blk, disk[blk].items)
      ensures !ok ==> SafeBut(twigs, blk) && twig == old(twig) && leaf == old(leaf)
      ensures !ok ==> (Safe() <==> ItemsBlocks(disk[blk].items) !! put.Keys)
    {
      ok := CopyBody(twigs, blk);
      if ok { DropNode(twigs, blk, Copied); }
    }

    // ---- The pass ----

    ghost predicate SafeFrom(safe: bool)
      reads this`disk, this`twig, this`leaf, this`alloc, this`used, this`written, this`put
    {
      (Safe() || Waiting() == {}) && (safe ==> Safe())
    }

    /** What waits is there and inside. */
    lemma AllThere(nodes: set<Blk>)
      requires (Safe() || Waiting() == {}) && nodes <= Waiting()
      ensures forall b :: b in nodes ==> b in disk && b < total
    {
      if Safe() {
        forall b | b in nodes ensures b in disk && b < total { assert b in Unsaved(disk, Waiting()); }
      }
    }

    /** Nothing that waits is in danger, and only nodes of the kind were touched. */
    ghost predicate Fine(twigs: bool, s: State, safe: bool)
      reads this
    {
      SafeFrom(safe) && Kept() && Only(s, Here(twigs), s.nodes)
    }

    method NodesTurn(twigs: bool, blk: Blk, ghost s: State, ghost safe: bool) returns (ok: bool)
      requires Fine(twigs, s, safe) && blk in Bits(twigs) && EnteredTo(says, s, Here(twigs), blk)
      modifies this
      ensures Fine(twigs, s, safe) && Onward()
      ensures ok ==> EnteredTo(says, s, Here(twigs), blk + 1)
      ensures blk in s.disk && (ok <==> says.Enters(blk, s.disk[blk].items))
    {
      ghost var a := Here(twigs);
      assert Ahead(s, a, blk);
      ok := InsertNode(twigs, blk);
      StillOnly(s, a, Here(twigs), blk);
      if ok { OthersEntered(says, s, a, Here(twigs), blk); }
    }

    method NextNode(twigs: bool, from: Blk, ghost s: State) returns (more: bool, blk: Blk)
      requires EnteredTo(says, s, Here(twigs), from)
      ensures EnteredTo(says, s, Here(twigs), blk) && from <= blk && (more <==> blk < total)
      ensures more ==> blk in Bits(twigs)
    {
      more, blk := FindMarked(Bits(twigs), total, from);
      SkipTo(says, s, Here(twigs), from, blk);
    }

    /** repair_am_nodes_insert gets to the end exactly if every node can be read
        and none is refused; what is left then is what finds no place, and it
        holds no node pointers. */
    method NodesInsert(twigs: bool, ghost s: State, ghost safe: bool) returns (ok: bool)
      requires Fine(twigs, s, safe) && s == Here(twigs)
      modifies this
      ensures Fine(twigs, s, safe) && Onward()
      ensures forall b :: b in s.nodes ==> b in s.disk
      ensures ok <==> forall b :: b in s.nodes ==> says.Enters(b, s.disk[b].items)
      ensures ok ==> forall b :: b in s.nodes ==> Entered(says, s, Here(twigs), b)
    {
      AllThere(s.nodes);
      var more, blk := NextNode(twigs, 0, s);
      while more
        invariant Fine(twigs, s, safe) && Onward() && EnteredTo(says, s, Here(twigs), blk)
        invariant (more <==> blk < total) && (more ==> blk in Bits(twigs))
        decreases total - blk
      {
        ok := NodesTurn(twigs, blk, s, safe);
        if !ok { return; }
        more, blk := NextNode(twigs, blk + 1, s);
      }
      AllEntered(says, s, Here(twigs), blk);
      return true;
    }

    method ItemsTurn(twigs: bool, blk: Blk, ghost s: State, ghost safe: bool) returns (ok: bool)
      requires Fine(twigs, s, safe) && blk in Bits(twigs) && disk == s.disk
      requires CopiedTo(says, s, Here(twigs), Logged(), blk)
      modifies this
      ensures Kept() && Onward() && Only(s, Here(twigs), s.nodes) && disk == s.disk
      ensures ok ==> Fine(twigs, s, safe) && CopiedTo(says, s, Here(twigs), Logged(), blk + 1)
      ensures !ok ==> SafeBut(twigs, blk)
      ensures blk in s.disk && (ok <==> says.Copies(blk, s.disk[blk].items))
    {
      ghost var (a, l) := (Here(twigs), Logged());
      ok := CopyNode(twigs, blk);
      StillOnly(s, a, Here(twigs), blk);
      if ok { OthersCopied(says, s, a, Here(twigs), l, Logged(), blk); }
    }

    method NextToCopy(twigs: bool, from: Blk, ghost s: State) returns (more: bool, blk: Blk)
      requires CopiedTo(says, s, Here(twigs), Logged(), from)
      ensures CopiedTo(says, s, Here(twigs), Logged(), blk) && from <= blk && (more <==> blk < total)
      ensures more ==> blk in Bits(twigs)
    {
      more, blk := FindMarked(Bits(twigs), total, from);
      CopySkipTo(says, s, Here(twigs), Logged(), from, blk);
    }

    /** repair_am_items_insert: nothing is left waiting.  When it fails on a
        node, the other nodes are safe still. */
    method ItemsInsert(twigs: bool, ghost s: State, ghost safe: bool) returns (ok: bool, ghost bad: Blk)
      requires Fine(twigs, s, safe) && s == Here(twigs)
      modifies this
      ensures Kept() && Onward() && Only(s, Here(twigs), s.nodes)
      ensures if ok then SafeFrom(safe) && Bits(twigs) == {} else SafeBut(twigs, bad)
      ensures forall b :: b in s.nodes ==> b in s.disk
      ensures ok <==> forall b :: b in s.nodes ==> says.Copies(b, s.disk[b].items)
      ensures ok ==> forall b :: b in s.nodes ==> IsCopied(says, s, Here(twigs), Logged(), b)
    {
      bad := 0;
      AllThere(s.nodes);
      var more, blk := NextToCopy(twigs, 0, s);
      while more
        invariant Fine(twigs, s, safe) && Onward() && disk == s.disk && CopiedTo(says, s, Here(twigs), Logged(), blk)
        invariant (more <==> blk < total) && (more ==> blk in Bits(twigs))
        decreases total - blk
      {
        bad := blk;
        ok := ItemsTurn(twigs, blk, s, safe);
        if !ok { return; }
        more, blk := NextToCopy(twigs, blk + 1, s);
      }
      AllCopied(says, s, Here(twigs), Logged(), blk);
      ok := true;
    }

    /** One kind of nodes: as a whole what can be, then item by item. */
    method RunKind(twigs: bool, ghost s: State, ghost safe: bool) returns (ok: bool)
      requires SafeFrom(safe) && Kept() && s == Here(twigs)
      modifies this
      ensures Kept() && Onward() && Only(s, Here(twigs), s.nodes)
      ensures if ok then SafeFrom(safe) && Bits(twigs) == {} else SafeFrom(safe) || exists b :: SafeBut(twigs, b)
      ensures ok <==> AllGo(says, s.nodes, s.disk)
      ensures ok ==> AllEnded(says, s.nodes, s.disk, fate, Logged())
    {
      ok := NodesInsert(twigs, s, safe);
      if !ok { return; }
      ghost var (a, bad) := (Here(twigs), 0);
      ok, bad := ItemsInsert(twigs, a, safe);
      KindEnds(says, s, a, Here(twigs), Logged(), ok);
    }

    /** Twigs first, then leaves. */
    method RunBoth(ghost s: State, ghost safe: bool) returns (ok: bool)
      requires SafeFrom(safe) && Kept() && s == Here(true)
      modifies this
      ensures Kept() && Onward()
      ensures ok ==> SafeFrom(safe) && twig == {} && leaf == {}
      ensures !ok ==> SafeFrom(safe) || exists twigs, b :: SafeBut(twigs, b)
      ensures fate.Keys + Waiting() == s.fate.Keys + (s.nodes + s.others)
      ensures ok <==> AllGo(says, s.nodes + s.others, s.disk)
      ensures ok ==> AllEnded(says, s.nodes + s.others, s.disk, fate, Logged())
    {
      ok := RunKind(true, s, safe);
      if !ok { return; }
      ghost var (a, l) := (Here(false), Logged());
      ok := RunKind(false, a, safe);
      BothKinds(says, s, a, Here(false), l, Logged());
    }

    /** repair_add_missing.  It gets to the end exactly if every node that waits
        gets through.  Nothing waits then; every node that waited was attached,
        copied or found empty as it should be, and nothing had been allocated
        over it or over a block it points to before that block went into the
        tree or the node was dealt with (Kept). */
    method Run() returns (ok: bool)
      requires (Safe() || Waiting() == {}) && Kept()
      modifies this
      ensures Kept() && Onward()
      ensures ok ==> twig == {} && leaf == {} && (old(Safe()) ==> Safe())
      ensures !ok ==> Safe() || Waiting() == {} || exists twigs, b :: SafeBut(twigs, b)
      ensures fate.Keys + Waiting() == old(fate.Keys + Waiting())
      ensures ok <==> AllGo(says, old(Waiting()), old(disk))
      ensures ok ==> AllEnded(says, old(Waiting()), old(disk), fate, Logged())
    {
      ok := RunBoth(Here(true), Safe());
    }
  }

  lemma Stories(a: Adding)
    requires a.Kept()
    ensures forall b :: b in a.fate ==>
      && b in a.found && a.fate[b].blocks == {b} + ItemsBlocks(a.found[b].items)
      && Story(a.fate[b]) && a.fate[b].written <= a.written
  {
    assert forall b :: b in a.fate ==> a.Told(b);
  }

  /** repair_am_prepare and repair_add_missing. */
  method InsertMissing(p: Passes, says: Answers) returns (ok: bool, a: Adding)
    requires p.Finished()
    ensures fresh(a) && a.says == says
    ensures ok ==> a.twig == {} && a.leaf == {} && a.fate.Keys == p.twig + p.leaf
    ensures ok ==> a.Kept() && (p.met != p.sys ==> a.Safe())
    ensures ok <==> AllGo(says, p.twig + p.leaf, p.disk)
    ensures ok ==> AllEnded(says, p.twig + p.leaf, p.disk, a.fate, a.Logged())
    ensures forall b :: b in a.fate ==>
      && b in p.disk && a.fate[b].blocks == {b} + ItemsBlocks(p.disk[b].items)
      && Story(a.fate[b]) && a.fate[b].written <= a.written
  {
    a := new Adding.Prepare(p, says);
    ok := a.Run();
    Stories(a);
  }

  /** The BUILD mode after the filter: whatever savable node lies in a scanned
      block outside the tree is attached, copied or found empty, and until then
      nothing is allocated over it or over the blocks it points to; those of an
      attached node are all in the tree, and every item of a copied one was
      inserted.  It gets there exactly if the region loop ends, the twigs of the
      tree can be read and no found node is refused. */
  method Recover(p: Passes, chunk: nat, whole: bool, bad: set<Blk>, says: Answers)
      returns (ok: bool, ends: bool, a: Adding?, ghost tree: map<Blk, Image>, ghost found: map<Blk, Image>)
    requires p.AfterFilter() && chunk > 0 && chunk % 8 == 0 && bad <= p.sys && p.total < TWO64
    modifies p
    ensures p.total < TWO32 ==> ends
    ensures ok <==> (ends && old(p.twig <= p.disk.Keys) &&
      AllGo(says, Found(p.disk, p.scan, TWIG_LEVEL) + Found(p.disk, p.scan, LEAF_LEVEL), p.disk))
    ensures ok ==> a != null && fresh(a) && a.says == says && a.twig == {} && a.leaf == {}
    ensures ok ==> a.fate.Keys == Found(p.disk, p.scan, TWIG_LEVEL) + Found(p.disk, p.scan, LEAF_LEVEL)
    ensures ok ==> forall b :: b in a.fate ==>
      && b in p.disk && a.fate[b].blocks == {b} + ItemsBlocks(p.disk[b].items)
      && Story(a.fate[b]) && a.fate[b].written <= a.written && Ended(says, a.fate, a.Logged(), b, p.disk[b].items)
    ensures ok ==> a.Kept() && (p.met != p.sys ==> a.Safe())
    ensures ok ==> p.used == old(p.used) + Extents(tree, old(p.twig)) && Extents(found, p.twig) <= p.met
    ensures ok ==> Remain(tree, p.disk, old(p.twig)) && Remain(found, p.disk, p.twig)
  {
    a := null;
    ok, ends, tree, found := p.Collect(chunk, whole, bad);
    if ok { ok, a := InsertMissing(p, says); }
  }

  /** A twig with two extents, the first of which has gone in when the insertion
      of the second one fails: the twig waits, and one of its blocks is used. */
  lemma HalfCopied()
    ensures var disk := map[10 := Image(TWIG_LEVEL, true, [Extent([Unit(20, 1)]), Extent([Unit(30, 1)])])];
      && SafeAt(disk, {10}, {}, {10, 20, 30}, {}, {}, {}, {}, 40)
      && SafeAt(disk, Less(true, {10}, 10), {}, {10, 20, 30}, {20}, {}, {20}, {}, 40)
      && 20 in ItemsBlocks(disk[10].items)
      && !SafeAt(disk, {10}, {}, {10, 20, 30}, {20}, {}, {20}, {}, 40)
  {
    var (a, b) := (Extent([Unit(20, 1)]), Extent([Unit(30, 1)]));
    var items := [a, b];
    var disk := map[10 := Image(TWIG_LEVEL, true, items)];
    BlocksOfOne(Unit(20, 1));
    BlocksOfOne(Unit(30, 1));
    RegionOne(20);
    RegionOne(30);
    assert items[1..] == [b] && [b][1..] == [];
    assert ItemsBlocks([b]) == ItemBlocks(b) + ItemsBlocks([]) == {30};
    assert ItemsBlocks(items) == ItemBlocks(a) + ItemsBlocks([b]) == {20, 30};
    assert Apart([b]) && Apart(items);
    InExtents(disk, {10});
    InExtents(disk, {});
    assert Extents(disk, {10}) == {20, 30} && Extents(disk, {}) == {};
    assert {10} + {} == {10} && Less(true, {10}, 10) + {} == {};
    assert SelfApart(disk, 10) && Foreign(disk, 10, 10);
    assert Unsaved(disk, {10}) == {10, 20, 30} && Unsaved(disk, {}) == {};
    assert 20 in Unsaved(disk, {10});
  }
}

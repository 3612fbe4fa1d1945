/** Which blocks the nodes found by fsck point to, and what a twig scan makes of
    their extents (librepair/twig_scan.c and extent40_check_layout). */
module Owners {
  import opened BlockSet

  const LEAF_LEVEL: nat := 1
  const TWIG_LEVEL: nat := 2
  const HOLE_UNIT: nat := 0
  const UNALLOC_UNIT: nat := 1

  /** One unit of an extent item. */
  datatype Unit = Unit(start: Blk, width: nat)

  predicate InFs(s: set<Blk>, total: nat) { forall b :: b in s ==> b < total }

  /** A node pointer, an extent item with its units, or another data item. */
  datatype Item = Branch | Extent(units: seq<Unit>) | Other

  /** A block that opens as a node; sound says that the node plugin finds
      nothing fatal in it. */
  datatype Image = Image(level: nat, sound: bool, items: seq<Item>)

  // ---- The blocks that items point to ----

  /** Holes and unallocated units point nowhere. */
  function UnitBlocks(u: Unit): (r: set<Blk>) {
    if u.start == HOLE_UNIT || u.start == UNALLOC_UNIT then {} else Region(u.start, u.width)
  }

  function UnitsBlocks(us: seq<Unit>): (r: set<Blk>) {
    if us == [] then {} else UnitsBlocks(us[..|us| - 1]) + UnitBlocks(us[|us| - 1])
  }

  function ItemBlocks(i: Item): (r: set<Blk>) {
    match i
    case Extent(us) => UnitsBlocks(us)
    case _ => {}
  }

  function ItemsBlocks(items: seq<Item>): (r: set<Blk>) {
    if items == [] then {} else ItemBlocks(items[0]) + ItemsBlocks(items[1..])
  }

  lemma {:induction false} ItemsSplit(a: seq<Item>, b: seq<Item>)
    ensures ItemsBlocks(a + b) == ItemsBlocks(a) + ItemsBlocks(b)
  {
    if a == [] {
      assert a + b == b;
    } else {
      assert (a + b)[0] == a[0] && (a + b)[1..] == a[1..] + b;
      ItemsSplit(a[1..], b);
    }
  }

  /** The blocks that the nodes of the set n point to by extents. */
  ghost function Extents(disk: map<Blk, Image>, n: set<Blk>): (r: set<Blk>) {
    set b | b in AllBlocks(disk) && PointedFrom(disk, n, b)
  }

  ghost predicate PointedFrom(disk: map<Blk, Image>, n: set<Blk>, b: Blk) {
    exists t :: t in n && t in disk && b in ItemsBlocks(disk[t].items)
  }

  /** The blocks that any node points to. */
  ghost function AllBlocks(disk: map<Blk, Image>): (r: set<Blk>) {
    set t, b | t in disk && b in ItemsBlocks(disk[t].items) :: b
  }

  lemma InExtents(disk: map<Blk, Image>, n: set<Blk>)
    ensures forall b :: b in Extents(disk, n) <==> exists t :: t in n && t in disk && b in ItemsBlocks(disk[t].items)
  {
  }

  // ---- What a scan may do to a node ----

  predicate Skipped(u: Unit) { u.start == HOLE_UNIT || u.start == UNALLOC_UNIT || u.width == 0 }

  /** The unit points inside the filesystem and to blocks not met yet. */
  predicate Acceptable(u: Unit, total: nat, met: set<Blk>) {
    Inside(total, u.start, u.width) && Region(u.start, u.width) !! met
  }

  /** r is us with exactly the units zeroed that point outside or to a block
      that was met before or belongs to an earlier unit. */
  ghost predicate Screened(us: seq<Unit>, r: seq<Unit>, total: nat, met: set<Blk>) {
    |r| == |us| && forall i: nat :: i < |us| ==> UnitScreened(us[i], r, i, total, met)
  }

  ghost predicate UnitScreened(u: Unit, r: seq<Unit>, i: nat, total: nat, met: set<Blk>)
    requires i < |r|
  {
    r[i] == if Skipped(u) || Acceptable(u, total, met + UnitsBlocks(r[..i])) then u else u.(start := HOLE_UNIT)
  }

  /** The same over the items of a node; node pointers stay. */
  ghost predicate ItemScreened(a: Item, b: Item, total: nat, met: set<Blk>) {
    match a
    case Extent(us) => b.Extent? && Screened(us, b.units, total, met)
    case _ => b == a
  }

  ghost predicate ItemsScreened(a: seq<Item>, b: seq<Item>, total: nat, met: set<Blk>) {
    |b| == |a| && forall i: nat :: i < |a| ==> ItemAtScreened(a[i], b, i, total, met)
  }

  ghost predicate ItemAtScreened(a: Item, b: seq<Item>, i: nat, total: nat, met: set<Blk>)
    requires i < |b|
  {
    ItemScreened(a, b[i], total, met + ItemsBlocks(b[..i]))
  }

  /** No block belongs to two items of the node. */
  ghost predicate Apart(items: seq<Item>) {
    items == [] || (ItemBlocks(items[0]) !! ItemsBlocks(items[1..]) && Apart(items[1..]))
  }

  /** No block belongs to two of the nodes in n, or to two items of one. */
  ghost predicate Owned(disk: map<Blk, Image>, n: set<Blk>) {
    && (forall t {:trigger SelfApart(disk, t)} :: t in n ==> SelfApart(disk, t))
    && (forall s, t {:trigger Foreign(disk, s, t)} :: s in n && t in n ==> Foreign(disk, s, t))
  }

  ghost predicate SelfApart(disk: map<Blk, Image>, t: Blk) { t in disk ==> Apart(disk[t].items) }

  ghost predicate Foreign(disk: map<Blk, Image>, s: Blk, t: Blk) {
    s in disk && t in disk && s != t ==> ItemsBlocks(disk[s].items) !! ItemsBlocks(disk[t].items)
  }

  lemma UnitsSnoc(us: seq<Unit>, u: Unit)
    ensures UnitsBlocks(us + [u]) == UnitsBlocks(us) + UnitBlocks(u)
  {
    assert (us + [u])[..|us + [u]| - 1] == us;
  }

  lemma ItemsSnoc(items: seq<Item>, i: Item)
    ensures ItemsBlocks(items + [i]) == ItemsBlocks(items) + ItemBlocks(i)
  {
    ItemsSplit(items, [i]);
    assert ItemsBlocks([i]) == ItemBlocks(i);
  }

  lemma {:induction false} ApartSnoc(items: seq<Item>, i: Item)
    requires Apart(items) && ItemsBlocks(items) !! ItemBlocks(i)
    ensures Apart(items + [i])
  {
    if items != [] {
      assert (items + [i])[0] == items[0] && (items + [i])[1..] == items[1..] + [i];
      ItemsSnoc(items[1..], i);
      ApartSnoc(items[1..], i);
    } else {
      assert items + [i] == [i];
    }
  }

  /** The members of n below the block t. */
  ghost function Below(n: set<Blk>, t: Blk): (r: set<Blk>) { set s | s in n && s < t }

  lemma BelowNext(n: set<Blk>, t: Blk, u: Blk)
    requires t in n && t < u && forall c :: t < c < u ==> c !in n
    ensures Below(n, u) == Below(n, t) + {t}
  {
  }

  lemma ExtentsSnoc(disk: map<Blk, Image>, n: set<Blk>, t: Blk, img: Image)
    requires t !in n
    ensures Extents(disk[t := img], n + {t}) == Extents(disk, n) + ItemsBlocks(img.items)
  {
    var (later, more) := (disk[t := img], n + {t});
    InExtents(later, more);
    InExtents(disk, n);
    forall b ensures b in Extents(later, more) <==> b in Extents(disk, n) || b in ItemsBlocks(img.items) {
      if b in Extents(disk, n) {
        var s :| s in n && s in disk && b in ItemsBlocks(disk[s].items);
        assert s in more && s in later && later[s] == disk[s];
      }
      if b in ItemsBlocks(img.items) { assert t in more && later[t] == img; }
    }
  }

  lemma SameExtents(a: map<Blk, Image>, b: map<Blk, Image>, n: set<Blk>)
    requires forall t :: t in n ==>
      (t in a <==> t in b) && (t in a ==> ItemsBlocks(a[t].items) == ItemsBlocks(b[t].items))
    ensures Extents(a, n) == Extents(b, n)
  {
    InExtents(a, n);
    InExtents(b, n);
  }

  lemma BlocksInExtents(disk: map<Blk, Image>, n: set<Blk>, t: Blk)
    requires t in n && t in disk
    ensures ItemsBlocks(disk[t].items) <= Extents(disk, n)
  {
    InExtents(disk, n);
  }

  lemma OwnedSnoc(disk: map<Blk, Image>, n: set<Blk>, t: Blk, img: Image)
    requires Owned(disk, n) && t !in n && Apart(img.items) && Extents(disk, n) !! ItemsBlocks(img.items)
    ensures Owned(disk[t := img], n + {t})
  {
    var later := disk[t := img];
    forall s | s in n + {t} ensures SelfApart(later, s) {
      if s != t { assert SelfApart(disk, s); }
    }
    forall s, u | s in n + {t} && u in n + {t} ensures Foreign(later, s, u) {
      if s != t && u != t {
        assert Foreign(disk, s, u);
      } else if s != u && s in later && u in later {
        BlocksInExtents(disk, n, if s == t then u else s);
      }
    }
  }

  /** The two bitmaps a twig scan updates. */
  datatype Books = Books(met: set<Blk>, used: set<Blk>)

  /** From a to b exactly the given blocks were accepted, none of them met
      before. */
  ghost predicate Grew(a: Books, b: Books, blocks: set<Blk>, mark: bool) {
    && blocks !! a.met && b.met == a.met + blocks
    && b.used == (if mark then a.used + blocks else a.used)
  }

  lemma GrewTwice(a: Books, b: Books, c: Books, x: set<Blk>, y: set<Blk>, mark: bool)
    requires Grew(a, b, x, mark) && Grew(b, c, y, mark)
    ensures Grew(a, c, x + y, mark) && x !! y
  {
  }

  /** Screening leaves no block with two owners: the regions that stay are
      pairwise disjoint, were not met before, and lie inside the filesystem. */
  lemma ScreenedApart(us: seq<Unit>, r: seq<Unit>, total: nat, met: set<Blk>, i: nat, j: nat)
    requires Screened(us, r, total, met) && i < j < |r|
    ensures UnitBlocks(r[i]) !! UnitBlocks(r[j])
    ensures UnitBlocks(r[j]) !! met && forall b :: b in UnitBlocks(r[j]) ==> b < total
  {
    assert UnitScreened(us[j], r, j, total, met);
    UnitMember(r[..j], i);
  }

  /** Whatever a scan accepts lies inside the filesystem. */
  lemma {:induction false} ScreenedInside(us: seq<Unit>, r: seq<Unit>, total: nat, met: set<Blk>)
    requires Screened(us, r, total, met)
    ensures InFs(UnitsBlocks(r), total)
  {
    if r != [] {
      var n := |r| - 1;
      assert UnitScreened(us[n], r, n, total, met);
      forall i: nat | i < n ensures UnitScreened(us[..n][i], r[..n], i, total, met) {
        assert UnitScreened(us[i], r, i, total, met) && r[..n][..i] == r[..i];
      }
      ScreenedInside(us[..n], r[..n], total, met);
      UnitsSnoc(r[..n], r[n]);
      assert r == r[..n] + [r[n]];
    }
  }

  lemma ItemInside(a: Item, b: Item, total: nat, met: set<Blk>)
    requires ItemScreened(a, b, total, met)
    ensures InFs(ItemBlocks(b), total)
  {
    if b.Extent? { ScreenedInside(a.units, b.units, total, met); }
  }

  lemma ItemsScreenedFront(a: seq<Item>, b: seq<Item>, total: nat, met: set<Blk>, n: nat)
    requires ItemsScreened(a, b, total, met) && n < |b|
    ensures ItemsScreened(a[..n], b[..n], total, met)
  {
    forall i: nat | i < n ensures ItemAtScreened(a[..n][i], b[..n], i, total, met) {
      assert ItemAtScreened(a[i], b, i, total, met) && b[..n][..i] == b[..i];
    }
  }

  lemma {:induction false} ItemsInside(a: seq<Item>, b: seq<Item>, total: nat, met: set<Blk>)
    requires ItemsScreened(a, b, total, met)
    ensures InFs(ItemsBlocks(b), total)
  {
    if b != [] {
      var n := |b| - 1;
      assert ItemAtScreened(a[n], b, n, total, met);
      ItemInside(a[n], b[n], total, met + ItemsBlocks(b[..n]));
      ItemsScreenedFront(a, b, total, met, n);
      ItemsInside(a[..n], b[..n], total, met);
      ItemsSnoc(b[..n], b[n]);
      assert b == b[..n] + [b[n]];
    }
  }

  lemma ScannedInside(was: map<Blk, Image>, now: map<Blk, Image>, twigs: set<Blk>, blk: Blk, total: nat, met: set<Blk>)
    requires Scanned(was, now, twigs, blk, total, met)
    ensures InFs(Extents(now, Below(twigs, blk)), total)
  {
    InExtents(now, Below(twigs, blk));
    forall t | t in Below(twigs, blk) && t in now ensures InFs(ItemsBlocks(now[t].items), total) {
      assert TwigScanned(was, now, twigs, t, total, met);
      ItemsInside(was[t].items, now[t].items, total, met + Extents(now, Below(twigs, t)));
    }
  }

  lemma {:induction false} UnitMember(us: seq<Unit>, k: nat)
    requires k < |us|
    ensures UnitBlocks(us[k]) <= UnitsBlocks(us)
  {
    if k < |us| - 1 { UnitMember(us[..|us| - 1], k); }
  }

  /** Block c lies in the unit, which is neither a hole nor unallocated. */
  ghost predicate At(u: Unit, c: Blk) { u.start > 1 && u.start <= c < u.start + u.width }

  lemma {:induction false} AtSome(us: seq<Unit>, c: Blk)
    ensures c in UnitsBlocks(us) <==> exists k :: 0 <= k < |us| && At(us[k], c)
  {
    if us != [] {
      var front := us[..|us| - 1];
      AtSome(front, c);
      if k :| 0 <= k < |us| && At(us[k], c) && k < |front| { assert At(front[k], c); }
      if k :| 0 <= k < |front| && At(front[k], c) { assert At(us[k], c); }
    }
  }

  /** Screening in plain numbers: a unit is kept, or its start becomes zero; it
      is kept exactly if it is a hole, unallocated or empty, or ends inside and
      no block of it was met before or lies in an earlier unit that was kept. */
  lemma ScreenedExactly(us: seq<Unit>, r: seq<Unit>, total: nat, met: set<Blk>, i: nat)
    requires Screened(us, r, total, met) && i < |us|
    ensures r[i] == us[i] || r[i] == Unit(0, us[i].width)
    ensures r[i] == us[i] <==>
      || us[i].start <= 1 || us[i].width == 0
      || (&& us[i].start + us[i].width <= total
          && forall c :: us[i].start <= c < us[i].start + us[i].width ==>
               c !in met && !exists j :: 0 <= j < i && At(r[j], c))
  {
    assert UnitScreened(us[i], r, i, total, met);
    var (u, before) := (us[i], r[..i]);
    forall c ensures c in UnitsBlocks(before) <==> exists j :: 0 <= j < i && At(r[j], c) {
      AtSome(before, c);
      if j :| 0 <= j < i && At(r[j], c) { assert At(before[j], c); }
      if j :| 0 <= j < i && At(before[j], c) { assert At(r[j], c); }
    }
    assert forall c :: c in Region(u.start, u.width) <==> u.start <= c < u.start + u.width;
    assert Region(u.start, u.width) !! met + UnitsBlocks(before) <==>
      forall c :: u.start <= c < u.start + u.width ==> c !in met && c !in UnitsBlocks(before);
  }

  lemma ItemsScreenedSnoc(items: seq<Item>, r: seq<Item>, i: Item, j: Item, total: nat, met: set<Blk>)
    requires ItemsScreened(items, r, total, met) && ItemScreened(i, j, total, met + ItemsBlocks(r))
    ensures ItemsScreened(items + [i], r + [j], total, met)
  {
    forall k: nat | k < |items| + 1 ensures ItemAtScreened((items + [i])[k], r + [j], k, total, met) {
      if k < |items| {
        assert ItemAtScreened(items[k], r, k, total, met) && (r + [j])[..k] == r[..k];
      } else {
        assert (r + [j])[..k] == r;
      }
    }
  }

  /** What is known when the twigs below blk have been scanned. */
  ghost predicate Scanned(was: map<Blk, Image>, now: map<Blk, Image>, twigs: set<Blk>, blk: Blk, total: nat,
                          met: set<Blk>) {
    && now.Keys == was.Keys
    && Owned(now, Below(twigs, blk))
    && (forall t {:trigger TwigScanned(was, now, twigs, t, total, met)} :: t in twigs && t < blk ==>
         TwigScanned(was, now, twigs, t, total, met))
    && (forall t {:trigger now[t]} :: t in now && !(t in twigs && t < blk) ==> now[t] == was[t])
  }

  lemma StaysScanned(was: map<Blk, Image>, now: map<Blk, Image>, twigs: set<Blk>, t: Blk, total: nat, met: set<Blk>,
                     img: Image, s: Blk)
    requires TwigScanned(was, now, twigs, s, total, met) && s < t
    ensures TwigScanned(was, now[t := img], twigs, s, total, met)
  {
    var (n, later) := (Below(twigs, s), now[t := img]);
    SameExtents(later, now, n);
  }

  lemma NowScanned(was: map<Blk, Image>, now: map<Blk, Image>, twigs: set<Blk>, t: Blk, total: nat, met: set<Blk>,
                   img: Image)
    requires t in was && t in now && was[t] == now[t] && img == now[t].(items := img.items)
    requires ItemsScreened(now[t].items, img.items, total, met + Extents(now, Below(twigs, t)))
    ensures TwigScanned(was, now[t := img], twigs, t, total, met)
  {
    var (n, later) := (Below(twigs, t), now[t := img]);
    SameExtents(later, now, n);
  }

  lemma ScannedStep(was: map<Blk, Image>, now: map<Blk, Image>, twigs: set<Blk>, t: Blk, total: nat, met: set<Blk>,
                    img: Image)
    requires Scanned(was, now, twigs, t, total, met)
    requires t in twigs && t in now
    requires img == now[t].(items := img.items) && Apart(img.items)
    requires ItemsScreened(now[t].items, img.items, total, met + Extents(now, Below(twigs, t)))
    requires Extents(now, Below(twigs, t)) !! ItemsBlocks(img.items)
    ensures Scanned(was, now[t := img], twigs, t + 1, total, met)
    ensures Below(twigs, t + 1) == Below(twigs, t) + {t}
    ensures Extents(now[t := img], Below(twigs, t + 1)) == Extents(now, Below(twigs, t)) + ItemsBlocks(img.items)
  {
    GatheredStep(now, twigs, t, img);
    MarkedStep(was, now, twigs, t, total, met, img);
  }

  lemma GatheredStep(now: map<Blk, Image>, twigs: set<Blk>, t: Blk, img: Image)
    requires Owned(now, Below(twigs, t)) && t in twigs && Apart(img.items)
    requires Extents(now, Below(twigs, t)) !! ItemsBlocks(img.items)
    ensures Below(twigs, t + 1) == Below(twigs, t) + {t}
    ensures Extents(now[t := img], Below(twigs, t + 1)) == Extents(now, Below(twigs, t)) + ItemsBlocks(img.items)
    ensures Owned(now[t := img], Below(twigs, t + 1))
  {
    var done := Below(twigs, t);
    assert t !in done;
    assert Below(twigs, t + 1) == done + {t};
    ExtentsSnoc(now, done, t, img);
    OwnedSnoc(now, done, t, img);
  }

  lemma MarkedStep(was: map<Blk, Image>, now: map<Blk, Image>, twigs: set<Blk>, t: Blk, total: nat, met: set<Blk>,
                   img: Image)
    requires Scanned(was, now, twigs, t, total, met)
    requires t in twigs && t in now && img == now[t].(items := img.items)
    requires ItemsScreened(now[t].items, img.items, total, met + Extents(now, Below(twigs, t)))
    ensures now[t := img].Keys == was.Keys
    ensures forall s :: s in twigs && s < t + 1 ==> TwigScanned(was, now[t := img], twigs, s, total, met)
    ensures forall s {:trigger now[t := img][s]} :: s in now && !(s in twigs && s < t + 1) ==>
      now[t := img][s] == was[s]
  {
    var later := now[t := img];
    assert later.Keys == now.Keys;
    NowScanned(was, now, twigs, t, total, met, img);
    forall s | s in twigs && s < t + 1 ensures TwigScanned(was, later, twigs, s, total, met) {
      if s != t {
        StaysScanned(was, now, twigs, t, total, met, img, s);
      }
    }
  }

  /** t was scanned after the twigs below it. */
  ghost predicate TwigScanned(was: map<Blk, Image>, now: map<Blk, Image>, twigs: set<Blk>, t: Blk, total: nat,
                              met: set<Blk>) {
    && t in was && t in now
    && now[t] == was[t].(items := now[t].items)
    && ItemsScreened(was[t].items, now[t].items, total, met + Extents(now, Below(twigs, t)))
  }

  lemma ScreenedSnoc(us: seq<Unit>, r: seq<Unit>, u: Unit, v: Unit, total: nat, met: set<Blk>)
    requires Screened(us, r, total, met)
    requires v == if Skipped(u) || Acceptable(u, total, met + UnitsBlocks(r)) then u else u.(start := HOLE_UNIT)
    ensures Screened(us + [u], r + [v], total, met)
  {
    forall i: nat | i < |us| + 1 ensures UnitScreened((us + [u])[i], r + [v], i, total, met) {
      if i < |us| {
        assert UnitScreened(us[i], r, i, total, met) && (r + [v])[..i] == r[..i];
      } else {
        assert (r + [v])[..i] == r;
      }
    }
  }

  // ---- Levels ----

  /** repair_tree_legal_level: pointers lie above the leaves, extents on twigs,
      everything else in leaves. */
  predicate LegalLevel(i: Item, level: nat) {
    match i
    case Branch => level != LEAF_LEVEL
    case Extent(_) => level == TWIG_LEVEL
    case Other => level == LEAF_LEVEL
  }

  /** A node worth saving: on a data level, sound, on the right level for its
      items, and not empty. */
  predicate Savable(img: Image) {
    && (img.level == LEAF_LEVEL || img.level == TWIG_LEVEL)
    && img.sound && img.items != []
    && forall k :: 0 <= k < |img.items| ==> LegalLevel(img.items[k], img.level)
  }

  /** In plain numbers: a sound leaf of nothing but other items, or a sound twig
      without any. */
  lemma SavableExactly(img: Image)
    ensures Savable(img) <==>
      && img.sound && img.items != []
      && ((img.level == 1 && forall i :: i in img.items ==> i == Other) || (img.level == 2 && Other !in img.items))
  {
    assert forall k :: 0 <= k < |img.items| ==> img.items[k] in img.items;
    if Savable(img) && img.level == 2 { assert forall i :: i in img.items ==> LegalLevel(i, 2); }
  }

  /** A leaf points to no blocks. */
  lemma {:induction false} LeafPointsNowhere(items: seq<Item>)
    requires forall k :: 0 <= k < |items| ==> LegalLevel(items[k], LEAF_LEVEL)
    ensures ItemsBlocks(items) == {} && Apart(items)
  {
    if items != [] { LeafPointsNowhere(items[1..]); }
  }

  /** repair_am_node_prepare: the node pointers are taken out. */
  function WithoutBranches(items: seq<Item>): (r: seq<Item>)
  {
    if items == [] then []
    else if items[0].Branch? then WithoutBranches(items[1..])
    else [items[0]] + WithoutBranches(items[1..])
  }

  /** Taking the node pointers out loses no data block. */
  lemma {:induction false} BranchesHoldNoBlocks(items: seq<Item>)
    ensures ItemsBlocks(WithoutBranches(items)) == ItemsBlocks(items)
    ensures Apart(items) ==> Apart(WithoutBranches(items))
    ensures Branch !in WithoutBranches(items)
  {
    if items != [] { BranchesHoldNoBlocks(items[1..]); }
  }

  /** Something other than node pointers is among the items. */
  ghost predicate HasData(items: seq<Item>) { exists k :: 0 <= k < |items| && items[k] != Branch }

  /** Node pointers alone go, and the order stays. */
  lemma {:induction false} BranchesGo(a: seq<Item>, b: seq<Item>)
    ensures WithoutBranches(a + b) == WithoutBranches(a) + WithoutBranches(b)
    ensures |a| == 1 ==> WithoutBranches(a) == if a[0] == Branch then [] else a
    ensures WithoutBranches(a) != [] <==> HasData(a)
  {
    if a == [] {
      assert a + b == b;
    } else {
      assert (a + b)[1..] == a[1..] + b;
      BranchesGo(a[1..], b);
      assert forall k :: 0 <= k < |a[1..]| ==> a[1..][k] == a[k + 1];
      assert a[1..] == [] || |a| > 1;
    }
  }
}

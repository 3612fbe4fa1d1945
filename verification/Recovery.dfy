/** The passes of fsck's BUILD mode after the filter: twig scan, disk scan, the
    second twig scan and the insertion of what was found outside the tree
    (librepair/twig_scan.c, disk_scan.c, add_missing.c and the glue of
    repair.c).  The passes hand bitmaps to each other; here they are sets. */
module Recovery {
  import opened Arithmetic
  import opened BlockSet
  import opened Joining
  import Filter
  import opened Owners

  datatype Answer = Fine | Fixable | Fatal

  /** Twigs and leaves found outside the tree are met but not used, so are the
      blocks the twigs point to, and each block has one owner. */
  ghost predicate PassesDone(disk: map<Blk, Image>, twig: set<Blk>, leaf: set<Blk>, met: set<Blk>, used: set<Blk>,
                             sys: set<Blk>, total: nat) {
    && sys <= used && used <= met && InFs(met, total)
    && twig !! leaf && twig + leaf <= met && twig + leaf !! used
    && Extents(disk, twig) <= met && Extents(disk, twig) !! used + twig + leaf
    && Owned(disk, twig)
    && (forall t :: t in twig ==> t in disk && Savable(disk[t]) && disk[t].level == TWIG_LEVEL)
    && (forall t :: t in leaf ==> t in disk && Savable(disk[t]) && disk[t].level == LEAF_LEVEL)
  }

  lemma UpToStart(p: Passes, u: Blk, mark: bool)
    requires forall c :: 0 <= c < u ==> c !in p.twig
    ensures p.UpTo(p.disk, p.disk, p.twig, u, p.Kept(), mark)
  {
    assert Below(p.twig, u) == {};
    InExtents(p.disk, {});
  }

  lemma BelowGap(n: set<Blk>, t: Blk, u: Blk)
    requires t <= u && forall c :: t <= c < u ==> c !in n
    ensures Below(n, u) == Below(n, t)
  {
  }

  /** Between two twigs there is nothing to scan. */
  lemma UpToNext(p: Passes, was: map<Blk, Image>, mid: map<Blk, Image>, t: Blk, u: Blk, start: Books, mark: bool)
    requires p.UpTo(was, mid, p.twig, t, start, mark) && t <= u && forall c :: t <= c < u ==> c !in p.twig
    ensures p.UpTo(was, mid, p.twig, u, start, mark)
  {
    BelowGap(p.twig, t, u);
  }

  /** One turn of the loop over the units. */
  lemma UnitChecked(a: Books, b: Books, c: Books, us: seq<Unit>, k: nat, r: seq<Unit>, v: Unit, mark: bool, total: nat)
    requires k < |us| && Screened(us[..k], r, total, a.met)
    requires Grew(a, b, UnitsBlocks(r), mark) && Grew(b, c, UnitBlocks(v), mark)
    requires v == if Skipped(us[k]) || Acceptable(us[k], total, b.met) then us[k] else us[k].(start := HOLE_UNIT)
    ensures Screened(us[..k + 1], r + [v], total, a.met) && Grew(a, c, UnitsBlocks(r + [v]), mark)
  {
    GrewTwice(a, b, c, UnitsBlocks(r), UnitBlocks(v), mark);
    UnitsSnoc(r, v);
    ScreenedSnoc(us[..k], r, us[k], v, total, a.met);
    assert us[..k] + [us[k]] == us[..k + 1];
  }

  /** One turn of the loop over the items. */
  lemma ItemChecked(a: Books, b: Books, c: Books, items: seq<Item>, k: nat, r: seq<Item>, j: Item, mark: bool,
                    total: nat)
    requires k < |items| && ItemsScreened(items[..k], r, total, a.met) && Apart(r)
    requires Grew(a, b, ItemsBlocks(r), mark) && Grew(b, c, ItemBlocks(j), mark)
    requires ItemScreened(items[k], j, total, b.met)
    ensures ItemsScreened(items[..k + 1], r + [j], total, a.met) && Apart(r + [j])
    ensures Grew(a, c, ItemsBlocks(r + [j]), mark)
    ensures JoinItems(r + [j]) == JoinItems(r) + [JoinItem(j)]
  {
    GrewTwice(a, b, c, ItemsBlocks(r), ItemBlocks(j), mark);
    ItemsSnoc(r, j);
    ApartSnoc(r, j);
    JoinItemsSnoc(r, j);
    ItemsScreenedSnoc(items[..k], r, items[k], j, total, a.met);
    assert items[..k] + [items[k]] == items[..k + 1];
  }

  /** One turn of the loop over the twigs. */
  lemma TwigStep(was: map<Blk, Image>, mid: map<Blk, Image>, disk: map<Blk, Image>, twigs: set<Blk>, t: Blk, total: nat,
                 met: set<Blk>, img: Image, a: Books, b: Books, c: Books, mark: bool)
    requires Scanned(was, mid, twigs, t, total, met) && JoinedTo(mid, disk, Below(twigs, t)) && a.met == met
    requires t in twigs && t in mid && img == mid[t].(items := img.items) && Apart(img.items)
    requires Grew(a, b, Extents(mid, Below(twigs, t)), mark) && Grew(b, c, ItemsBlocks(img.items), mark)
    requires ItemsScreened(mid[t].items, img.items, total, b.met)
    ensures var later := mid[t := img];
      && Scanned(was, later, twigs, t + 1, total, met)
      && JoinedTo(later, disk[t := disk[t].(items := JoinItems(img.items))], Below(twigs, t + 1))
      && Grew(a, c, Extents(later, Below(twigs, t + 1)), mark)
  {
    GrewTwice(a, b, c, Extents(mid, Below(twigs, t)), ItemsBlocks(img.items), mark);
    assert b.met == met + Extents(mid, Below(twigs, t));
    ScannedStep(was, mid, twigs, t, total, met, img);
    var (later, now) := (mid[t := img], disk[t := disk[t].(items := JoinItems(img.items))]);
    assert disk[t] == mid[t];
    assert now.Keys == later.Keys;
  }

  lemma SavableKept(a: Image, b: Image, total: nat, met: set<Blk>)
    requires ItemsScreened(a.items, b.items, total, met) && b == a.(items := b.items)
    ensures Savable(a) <==> Savable(b)
  {
    forall k: nat | k < |a.items| ensures LegalLevel(a.items[k], a.level) <==> LegalLevel(b.items[k], a.level) {
      assert ItemAtScreened(a.items[k], b.items, k, total, met);
    }
    assert Savable(a) ==> forall k: nat :: k < |b.items| ==> LegalLevel(a.items[k], a.level);
    assert Savable(b) ==> forall k: nat :: k < |a.items| ==> LegalLevel(b.items[k], a.level);
  }

  /** The savable nodes of a level among the scanned blocks. */
  ghost function Found(disk: map<Blk, Image>, scan: set<Blk>, level: nat): (r: set<Blk>) {
    set b | b in scan && b in disk && Savable(disk[b]) && disk[b].level == level
  }

  /** Zeroing extents changes nothing about which nodes are savable. */
  lemma FoundKept(was: map<Blk, Image>, now: map<Blk, Image>, scan: set<Blk>, twigs: set<Blk>, total: nat,
                  met: set<Blk>)
    requires Scanned(was, now, twigs, total, total, met)
    ensures forall level :: Found(now, scan, level) == Found(was, scan, level)
  {
    forall b | b in was ensures b in now && now[b].level == was[b].level && (Savable(now[b]) <==> Savable(was[b])) {
      if b in twigs && b < total {
        assert TwigScanned(was, now, twigs, b, total, met);
        SavableKept(was[b], now[b], total, met + Extents(now, Below(twigs, b)));
      }
    }
  }

  lemma JoinedFound(mid: map<Blk, Image>, now: map<Blk, Image>, scan: set<Blk>, twigs: set<Blk>)
    requires JoinedTo(mid, now, twigs)
    ensures forall level :: Found(now, scan, level) == Found(mid, scan, level)
  {
    forall b | b in now ensures now[b].level == mid[b].level && (Savable(now[b]) <==> Savable(mid[b])) {
      if b in twigs { JoinSavable(mid[b]); }
    }
  }

  lemma CollectDone(was: map<Blk, Image>, mid: map<Blk, Image>, now: map<Blk, Image>, scan: set<Blk>, before: set<Blk>,
                    used: set<Blk>, sys: set<Blk>, total: nat)
    requires sys <= used && used <= before && InFs(before, total) && scan !! before && InFs(scan, total) &&
      total < TWO64
    requires forall level :: Found(now, scan, level) == Found(was, scan, level)
    requires now.Keys == was.Keys
    requires var twig := Found(was, scan, TWIG_LEVEL);
      && Extents(mid, twig) !! before + scan * was.Keys && Owned(mid, twig) && InFs(Extents(mid, twig), total)
      && JoinedTo(mid, now, twig) && NodesTidy(mid, twig, total)
    ensures PassesDone(now, Found(was, scan, TWIG_LEVEL), Found(was, scan, LEAF_LEVEL),
                       before + scan * was.Keys + Extents(mid, Found(was, scan, TWIG_LEVEL)), used, sys, total)
  {
    var twig := Found(was, scan, TWIG_LEVEL);
    JoinedExtents(mid, now, twig, total);
    assert Found(now, scan, TWIG_LEVEL) == twig;
    assert Found(now, scan, LEAF_LEVEL) == Found(was, scan, LEAF_LEVEL);
    forall t | t in twig || t in Found(was, scan, LEAF_LEVEL) ensures t in scan * was.Keys {
    }
  }

  /** Some block of n is described by the same bitmap block as b. */
  ghost predicate Near(chunk: nat, n: set<Blk>, b: Blk)
    requires chunk > 0
  {
    exists c :: c in n && c / chunk == b / chunk
  }

  /** The allocator's bits and the scan bitmap when the chunks of the blocks in
      hit have been taken as a whole and the bytes below block n looked at. */
  ghost predicate Gathered(total: nat, met: set<Blk>, chunk: nat, known: set<Blk>, bad: set<Blk>, marks: set<Blk>,
                           scan: set<Blk>, hit: set<Blk>, n: nat)
    requires chunk > 0
  {
    && (forall b: Blk {:trigger b in marks} :: b in marks <==> b in known || (b < total && Near(chunk, hit, b)))
    && (forall b: Blk {:trigger b in scan} :: b in scan <==>
         b !in met && b < total && ((b in marks && (b < n || b in bad)) || Near(chunk, hit, b)))
  }

  /** Every block below n that was met but not allocated has its chunk taken,
      and chunks are taken for such blocks only. */
  ghost predicate HitFor(met: set<Blk>, chunk: nat, known: set<Blk>, hit: set<Blk>, n: nat)
    requires chunk > 0
  {
    && hit <= met - known
    && forall c: Blk :: c in met && c !in known && c < n ==> Near(chunk, hit, c)
  }

  lemma GatherChunk(total: nat, met: set<Blk>, chunk: nat, known: set<Blk>, bad: set<Blk>, marks: set<Blk>,
                    scan: set<Blk>, hit: set<Blk>, n: nat, b: Blk, region: set<Blk>)
    requires chunk > 0 && Gathered(total, met, chunk, known, bad, marks, scan, hit, n)
    requires forall c: Blk :: c in region <==> c < total && c / chunk == b / chunk
    ensures Gathered(total, met, chunk, known, bad, marks + region, scan + (region - met), hit + {b}, n)
  {
    forall c: Blk ensures Near(chunk, hit + {b}, c) <==> Near(chunk, hit, c) || c / chunk == b / chunk {
      if Near(chunk, hit, c) {
        var d :| d in hit && d / chunk == c / chunk;
        assert d in hit + {b};
      }
      assert b in hit + {b};
    }
  }

  lemma ByteFits(chunk: nat, i: nat, q: nat, r: nat)
    requires chunk > 0 && chunk % 8 == 0 && q * chunk + r == 8 * i && r < chunk
    ensures r + 8 <= chunk
  {
    var w := chunk / 8;
    assert chunk == 8 * w;
    EightTimes(q, w);
  }

  /** The eight blocks of a byte are described by one bitmap block. */
  lemma SameByte(chunk: nat, i: nat)
    requires chunk > 0 && chunk % 8 == 0
    ensures forall c: Blk :: 8 * i <= c < 8 * i + 8 ==> c / chunk == 8 * i / chunk
  {
    var n := 8 * i;
    DivMod(n, chunk);
    ByteFits(chunk, i, n / chunk, n % chunk);
    forall c: Blk | n <= c < n + 8 ensures c / chunk == n / chunk { Quotient(chunk, c, n / chunk); }
  }

  /** When the chunk of a byte is taken, its bits need no other look. */
  lemma GatherByte(total: nat, met: set<Blk>, chunk: nat, known: set<Blk>, bad: set<Blk>, marks: set<Blk>,
                   scan: set<Blk>, hit: set<Blk>, i: nat)
    requires chunk > 0 && chunk % 8 == 0 && Gathered(total, met, chunk, known, bad, marks, scan, hit, 8 * i)
    requires Near(chunk, hit, 8 * i)
    ensures Gathered(total, met, chunk, known, bad, marks, scan, hit, 8 * i + 8)
  {
    SameByte(chunk, i);
    var d :| d in hit && d / chunk == 8 * i / chunk;
    forall c: Blk | 8 * i <= c < 8 * i + 8 ensures Near(chunk, hit, c) {
      assert c / chunk == 8 * i / chunk;
    }
  }

  lemma GatherBits(total: nat, met: set<Blk>, chunk: nat, known: set<Blk>, bad: set<Blk>, marks: set<Blk>,
                   scan: set<Blk>, hit: set<Blk>, i: nat)
    requires chunk > 0 && Gathered(total, met, chunk, known, bad, marks, scan, hit, 8 * i) && InFs(known, total)
    ensures Gathered(total, met, chunk, known, bad, marks, scan + (marks * Region(8 * i, 8) - met), hit, 8 * i + 8)
  {
  }

  lemma HitByte(total: nat, met: set<Blk>, chunk: nat, known: set<Blk>, marks: set<Blk>, hit: set<Blk>, i: nat)
    requires chunk > 0 && HitFor(met, chunk, known, hit, 8 * i)
    requires forall b: Blk {:trigger b in marks} :: b in marks <==> b in known || (b < total && Near(chunk, hit, b))
    requires (met - marks) * Region(8 * i, 8) == {}
    ensures HitFor(met, chunk, known, hit, 8 * i + 8)
  {
    forall c: Blk | c in met && c !in known && 8 * i <= c < 8 * i + 8 ensures Near(chunk, hit, c) {
      assert c in Region(8 * i, 8);
      assert c !in met - marks;
    }
  }

  lemma HitChunk(met: set<Blk>, chunk: nat, known: set<Blk>, hit: set<Blk>, i: nat, c: Blk)
    requires chunk > 0 && chunk % 8 == 0 && HitFor(met, chunk, known, hit, 8 * i)
    requires c in met && c !in known && 8 * i <= c < 8 * i + 8
    ensures HitFor(met, chunk, known, hit + {c}, 8 * i + 8)
    ensures Near(chunk, hit + {c}, 8 * i)
  {
    SameByte(chunk, i);
    assert c in hit + {c};
    forall d: Blk | d in met && d !in known && d < 8 * i + 8 ensures Near(chunk, hit + {c}, d) {
      if d < 8 * i {
        var e :| e in hit && e / chunk == d / chunk;
        assert e in hit + {c};
      } else {
        assert d / chunk == c / chunk;
      }
    }
  }

  lemma GatherEnd(total: nat, met: set<Blk>, chunk: nat, known: set<Blk>, bad: set<Blk>, marks: set<Blk>,
                  scan: set<Blk>, hit: set<Blk>, n: nat)
    requires chunk > 0 && n >= total && InFs(met, total) && bad <= known
    requires Gathered(total, met, chunk, known, bad, marks, scan, hit, n) && HitFor(met, chunk, known, hit, n)
    ensures InFs(scan, total) && scan !! met
    ensures forall b: Blk :: b < total && b !in met ==> (b in scan <==> b in known || Near(chunk, met - known, b))
  {
    forall b: Blk ensures Near(chunk, hit, b) <==> Near(chunk, met - known, b) {
      if Near(chunk, hit, b) {
        var c :| c in hit && c / chunk == b / chunk;
        assert c in met - known;
      }
      if Near(chunk, met - known, b) {
        var c :| c in met - known && c / chunk == b / chunk;
        assert Near(chunk, hit, c);
        var d :| d in hit && d / chunk == c / chunk;
      }
    }
  }

  // ---- The loop over a region ----

  /** The loop variable of cb_region_mark after n turns. */
  function Counter(start: Blk, n: nat): (i: nat) { (start + n) % TWO32 }

  /** It gets past the region exactly when that lies below block 2^32 - 1. */
  lemma CounterEnds(start: Blk, count: nat)
    requires count > 0
    ensures (exists n: nat :: Counter(start, n) >= start + count) <==> start + count < TWO32
  {
    if start + count < TWO32 { assert Counter(start, count) == start + count; }
  }

  /** Where the chunk of a block begins, and where it ends. */
  function ChunkStart(chunk: nat, b: Blk): (s: nat)
    requires chunk > 0
  {
    b / chunk * chunk
  }

  function ChunkEnd(total: nat, chunk: nat, b: Blk): (e: nat)
    requires chunk > 0
  {
    if ChunkStart(chunk, b) + chunk > total then total else ChunkStart(chunk, b) + chunk
  }

  /** The chunks of these blocks end below block 2^32 - 1. */
  ghost predicate Short(total: nat, chunk: nat, s: set<Blk>)
    requires chunk > 0
  {
    forall b {:trigger b in s} :: b in s ==> ChunkEnd(total, chunk, b) < TWO32
  }

  lemma ChunkSame(total: nat, chunk: nat, b: Blk, c: Blk)
    requires chunk > 0 && b / chunk == c / chunk
    ensures ChunkEnd(total, chunk, b) == ChunkEnd(total, chunk, c)
  {
  }

  lemma StartOf(total: nat, chunk: nat, c: Blk, b: Blk)
    requires chunk > 0 && b / chunk == c / chunk && c < total
    ensures ChunkStart(chunk, b) < ChunkEnd(total, chunk, b) <= total
  {
    DivMod(c, chunk);
  }

  lemma ShortEnd(total: nat, met: set<Blk>, chunk: nat, known: set<Blk>, hit: set<Blk>, n: nat)
    requires chunk > 0 && n >= total && InFs(met, total) && HitFor(met, chunk, known, hit, n) &&
      Short(total, chunk, hit)
    ensures Short(total, chunk, met - known)
  {
    forall b | b in met - known ensures ChunkEnd(total, chunk, b) < TWO32 {
      assert Near(chunk, hit, b);
      var c :| c in hit && c / chunk == b / chunk;
      ChunkSame(total, chunk, b, c);
    }
  }

  class Passes {
    const total: nat
    const sys: set<Blk>

    var used: set<Blk>
    var met: set<Blk>
    var twig: set<Blk>
    var leaf: set<Blk>
    var scan: set<Blk>
    var alloc: set<Blk>
    var disk: map<Blk, Image>
    ghost var written: set<Blk>  // the blocks handed out by the allocator

    /** The state the filter leaves behind in the BUILD mode. */
    constructor (total: nat, sys: set<Blk>, used: set<Blk>, met: set<Blk>, twig: set<Blk>, leaf: set<Blk>,
                 alloc: set<Blk>, disk: map<Blk, Image>)
      ensures this.total == total && this.sys == sys
      ensures this.used == used && this.met == met && this.twig == twig && this.leaf == leaf
      ensures this.alloc == alloc && this.disk == disk && written == {}
    {
      this.total, this.sys, this.used, this.met, this.twig, this.leaf := total, sys, used, met, twig, leaf;
      this.scan, this.alloc, this.disk, this.written := {}, alloc, disk, {};
    }

    /** The state after the filter: used blocks and those of the tree's twigs
        and leaves are met. */
    ghost predicate AfterFilter()
      reads this
    {
      && sys <= used && used <= met && twig <= used && leaf <= used
      && InFs(met, total) && InFs(alloc, total) && written == {} && total < TWO64
    }

    /** The state after the second twig scan. */
    ghost predicate Finished()
      reads this
    {
      PassesDone(disk, twig, leaf, met, used, sys, total) && written == {}
    }

    // ---- Twig scan ----

    ghost function Kept(): Books
      reads this`met, this`used
    {
      Books(met, used)
    }

    /** cb_item_region_check: a region inside the filesystem with no block met
        before is accepted; a rejected one changes no bitmap. */
    method RegionCheck(u: Unit, mark: bool) returns (a: Answer)
      requires !Skipped(u)
      modifies this`met, this`used
      ensures a == Fine <==> Acceptable(u, total, old(met))
      ensures a == Fatal <==> !Inside(total, u.start, u.width)
      ensures a == Fine ==> Grew(old(Kept()), Kept(), UnitBlocks(u), mark)
      ensures a != Fine ==> Kept() == old(Kept())
    {
      if u.start >= total || u.width > total || u.start > total - u.width { return Fatal; }
      if !(Region(u.start, u.width) !! met) { return Fixable; }
      if mark { used := Marked(used, total, u.start, u.width); }
      met := Marked(met, total, u.start, u.width);
      return Fine;
    }

    method CheckUnit(u: Unit, mark: bool) returns (v: Unit)
      modifies this`met, this`used
      ensures v == if Skipped(u) || Acceptable(u, total, old(met)) then u else u.(start := HOLE_UNIT)
      ensures Grew(old(Kept()), Kept(), UnitBlocks(v), mark)
    {
      v := u;
      if !Skipped(u) {
        var a := RegionCheck(u, mark);
        if a != Fine { v := u.(start := HOLE_UNIT); }
      }
    }

    /** extent40_check_layout with the region check, in the BUILD mode: the
        units are screened and then joined. */
    method CheckUnits(us: seq<Unit>, mark: bool) returns (r: seq<Unit>, ghost screened: seq<Unit>)
      modifies this`met, this`used
      ensures Screened(us, screened, total, old(met)) && r == Join(screened)
      ensures Grew(old(Kept()), Kept(), UnitsBlocks(screened), mark)
    {
      r := [];
      for k := 0 to |us|
        invariant Screened(us[..k], r, total, old(met))
        invariant Grew(old(Kept()), Kept(), UnitsBlocks(r), mark)
      {
        ghost var before := Kept();
        var v := CheckUnit(us[k], mark);
        UnitChecked(old(Kept()), before, Kept(), us, k, r, v, mark, total);
        r := r + [v];
      }
      assert us[..|us|] == us;
      screened := r;
      r := JoinUnits(r);
    }

    /** cb_check_layout over the items of one twig. */
    method CheckItems(items: seq<Item>, mark: bool) returns (r: seq<Item>, ghost screened: seq<Item>)
      modifies this`met, this`used
      ensures ItemsScreened(items, screened, total, old(met)) && Apart(screened) && r == JoinItems(screened)
      ensures Grew(old(Kept()), Kept(), ItemsBlocks(screened), mark)
    {
      r, screened := [], [];
      for k := 0 to |items|
        invariant ItemsScreened(items[..k], screened, total, old(met)) && Apart(screened) && r == JoinItems(screened)
        invariant Grew(old(Kept()), Kept(), ItemsBlocks(screened), mark)
      {
        ghost var before := Kept();
        var i := items[k];
        ghost var j := i;
        if i.Extent? {
          var us, ss := CheckUnits(i.units, mark);
          i, j := Extent(us), Extent(ss);
        }
        ItemChecked(old(Kept()), before, Kept(), items, k, screened, j, mark, total);
        r, screened := r + [i], screened + [j];
      }
      assert items[..|items|] == items;
    }

    /** The twigs below blk can be read. */
    static ghost predicate Readable(twigs: set<Blk>, blocks: set<Blk>, blk: Blk) {
      forall t :: t in twigs && t < blk ==> t in blocks
    }

    /** The twigs below blk have been scanned. */
    ghost predicate UpTo(was: map<Blk, Image>, mid: map<Blk, Image>, twigs: set<Blk>, blk: Blk, start: Books,
                         mark: bool)
      reads this`met, this`used, this`disk
    {
      && Scanned(was, mid, twigs, blk, total, start.met) && JoinedTo(mid, disk, Below(twigs, blk))
      && Grew(start, Kept(), Extents(mid, Below(twigs, blk)), mark)
    }

    /** One twig: reiser4_node_trav with cb_check_layout. */
    method ScanTwig(blk: Blk, mark: bool, ghost was: map<Blk, Image>, ghost mid: map<Blk, Image>, ghost start: Books)
        returns (ghost later: map<Blk, Image>)
      requires blk in twig && blk in disk && UpTo(was, mid, twig, blk, start, mark)
      modifies this`met, this`used, this`disk
      ensures UpTo(was, later, twig, blk + 1, start, mark) && disk.Keys == old(disk).Keys
    {
      ghost var before := Kept();
      assert disk[blk] == mid[blk];
      var items, screened := CheckItems(disk[blk].items, mark);
      ghost var img := mid[blk].(items := screened);
      TwigStep(was, mid, disk, twig, blk, total, start.met, img, start, before, Kept(), mark);
      later := mid[blk := img];
      disk := disk[blk := disk[blk].(items := items)];
    }

    /** One turn of the loop: a twig, and the search for the next one. */
    method Turn(blk: Blk, mark: bool, ghost was: map<Blk, Image>, ghost mid: map<Blk, Image>, ghost start: Books)
        returns (found: bool, next: Blk, ghost later: map<Blk, Image>)
      requires blk in twig && blk in disk && blk < total && UpTo(was, mid, twig, blk, start, mark)
      requires Readable(twig, disk.Keys, blk)
      modifies this`met, this`used, this`disk
      ensures blk < next <= total && (found <==> next < total) && (found ==> next in twig)
      ensures Readable(twig, disk.Keys, next)
      ensures UpTo(was, later, twig, next, start, mark) && disk.Keys == old(disk).Keys
    {
      later := ScanTwig(blk, mark, was, mid, start);
      found, next := FindMarked(twig, total, blk + 1);
      UpToNext(this, was, later, blk + 1, next, start, mark);
    }

    /** The loop of repair_twig_scan. */
    method ScanAll(mark: bool) returns (ok: bool, ghost mid: map<Blk, Image>)
      requires InFs(twig, total)
      modifies this`met, this`used, this`disk
      ensures ok ==> UpTo(old(disk), mid, twig, total, old(Kept()), mark)
      ensures ok <==> twig <= old(disk).Keys
    {
      ghost var (was, start) := (disk, Kept());
      mid := disk;
      var found, blk := FindMarked(twig, total, 0);
      UpToStart(this, blk, mark);
      while found
        invariant blk <= total && (found <==> blk < total) && (found ==> blk in twig)
        invariant UpTo(was, mid, twig, blk, start, mark) && disk.Keys == was.Keys
        invariant Readable(twig, disk.Keys, blk)
        decreases total - blk
      {
        if blk !in disk { return false, mid; }
        found, blk, mid := Turn(blk, mark, was, mid, start);
      }
      assert twig <= was.Keys;
      ok := true;
    }

    /** repair_twig_scan.  Met grows by exactly the blocks that the twigs point
        to when their units have been screened; the join that follows may lose
        some of them (Joining.NothingLost says when it does not). */
    method TwigScan(mark: bool) returns (ok: bool, ghost mid: map<Blk, Image>)
      requires InFs(twig, total)
      modifies this`met, this`used, this`disk
      ensures ok ==> Scanned(old(disk), mid, twig, total, total, old(met)) && JoinedTo(mid, disk, twig)
      ensures ok ==> Grew(old(Kept()), Kept(), Extents(mid, twig), mark) && Owned(mid, twig)
      ensures ok <==> twig <= old(disk).Keys
    {
      ok, mid := ScanAll(mark);
      assert Below(twig, total) == twig;
    }

    // ---- Disk scan ----

    /** The blocks of a chunk (alloc40_region). */
    function Chunk(chunk: nat, b: Blk): (r: set<Blk>)
      requires chunk > 0
      ensures forall c :: c in r <==> c < total && c / chunk == b / chunk
    {
      var start := ChunkStart(chunk, b);
      assert forall c: nat :: c / chunk == b / chunk <==> start <= c < start + chunk by {
        forall c: nat ensures c / chunk == b / chunk <==> start <= c < start + chunk {
          Quotient(chunk, c, b / chunk);
        }
      }
      if start >= total then {} else Region(start, ChunkEnd(total, chunk, b) - start)
    }

    /** cb_region_mark: the region counts as allocated, and what was not met is
        going to be scanned.  The loop counts in 32 bits. */
    method RegionMark(start: Blk, count: nat, marks: set<Blk>) returns (now: set<Blk>, ends: bool)
      requires start + count <= total && count > 0
      modifies this`scan
      ensures now == marks + Region(start, count)
      ensures ends <==> exists n: nat :: Counter(start, n) >= start + count
      ensures ends <==> start + count < TWO32
      ensures ends ==> scan == old(scan) + (Region(start, count) - met)
    {
      now := Marked(marks, total, start, count);
      CounterEnds(start, count);
      ends := start + count < TWO32;
      if !ends { return; }
      var i := start % TWO32;
      while i < start + count
        invariant start <= i <= start + count
        invariant scan == old(scan) + (Region(start, i - start) - met)
        decreases start + count - i
      {
        if i !in met { scan := scan + {i}; }
        i := (i + 1) % TWO32;
      }
    }

    /** alloc40_region with cb_region_mark. */
    method ChunkMark(chunk: nat, b: Blk, marks: set<Blk>) returns (now: set<Blk>, ends: bool)
      requires chunk > 0 && ChunkStart(chunk, b) < ChunkEnd(total, chunk, b) <= total
      modifies this`scan
      ensures now == marks + Chunk(chunk, b) && (ends <==> ChunkEnd(total, chunk, b) < TWO32)
      ensures ends ==> scan == old(scan) + (Chunk(chunk, b) - met)
    {
      var start := ChunkStart(chunk, b);
      now, ends := RegionMark(start, ChunkEnd(total, chunk, b) - start, marks);
    }

    /** One byte of the bitmaps: if a block was met that is not allocated, the
        bitmap block on the device looks stale and its whole chunk is taken. */
    method ScanByte(chunk: nat, i: nat, marks: set<Blk>, ghost known: set<Blk>, ghost bad: set<Blk>,
                    ghost hit: set<Blk>)
        returns (now: set<Blk>, ends: bool, ghost hits: set<Blk>)
      requires chunk > 0 && chunk % 8 == 0 && InFs(known, total) && InFs(met, total)
      requires Gathered(total, met, chunk, known, bad, marks, scan, hit, 8 * i)
      requires HitFor(met, chunk, known, hit, 8 * i) && Short(total, chunk, hit)
      modifies this`scan
      ensures ends ==> Gathered(total, met, chunk, known, bad, now, scan, hits, 8 * i + 8)
      ensures ends ==> HitFor(met, chunk, known, hits, 8 * i + 8) && Short(total, chunk, hits)
      ensures !ends ==> !Short(total, chunk, met - known)
    {
      now, hits, ends := marks, hit, true;
      var byte := Region(8 * i, 8);
      if (met - marks) * byte != {} {
        ghost var c :| c in (met - marks) * byte;
        SameByte(chunk, i);
        ChunkSame(total, chunk, c, 8 * i);
        var region := Chunk(chunk, 8 * i);
        StartOf(total, chunk, c, 8 * i);
        ghost var was := scan;
        now, ends := ChunkMark(chunk, 8 * i, marks);
        if !ends {
          assert c in met - known && ChunkEnd(total, chunk, c) >= TWO32;
          return;
        }
        GatherChunk(total, met, chunk, known, bad, marks, was, hit, 8 * i, c, region);
        hits := hit + {c};
        HitChunk(met, chunk, known, hit, i, c);
        GatherByte(total, met, chunk, known, bad, now, scan, hits, i);
      } else {
        GatherBits(total, met, chunk, known, bad, marks, scan, hit, i);
        HitByte(total, met, chunk, known, marks, hit, i);
        scan := scan + (marks * byte - met);
      }
    }

    /** repair_alloc_layout_bad with cb_region_mark: a bitmap block whose
        checksum is wrong counts as allocated itself; what it describes does
        not. */
    method TakeBroken(bad: set<Blk>, known: set<Blk>) returns (marks: set<Blk>, ends: bool)
      requires InFs(bad, total)
      modifies this`scan
      ensures ends <==> forall b :: b in bad ==> b + 1 < TWO32
      ensures ends ==> marks == known + bad && scan == old(scan) + (bad - met)
    {
      marks, ends := known, true;
      var rest := bad;
      while rest != {}
        invariant rest <= bad && forall c :: c in bad && c !in rest ==> c + 1 < TWO32
        invariant marks == known + (bad - rest) && scan == old(scan) + ((bad - rest) - met)
        decreases |rest|
      {
        var b :| b in rest;
        RegionOne(b);
        marks, ends := RegionMark(b, 1, marks);
        if !ends { return; }
        rest := rest - {b};
      }
    }

    /** repair_ds_prepare: scanned is what was not met and is allocated, or
        shares a chunk of the bitmap with a block that was met but is not
        allocated.  It ends exactly when no region that is taken reaches block
        2^32 - 1. */
    method DsPrepare(chunk: nat, whole: bool, bad: set<Blk>) returns (ends: bool)
      requires chunk > 0 && chunk % 8 == 0
      requires InFs(met, total) && InFs(alloc, total) && InFs(bad, total) && used <= met && twig <= met && leaf <= met
      modifies this`scan, this`leaf, this`twig
      ensures var known := (if whole then Region(0, total) else alloc) + bad;
        ends <==> (forall b :: b in bad ==> b + 1 < TWO32) && Short(total, chunk, met - known)
      ensures ends ==> leaf == {} && twig == {} && InFs(scan, total) && scan !! met
      ensures ends ==> var known := (if whole then Region(0, total) else alloc) + bad;
        forall b: Blk :: b < total && b !in met ==> (b in scan <==> b in known || Near(chunk, met - known, b))
    {
      scan := {};
      var marks;
      marks, ends := TakeBroken(bad, if whole then Region(0, total) else alloc);
      if !ends { return; }
      ghost var (known, hit: set<Blk>) := (marks, {});
      var i := 0;
      while 8 * i < total
        invariant Gathered(this.total, met, chunk, known, bad, marks, scan, hit, 8 * i)
        invariant HitFor(met, chunk, known, hit, 8 * i) && Short(this.total, chunk, hit)
        decreases total - 8 * i
      {
        marks, ends, hit := ScanByte(chunk, i, marks, known, bad, hit);
        if !ends { return; }
        i := i + 1;
      }
      GatherEnd(total, met, chunk, known, bad, marks, scan, hit, 8 * i);
      ShortEnd(total, met, chunk, known, hit, 8 * i);
      leaf, twig := {}, {};
      ends := true;
    }

    /** repair_disk_scan: every scanned block that opens as a node is met, and
        the savable ones wait as twigs or leaves to be inserted. */
    method DiskScan()
      requires InFs(scan, total)
      modifies this`met, this`twig, this`leaf
      ensures met == old(met) + (scan * disk.Keys)
      ensures twig == old(twig) + Found(disk, scan, TWIG_LEVEL)
      ensures leaf == old(leaf) + Found(disk, scan, LEAF_LEVEL)
    {
      var found, blk := FindMarked(scan, total, 0);
      while found
        invariant blk <= total && (found <==> blk < total) && (found ==> blk in scan)
        invariant met == old(met) + (Below(scan, blk) * disk.Keys)
        invariant twig == old(twig) + Found(disk, Below(scan, blk), TWIG_LEVEL)
        invariant leaf == old(leaf) + Found(disk, Below(scan, blk), LEAF_LEVEL)
        decreases total - blk
      {
        if blk in disk {
          met := met + {blk};
          if Savable(disk[blk]) {
            if disk[blk].level == TWIG_LEVEL { twig := twig + {blk}; } else { leaf := leaf + {blk}; }
          }
        }
        ghost var was := blk;
        found, blk := FindMarked(scan, total, blk + 1);
        BelowNext(scan, was, blk);
      }
      assert Below(scan, total) == scan;
    }

    /** Nothing that is going to be scanned was met, and nothing waits yet. */
    ghost predicate ReadyToScan()
      reads this
    {
      && sys <= used && used <= met && InFs(met, total)
      && scan !! met && InFs(scan, total) && twig == {} && leaf == {} && written == {}
    }

    /** The blocks of the tree's extents become used, and what is to be scanned
        is gathered. */
    method AccountTree(chunk: nat, whole: bool, bad: set<Blk>)
      returns (ok: bool, ends: bool, ghost tree: map<Blk, Image>)
      requires AfterFilter() && chunk > 0 && chunk % 8 == 0 && bad <= sys
      modifies this`met, this`used, this`disk, this`scan, this`leaf, this`twig
      ensures total < TWO32 ==> ends
      ensures ok <==> ends && old(twig <= disk.Keys)
      ensures ok ==> ends && ReadyToScan() && old(twig) <= used
      ensures ok ==> used == old(used) + Extents(tree, old(twig)) && Extents(tree, old(twig)) !! old(met)
      ensures ok ==> JoinedTo(tree, disk, old(twig)) && Owned(tree, old(twig)) && NodesTidy(tree, old(twig), total)
    {
      ends := true;
      ok, tree := TwigScan(true);
      if !ok { return; }
      assert Below(twig, total) == twig;
      ScannedInside(old(disk), tree, twig, total, total, old(met));
      ScannedTidy(old(disk), tree, twig, total, old(met));
      ends := DsPrepare(chunk, whole, bad);
      ok := ends;
    }

    /** The nodes outside the tree are found, and the blocks they point to
        become met. */
    method FindMissing() returns (ok: bool, ghost found: map<Blk, Image>)
      requires ReadyToScan() && total < TWO64
      modifies this`met, this`used, this`disk, this`leaf, this`twig
      ensures ok && Finished() && used == old(used)
      ensures ok ==> disk.Keys == old(disk).Keys && forall t :: t in disk && t !in scan ==> disk[t] == old(disk)[t]
      ensures ok ==> twig == Found(disk, scan, TWIG_LEVEL) && leaf == Found(disk, scan, LEAF_LEVEL)
      ensures ok ==> met == old(met) + scan * disk.Keys + Extents(found, twig) && Extents(found, twig) !! used
      ensures ok ==> JoinedTo(found, disk, twig) && Owned(found, twig) && NodesTidy(found, twig, total)
    {
      ghost var (was, before) := (disk, met);
      DiskScan();
      ghost var middle := met;
      assert twig == Found(was, scan, TWIG_LEVEL) && leaf == Found(was, scan, LEAF_LEVEL);
      ok, found := TwigScan(false);
      if ok {
        assert Below(twig, total) == twig;
        ScannedInside(was, found, twig, total, total, middle);
        ScannedTidy(was, found, twig, total, middle);
        FoundKept(was, found, scan, twig, total, middle);
        JoinedFound(found, disk, scan, twig);
        CollectDone(was, found, disk, scan, before, used, sys, total);
      }
    }

    /** The passes between the filter and the insertion, in the order of
        repair_check.  Used has gained what the tree's twigs pointed to after
        the screening, and met what the found twigs did; what they point to now
        is contained in it, and is all of it exactly when no unit began where
        the hole before it ended. */
    method Collect(chunk: nat, whole: bool, bad: set<Blk>)
        returns (ok: bool, ends: bool, ghost tree: map<Blk, Image>, ghost found: map<Blk, Image>)
      requires AfterFilter() && chunk > 0 && chunk % 8 == 0 && bad <= sys && total < TWO64
      modifies this
      ensures total < TWO32 ==> ends
      ensures ok <==> ends && old(twig <= disk.Keys)
      ensures ok ==> ends && Finished() && scan !! used
      ensures ok ==> twig == Found(disk, scan, TWIG_LEVEL) && leaf == Found(disk, scan, LEAF_LEVEL)
      ensures ok ==> used == old(used) + Extents(tree, old(twig)) && Extents(tree, old(twig)) !! old(met)
      ensures ok ==> Extents(found, twig) <= met && Extents(found, twig) !! used
      ensures ok ==> Remain(tree, disk, old(twig)) && Remain(found, disk, twig)
    {
      found := map[];
      ok, ends, tree := AccountTree(chunk, whole, bad);
      if ok {
        ghost var was := disk;
        NothingLost(tree, disk, old(twig), total);
        ok, found := FindMissing();
        if ok {
          SameExtents(disk, was, old(twig));
          NothingLost(found, disk, twig, total);
        }
      }
    }
  }

  /** The filter hands its bitmaps over; the allocator and the nodes on the device
      come along. */
  method AfterBuild(f: Filter.Pass, alloc: set<Blk>, disk: map<Blk, Image>) returns (p: Passes)
    requires f.Layers() && f.fs.total < TWO64 && InFs(alloc, f.fs.total)
    ensures fresh(p) && p.AfterFilter() && p.total == f.fs.total && p.sys == f.fs.sys && p.alloc == alloc &&
      p.disk == disk
    ensures p.used == f.used && p.met == f.met && p.twig == f.twig && p.leaf == f.leaf
  {
    p := new Passes(f.fs.total, f.fs.sys, f.used, f.met, f.twig, f.leaf, alloc, disk);
  }

  /** A scan of two units that marks five blocks and loses the pointer to them. */
  method ScanLoses() returns (p: Passes, r: seq<Unit>)
    ensures p.met == {500} + Region(300, 5) && p.used == Region(300, 5)
    ensures r == [Unit(0, 305)] && UnitsBlocks(r) == {}
  {
    p := new Passes(1000, {}, {}, {500}, {}, {}, {}, map[]);
    var us := [Unit(500, 300), Unit(300, 5)];
    ghost var s;
    r, s := p.CheckUnits(us, true);
    AcceptedAndLost();
    assert 500 in Region(500, 300);
    assert UnitScreened(us[0], s, 0, 1000, {500}) && UnitScreened(us[1], s, 1, 1000, {500});
    assert s[..0] == [] && s[0] == Unit(0, 300);
    BlocksOfOne(s[0]);
    assert s[..1] == [s[0]] && s == [Unit(0, 300), Unit(300, 5)];
  }

  /** A filesystem of 2^32 blocks whose last block is met but not allocated. */
  method PrepareHangs() returns (p: Passes, ends: bool)
    ensures p.total == TWO32 && p.met == {TWO32 - 1} && p.alloc == {} && !ends
  {
    p := new Passes(TWO32, {}, {}, {TWO32 - 1}, {}, {}, {}, map[]);
    assert ChunkEnd(TWO32, 32736, TWO32 - 1) == TWO32;
    ends := p.DsPrepare(32736, false, {});
    assert TWO32 - 1 in p.met - ({} + {});
  }
}

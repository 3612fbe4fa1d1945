/** What extent40_join_units makes of the units of an extent item
    (plugin/item/extent40/extent40_repair.c), and which blocks are lost by it:
    a unit is joined to the one before it also when that one is a hole. */
module Joining {
  import opened Arithmetic
  import opened BlockSet
  import opened Owners

  /** Two holes, or two units of which the second begins where the first ends. */
  predicate Joinable(prev: Unit, cur: Unit) {
    (prev.start == HOLE_UNIT && cur.start == HOLE_UNIT) || Add64(prev.start, prev.width) == cur.start
  }

  function Merge(prev: Unit, cur: Unit): Unit { prev.(width := Add64(prev.width, cur.width)) }

  function Front<T>(s: seq<T>): (r: seq<T>)
    requires s != []
    ensures |r| == |s| - 1
  {
    s[..|s| - 1]
  }

  function Last<T>(s: seq<T>): T
    requires s != []
  {
    s[|s| - 1]
  }

  /** A unit is taken behind the units kept so far. */
  function Append(kept: seq<Unit>, u: Unit): (r: seq<Unit>) {
    if kept == [] then (if u.width == 0 then [] else [u])
    else if u.width == 0 || Joinable(Last(kept), u) then Front(kept) + [Merge(Last(kept), u)]
    else kept + [u]
  }

  /** The units after the join. */
  function Join(us: seq<Unit>): (r: seq<Unit>) {
    if us == [] then [] else Append(Join(Front(us)), Last(us))
  }

  // ---- What a join is ----

  ghost predicate Words(us: seq<Unit>) {
    forall i :: 0 <= i < |us| ==> us[i].start < TWO64 && us[i].width < TWO64
  }

  /** The widths of the units from index a up to b. */
  ghost function Widths(us: seq<Unit>, a: nat, b: nat): (n: nat)
    requires a <= b <= |us|
  {
    if a == b then 0 else Widths(us, a, b - 1) + us[b - 1].width
  }

  /** r and the unit c behind it would be joined: both are holes, or c begins at
      the block where r ends, in 64 bits. */
  ghost predicate Meets(start: Blk, width: nat, c: Unit) {
    (start == 0 && c.start == 0) || (start + width) % TWO64 == c.start
  }

  /** r is the join of the units from index a up to b: it begins where the first
      of them does and is as wide as all of them, in 64 bits; the first one is
      not empty, and every other one is, or meets those before it. */
  ghost predicate RunOf(us: seq<Unit>, a: nat, b: nat, r: Unit) {
    && a < b <= |us| && us[a].width > 0 && r.start == us[a].start && r.width == Widths(us, a, b) % TWO64
    && forall k: nat {:trigger us[k]} :: a < k < b && us[k].width > 0 ==>
         Meets(us[a].start, Widths(us, a, k) % TWO64, us[k])
  }

  /** The body consists of the joins of the stretches of units that the cuts
      delimit, and no two of them meet; units before the first stretch are
      empty. */
  ghost predicate CutInto(us: seq<Unit>, body: seq<Unit>, cuts: seq<nat>) {
    && |cuts| == |body| + 1 && cuts[|body|] == |us| && cuts[0] <= |us|
    && (forall k :: 0 <= k < cuts[0] ==> us[k].width == 0)
    && (forall j: nat :: j < |body| ==> Stretch(us, body, cuts, j))
  }

  ghost predicate Stretch(us: seq<Unit>, body: seq<Unit>, cuts: seq<nat>, j: nat)
    requires j < |body| && |cuts| == |body| + 1
  {
    && RunOf(us, cuts[j], cuts[j + 1], body[j])
    && (j > 0 ==> !Meets(body[j - 1].start, body[j - 1].width, body[j]))
  }

  lemma {:induction false} WidthsKept(us: seq<Unit>, u: Unit, a: nat, b: nat)
    requires a <= b <= |us|
    ensures Widths(us + [u], a, b) == Widths(us, a, b)
  {
    if a < b { WidthsKept(us, u, a, b - 1); }
  }

  lemma RunKept(us: seq<Unit>, u: Unit, a: nat, b: nat, r: Unit)
    requires RunOf(us, a, b, r)
    ensures RunOf(us + [u], a, b, r)
  {
    WidthsKept(us, u, a, b);
    forall k: nat | a < k < b && us[k].width > 0
      ensures Meets(us[a].start, Widths(us + [u], a, k) % TWO64, us[k])
    {
      WidthsKept(us, u, a, k);
    }
  }

  /** One more unit goes into the last stretch. */
  lemma RunGrows(us: seq<Unit>, u: Unit, a: nat, r: Unit)
    requires RunOf(us, a, |us|, r) && (u.width == 0 || Meets(r.start, r.width, u))
    ensures RunOf(us + [u], a, |us| + 1, r.(width := Add64(r.width, u.width)))
  {
    RunKept(us, u, a, |us|, r);
    WidthsKept(us, u, a, |us|);
    assert Widths(us + [u], a, |us| + 1) == Widths(us, a, |us|) + u.width;
    SumWraps(Widths(us, a, |us|), u.width);
  }

  lemma SumWraps(x: nat, y: nat)
    ensures Add64(x % TWO64, y) == (x + y) % TWO64
  {
  }

  /** Or it begins a new one. */
  lemma RunStarts(us: seq<Unit>, u: Unit)
    requires 0 < u.width < TWO64
    ensures RunOf(us + [u], |us|, |us| + 1, u)
  {
    assert Widths(us + [u], |us|, |us|) == 0;
  }

  /** Earlier stretches do not notice what comes. */
  lemma StretchKept(us: seq<Unit>, u: Unit, kept: seq<Unit>, cuts: seq<nat>, body: seq<Unit>, next: seq<nat>, j: nat)
    requires j < |kept| && j < |body| && |cuts| == |kept| + 1 && |next| == |body| + 1
    requires Stretch(us, kept, cuts, j) && next[j] == cuts[j] && next[j + 1] == cuts[j + 1] && body[j] == kept[j]
    requires j > 0 ==> body[j - 1] == kept[j - 1]
    ensures Stretch(us + [u], body, next, j)
  {
    RunKept(us, u, cuts[j], cuts[j + 1], kept[j]);
  }

  /** The last stretch takes one more unit in. */
  lemma CutsGrow(us: seq<Unit>, kept: seq<Unit>, cuts: seq<nat>, u: Unit)
    requires CutInto(us, kept, cuts) && kept != []
    requires u.width == 0 || Meets(Last(kept).start, Last(kept).width, u)
    ensures CutInto(us + [u], Front(kept) + [Merge(Last(kept), u)], cuts[..|kept|] + [|us| + 1])
  {
    var (n, body, next) := (|kept| - 1, Front(kept) + [Merge(Last(kept), u)], cuts[..|kept|] + [|us| + 1]);
    assert Stretch(us, kept, cuts, n);
    RunGrows(us, u, cuts[n], kept[n]);
    forall j: nat | j < |body| ensures Stretch(us + [u], body, next, j) {
      assert Stretch(us, kept, cuts, j);
      if j < n { StretchKept(us, u, kept, cuts, body, next, j); }
    }
  }

  /** A new stretch begins. */
  lemma CutsAppend(us: seq<Unit>, kept: seq<Unit>, cuts: seq<nat>, u: Unit)
    requires CutInto(us, kept, cuts) && 0 < u.width < TWO64
    requires kept != [] ==> !Meets(Last(kept).start, Last(kept).width, u)
    ensures CutInto(us + [u], kept + [u], cuts + [|us| + 1])
  {
    var (body, next) := (kept + [u], cuts + [|us| + 1]);
    RunStarts(us, u);
    forall j: nat | j < |body| ensures Stretch(us + [u], body, next, j) {
      if j < |kept| {
        assert Stretch(us, kept, cuts, j);
        StretchKept(us, u, kept, cuts, body, next, j);
      }
    }
  }

  /** What the join makes of the units. */
  lemma {:induction false} JoinCuts(us: seq<Unit>)
    requires Words(us)
    ensures exists cuts :: CutInto(us, Join(us), cuts)
  {
    if us == [] {
      assert CutInto(us, Join(us), [0]);
    } else {
      JoinCuts(Front(us));
      var cuts :| CutInto(Front(us), Join(Front(us)), cuts);
      CutsStep(Front(us), Join(Front(us)), cuts, Last(us));
      var next :| CutInto(Front(us) + [Last(us)], Append(Join(Front(us)), Last(us)), next);
      assert us == Front(us) + [Last(us)] && Join(us) == Append(Join(Front(us)), Last(us));
    }
  }

  lemma CutsStep(us: seq<Unit>, kept: seq<Unit>, cuts: seq<nat>, u: Unit)
    requires CutInto(us, kept, cuts) && u.width < TWO64
    ensures exists next :: CutInto(us + [u], Append(kept, u), next)
  {
    if kept == [] && u.width == 0 {
      assert CutInto(us + [u], Append(kept, u), [|us| + 1]);
    } else if kept != [] && (u.width == 0 || Joinable(Last(kept), u)) {
      CutsGrow(us, kept, cuts, u);
      assert Append(kept, u) == Front(kept) + [Merge(Last(kept), u)];
    } else {
      CutsAppend(us, kept, cuts, u);
      assert Append(kept, u) == kept + [u];
    }
  }

  lemma {:induction false} WidthsBound(us: seq<Unit>, a: nat, b: nat, n: nat)
    requires a <= b <= n <= |us|
    ensures Widths(us, a, b) <= Widths(us, 0, n)
    ensures a < b ==> us[a].width <= Widths(us, a, b)
    decreases n, b
  {
    if b < n {
      WidthsBound(us, a, b, n - 1);
    } else if a < b {
      WidthsBound(us, a, b - 1, n - 1);
    }
  }

  /** As long as the sum of all widths does not wrap no joined unit is empty. */
  lemma JoinedNotEmpty(us: seq<Unit>, a: nat, b: nat, r: Unit)
    requires RunOf(us, a, b, r) && Widths(us, 0, |us|) < TWO64
    ensures 0 < r.width == Widths(us, a, b)
  {
    WidthsBound(us, a, b, |us|);
  }

  /** Two holes of 2^63 blocks become an empty one. */
  lemma JoinedEmpty()
    ensures Join([Unit(0, 0x8000_0000_0000_0000), Unit(0, 0x8000_0000_0000_0000)]) == [Unit(0, 0)]
  {
    var u := Unit(0, 0x8000_0000_0000_0000);
    assert Front([u, u]) == [u] && Front([u]) == [];
    assert Join([u]) == Append(Join([]), u) == [u];
  }

  /** extent40_join_units: the units that can be joined to the one before them
      are taken out of the body one by one. */
  method ShrinkUnits(us: seq<Unit>) returns (body: seq<Unit>)
    ensures body == Join(us)
  {
    body := us;
    var i := 0;
    ghost var k, kept, rest := 0, [], us;
    assert us[..0] == [] && us[0..] == us;
    while i < |body|
      invariant k <= |us| && kept == Join(us[..k]) && rest == us[k..]
      invariant i == |kept| && body == kept + rest
      decreases |us| - k
    {
      TakeUnit(us, k, kept);
      BodyStep(body, kept, us[k], us[k + 1..]);
      kept, rest := Append(kept, us[k]), us[k + 1..];
      if body[i].width == 0 || (i > 0 && Joinable(body[i - 1], body[i])) {
        if i > 0 { body := body[i - 1 := Merge(body[i - 1], body[i])]; }
        body := body[..i] + body[i + 1..];
      } else {
        i := i + 1;
      }
      k := k + 1;
    }
    assert us[..|us|] == us;
  }

  /** extent40_join_units, with what its result is. */
  method JoinUnits(us: seq<Unit>) returns (body: seq<Unit>)
    ensures body == Join(us)
    ensures Words(us) ==> exists cuts :: CutInto(us, body, cuts)
  {
    body := ShrinkUnits(us);
    if Words(us) { JoinCuts(us); }
  }

  /** What one turn makes of the body. */
  lemma BodyStep(body: seq<Unit>, kept: seq<Unit>, u: Unit, rest: seq<Unit>)
    requires body == kept + ([u] + rest)
    ensures var i := |kept|;
      body[i] == u &&
      if u.width == 0 || (i > 0 && Joinable(body[i - 1], u)) then
        var merged := if i > 0 then body[i - 1 := Merge(body[i - 1], u)] else body;
        merged[..i] + merged[i + 1..] == Append(kept, u) + rest && |Append(kept, u)| == i
      else body == Append(kept, u) + rest && |Append(kept, u)| == i + 1
  {
    var i := |kept|;
    if u.width == 0 || (i > 0 && Joinable(body[i - 1], u)) {
      if i > 0 {
        var merged := body[i - 1 := Merge(body[i - 1], u)];
        assert merged[..i] == Append(kept, u) && merged[i + 1..] == rest;
      } else {
        assert body[..0] == [] && body[1..] == rest;
      }
    } else {
      assert body == (kept + [u]) + rest;
    }
  }

  lemma TakeUnit(us: seq<Unit>, k: nat, kept: seq<Unit>)
    requires k < |us| && kept == Join(us[..k])
    ensures Join(us[..k + 1]) == Append(kept, us[k]) && us[k..] == [us[k]] + us[k + 1..]
  {
    assert Front(us[..k + 1]) == us[..k];
  }

  // ---- What is lost ----

  /** The unit points nowhere. */
  predicate Nowhere(u: Unit) { u.start == HOLE_UNIT || u.start == UNALLOC_UNIT }

  /** Unit k points to blocks and begins at the number where the hole before it
      ends: it disappears in the hole. */
  predicate Swallowed(us: seq<Unit>, k: nat)
    requires k < |us|
  {
    && us[k].width > 0 && !Nowhere(us[k])
    && var kept := Join(us[..k]);
    kept != [] && Nowhere(Last(kept)) && Add64(Last(kept).start, Last(kept).width) == us[k].start
  }

  /** What points somewhere ends inside the filesystem. */
  predicate Whole(u: Unit, total: nat) { Nowhere(u) || u.start + u.width <= total }

  ghost predicate AllWhole(us: seq<Unit>, total: nat) {
    forall i {:trigger us[i]} :: 0 <= i < |us| ==> Whole(us[i], total)
  }

  /** The same, empty units apart. */
  ghost predicate Bounded(us: seq<Unit>, total: nat) {
    forall i {:trigger us[i]} :: 0 <= i < |us| ==> us[i].width == 0 || Whole(us[i], total)
  }

  /** No block belongs to two units. */
  ghost predicate Distinct(us: seq<Unit>) {
    us == [] || (Distinct(Front(us)) && UnitBlocks(Last(us)) !! UnitsBlocks(Front(us)))
  }

  /** The blocks of the units that disappear. */
  ghost function Lost(us: seq<Unit>): (r: set<Blk>) {
    if us == [] then {}
    else Lost(Front(us)) + (if Swallowed(us, |us| - 1) then UnitBlocks(Last(us)) else {})
  }

  lemma AppendWhole(kept: seq<Unit>, u: Unit, total: nat)
    requires total < TWO64 && AllWhole(kept, total) && (u.width == 0 || Whole(u, total))
    ensures AllWhole(Append(kept, u), total)
  {
    if kept != [] {
      assert Whole(kept[|kept| - 1], total);
      if u.width == 0 || Joinable(Last(kept), u) { MergedBlocks(Last(kept), u, total); }
    }
  }

  /** One more unit. */
  lemma AppendBlocks(kept: seq<Unit>, u: Unit, total: nat)
    requires total < TWO64 && AllWhole(kept, total) && (u.width == 0 || Whole(u, total))
    ensures UnitsBlocks(Append(kept, u)) == UnitsBlocks(kept) +
      (if kept != [] && Nowhere(Last(kept)) && Joinable(Last(kept), u) then {} else UnitBlocks(u))
  {
    if kept == [] {
      BlocksOfOne(u);
    } else {
      assert Whole(kept[|kept| - 1], total);
      AppendBehind(Front(kept), Last(kept), u, total);
      assert kept == Front(kept) + [Last(kept)];
    }
  }

  lemma AppendBehind(front: seq<Unit>, prev: Unit, u: Unit, total: nat)
    requires total < TWO64 && Whole(prev, total) && (u.width == 0 || Whole(u, total))
    ensures UnitsBlocks(Append(front + [prev], u)) == UnitsBlocks(front + [prev]) +
      (if Nowhere(prev) && Joinable(prev, u) then {} else UnitBlocks(u))
  {
    var kept := front + [prev];
    assert Last(kept) == prev && Front(kept) == front;
    UnitsSnoc(front, prev);
    if u.width == 0 || Joinable(prev, u) {
      UnitsSnoc(front, Merge(prev, u));
      MergedBlocks(prev, u, total);
    } else {
      UnitsSnoc(kept, u);
    }
  }

  lemma MergedBlocks(prev: Unit, u: Unit, total: nat)
    requires total < TWO64 && Whole(prev, total) && (u.width == 0 || Whole(u, total))
    requires u.width == 0 || Joinable(prev, u)
    ensures Whole(Merge(prev, u), total)
    ensures UnitBlocks(Merge(prev, u)) == UnitBlocks(prev) + (if Nowhere(prev) then {} else UnitBlocks(u))
    ensures u.width == 0 ==> UnitBlocks(u) == {}
  {
  }

  /** The join keeps exactly the blocks that do not disappear in a hole, and it
      adds none. */
  lemma {:induction false} JoinLoses(us: seq<Unit>, total: nat)
    requires total < TWO64 && Bounded(us, total) && Distinct(us)
    ensures AllWhole(Join(us), total)
    ensures Lost(us) <= UnitsBlocks(us) && UnitsBlocks(Join(us)) == UnitsBlocks(us) - Lost(us)
  {
    if us != [] {
      var (front, u) := (Front(us), Last(us));
      assert u == us[|us| - 1] && us[..|us| - 1] == front;
      JoinLoses(front, total);
      AppendWhole(Join(front), u, total);
      AppendBlocks(Join(front), u, total);
      LosesOne(us);
      Apart3(UnitsBlocks(front), Lost(front), UnitBlocks(u));
    }
  }

  /** The last unit disappears when the hole before it takes it in. */
  lemma LosesOne(us: seq<Unit>)
    requires us != []
    ensures var (kept, u) := (Join(Front(us)), Last(us));
      Lost(us) == Lost(Front(us)) +
        (if kept != [] && Nowhere(Last(kept)) && Joinable(Last(kept), u) then UnitBlocks(u) else {})
    ensures UnitsBlocks(us) == UnitsBlocks(Front(us)) + UnitBlocks(Last(us))
  {
    assert us[..|us| - 1] == Front(us);
  }

  lemma Apart3(all: set<Blk>, lost: set<Blk>, more: set<Blk>)
    requires lost <= all && more !! all
    ensures (all - lost) + more == (all + more) - lost
    ensures all - lost == (all + more) - (lost + more)
  {
  }

  /** No block is lost exactly when no unit begins where the hole before it
      ends. */
  lemma {:induction false} LosesNothing(us: seq<Unit>)
    ensures Lost(us) == {} <==> forall k: nat :: k < |us| ==> !Swallowed(us, k)
  {
    if us != [] {
      var n := |us| - 1;
      LosesNothing(us[..n]);
      forall k: nat | k < n ensures Swallowed(us, k) <==> Swallowed(us[..n], k) { assert us[..n][..k] == us[..k]; }
      if Swallowed(us, n) { assert us[n].start in UnitBlocks(us[n]); }
    }
  }

  // ---- The condition read off the units ----

  /** The width of the run of holes directly before position k, empty units
      apart. */
  function HoleBefore(us: seq<Unit>, k: nat): (w: nat)
    requires k <= |us|
  {
    if k == 0 then 0
    else if us[k - 1].width == 0 then HoleBefore(us, k - 1)
    else if us[k - 1].start == HOLE_UNIT then Add64(HoleBefore(us, k - 1), us[k - 1].width)
    else 0
  }

  /** Unit k points to blocks and begins at the block whose number is the width
      of the run of holes before it. */
  predicate Behind(us: seq<Unit>, k: nat)
    requires k < |us|
  {
    us[k].width > 0 && !Nowhere(us[k]) && HoleBefore(us, k) == us[k].start
  }

  /** Up to the first such unit, the last unit kept is the run of holes. */
  lemma {:induction false} HoleKept(us: seq<Unit>, k: nat, total: nat)
    requires total < TWO64 && Bounded(us, total) && k <= |us|
    requires forall i :: 0 <= i < |us| ==> us[i].start != UNALLOC_UNIT
    requires forall i: nat :: i < k ==> !Behind(us, i)
    ensures var kept := Join(us[..k]);
      && AllWhole(kept, total)
      && (kept != [] && Nowhere(Last(kept)) ==>
            Last(kept).start == HOLE_UNIT && Add64(0, Last(kept).width) == HoleBefore(us, k))
      && (kept == [] || !Nowhere(Last(kept)) ==> HoleBefore(us, k) == 0)
  {
    if k > 0 {
      HoleKept(us, k - 1, total);
      assert Front(us[..k]) == us[..k - 1] && Last(us[..k]) == us[k - 1];
      var (kept, u) := (Join(us[..k - 1]), us[k - 1]);
      assert !Behind(us, k - 1);
      AppendWhole(kept, u, total);
      HoleStep(kept, u, HoleBefore(us, k - 1), total);
    }
  }

  lemma HoleStep(kept: seq<Unit>, u: Unit, h: nat, total: nat)
    requires total < TWO64 && AllWhole(kept, total) && (u.width == 0 || Whole(u, total)) && u.start != UNALLOC_UNIT
    requires kept != [] && Nowhere(Last(kept)) ==> Last(kept).start == HOLE_UNIT && Add64(0, Last(kept).width) == h
    requires kept == [] || !Nowhere(Last(kept)) ==> h == 0
    requires u.width > 0 && !Nowhere(u) ==> h != u.start
    ensures var (next, g) := (Append(kept, u),
        if u.width == 0 then h else if u.start == HOLE_UNIT then Add64(h, u.width) else 0);
      && (next != [] && Nowhere(Last(next)) ==> Last(next).start == HOLE_UNIT && Add64(0, Last(next).width) == g)
      && (next == [] || !Nowhere(Last(next)) ==> g == 0)
  {
    if kept != [] { assert Whole(kept[|kept| - 1], total); }
  }

  /** Some block is lost exactly when a unit begins at the block whose number is
      the width of the run of holes before it (unallocated units are zeroed
      before the scans). */
  lemma LosesAtHoles(us: seq<Unit>, total: nat)
    requires total < TWO64 && Bounded(us, total)
    requires forall i :: 0 <= i < |us| ==> us[i].start != UNALLOC_UNIT
    ensures Lost(us) != {} <==> exists k: nat :: k < |us| && Behind(us, k)
  {
    LosesNothing(us);
    if exists k: nat :: k < |us| && Behind(us, k) {
      var k: nat :| k < |us| && Behind(us, k);
      FirstSwallowed(us, k, total);
    } else {
      NoneSwallowed(us, total);
    }
  }

  lemma NoneSwallowed(us: seq<Unit>, total: nat)
    requires total < TWO64 && Bounded(us, total)
    requires forall i :: 0 <= i < |us| ==> us[i].start != UNALLOC_UNIT
    requires forall k: nat :: k < |us| ==> !Behind(us, k)
    ensures forall k: nat :: k < |us| ==> !Swallowed(us, k)
  {
    forall k: nat | k < |us| ensures !Swallowed(us, k) {
      HoleKept(us, k, total);
      assert !Behind(us, k);
    }
  }

  lemma {:induction false} FirstSwallowed(us: seq<Unit>, k: nat, total: nat)
    requires total < TWO64 && Bounded(us, total) && k < |us| && Behind(us, k)
    requires forall i :: 0 <= i < |us| ==> us[i].start != UNALLOC_UNIT
    ensures exists j: nat :: j < |us| && Swallowed(us, j)
    decreases k
  {
    if j: nat :| j < k && Behind(us, j) {
      FirstSwallowed(us, j, total);
    } else {
      HoleKept(us, k, total);
      assert Swallowed(us, k);
    }
  }

  // ---- Items and nodes ----

  function JoinItem(i: Item): (j: Item) {
    match i
    case Extent(us) => Extent(Join(us))
    case _ => i
  }

  function JoinItems(items: seq<Item>): (r: seq<Item>)
    ensures |r| == |items|
  {
    if items == [] then [] else [JoinItem(items[0])] + JoinItems(items[1..])
  }

  ghost function LostOf(i: Item): (r: set<Blk>) {
    match i
    case Extent(us) => Lost(us)
    case _ => {}
  }

  /** The blocks that the items of a node lose in the join. */
  ghost function LostIn(items: seq<Item>): (r: set<Blk>) {
    if items == [] then {} else LostOf(items[0]) + LostIn(items[1..])
  }

  /** What a scan leaves in an item before the join. */
  ghost predicate Tidy(i: Item, total: nat) { i.Extent? ==> Bounded(i.units, total) && Distinct(i.units) }

  ghost predicate AllTidy(items: seq<Item>, total: nat) {
    forall i {:trigger items[i]} :: 0 <= i < |items| ==> Tidy(items[i], total)
  }

  lemma {:induction false} ScreenedTidy(us: seq<Unit>, r: seq<Unit>, total: nat, met: set<Blk>)
    requires Screened(us, r, total, met)
    ensures Bounded(r, total) && Distinct(r)
  {
    if r != [] {
      var n := |r| - 1;
      assert UnitScreened(us[n], r, n, total, met);
      forall i: nat | i < n ensures UnitScreened(us[..n][i], r[..n], i, total, met) {
        assert UnitScreened(us[i], r, i, total, met) && r[..n][..i] == r[..i];
      }
      ScreenedTidy(us[..n], r[..n], total, met);
      assert r == r[..n] + [r[n]];
    }
  }

  lemma ItemsScreenedTidy(a: seq<Item>, b: seq<Item>, total: nat, met: set<Blk>)
    requires ItemsScreened(a, b, total, met)
    ensures AllTidy(b, total)
  {
    forall i: nat | i < |b| ensures Tidy(b[i], total) {
      assert ItemAtScreened(a[i], b, i, total, met);
      if b[i].Extent? { ScreenedTidy(a[i].units, b[i].units, total, met + ItemsBlocks(b[..i])); }
    }
  }

  lemma JoinItemLoses(i: Item, total: nat)
    requires total < TWO64 && Tidy(i, total)
    ensures LostOf(i) <= ItemBlocks(i) && ItemBlocks(JoinItem(i)) == ItemBlocks(i) - LostOf(i)
  {
    if i.Extent? { JoinLoses(i.units, total); }
  }

  /** The items of a node lose exactly what their units lose, and stay apart. */
  lemma {:induction false} JoinItemsLose(items: seq<Item>, total: nat)
    requires total < TWO64 && AllTidy(items, total) && Apart(items)
    ensures LostIn(items) <= ItemsBlocks(items)
    ensures ItemsBlocks(JoinItems(items)) == ItemsBlocks(items) - LostIn(items) && Apart(JoinItems(items))
  {
    if items != [] {
      assert Tidy(items[0], total);
      JoinItemLoses(items[0], total);
      JoinItemsLose(items[1..], total);
      assert JoinItems(items)[1..] == JoinItems(items[1..]);
    }
  }

  lemma {:induction false} JoinItemsSnoc(items: seq<Item>, i: Item)
    ensures JoinItems(items + [i]) == JoinItems(items) + [JoinItem(i)]
  {
    if items == [] {
      assert items + [i] == [i] && [i][1..] == [];
    } else {
      assert (items + [i])[1..] == items[1..] + [i];
      JoinItemsSnoc(items[1..], i);
    }
  }

  lemma {:induction false} JoinItemsKinds(items: seq<Item>, level: nat)
    ensures forall k :: 0 <= k < |items| ==> (LegalLevel(JoinItems(items)[k], level) <==> LegalLevel(items[k], level))
  {
    if items != [] { JoinItemsKinds(items[1..], level); }
  }

  function JoinImage(img: Image): (r: Image) { img.(items := JoinItems(img.items)) }

  /** The join changes nothing about whether a node is savable. */
  lemma JoinSavable(img: Image)
    ensures Savable(JoinImage(img)) <==> Savable(img)
  {
    JoinItemsKinds(img.items, img.level);
    var joined := JoinItems(img.items);
    assert joined == [] <==> img.items == [];
    assert Savable(JoinImage(img)) ==> forall k :: 0 <= k < |img.items| ==> LegalLevel(joined[k], img.level);
    assert Savable(img) ==> forall k :: 0 <= k < |joined| ==> LegalLevel(img.items[k], img.level);
  }

  /** now is mid with the units of the given twigs joined. */
  ghost predicate JoinedTo(mid: map<Blk, Image>, now: map<Blk, Image>, twigs: set<Blk>) {
    now.Keys == mid.Keys && forall t {:trigger now[t]} :: t in now ==>
      now[t] == if t in twigs then JoinImage(mid[t]) else mid[t]
  }

  ghost predicate NodesTidy(mid: map<Blk, Image>, n: set<Blk>, total: nat) {
    forall t {:trigger mid[t]} :: t in n && t in mid ==> AllTidy(mid[t].items, total)
  }

  /** The blocks that the nodes of n lose in the join. */
  ghost function LostFrom(mid: map<Blk, Image>, n: set<Blk>): (r: set<Blk>) {
    set b | b in AllBlocks(mid) && LosesBlock(mid, n, b)
  }

  ghost predicate LosesBlock(mid: map<Blk, Image>, n: set<Blk>, b: Blk) {
    exists t :: t in n && t in mid && b in LostIn(mid[t].items)
  }

  lemma NodeJoinLoses(mid: map<Blk, Image>, n: set<Blk>, t: Blk, total: nat)
    requires total < TWO64 && NodesTidy(mid, n, total) && Owned(mid, n) && t in n && t in mid
    ensures var items := mid[t].items;
      && LostIn(items) <= ItemsBlocks(items)
      && ItemsBlocks(JoinItems(items)) == ItemsBlocks(items) - LostIn(items) && Apart(JoinItems(items))
  {
    assert SelfApart(mid, t) && AllTidy(mid[t].items, total);
    JoinItemsLose(mid[t].items, total);
  }

  /** After the join the twigs point to exactly what they did not lose, and each
      block still has one owner. */
  lemma JoinedExtents(mid: map<Blk, Image>, now: map<Blk, Image>, n: set<Blk>, total: nat)
    requires total < TWO64 && JoinedTo(mid, now, n) && NodesTidy(mid, n, total) && Owned(mid, n)
    ensures Extents(now, n) == Extents(mid, n) - LostFrom(mid, n) && LostFrom(mid, n) <= Extents(mid, n)
    ensures Owned(now, n)
  {
    InExtents(now, n);
    InExtents(mid, n);
    forall t | t in n ensures SelfApart(now, t) { if t in mid { NodeJoinLoses(mid, n, t, total); } }
    forall s, t | s in n && t in n ensures Foreign(now, s, t) {
      assert Foreign(mid, s, t);
      if s in mid { NodeJoinLoses(mid, n, s, total); }
      if t in mid { NodeJoinLoses(mid, n, t, total); }
    }
    forall b ensures b in Extents(now, n) <==> b in Extents(mid, n) && b !in LostFrom(mid, n) {
      JoinedBlock(mid, now, n, total, b);
    }
    forall b | b in LostFrom(mid, n) ensures b in Extents(mid, n) {
      var t :| t in n && t in mid && b in LostIn(mid[t].items);
      NodeJoinLoses(mid, n, t, total);
    }
  }

  lemma JoinedBlock(mid: map<Blk, Image>, now: map<Blk, Image>, n: set<Blk>, total: nat, b: Blk)
    requires total < TWO64 && JoinedTo(mid, now, n) && NodesTidy(mid, n, total) && Owned(mid, n)
    ensures b in Extents(now, n) <==> b in Extents(mid, n) && b !in LostFrom(mid, n)
  {
    InExtents(now, n);
    InExtents(mid, n);
    if b in Extents(now, n) {
      var t :| t in n && t in now && b in ItemsBlocks(now[t].items);
      NodeJoinLoses(mid, n, t, total);
      forall s | s in n && s in mid ensures b !in LostIn(mid[s].items) {
        NodeJoinLoses(mid, n, s, total);
        assert Foreign(mid, s, t);
      }
    }
    if b in Extents(mid, n) && b !in LostFrom(mid, n) {
      var t :| t in n && t in mid && b in ItemsBlocks(mid[t].items);
      NodeJoinLoses(mid, n, t, total);
      assert b in AllBlocks(mid);
      assert b in ItemsBlocks(now[t].items);
    }
  }

  /** No node of n has a unit that begins where the hole before it ends. */
  ghost predicate NoneLost(mid: map<Blk, Image>, n: set<Blk>) {
    forall t, i: nat, k: nat {:trigger SwallowedAt(mid, t, i, k)} :: t in n ==> !SwallowedAt(mid, t, i, k)
  }

  ghost predicate SwallowedAt(mid: map<Blk, Image>, t: Blk, i: nat, k: nat) {
    && t in mid && i < |mid[t].items| && mid[t].items[i].Extent?
    && k < |mid[t].items[i].units| && Swallowed(mid[t].items[i].units, k)
  }

  lemma {:induction false} ItemsLoseNothing(items: seq<Item>)
    ensures LostIn(items) == {} <==> forall i: nat :: i < |items| ==> LostOf(items[i]) == {}
  {
    if items != [] {
      ItemsLoseNothing(items[1..]);
      forall i: nat | 0 < i < |items| ensures items[1..][i - 1] == items[i] {}
    }
  }

  lemma NodeLosesNothing(mid: map<Blk, Image>, t: Blk)
    requires t in mid
    ensures LostIn(mid[t].items) == {} <==> forall i: nat, k: nat :: !SwallowedAt(mid, t, i, k)
  {
    var items := mid[t].items;
    ItemsLoseNothing(items);
    forall i: nat | i < |items| ensures LostOf(items[i]) == {} <==> forall k: nat :: !SwallowedAt(mid, t, i, k) {
      if items[i].Extent? {
        LosesNothing(items[i].units);
        assert forall k: nat :: k < |items[i].units| ==> (SwallowedAt(mid, t, i, k) <==> Swallowed(items[i].units, k));
      }
    }
  }

  /** The nodes of n point to no more than before the join, and to as much
      exactly when no unit began where the hole before it ended. */
  ghost predicate Remain(mid: map<Blk, Image>, now: map<Blk, Image>, n: set<Blk>) {
    && Extents(now, n) <= Extents(mid, n)
    && (Extents(now, n) == Extents(mid, n) <==> NoneLost(mid, n))
  }

  /** This is what the join does to screened twigs. */
  lemma NothingLost(mid: map<Blk, Image>, now: map<Blk, Image>, n: set<Blk>, total: nat)
    requires total < TWO64 && JoinedTo(mid, now, n) && NodesTidy(mid, n, total) && Owned(mid, n)
    ensures Remain(mid, now, n)
  {
    JoinedExtents(mid, now, n, total);
    assert Extents(now, n) == Extents(mid, n) <==> LostFrom(mid, n) == {};
    forall t | t in n && t in mid ensures LostIn(mid[t].items) <= LostFrom(mid, n) {
      NodeJoinLoses(mid, n, t, total);
      forall b | b in LostIn(mid[t].items) ensures b in LostFrom(mid, n) { assert b in AllBlocks(mid); }
    }
    forall t | t in n && t in mid
      ensures LostIn(mid[t].items) == {} <==> forall i: nat, k: nat :: !SwallowedAt(mid, t, i, k)
    {
      NodeLosesNothing(mid, t);
    }
    NoneLostFrom(mid, n);
  }

  lemma NoneLostFrom(mid: map<Blk, Image>, n: set<Blk>)
    requires forall t :: t in n && t in mid ==> LostIn(mid[t].items) <= LostFrom(mid, n)
    ensures LostFrom(mid, n) == {} <==> NoneLost(mid, n)
  {
    forall t | t in n && t in mid
      ensures LostIn(mid[t].items) == {} <==> forall i: nat, k: nat :: !SwallowedAt(mid, t, i, k)
    {
      NodeLosesNothing(mid, t);
    }
    if NoneLost(mid, n) {
      forall t | t in n && t in mid ensures LostIn(mid[t].items) == {} {
        assert forall i: nat, k: nat :: !SwallowedAt(mid, t, i, k);
      }
    }
    if LostFrom(mid, n) == {} {
      forall t, i: nat, k: nat | t in n ensures !SwallowedAt(mid, t, i, k) {
        if t in mid { assert LostIn(mid[t].items) == {}; }
      }
    }
  }

  lemma ScannedTidy(was: map<Blk, Image>, mid: map<Blk, Image>, twigs: set<Blk>, total: nat, met: set<Blk>)
    requires Scanned(was, mid, twigs, total, total, met) && InFs(twigs, total)
    ensures NodesTidy(mid, twigs, total)
  {
    forall t | t in twigs && t in mid ensures AllTidy(mid[t].items, total) {
      assert TwigScanned(was, mid, twigs, t, total, met);
      ItemsScreenedTidy(was[t].items, mid[t].items, total, met + Extents(mid, Below(twigs, t)));
    }
  }

  /** A scan zeroes the first of two units, accepts the second one, and the join
      makes both of them one hole: the five blocks are marked and lost. */
  lemma AcceptedAndLost()
    ensures var (us, r, met) := ([Unit(500, 300), Unit(300, 5)], [Unit(0, 300), Unit(300, 5)], {500});
      && Join(us) == us
      && Screened(us, r, 1000, met) && UnitsBlocks(r) == Region(300, 5)
      && Join(r) == [Unit(0, 305)] && UnitsBlocks(Join(r)) == {} && Lost(r) == Region(300, 5)
  {
    var (a, b, z) := (Unit(500, 300), Unit(300, 5), Unit(0, 300));
    JoinTwo(a, b);
    JoinTwo(z, b);
    assert 500 in Region(500, 300);
    BlocksOfTwo(z, b);
    var r := [z, b];
    assert UnitScreened(a, r, 0, 1000, {500}) by { assert r[..0] == []; }
    assert UnitScreened(b, r, 1, 1000, {500}) by { assert r[..1] == [z]; BlocksOfOne(z); }
    BlocksOfOne(Unit(0, 305));
    assert Front(r) == [z] && Front([z]) == [];
    assert Lost([z]) == {};
  }

  lemma BlocksOfOne(a: Unit)
    ensures UnitsBlocks([a]) == UnitBlocks(a)
  {
    assert [a][..0] == [];
  }

  lemma BlocksOfTwo(a: Unit, b: Unit)
    ensures UnitsBlocks([a, b]) == UnitBlocks(a) + UnitBlocks(b)
  {
    BlocksOfOne(a);
    assert [a, b][..1] == [a];
  }

  lemma JoinTwo(a: Unit, b: Unit)
    requires a.width > 0
    ensures Join([a]) == [a] && Join([a, b]) == Append([a], b)
  {
    assert Front([a]) == [] && Front([a, b]) == [a];
  }
}

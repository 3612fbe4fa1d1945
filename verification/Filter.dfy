/** The filter pass of fsck (librepair/filter.c): the tree on disk, however
    corrupt, is walked by reiser4_tree_trav_node; nodes that fail a check are
    left out.  Outside the BUILD mode no pointer is removed, so the pointers on
    the device do not change while they are followed. */
module Filter {
  import opened Common
  import opened BlockSet

  const LEAF_LEVEL: nat := 1
  const TWIG_LEVEL: nat := 2

  /** A node as it lies on the device; levels are bytes. */
  datatype Image = Image(level: nat, ptrs: seq<Blk>)

  /** The pointer in slot pos of the node at block parent; the superblock's
      pointer to the root has no parent. */
  datatype Link = Link(parent: Option<Blk>, pos: nat, blk: Blk)

  /** What the node plugin and the delimiting-key check say about a node:
      sound, empty, broken, or outside its delimiting keys. */
  datatype Check = Sound | Empty | Broken | WrongKeys

  datatype Mark = MarkIt | ClearIt | BadIt

  /** The filesystem as the pass finds it: its length, the first block after
      the superblock, the blocks of the format area, the blocks that open as
      nodes, and the verdict of the plugins on each of them. */
  datatype Fs = Fs(total: nat, start: Blk, sys: set<Blk>, disk: map<Blk, Image>, judge: Link -> Check)

  /** What a run has done: the pointers it accepted, in order, and those it
      refused. */
  datatype Log = Log(kept: seq<Link>, refused: seq<Link>)

  ghost predicate FsFormed(fs: Fs) {
    && (forall b :: b in fs.sys ==> b < fs.total)
    && (forall b :: b in fs.disk ==> fs.disk[b].level < 256)
  }

  /** The checks of repair_filter_node_check after the level has matched,
      repair_node_check_level included: level zero is illegal and a leaf holds
      no node pointers. */
  function Verdict(fs: Fs, l: Link): Check
    requires l.blk in fs.disk
  {
    var img := fs.disk[l.blk];
    if fs.judge(l) == Empty then Empty
    else if fs.judge(l) == Broken || img.level == 0 || (img.level == LEAF_LEVEL && img.ptrs != []) then Broken
    else fs.judge(l)
  }

  /** A node that may stay: the plugin and the keys are content with it, its
      level is legal, and a leaf holds no node pointers. */
  ghost predicate Fit(fs: Fs, l: Link)
    requires l.blk in fs.disk
  {
    && fs.judge(l) == Sound && fs.disk[l.blk].level >= 1
    && (fs.disk[l.blk].level == LEAF_LEVEL ==> fs.disk[l.blk].ptrs == [])
  }

  /** The set of blocks that a list of links leads to. */
  ghost function Targets(links: seq<Link>): (r: set<Blk>)
    ensures forall b :: b in r <==> exists i :: 0 <= i < |links| && links[i].blk == b
  {
    set i | 0 <= i < |links| :: links[i].blk
  }

  /** The targets that are blocks of the filesystem. */
  ghost function Inner(fs: Fs, links: seq<Link>): (r: set<Blk>) {
    set b | b in Targets(links) && b < fs.total
  }

  /** The kept twigs. */
  ghost function Twigs(fs: Fs, links: seq<Link>): (r: set<Blk>) {
    set b | b in Inner(fs, links) && b in fs.disk && fs.disk[b].level == TWIG_LEVEL
  }

  // ---- The tree that is kept ----

  /** l is the pointer in slot l.pos of p, and leads one level down. */
  ghost predicate PointsDown(fs: Fs, p: Blk, l: Link) {
    && p in fs.disk && l.blk in fs.disk
    && l.parent == Some(p) && l.pos < |fs.disk[p].ptrs| && fs.disk[p].ptrs[l.pos] == l.blk
    && fs.disk[p].level == fs.disk[l.blk].level + 1
  }

  /** The link at index i was rightly kept: a sound node outside the format
      area, reached from a node kept before it. */
  ghost predicate Rightly(fs: Fs, kept: seq<Link>, i: nat)
    requires i < |kept|
  {
    var l := kept[i];
    && l.blk in fs.disk && Fit(fs, l) && l.blk !in fs.sys
    && (i == 0 ==> l.parent == None && RootBounds(fs, l.blk))
    && (i > 0 ==> l.blk < fs.total && exists j :: 0 <= j < i && PointsDown(fs, kept[j].blk, l))
  }

  ghost predicate Distinct(kept: seq<Link>) {
    forall i, j :: 0 <= i < j < |kept| ==> kept[i].blk != kept[j].blk
  }

  /** The kept links form a tree: the first one is the root, each other one has
      its parent among the earlier ones, and no block has two. */
  ghost predicate IsTree(fs: Fs, kept: seq<Link>) {
    && (forall i: nat :: i < |kept| ==> Rightly(fs, kept, i))
    && Distinct(kept)
  }

  // ---- The pointers that are refused ----

  /** The superblock's pointer may lead to the first block behind the end. */
  predicate RootBounds(fs: Fs, b: Blk) { fs.start <= b <= fs.total }

  /** Why the pointer l could not be followed, given the blocks already in the
      tree: it leads outside, to a block that is taken or cannot be opened, to
      a node on the wrong level, or to a node that fails its checks. */
  ghost predicate Refusable(fs: Fs, taken: set<Blk>, l: Link) {
    || (l.parent.Some? && l.blk >= fs.total)
    || (l.parent == None && !RootBounds(fs, l.blk))
    || l.blk in fs.sys
    || l.blk in taken
    || l.blk !in fs.disk
    || (l.parent.Some? && l.parent.value in fs.disk && fs.disk[l.parent.value].level != fs.disk[l.blk].level + 1)
    || !Fit(fs, l)
  }

  ghost predicate RefusedRightly(fs: Fs, log: Log) {
    forall i :: 0 <= i < |log.refused| ==> Refusable(fs, Targets(log.kept), log.refused[i])
  }

  /** The number of pointers the loop over a node looks at: it stops at the
      first one that holds INVAL_BLK. */
  function Stop(ptrs: seq<Blk>): (n: nat)
    ensures n <= |ptrs|
    ensures forall i :: 0 <= i < n ==> ptrs[i] != INVAL_BLK
    ensures n < |ptrs| ==> ptrs[n] == INVAL_BLK
  {
    if ptrs == [] || ptrs[0] == INVAL_BLK then 0 else 1 + Stop(ptrs[1..])
  }

  ghost predicate Handled(log: Log, l: Link) { l in log.kept || l in log.refused }

  /** The first n pointers of p were kept or refused. */
  ghost predicate HandledUpTo(fs: Fs, log: Log, p: Blk, n: nat)
    requires p in fs.disk && n <= |fs.disk[p].ptrs|
  {
    forall k :: 0 <= k < n ==> Handled(log, Link(Some(p), k, fs.disk[p].ptrs[k]))
  }

  /** Every pointer of the i-th kept node was kept or refused. */
  ghost predicate NodeHandled(fs: Fs, log: Log, i: nat)
    requires i < |log.kept|
  {
    var b := log.kept[i].blk;
    b in fs.disk && HandledUpTo(fs, log, b, Stop(fs.disk[b].ptrs))
  }

  ghost predicate HandledAll(fs: Fs, log: Log, from: nat) {
    forall i :: from <= i < |log.kept| ==> NodeHandled(fs, log, i)
  }

  /** One log continues another. */
  ghost predicate Extends(a: Log, b: Log) { a.kept <= b.kept && a.refused <= b.refused }

  lemma TargetsSnoc(links: seq<Link>, l: Link)
    ensures Targets(links + [l]) == Targets(links) + {l.blk}
  {
    forall b | b in Targets(links) ensures b in Targets(links + [l]) {
      var i :| 0 <= i < |links| && links[i].blk == b;
      assert (links + [l])[i].blk == b;
    }
    assert (links + [l])[|links|].blk == l.blk;
  }

  lemma TargetsGrow(a: seq<Link>, b: seq<Link>)
    requires a <= b
    ensures Targets(a) <= Targets(b)
  {
    forall t | t in Targets(a) ensures t in Targets(b) {
      var i :| 0 <= i < |a| && a[i].blk == t;
      assert b[i].blk == t;
    }
  }

  /** A sound pointer from a kept node to a fresh block keeps the tree. */
  lemma TreeSnoc(fs: Fs, kept: seq<Link>, l: Link)
    requires IsTree(fs, kept)
    requires l.blk in fs.disk && Fit(fs, l) && l.blk !in fs.sys && l.blk !in Targets(kept)
    requires if kept == [] then l.parent == None && RootBounds(fs, l.blk)
             else (l.blk < fs.total && l.parent.Some? && l.parent.value in Targets(kept) &&
                   PointsDown(fs, l.parent.value, l))
    ensures IsTree(fs, kept + [l])
  {
    var more := kept + [l];
    forall i: nat | i < |more| ensures Rightly(fs, more, i) {
      if i < |kept| {
        assert Rightly(fs, kept, i);
        if i > 0 {
          var j :| 0 <= j < i && PointsDown(fs, kept[j].blk, kept[i]);
          assert PointsDown(fs, more[j].blk, more[i]);
        }
      } else if i > 0 {
        var j :| 0 <= j < |kept| && kept[j].blk == l.parent.value;
        assert PointsDown(fs, more[j].blk, l);
      }
    }
  }

  lemma HandledGrows(fs: Fs, a: Log, b: Log, from: nat)
    requires Extends(a, b) && HandledAll(fs, a, from)
    ensures forall i :: from <= i < |a.kept| ==> NodeHandled(fs, b, i)
  {
    forall i | from <= i < |a.kept| ensures NodeHandled(fs, b, i) {
      assert NodeHandled(fs, a, i);
      assert b.kept[i] == a.kept[i];
      UpToGrows(fs, a, b, a.kept[i].blk, Stop(fs.disk[a.kept[i].blk].ptrs));
    }
  }

  lemma UpToGrows(fs: Fs, a: Log, b: Log, p: Blk, n: nat)
    requires Extends(a, b) && p in fs.disk && n <= |fs.disk[p].ptrs| && HandledUpTo(fs, a, p, n)
    ensures HandledUpTo(fs, b, p, n)
  {
    forall k | 0 <= k < n ensures Handled(b, Link(Some(p), k, fs.disk[p].ptrs[k])) {
      assert Handled(a, Link(Some(p), k, fs.disk[p].ptrs[k]));
    }
  }

  lemma RefusedGrows(fs: Fs, a: Log, b: Log)
    requires a.kept <= b.kept && a.refused == b.refused && RefusedRightly(fs, a)
    ensures RefusedRightly(fs, b)
  {
    TargetsGrow(a.kept, b.kept);
  }

  lemma InnerTargets(fs: Fs, kept: seq<Link>)
    ensures forall b :: b in Inner(fs, kept) <==> b in Targets(kept) && b < fs.total
    ensures Twigs(fs, kept) <= Inner(fs, kept)
  {
  }

  /** Marking a kept block is what the log's growth asks of the bitmaps. */
  lemma KeepAgrees(fs: Fs, kept: seq<Link>, l: Link)
    requires l.blk in fs.disk
    ensures fs.sys + Inner(fs, kept + [l]) == Marked(fs.sys + Inner(fs, kept), fs.total, l.blk, 1)
    ensures Twigs(fs, kept + [l]) ==
      if fs.disk[l.blk].level == TWIG_LEVEL then Marked(Twigs(fs, kept), fs.total, l.blk, 1) else Twigs(fs, kept)
  {
    TargetsSnoc(kept, l);
    RegionOne(l.blk);
  }

  /** No pointer is logged twice. */
  ghost predicate Once(log: Log) {
    && (forall i :: 0 <= i < |log.refused| ==> log.refused[i] !in log.kept)
    && (forall i, j :: 0 <= i < j < |log.refused| ==> log.refused[i] != log.refused[j])
  }

  /** Only pointers of kept nodes, and the superblock's, are looked at. */
  ghost predicate FromTree(fs: Fs, log: Log, l: Link) {
    match l.parent
    case None => log.kept == [] || l == log.kept[0]
    case Some(p) => p in Targets(log.kept) && IsPointer(fs, p, l)
  }

  /** l is one of the pointers the loop over p looks at. */
  ghost predicate IsPointer(fs: Fs, p: Blk, l: Link) {
    p in fs.disk && l.parent == Some(p) && l.pos < Stop(fs.disk[p].ptrs) && fs.disk[p].ptrs[l.pos] == l.blk
  }

  ghost predicate LogFormed(fs: Fs, log: Log) {
    && IsTree(fs, log.kept)
    && RefusedRightly(fs, log)
    && Once(log)
    && forall l :: Handled(log, l) ==> FromTree(fs, log, l)
  }

  ghost predicate Keepable(fs: Fs, log: Log, l: Link) {
    && l.blk in fs.disk && Fit(fs, l) && l.blk !in fs.sys && l.blk !in Targets(log.kept)
    && if log.kept == [] then l.parent == None && log.refused == [] && RootBounds(fs, l.blk)
       else
         && l.blk < fs.total && l.parent.Some? && l.parent.value in Targets(log.kept)
         && IsPointer(fs, l.parent.value, l) && PointsDown(fs, l.parent.value, l)
  }

  lemma KeepLog(fs: Fs, log: Log, l: Link)
    requires LogFormed(fs, log) && Keepable(fs, log, l) && !Handled(log, l)
    ensures LogFormed(fs, log.(kept := log.kept + [l]))
  {
    TreeSnoc(fs, log.kept, l);
    var more := log.(kept := log.kept + [l]);
    RefusedGrows(fs, log, more);
    TargetsGrow(log.kept, more.kept);
    forall m | Handled(more, m) ensures FromTree(fs, more, m) {
      if m != l { assert Handled(log, m); }
    }
  }

  lemma RefuseLog(fs: Fs, log: Log, l: Link)
    requires LogFormed(fs, log) && Refusable(fs, Targets(log.kept), l) && !Handled(log, l) && FromTree(fs, log, l)
    ensures LogFormed(fs, log.(refused := log.refused + [l]))
  {
    var more := log.(refused := log.refused + [l]);
    forall i | 0 <= i < |more.refused| ensures Refusable(fs, Targets(more.kept), more.refused[i]) {
      if i < |log.refused| { assert more.refused[i] == log.refused[i]; }
    }
    forall m | Handled(more, m) ensures FromTree(fs, more, m) {
      if m != l { assert Handled(log, m); }
    }
  }

  /** m is a pointer of a node that was kept after the given log. */
  ghost predicate NewParent(log: Log, m: Link) { m.parent.Some? && m.parent.value !in Targets(log.kept) }

  /** No pointer of a node has been looked at before the node is kept. */
  lemma FreshParent(fs: Fs, log: Log, l: Link)
    requires LogFormed(fs, log) && l.blk !in Targets(log.kept)
    ensures forall m :: Handled(log, m) ==> m.parent != Some(l.blk)
  {
    forall m | Handled(log, m) ensures m.parent != Some(l.blk) {
      assert FromTree(fs, log, m);
    }
  }

  /** What following the pointer l has added to the log. */
  ghost predicate Through(fs: Fs, was: Log, now: Log, l: Link) {
    && Extends(was, now)
    && Handled(now, l) && HandledAll(fs, now, |was.kept|)
    && forall m :: Handled(now, m) ==> Handled(was, m) || m == l || NewParent(was, m)
  }

  /** The same when l was kept and k pointers of its node have been followed. */
  ghost predicate Walked(fs: Fs, was: Log, now: Log, l: Link, k: nat) {
    && Extends(was, now)
    && |now.kept| > |was.kept| && now.kept[|was.kept|] == l
    && l.blk in fs.disk && k <= |fs.disk[l.blk].ptrs|
    && HandledAll(fs, now, |was.kept| + 1) && HandledUpTo(fs, now, l.blk, k)
    && (forall m :: Handled(now, m) && m.parent == Some(l.blk) ==> m.pos < k)
    && l.blk !in Targets(was.kept)
    && forall m :: Handled(now, m) ==> Handled(was, m) || m == l || NewParent(was, m)
  }

  lemma RefusedThrough(fs: Fs, was: Log, l: Link)
    ensures Through(fs, was, was.(refused := was.refused + [l]), l)
  {
  }

  lemma WalkedStart(fs: Fs, was: Log, l: Link)
    requires LogFormed(fs, was) && l.blk !in Targets(was.kept) && l.blk in fs.disk && l.parent != Some(l.blk)
    ensures Walked(fs, was, was.(kept := was.kept + [l]), l, 0)
  {
    FreshParent(fs, was, l);
    var now := was.(kept := was.kept + [l]);
    assert forall m :: Handled(now, m) ==> m == l || Handled(was, m);
  }

  /** The next pointer has not been looked at. */
  lemma WalkedNext(fs: Fs, was: Log, now: Log, l: Link, k: nat)
    requires Walked(fs, was, now, l, k) && k < |fs.disk[l.blk].ptrs| && fs.disk[l.blk].ptrs[k] != INVAL_BLK &&
      k <= Stop(fs.disk[l.blk].ptrs)
    ensures k < Stop(fs.disk[l.blk].ptrs)
    ensures !Handled(now, Link(Some(l.blk), k, fs.disk[l.blk].ptrs[k]))
    ensures IsPointer(fs, l.blk, Link(Some(l.blk), k, fs.disk[l.blk].ptrs[k]))
    ensures l.blk in Targets(now.kept) && now.kept != []
  {
  }

  lemma WalkedStep(fs: Fs, was: Log, before: Log, now: Log, l: Link, k: nat)
    requires Walked(fs, was, before, l, k) && k < |fs.disk[l.blk].ptrs|
    requires Through(fs, before, now, Link(Some(l.blk), k, fs.disk[l.blk].ptrs[k]))
    ensures Walked(fs, was, now, l, k + 1)
  {
    HandledGrows(fs, before, now, |was.kept| + 1);
    UpToGrows(fs, before, now, l.blk, k);
    TargetsGrow(was.kept, before.kept);
    assert l.blk in Targets(before.kept);
  }

  lemma WalkedEnd(fs: Fs, was: Log, now: Log, l: Link)
    requires l.blk in fs.disk && Walked(fs, was, now, l, Stop(fs.disk[l.blk].ptrs))
    ensures Through(fs, was, now, l)
  {
    assert now.kept[|was.kept|] == l;
    assert NodeHandled(fs, now, |was.kept|);
  }

  // ---- What a whole run gives ----

  /** Every pointer in the slots that pass looks at was accepted. */
  ghost predicate AllKept(fs: Fs, log: Log) {
    && log.kept != []
    && forall p, l :: p in Targets(log.kept) && IsPointer(fs, p, l) ==> l in log.kept
  }

  /** A run reports no fatal corruption exactly when it kept the root and all
      pointers it looked at. */
  lemma SilentMeansKept(fs: Fs, log: Log)
    requires LogFormed(fs, log) && HandledAll(fs, log, 0) && (log.kept == [] ==> log.refused != [])
    ensures log.refused == [] <==> AllKept(fs, log)
  {
    if log.refused == [] {
      forall p, l | p in Targets(log.kept) && IsPointer(fs, p, l) ensures l in log.kept {
        var i :| 0 <= i < |log.kept| && log.kept[i].blk == p;
        assert NodeHandled(fs, log, i);
        assert Handled(log, Link(Some(p), l.pos, fs.disk[p].ptrs[l.pos]));
      }
    } else {
      var l := log.refused[0];
      assert Handled(log, l) && FromTree(fs, log, l) && l !in log.kept;
    }
  }

  /** A way along pointers of the device. */
  ghost predicate Leads(fs: Fs, path: seq<Blk>) {
    path != [] && forall i :: 0 <= i < |path| - 1 ==> path[i] in fs.disk && path[i + 1] in fs.disk[path[i]].ptrs
  }

  ghost predicate ReachableFrom(fs: Fs, root: Blk, b: Blk) {
    exists path :: Leads(fs, path) && path[0] == root && path[|path| - 1] == b
  }

  lemma {:induction false} KeptIsReachable(fs: Fs, kept: seq<Link>, i: nat)
    requires IsTree(fs, kept) && i < |kept|
    ensures ReachableFrom(fs, kept[0].blk, kept[i].blk)
    decreases i
  {
    assert Rightly(fs, kept, i);
    if i == 0 {
      assert Leads(fs, [kept[0].blk]);
    } else {
      var j :| 0 <= j < i && PointsDown(fs, kept[j].blk, kept[i]);
      KeptIsReachable(fs, kept, j);
      var path :| Leads(fs, path) && path[0] == kept[0].blk && path[|path| - 1] == kept[j].blk;
      assert Leads(fs, path + [kept[i].blk]);
    }
  }

  /** If all pointers of kept nodes were kept, every way from the root stays
      inside the kept nodes. */
  lemma {:induction false} ReachedIsKept(fs: Fs, log: Log, path: seq<Blk>)
    requires log.kept != [] && Leads(fs, path) && path[0] == log.kept[0].blk
    requires forall p, k: nat :: p in Targets(log.kept) && p in fs.disk && k < |fs.disk[p].ptrs| ==>
      Link(Some(p), k, fs.disk[p].ptrs[k]) in log.kept
    ensures path[|path| - 1] in Targets(log.kept)
    decreases |path|
  {
    if |path| > 1 {
      var front := path[..|path| - 1];
      ReachedIsKept(fs, log, front);
      var (p, b) := (front[|front| - 1], path[|path| - 1]);
      assert p == path[|path| - 2] && b in fs.disk[p].ptrs;
      var k: nat :| k < |fs.disk[p].ptrs| && fs.disk[p].ptrs[k] == b;
      var i :| 0 <= i < |log.kept| && log.kept[i] == Link(Some(p), k, b);
    }
  }

  /** A run that reports nothing has followed every pointer of every kept node
      exactly when no node that can be reached from the root on the device holds
      INVAL_BLK: the loop over a node ends at such a pointer and does not count
      it. */
  lemma SilentPointers(fs: Fs, log: Log)
    requires LogFormed(fs, log) && HandledAll(fs, log, 0) && log.refused == [] && log.kept != []
    ensures AllFollowed(fs, log) <==>
      forall b :: ReachableFrom(fs, log.kept[0].blk, b) && b in fs.disk ==> INVAL_BLK !in fs.disk[b].ptrs
  {
    SilentSlots(fs, log);
    if AllFollowed(fs, log) {
      forall b | ReachableFrom(fs, log.kept[0].blk, b) && b in fs.disk ensures INVAL_BLK !in fs.disk[b].ptrs {
        var path :| Leads(fs, path) && path[0] == log.kept[0].blk && path[|path| - 1] == b;
        ReachedIsKept(fs, log, path);
      }
    }
    forall p | p in Targets(log.kept) ensures ReachableFrom(fs, log.kept[0].blk, p) {
      var i :| 0 <= i < |log.kept| && log.kept[i].blk == p;
      KeptIsReachable(fs, log.kept, i);
    }
  }

  ghost predicate AllFollowed(fs: Fs, log: Log) {
    forall p, k: nat :: p in Targets(log.kept) && p in fs.disk && k < |fs.disk[p].ptrs| ==>
      Link(Some(p), k, fs.disk[p].ptrs[k]) in log.kept
  }

  lemma SilentSlots(fs: Fs, log: Log)
    requires LogFormed(fs, log) && HandledAll(fs, log, 0) && log.refused == [] && log.kept != []
    ensures AllFollowed(fs, log) <==>
      forall p :: p in Targets(log.kept) && p in fs.disk ==> INVAL_BLK !in fs.disk[p].ptrs
  {
    SilentMeansKept(fs, log);
    forall p, k: nat | p in Targets(log.kept) && p in fs.disk && k < |fs.disk[p].ptrs|
      ensures Link(Some(p), k, fs.disk[p].ptrs[k]) in log.kept <==> k < Stop(fs.disk[p].ptrs)
    {
      var l := Link(Some(p), k, fs.disk[p].ptrs[k]);
      if l in log.kept {
        assert Handled(log, l) && FromTree(fs, log, l);
      } else {
        assert !IsPointer(fs, p, l);
      }
    }
    forall p | p in Targets(log.kept) && p in fs.disk
      ensures INVAL_BLK in fs.disk[p].ptrs <==> Stop(fs.disk[p].ptrs) < |fs.disk[p].ptrs|
    {
    }
  }

  /** A root none of whose pointers is looked at is the whole tree. */
  lemma OnlyRoot(fs: Fs, log: Log, l: Link)
    requires LogFormed(fs, log) && log.kept != [] && log.kept[0] == l && l.blk in fs.disk &&
      Stop(fs.disk[l.blk].ptrs) == 0
    ensures log.kept == [l] && log.refused == []
  {
    forall m | Handled(log, m) ensures FromTree(fs, log, m) {}
    assert |log.kept| > 1 ==> Rightly(fs, log.kept, 1) && Handled(log, log.kept[1]);
    assert log.kept == [l];
    forall m | Handled(log, m) ensures m in log.kept {
      assert FromTree(fs, log, m);
    }
    assert log.refused != [] ==> Handled(log, log.refused[0]);
  }

  // ---- What the tree shape gives ----

  /** Among the kept nodes every block but the root has exactly one accepted
      pointer, the root has none, and its own level is the height of the tree:
      no cycle and no sharing is left, whatever the device holds. */
  lemma OneParent(fs: Fs, kept: seq<Link>, i: nat, j: nat)
    requires IsTree(fs, kept) && i < |kept| && j < |kept|
    ensures kept[i].blk == kept[j].blk ==> i == j
    ensures kept[i].parent == None <==> i == 0
    ensures i > 0 ==> exists k :: 0 <= k < i && PointsDown(fs, kept[k].blk, kept[i])
    ensures i > 0 && kept[i].parent == Some(kept[j].blk) ==> j < i
  {
    assert Rightly(fs, kept, i);
    if i > 0 {
      var k :| 0 <= k < i && PointsDown(fs, kept[k].blk, kept[i]);
      if kept[i].parent == Some(kept[j].blk) {
        assert k == j;
      }
    }
  }

  /** The nodes from a kept node up to the root. */
  ghost predicate IsPath(fs: Fs, kept: seq<Link>, path: seq<nat>) {
    && path != [] && (forall k :: 0 <= k < |path| ==> path[k] < |kept|)
    && path[|path| - 1] == 0
    && forall k :: 0 <= k < |path| - 1 ==> PointsDown(fs, kept[path[k + 1]].blk, kept[path[k]])
  }

  /** Every kept node hangs on the root by a chain of accepted pointers, as many
      as its level is below the root's. */
  lemma {:induction false} Reachable(fs: Fs, kept: seq<Link>, i: nat) returns (path: seq<nat>)
    requires IsTree(fs, kept) && i < |kept|
    ensures IsPath(fs, kept, path) && path[0] == i
    ensures kept[0].blk in fs.disk && kept[i].blk in fs.disk
    ensures fs.disk[kept[0].blk].level == fs.disk[kept[i].blk].level + |path| - 1
    decreases i
  {
    assert Rightly(fs, kept, i) && Rightly(fs, kept, 0);
    if i == 0 {
      path := [0];
    } else {
      var j :| 0 <= j < i && PointsDown(fs, kept[j].blk, kept[i]);
      var rest := Reachable(fs, kept, j);
      path := [i] + rest;
      forall k | 0 <= k < |path| - 1 ensures PointsDown(fs, kept[path[k + 1]].blk, kept[path[k]]) {
        if k > 0 {
          assert path[k] == rest[k - 1] && path[k + 1] == rest[k];
        }
      }
    }
  }

  lemma {:induction false} CountTargets(kept: seq<Link>)
    requires Distinct(kept)
    ensures |Targets(kept)| == |kept|
  {
    if kept != [] {
      var (front, last) := (kept[..|kept| - 1], kept[|kept| - 1]);
      assert kept == front + [last];
      CountTargets(front);
      TargetsSnoc(front, last);
      OneMore(Targets(front), last.blk);
    }
  }

  lemma OneMore(s: set<Blk>, b: Blk)
    requires b !in s
    ensures |s + {b}| == |s| + 1
  {
  }

  /** The number of kept nodes is the growth of the used bitmap precisely when
      the root block is one of the bitmap's blocks: only the root's bound is
      tested with > instead of >=. */
  lemma NodesCounted(fs: Fs, kept: seq<Link>)
    requires IsTree(fs, kept) && FsFormed(fs)
    ensures |kept| == |fs.sys + Inner(fs, kept)| - |fs.sys| <==> (kept != [] ==> kept[0].blk < fs.total)
  {
    CountTargets(kept);
    var inner := Inner(fs, kept);
    assert fs.sys !! inner by {
      forall b | b in inner ensures b !in fs.sys {
        var i :| 0 <= i < |kept| && kept[i].blk == b;
        assert Rightly(fs, kept, i);
      }
    }
    assert |fs.sys + inner| == |fs.sys| + |inner|;
    forall i | 0 < i < |kept| ensures kept[i].blk < fs.total {
      assert Rightly(fs, kept, i);
    }
    if kept == [] || kept[0].blk < fs.total {
      assert inner == Targets(kept);
    } else {
      assert kept[0].blk in Targets(kept);
      assert inner == Targets(kept) - {kept[0].blk};
    }
  }

  /** What the traversal does to a node: it reads it, with the outcome of the
      level check and of the others, or finds that no item is left in it. */
  datatype Event = Read(blk: Blk, levelOk: bool, check: Check) | Emptied(blk: Blk)

  /** What the bitmaps of the BUILD mode say about a block: nothing; that it was
      met but holds nothing worth keeping in the tree; that it is in the tree. */
  datatype Status = Free | MetOnly | InTree

  /** What an event makes of the status of block b.  A node on the wrong level
      or outside its delimiting keys is free again, so that it can be found
      later; one that is broken or empty stays met. */
  ghost function After(fs: Fs, st: Status, e: Event, b: Blk): Status {
    if e.blk != b || b !in fs.disk then st
    else
      match e
      case Read(_, levelOk, check) =>
        if st == InTree then InTree
        else if !levelOk || check == WrongKeys then Free
        else if check == Sound then InTree
        else MetOnly
      case Emptied(_) => if st == InTree then MetOnly else st
  }

  ghost function StatusAfter(fs: Fs, events: seq<Event>, b: Blk): Status {
    if events == [] then Free
    else After(fs, StatusAfter(fs, events[..|events| - 1], b), events[|events| - 1], b)
  }

  /** The last event on a block decides: events on other blocks change
      nothing. */
  lemma {:induction false} LastEvent(fs: Fs, events: seq<Event>, k: nat, b: Blk)
    requires k < |events| && forall i :: k < i < |events| ==> events[i].blk != b
    ensures StatusAfter(fs, events, b) == After(fs, StatusAfter(fs, events[..k], b), events[k], b)
    decreases |events|
  {
    var last := |events| - 1;
    if k < last {
      LastEvent(fs, events[..last], k, b);
      assert events[..last][..k] == events[..k];
    }
  }

  class Pass {
    const fs: Fs
    const build: bool

    var used: set<Blk>
    var twig: set<Blk>
    var leaf: set<Blk>
    var met: set<Blk>
    var level: nat
    var flagged: bool
    var goodNodes: int
    var fatal: nat

    ghost var log: Log

    constructor (fs: Fs, build: bool)
      requires FsFormed(fs)
      ensures this.fs == fs && this.build == build
      ensures used == fs.sys && met == fs.sys && twig == {} && leaf == {} && level == 0 && !flagged
      ensures goodNodes == 0 && fatal == 0 && log == Log([], [])
    {
      this.fs, this.build := fs, build;
      used, met, twig, leaf, level := fs.sys, fs.sys, {}, {}, 0;
      flagged, goodNodes, fatal, log := false, 0, 0, Log([], []);
    }

    /** repair_filter_node_handle: the bitmaps and the node count for a node of
        the given level.  bm_leaf and bm_met exist in the BUILD mode only. */
    method NodeHandle(blk: Blk, level: nat, mark: Mark)
      modifies this`used, this`goodNodes, this`twig, this`leaf, this`met
      ensures used == if mark == MarkIt then Marked(old(used), fs.total, blk, 1)
                      else Cleared(old(used), fs.total, blk, 1)
      ensures goodNodes == old(goodNodes) + (if mark == MarkIt then 1 else -1)
      ensures twig == if level != TWIG_LEVEL then old(twig)
                      else if mark == MarkIt then Marked(old(twig), fs.total, blk, 1)
                      else Cleared(old(twig), fs.total, blk, 1)
      ensures leaf == if level != LEAF_LEVEL || !build then old(leaf)
                      else if mark == MarkIt then Marked(old(leaf), fs.total, blk, 1)
                      else Cleared(old(leaf), fs.total, blk, 1)
      ensures met == if !build || mark == BadIt then old(met)
                     else if mark == MarkIt then Marked(old(met), fs.total, blk, 1)
                     else Cleared(old(met), fs.total, blk, 1)
      ensures
        (old(twig <= used && leaf <= used) && (old(blk in twig) ==> level == TWIG_LEVEL) &&
         (old(blk in leaf) ==> level == LEAF_LEVEL && build)) ==> twig <= used && leaf <= used
      ensures old(used <= met) && build ==> used <= met
    {
      if mark == MarkIt {
        used, goodNodes := Marked(used, fs.total, blk, 1), goodNodes + 1;
      } else {
        used, goodNodes := Cleared(used, fs.total, blk, 1), goodNodes - 1;
      }
      if level == LEAF_LEVEL {
        if build { leaf := if mark == MarkIt then Marked(leaf, fs.total, blk, 1) else Cleared(leaf, fs.total, blk, 1); }
      } else if level == TWIG_LEVEL {
        twig := if mark == MarkIt then Marked(twig, fs.total, blk, 1) else Cleared(twig, fs.total, blk, 1);
      }
      if build {
        if mark == MarkIt { met := Marked(met, fs.total, blk, 1); }
        else if mark == ClearIt { met := Cleared(met, fs.total, blk, 1); }
      }
    }

    /** The bitmaps and counters agree with the log. */
    ghost predicate Agrees()
      reads this
    {
      && used == fs.sys + Inner(fs, log.kept)
      && twig == Twigs(fs, log.kept)
      && goodNodes == |log.kept|
      && fatal == |log.refused|
    }

    ghost predicate Valid()
      reads this
    {
      FsFormed(fs) && !build && LogFormed(fs, log) && Agrees()
    }

    /** The pointer passes repair_filter_node_open: inside the filesystem, not
        in the tree yet, and the block opens as a node. */
    predicate Opens(l: Link)
      reads this
    {
      (l.parent.Some? ==> l.blk < fs.total) && l.blk !in used && l.blk in fs.disk
    }

    /** The level repair_filter_node_check expects. */
    function Expected(l: Link): nat
      requires l.blk in fs.disk
      reads this
    {
      if level == 0 then fs.disk[l.blk].level else level - 1
    }

    ghost predicate Passes(l: Link)
      reads this
    {
      Opens(l) && Expected(l) == fs.disk[l.blk].level && Fit(fs, l)
    }

    /** repair_filter_node_open and repair_filter_node_check on one pointer: the
        node is loaded, accounted, checked and, where a check fails, accounted
        out again. */
    method Examine(l: Link) returns (ok: bool)
      requires FsFormed(fs) && !build && twig <= used && level < 256
      modifies this
      ensures ok == old(Passes(l))
      ensures ok ==> used == Marked(old(used), fs.total, l.blk, 1) && goodNodes == old(goodNodes) + 1
      ensures ok ==>
        twig == if fs.disk[l.blk].level == TWIG_LEVEL then Marked(old(twig), fs.total, l.blk, 1) else old(twig)
      ensures ok ==> level == fs.disk[l.blk].level && flagged == old(flagged) && fatal == old(fatal)
      ensures !ok ==> used == old(used) && twig == old(twig) && goodNodes == old(goodNodes)
      ensures !ok ==> flagged && fatal == old(fatal) + 1
      ensures !ok && old(level) != 0 ==> level == old(level)
      ensures log == if ok then old(log).(kept := old(log.kept) + [l]) else old(log).(refused := old(log.refused) + [l])
    {
      ok := false;
      if (l.parent.Some? && l.blk >= fs.total) || l.blk in used || l.blk !in fs.disk {
        Refuse(l);
        return;
      }
      var img := fs.disk[l.blk];
      ClearUndoesMark(used, fs.total, l.blk);
      ClearUndoesMark(twig, fs.total, l.blk);
      NodeHandle(l.blk, img.level, MarkIt);
      level := if level == 0 then img.level else level - 1;
      if level != img.level {
        NodeHandle(l.blk, img.level, ClearIt);
      } else if Verdict(fs, l) == Empty || Verdict(fs, l) == Broken {
        NodeHandle(l.blk, img.level, BadIt);
      } else if Verdict(fs, l) == WrongKeys {
        NodeHandle(l.blk, img.level, ClearIt);
      } else {
        ok := true;
        log := log.(kept := log.kept + [l]);
        return;
      }
      level := (level + 1) % 256;
      Refuse(l);
    }

    /** The common end of every refusal. */
    method Refuse(l: Link)
      modifies this`flagged, this`fatal, this`log
      ensures flagged && fatal == old(fatal) + 1 && log == old(log).(refused := old(log.refused) + [l])
    {
      flagged, fatal := true, fatal + 1;
      log := log.(refused := log.refused + [l]);
    }

    /** The pointer that is looked at next: the superblock's, or one of a kept
        node whose level the pass remembers. */
    ghost predicate Next(l: Link)
      reads this
    {
      if log.kept == [] then l.parent == None && level == 0 && log.refused == [] && RootBounds(fs, l.blk)
      else
        && l.parent.Some? && l.parent.value in Targets(log.kept) && IsPointer(fs, l.parent.value, l)
        && level == fs.disk[l.parent.value].level >= 2
    }

    /** A pointer that is looked at is kept as part of the tree, or refused for
        a reason. */
    method OpenAndCheck(l: Link) returns (ok: bool)
      requires Valid() && Next(l) && !Handled(log, l)
      modifies this
      ensures Valid()
      ensures ok ==> log == old(log).(kept := old(log.kept) + [l]) && flagged == old(flagged)
      ensures ok ==> l.blk in fs.disk && level == fs.disk[l.blk].level && Fit(fs, l)
      ensures ok ==> l.blk !in Targets(old(log.kept)) && l.parent != Some(l.blk)
      ensures ok == old(Passes(l))
      ensures ok && old(log.kept) != [] ==> level + 1 == old(level)
      ensures !ok ==> log == old(log).(refused := old(log.refused) + [l]) && flagged
      ensures !ok && old(log.kept) != [] ==> level == old(level)
    {
      ghost var was := log;
      InnerTargets(fs, log.kept);
      assert !Passes(l) ==> Refusable(fs, Targets(was.kept), l);
      assert Passes(l) ==> Keepable(fs, was, l);
      ok := Examine(l);
      if ok {
        KeepAgrees(fs, was.kept, l);
        KeepLog(fs, was, l);
      } else {
        RefuseLog(fs, was, l);
      }
    }

    /** reiser4_tree_trav_node with the callbacks of the filter, from the
        pointer l on.  It terminates whatever the pointers are, since a node
        that is entered lies one level below the one before it. */
    method TravNode(l: Link)
      requires Valid() && Next(l) && !Handled(log, l) && !flagged
      modifies this
      ensures Valid() && Through(fs, old(log), log, l)
      ensures !flagged <==> old(Passes(l))
      ensures flagged ==> log == old(log).(refused := old(log.refused) + [l])
      ensures !flagged ==> |log.kept| > |old(log.kept)| && log.kept[|old(log.kept)|] == l && l.blk in fs.disk
      ensures old(log.kept) != [] ==> level == old(level)
      ensures old(log.kept) == [] && !flagged ==> level == (fs.disk[l.blk].level + 1) % 256
      decreases if log.kept == [] then 256 else level, 0
    {
      ghost var was := log;
      var ok := OpenAndCheck(l);
      if ok {
        FollowPointers(l, was);
        level := (level + 1) % 256;
      } else {
        RefusedThrough(fs, was, l);
      }
    }

    /** The loop of reiser4_tree_trav_node over the pointers of a kept node. */
    method FollowPointers(l: Link, ghost was: Log)
      requires Valid() && !flagged && LogFormed(fs, was) && log == was.(kept := was.kept + [l])
      requires l.blk !in Targets(was.kept) && l.parent != Some(l.blk) && l.blk in fs.disk
      requires level == fs.disk[l.blk].level && Fit(fs, l)
      modifies this
      ensures Valid() && !flagged && level == old(level)
      ensures Through(fs, was, log, l) && |log.kept| > |was.kept| && log.kept[|was.kept|] == l
      decreases level, 1
    {
      var ptrs := fs.disk[l.blk].ptrs;
      WalkedStart(fs, was, l);
      var k := 0;
      while k < |ptrs| && ptrs[k] != INVAL_BLK
        invariant Valid() && !flagged && level == old(level)
        invariant k <= Stop(ptrs) && Walked(fs, was, log, l, k)
      {
        ghost var before := log;
        var child := Link(Some(l.blk), k, ptrs[k]);
        WalkedNext(fs, was, log, l, k);
        assert Next(child);
        TravNode(child);
        flagged := false;
        WalkedStep(fs, was, before, log, l, k);
        k := k + 1;
      }
      WalkedEnd(fs, was, log, l);
    }

    /** repair_filter_traverse: the root pointer is tested against the bounds
        of the filesystem, its last block's successor included. */
    method Traverse(root: Blk)
      requires Valid() && log == Log([], []) && level == 0 && !flagged
      modifies this
      ensures Valid() && HandledAll(fs, log, 0)
      ensures !flagged <==>
        RootBounds(fs, root) && root !in fs.sys && root in fs.disk && Fit(fs, Link(None, 0, root))
      ensures flagged ==> log == Log([], [Link(None, 0, root)])
      ensures !flagged ==> log.kept != [] && log.kept[0] == Link(None, 0, root)
      ensures !flagged ==> root in fs.disk && level == (fs.disk[root].level + 1) % 256
    {
      var l := Link(None, 0, root);
      if root < fs.start || root > fs.total || root in used {
        assert Refusable(fs, Targets(log.kept), l);
        RefuseLog(fs, log, l);
        Refuse(l);
      } else {
        TravNode(l);
      }
    }

    // ---- The BUILD mode ----

    /** What the bitmaps keep in the BUILD mode: the format area is used, used
        blocks are met, and twigs and leaves are used nodes of their level. */
    ghost predicate Layers()
      reads this
    {
      && fs.sys <= used && used <= met && (forall b :: b in met ==> b < fs.total)
      && (forall b :: b in twig ==> b in used && b in fs.disk && fs.disk[b].level == TWIG_LEVEL)
      && (forall b :: b in leaf ==> b in used && b in fs.disk && fs.disk[b].level == LEAF_LEVEL)
    }

    /** Where a block of the filesystem outside the format area stands. */
    ghost predicate Stands(b: Blk, st: Status)
      reads this
    {
      match st
      case Free => b !in used && b !in met && b !in twig && b !in leaf
      case MetOnly => b in met && b !in used && b !in twig && b !in leaf
      case InTree =>
        && b in used && b in met && b in fs.disk
        && (b in twig <==> fs.disk[b].level == TWIG_LEVEL) && (b in leaf <==> fs.disk[b].level == LEAF_LEVEL)
    }

    /** Where every block stands after the events; the format area is used and
        met, and nothing lies behind the end. */
    ghost predicate AllStand(events: seq<Event>)
      reads this
    {
      && (forall b: Blk {:trigger StatusAfter(fs, events, b)} :: b < fs.total && b !in fs.sys ==>
            Stands(b, StatusAfter(fs, events, b)))
      && (forall b :: b in fs.sys ==> b in used && b in met && b !in twig && b !in leaf)
      && (forall b :: b in used ==> b < fs.total) && (forall b :: b in met ==> b < fs.total)
      && (forall b :: b in twig ==> b < fs.total) && (forall b :: b in leaf ==> b < fs.total)
    }

    /** Only what is said of blk may have changed. */
    twostate predicate OnlyBlock(blk: Blk)
      reads this`used, this`met, this`twig, this`leaf
    {
      forall b :: b != blk ==>
        && (b in used <==> b in old(used)) && (b in met <==> b in old(met))
        && (b in twig <==> b in old(twig)) && (b in leaf <==> b in old(leaf))
    }

    /** A node is read: the checks of repair_filter_node_open, for the root
        those of repair_filter_traverse, and then those of
        repair_filter_node_check. */
    method HandleRead(blk: Blk, levelOk: bool, check: Check)
      requires build && FsFormed(fs) && (blk !in used ==> blk !in twig && blk !in leaf)
      modifies this`used, this`goodNodes, this`twig, this`leaf, this`met
      ensures OnlyBlock(blk)
      ensures old(blk in used) || blk !in fs.disk || blk >= fs.total ==>
        used == old(used) && met == old(met) && twig == old(twig) && leaf == old(leaf)
      ensures old(blk !in used) && blk in fs.disk && blk < fs.total ==>
        Stands(blk, if !levelOk || check == WrongKeys then Free else if check == Sound then InTree else MetOnly)
    {
      if blk > fs.total || blk in used || blk !in fs.disk { return; }
      var level := fs.disk[blk].level;
      RegionOne(blk);
      NodeHandle(blk, level, MarkIt);
      if !levelOk || check == WrongKeys { NodeHandle(blk, level, ClearIt); }
      else if check != Sound { NodeHandle(blk, level, BadIt); }
    }

    /** repair_filter_after_traverse on a node all of whose items were
        removed. */
    method HandleEmptied(blk: Blk)
      requires build && FsFormed(fs) && (blk in used && blk !in fs.sys && blk < fs.total ==> Stands(blk, InTree))
      modifies this`used, this`goodNodes, this`twig, this`leaf, this`met
      ensures OnlyBlock(blk)
      ensures old(blk !in used) || blk in fs.sys || blk !in fs.disk || blk >= fs.total ==>
        used == old(used) && met == old(met) && twig == old(twig) && leaf == old(leaf)
      ensures old(blk in used) && blk !in fs.sys && blk in fs.disk && blk < fs.total ==> Stands(blk, MetOnly)
    {
      if blk !in used || blk in fs.sys || blk !in fs.disk { return; }
      RegionOne(blk);
      NodeHandle(blk, fs.disk[blk].level, BadIt);
    }

    /** One callback of the traversal in the BUILD mode. */
    method Handle(e: Event, ghost before: seq<Event>)
      requires build && FsFormed(fs) && AllStand(before)
      modifies this`used, this`goodNodes, this`twig, this`leaf, this`met
      ensures AllStand(before + [e])
    {
      forall b: Blk ensures StatusAfter(fs, before + [e], b) == After(fs, StatusAfter(fs, before, b), e, b) {
        assert (before + [e])[..|before|] == before;
      }
      assert e.blk < fs.total && e.blk !in fs.sys ==> Stands(e.blk, StatusAfter(fs, before, e.blk));
      match e
      case Read(blk, levelOk, check) => HandleRead(blk, levelOk, check);
      case Emptied(blk) => HandleEmptied(blk);
    }

    /** Any traversal in the BUILD mode, whatever nodes it reads and rejects and
        whatever pointers it removes. */
    method BuildRun(events: seq<Event>)
      requires build && FsFormed(fs) && used == fs.sys && met == fs.sys && twig == {} && leaf == {}
      modifies this`used, this`goodNodes, this`twig, this`leaf, this`met
      ensures AllStand(events) && Layers()
    {
      for k := 0 to |events|
        invariant AllStand(events[..k])
      {
        Handle(events[k], events[..k]);
        assert events[..k] + [events[k]] == events[..k + 1];
      }
      assert events[..|events|] == events;
      StandInLayers(events);
    }

    lemma StandInLayers(events: seq<Event>)
      requires AllStand(events)
      ensures Layers()
    {
      forall b: Blk
        ensures b in used ==> b in met
        ensures b in twig ==> b in used && b in fs.disk && fs.disk[b].level == TWIG_LEVEL
        ensures b in leaf ==> b in used && b in fs.disk && fs.disk[b].level == LEAF_LEVEL
      {
        if b < fs.total && b !in fs.sys { assert Stands(b, StatusAfter(fs, events, b)); }
      }
    }
  }

  /** A run whose root is the first block behind the end: one good node, and no
      block is used for it. */
  method RootBehindEnd() returns (p: Pass)
    ensures p.fatal == 0 && p.goodNodes == 1 && p.used == p.fs.sys && p.log.kept == [Link(None, 0, p.fs.total)]
  {
    var fs := Fs(8, 1, {0}, map[8 := Image(LEAF_LEVEL, [])], _ => Sound);
    p := new Pass(fs, false);
    p.Traverse(8);
    OnlyRoot(fs, p.log, Link(None, 0, 8));
    assert Inner(fs, p.log.kept) == {};
  }

  /** A silent run over a twig whose first pointer is invalid: the sound leaf
      behind its second one is not found. */
  method SilentRun() returns (p: Pass)
    ensures p.fatal == 0 && p.log.kept == [Link(None, 0, 1)]
    ensures p.fs.disk == map[1 := Image(TWIG_LEVEL, [INVAL_BLK, 2]), 2 := Image(LEAF_LEVEL, [])]
    ensures Fit(p.fs, Link(Some(1), 1, 2)) && ReachableFrom(p.fs, 1, 2)
  {
    var fs := Fs(8, 1, {0}, map[1 := Image(TWIG_LEVEL, [INVAL_BLK, 2]), 2 := Image(LEAF_LEVEL, [])], _ => Sound);
    p := new Pass(fs, false);
    p.Traverse(1);
    OnlyRoot(fs, p.log, Link(None, 0, 1));
    assert fs.disk[1].ptrs[1] == 2;
    assert Leads(fs, [1, 2]);
  }
}

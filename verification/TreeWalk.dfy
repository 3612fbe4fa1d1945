/** Moving through the tree: neighbour nodes and the next data item.  A place
    is the sequence of item positions from the root; dropping the last one
    gives the parent place that every loaded node keeps. */
module TreeWalk {
  import opened Common
  import opened SearchTree

  /** Every node below the root holds items. */
  ghost predicate Filled(n: Node)
    decreases n
  {
    forall i {:trigger FilledAt(n, i)} :: 0 <= i < |n.items| ==> FilledAt(n, i)
  }

  ghost predicate FilledAt(n: Node, i: int)
    requires 0 <= i < |n.items|
    decreases n, 0
  {
    n.items[i].Ptr? ==> n.items[i].child.items != [] && Filled(n.items[i].child)
  }

  lemma {:induction false} FormedFilled(n: Node, lo: nat, hi: nat)
    requires WellFormed(n, lo, hi)
    ensures Filled(n)
    decreases n
  {
    forall i | 0 <= i < |n.items| ensures FilledAt(n, i) {
      assert ItemFormed(n, i, lo, hi);
      if n.items[i].Ptr? { FormedFilled(n.items[i].child, n.items[i].key, Limit(n.items, i, hi)); }
    }
  }

  function Init(p: seq<nat>): seq<nat>
    requires p != []
  {
    p[..|p| - 1]
  }

  function Last(p: seq<nat>): nat
    requires p != []
  {
    p[|p| - 1]
  }

  /** A node path: every step goes through a pointer. */
  ghost predicate IsNode(root: Node, p: seq<nat>) { NodeAt(root, p).Some? }

  ghost function Len(root: Node, p: seq<nat>): nat
    requires IsNode(root, p)
  {
    |NodeAt(root, p).value.items|
  }

  lemma {:induction false} NodeInit(root: Node, p: seq<nat>)
    requires p != [] && IsNode(root, p)
    ensures IsNode(root, Init(p)) && Last(p) < Len(root, Init(p))
    ensures var it := NodeAt(root, Init(p)).value.items[Last(p)]; it == Ptr(it.key, NodeAt(root, p).value)
    decreases |p|
  {
    if |p| == 1 { assert p[1..] == [] && Init(p) == []; }
    else {
      NodeInit(root.items[p[0]].child, p[1..]);
      assert Init(p)[1..] == Init(p[1..]) && Last(p[1..]) == Last(p);
    }
  }

  lemma NodeSnoc(root: Node, p: seq<nat>, i: nat)
    requires IsNode(root, p)
    ensures IsNode(root, p + [i]) <==> i < Len(root, p) && NodeAt(root, p).value.items[i].Ptr?
    ensures Init(p + [i]) == p && Last(p + [i]) == i
  {
    NodeAtSnoc(root, p, i);
  }

  lemma {:induction false} NodeFilled(root: Node, p: seq<nat>)
    requires p != [] && IsNode(root, p) && Filled(root)
    ensures Len(root, p) > 0
    decreases |p|
  {
    assert FilledAt(root, p[0]);
    if |p| > 1 {
      NodeFilled(root.items[p[0]].child, p[1..]);
    } else {
      assert p[1..] == [] && NodeAt(root, p) == NodeAt(root.items[p[0]].child, []);
    }
  }

  // --------------------------------------------------------------- specs

  /** reiser4_tree_neig_place to the right: the place behind the closest
      ancestor that is not the last item of its node. */
  ghost function RightUp(root: Node, p: seq<nat>): Option<seq<nat>>
    requires IsNode(root, p)
    decreases |p|
  {
    if p == [] then None
    else
      NodeInit(root, p);
      if Last(p) + 1 < Len(root, Init(p)) then Some(Init(p) + [Last(p) + 1]) else RightUp(root, Init(p))
  }

  ghost function LeftUp(root: Node, p: seq<nat>): Option<seq<nat>>
    requires IsNode(root, p)
    decreases |p|
  {
    if p == [] then None
    else
      NodeInit(root, p);
      if Last(p) > 0 then Some(Init(p) + [Last(p) - 1]) else LeftUp(root, Init(p))
  }

  /** Going down from place u to nodes of path length n, first items only. */
  ghost function FirstDown(root: Node, u: seq<nat>, n: nat): Option<seq<nat>>
    requires |u| <= n
    decreases n
  {
    if n == |u| then if IsNode(root, u) then Some(u) else None
    else
      match FirstDown(root, u, n - 1)
      case None => None
      case Some(b) => if IsNode(root, b + [0]) then Some(b + [0]) else None
  }

  ghost function LastDown(root: Node, u: seq<nat>, n: nat): Option<seq<nat>>
    requires |u| <= n
    decreases n
  {
    if n == |u| then if IsNode(root, u) then Some(u) else None
    else
      match LastDown(root, u, n - 1)
      case None => None
      case Some(b) =>
        if IsNode(root, b) && Len(root, b) > 0 && IsNode(root, b + [Len(root, b) - 1])
        then Some(b + [Len(root, b) - 1]) else None
  }

  lemma {:induction false} UpShorter(root: Node, p: seq<nat>)
    requires IsNode(root, p)
    ensures RightUp(root, p).Some? ==> 0 < |RightUp(root, p).value| <= |p|
    ensures LeftUp(root, p).Some? ==> 0 < |LeftUp(root, p).value| <= |p|
    decreases |p|
  {
    if p != [] { NodeInit(root, p); UpShorter(root, Init(p)); }
  }

  /** reiser4_tree_ltrt_node: the neighbour on the level of p, if pointers lead
      to it all the way. */
  ghost function Right(root: Node, p: seq<nat>): Option<seq<nat>>
    requires IsNode(root, p)
  {
    UpShorter(root, p);
    match RightUp(root, p) case None => None case Some(u) => FirstDown(root, u, |p|)
  }

  ghost function Left(root: Node, p: seq<nat>): Option<seq<nat>>
    requires IsNode(root, p)
  {
    UpShorter(root, p);
    match LeftUp(root, p) case None => None case Some(u) => LastDown(root, u, |p|)
  }

  // ------------------------------------------------------------- inverses

  /** r follows p on the same level. */
  ghost predicate Adjacent(root: Node, p: seq<nat>, r: seq<nat>)
    decreases |p|
  {
    && |p| == |r| > 0 && IsNode(root, p) && IsNode(root, r)
    && IsNode(root, Init(p)) && IsNode(root, Init(r))
    && if Init(p) == Init(r) then Last(r) == Last(p) + 1
       else Last(p) + 1 == Len(root, Init(p)) && Last(r) == 0 && Adjacent(root, Init(p), Init(r))
  }

  lemma {:induction false} FirstDownNode(root: Node, u: seq<nat>, n: nat)
    requires |u| <= n && FirstDown(root, u, n).Some?
    ensures IsNode(root, FirstDown(root, u, n).value) && |FirstDown(root, u, n).value| == n
    decreases n
  {
    if n > |u| { FirstDownNode(root, u, n - 1); }
  }

  lemma {:induction false} LastDownNode(root: Node, u: seq<nat>, n: nat)
    requires |u| <= n && LastDown(root, u, n).Some?
    ensures IsNode(root, LastDown(root, u, n).value) && |LastDown(root, u, n).value| == n
    decreases n
  {
    if n > |u| { LastDownNode(root, u, n - 1); }
  }

  lemma {:induction false} NotSelfAdjacent(root: Node, p: seq<nat>)
    ensures !Adjacent(root, p, p)
  {
  }

  lemma {:induction false} RightIsAdjacent(root: Node, p: seq<nat>, r: seq<nat>)
    requires IsNode(root, p)
    ensures Right(root, p) == Some(r) <==> Adjacent(root, p, r)
    decreases |p|
  {
    if p != [] {
      NodeInit(root, p);
      UpShorter(root, p);
      var a := Init(p);
      if Last(p) + 1 < Len(root, a) {
        var u := a + [Last(p) + 1];
        assert Init(u) == a && Last(u) == Last(p) + 1;
        if Adjacent(root, p, r) { assert r == Init(r) + [Last(r)]; }
      } else {
        UpShorter(root, a);
        forall b ensures Right(root, a) == Some(b) <==> Adjacent(root, a, b) { RightIsAdjacent(root, a, b); }
        NotSelfAdjacent(root, a);
        if Right(root, p) == Some(r) {
          var b := Right(root, a).value;
          FirstDownNode(root, RightUp(root, a).value, |a|);
          assert Adjacent(root, a, b);
          assert Init(r) == b && Last(r) == 0;
        }
        if Adjacent(root, p, r) {
          NodeInit(root, r);
          assert r == Init(r) + [0];
        }
      }
    }
  }

  lemma {:induction false} LeftIsAdjacent(root: Node, p: seq<nat>, r: seq<nat>)
    requires IsNode(root, r) && Filled(root)
    ensures Left(root, r) == Some(p) <==> Adjacent(root, p, r)
    decreases |r|
  {
    if r != [] {
      NodeInit(root, r);
      UpShorter(root, r);
      var a := Init(r);
      if Last(r) > 0 {
        var u := a + [Last(r) - 1];
        assert Init(u) == a && Last(u) == Last(r) - 1;
        if Adjacent(root, p, r) { assert p == Init(p) + [Last(p)]; }
      } else {
        forall b ensures Left(root, a) == Some(b) <==> Adjacent(root, b, a) { LeftIsAdjacent(root, b, a); }
        LeftOfFirst(root, p, r);
      }
    }
  }

  /** The node left of a first child. */
  lemma LeftOfFirst(root: Node, p: seq<nat>, r: seq<nat>)
    requires Filled(root) && r != [] && Last(r) == 0 && IsNode(root, r) && IsNode(root, Init(r))
    requires forall b :: Left(root, Init(r)) == Some(b) <==> Adjacent(root, b, Init(r))
    ensures Left(root, r) == Some(p) <==> Adjacent(root, p, r)
  {
    UpShorter(root, r);
    UpShorter(root, Init(r));
    if Left(root, r) == Some(p) { FoundIsLeft(root, p, r); }
    if Adjacent(root, p, r) { LeftIsFound(root, p, r); }
  }

  lemma FoundIsLeft(root: Node, p: seq<nat>, r: seq<nat>)
    requires Filled(root) && r != [] && Last(r) == 0 && IsNode(root, r) && IsNode(root, Init(r))
    requires forall b :: Left(root, Init(r)) == Some(b) <==> Adjacent(root, b, Init(r))
    requires Left(root, r) == Some(p)
    ensures Adjacent(root, p, r)
  {
    var a := Init(r);
    UpShorter(root, r);
    UpShorter(root, a);
    NotSelfAdjacent(root, a);
    var b := Left(root, a).value;
    LastDownNode(root, LeftUp(root, a).value, |a|);
    assert Adjacent(root, b, a);
    assert Init(p) == b && Last(p) == Len(root, b) - 1;
  }

  lemma LeftIsFound(root: Node, p: seq<nat>, r: seq<nat>)
    requires Filled(root) && r != [] && Last(r) == 0 && IsNode(root, r) && IsNode(root, Init(r))
    requires forall b :: Left(root, Init(r)) == Some(b) <==> Adjacent(root, b, Init(r))
    requires Adjacent(root, p, r)
    ensures Left(root, r) == Some(p)
  {
    UpShorter(root, r);
    UpShorter(root, Init(r));
    NodeInit(root, p);
    assert p == Init(p) + [Last(p)];
  }

  /** Right and left neighbour search are inverse to each other. */
  lemma NeighboursInverse(root: Node, p: seq<nat>, r: seq<nat>)
    requires IsNode(root, p) && IsNode(root, r) && Filled(root)
    ensures Right(root, p) == Some(r) <==> Left(root, r) == Some(p)
  {
    RightIsAdjacent(root, p, r);
    LeftIsAdjacent(root, p, r);
  }

  // ------------------------------------------------------------------ rank

  /** The place behind the last item of a child is the place behind the
      child. */
  lemma RankUp(root: Node, p: seq<nat>, i: nat)
    requires IsNode(root, p) && IsNode(root, p + [i])
    ensures Rank(root, p + [i] + [Len(root, p + [i])]) == Rank(root, p + [i + 1])
  {
    NodeSnoc(root, p, i);
    NodeAtSnoc(root, p, i);
    var n := NodeAt(root, p).value;
    var c := n.items[i].child;
    RankSnoc(root, p + [i], |c.items|);
    assert c.items[..|c.items|] == c.items;
    RankDown(root, p, i);
    RankSnoc(root, p, i);
    RankSnoc(root, p, i + 1);
    assert n.items[..i + 1] == n.items[..i] + [n.items[i]];
    FlatSnoc(n.items[..i], n.items[i]);
  }

  /** The place behind node p. */
  ghost function EndRank(root: Node, p: seq<nat>): nat
    requires IsNode(root, p)
  {
    Rank(root, p + [Len(root, p)])
  }

  lemma EndOfRoot(root: Node)
    ensures EndRank(root, []) == |FlatNode(root)|
  {
    assert [] + [|root.items|] == [|root.items|];
    assert root.items[..|root.items|] == root.items;
  }

  /** The neighbour place found on the way up lies right behind p; without one
      p ends the tree. */
  lemma {:induction false} RightUpRank(root: Node, p: seq<nat>)
    requires IsNode(root, p)
    ensures RightUp(root, p).Some? ==> Rank(root, RightUp(root, p).value) == EndRank(root, p)
    ensures RightUp(root, p).None? ==> EndRank(root, p) == |FlatNode(root)|
    decreases |p|
  {
    if p == [] { EndOfRoot(root); }
    else {
      NodeInit(root, p);
      assert p == Init(p) + [Last(p)];
      RankUp(root, Init(p), Last(p));
      RightUpRank(root, Init(p));
    }
  }

  /** Going down along first items passes no data. */
  lemma {:induction false} FirstDownRank(root: Node, u: seq<nat>, n: nat)
    requires 0 < |u| <= n && FirstDown(root, u, n).Some?
    ensures Rank(root, FirstDown(root, u, n).value + [0]) == Rank(root, u)
    decreases n
  {
    FirstDownNode(root, u, n);
    var r := FirstDown(root, u, n).value;
    NodeInit(root, r);
    assert r == Init(r) + [Last(r)];
    RankDown(root, Init(r), Last(r));
    if n > |u| {
      FirstDownRank(root, u, n - 1);
      assert Init(r) + [0] == r;
    }
  }

  // --------------------------------------------------------------- methods

  /** reiser4_tree_neig_place from the node at p; level counts the steps up. */
  method NeigPlace(root: Node, p: seq<nat>, right: bool) returns (level: nat, place: seq<nat>)
    requires IsNode(root, p)
    ensures level > 0 <==> (if right then RightUp(root, p) else LeftUp(root, p)).Some?
    ensures level > 0 ==> Some(place) == (if right then RightUp(root, p) else LeftUp(root, p))
    ensures level > 0 ==> |place| + level == |p| + 1
  {
    var node: seq<nat> := p;
    var found := false;
    place, level := [], 0;
    while node != [] && !found
      invariant IsNode(root, node) && |node| + level == |p|
      invariant !found && right ==> RightUp(root, p) == RightUp(root, node)
      invariant !found && !right ==> LeftUp(root, p) == LeftUp(root, node)
      invariant found ==> level > 0 && place != [] && Init(place) == node && Last(place) < Len(root, node)
      invariant found && right ==>
        Last(place) + 1 < Len(root, node) && RightUp(root, p) == Some(node + [Last(place) + 1])
      invariant found && !right ==> Last(place) > 0 && LeftUp(root, p) == Some(node + [Last(place) - 1])
      decreases |node|, !found
    {
      NodeInit(root, node);
      place := node;
      node := Init(node);
      var items := ItemCount(root, node);
      found := if right then Last(place) + 1 < items else Last(place) > 0;
      level := level + 1;
    }
    if !found { return 0, []; }
    place := node + [if right then Last(place) + 1 else Last(place) - 1];
  }

  method ItemCount(root: Node, p: seq<nat>) returns (n: nat)
    requires IsNode(root, p)
    ensures n == Len(root, p)
  {
    var node := Fetch(root, p);
    n := |node.items|;
  }

  /** The node a place refers to. */
  method Fetch(root: Node, p: seq<nat>) returns (n: Node)
    requires IsNode(root, p)
    ensures NodeAt(root, p) == Some(n)
  {
    n := root;
    var i := 0;
    while i < |p|
      invariant i <= |p| && NodeAt(root, p) == NodeAt(n, p[i..])
    {
      assert p[i..][1..] == p[i + 1..];
      n := n.items[p[i]].child;
      i := i + 1;
    }
  }

  /** reiser4_tree_child_node: the node behind the item at place u, if that is
      a pointer. */
  method ChildNode(root: Node, u: seq<nat>) returns (ok: bool)
    requires u != [] && IsNode(root, Init(u)) && Last(u) < Len(root, Init(u))
    ensures ok <==> IsNode(root, u)
  {
    var n := Fetch(root, Init(u));
    NodeSnoc(root, Init(u), Last(u));
    assert u == Init(u) + [Last(u)];
    ok := n.items[Last(u)].Ptr?;
  }

  /** reiser4_tree_ltrt_node: up to the neighbour place, then down again by the
      first (or last) items. */
  method LtrtNode(root: Node, p: seq<nat>, right: bool) returns (r: Option<seq<nat>>)
    requires IsNode(root, p) && Filled(root)
    ensures r == if right then Right(root, p) else Left(root, p)
  {
    var level, u := NeigPlace(root, p, right);
    if level == 0 { return None; }
    UpInside(root, p);
    var node := u;
    var ok := ChildNode(root, node);
    if !ok {
      DownBlocked(root, u, |u|, |p|);
      return None;
    }
    var depth := level - 1;
    while depth > 0
      invariant |node| + depth == |p| && IsNode(root, node) && node != [] && |u| <= |node|
      invariant Some(node) == if right then FirstDown(root, u, |node|) else LastDown(root, u, |node|)
    {
      NodeFilled(root, node);
      var items := ItemCount(root, node);
      var next := node + [if right then 0 else items - 1];
      NodeSnoc(root, node, Last(next));
      assert Init(next) == node;
      ok := ChildNode(root, next);
      if !ok {
        DownBlocked(root, u, |node| + 1, |p|);
        return None;
      }
      node := next;
      depth := depth - 1;
    }
    r := Some(node);
  }

  lemma {:induction false} UpInside(root: Node, p: seq<nat>)
    requires IsNode(root, p)
    ensures RightUp(root, p).Some? ==>
      var u := RightUp(root, p).value; u != [] && IsNode(root, Init(u)) && Last(u) < Len(root, Init(u))
    ensures LeftUp(root, p).Some? ==>
      var u := LeftUp(root, p).value; u != [] && IsNode(root, Init(u)) && Last(u) < Len(root, Init(u))
    decreases |p|
  {
    if p != [] {
      NodeInit(root, p);
      UpInside(root, Init(p));
      assert Init(Init(p) + [Last(p) + 1]) == Init(p);
      if Last(p) > 0 { assert Init(Init(p) + [Last(p) - 1]) == Init(p); }
    }
  }

  /** A descent that is stuck at length k stays stuck. */
  lemma {:induction false} DownBlocked(root: Node, u: seq<nat>, k: nat, n: nat)
    requires |u| <= k <= n
    ensures FirstDown(root, u, k).None? ==> FirstDown(root, u, n).None?
    ensures LastDown(root, u, k).None? ==> LastDown(root, u, n).None?
    decreases n
  {
    if k < n { DownBlocked(root, u, k, n - 1); }
  }

  /** The item at a place. */
  ghost predicate DataAt(root: Node, p: seq<nat>) {
    && p != [] && IsNode(root, Init(p)) && Last(p) < Len(root, Init(p))
    && NodeAt(root, Init(p)).value.items[Last(p)].Data?
  }

  ghost function ItemAt(root: Node, p: seq<nat>): Item
    requires DataAt(root, p)
  {
    NodeAt(root, Init(p)).value.items[Last(p)]
  }

  /** A data item stands in the flat sequence at its rank. */
  lemma {:induction false} RankOfData(root: Node, p: seq<nat>)
    requires DataAt(root, p)
    ensures Rank(root, p) < |FlatNode(root)| && FlatNode(root)[Rank(root, p)] == ItemAt(root, p)
    decreases |p|
  {
    FlatAround(root.items, p[0]);
    if |p| == 1 { assert Init(p) == []; }
    else {
      assert Init(p)[1..] == Init(p[1..]) && Last(p[1..]) == Last(p);
      RankOfData(root.items[p[0]].child, p[1..]);
    }
  }

  /** reiser4_tree_next_place: from a data item to the next one in key order,
      through leaves, twigs and extents; None behind the last one. */
  method NextPlace(root: Node, p: seq<nat>) returns (r: Option<seq<nat>>)
    requires DataAt(root, p) && Filled(root)
    ensures r.None? <==> Rank(root, p) + 1 == |FlatNode(root)|
    ensures r.Some? ==> DataAt(root, r.value) && Rank(root, r.value) == Rank(root, p) + 1
  {
    StepRight(root, p);
    r := FromPlace(root, Init(p), Last(p) + 1);
  }

  /** The data item at or behind position pos of the node at path p. */
  ghost function RankFrom(root: Node, p: seq<nat>, pos: nat): nat
    requires IsNode(root, p)
  {
    Rank(root, p + [if pos <= Len(root, p) then pos else Len(root, p)])
  }

  /** reiser4_tree_adjust_place and the descent that follows it. */
  method FromPlace(root: Node, node: seq<nat>, pos: nat) returns (r: Option<seq<nat>>)
    requires IsNode(root, node) && Filled(root)
    ensures r.None? <==> RankFrom(root, node, pos) == |FlatNode(root)|
    ensures r.Some? ==> DataAt(root, r.value) && Rank(root, r.value) == RankFrom(root, node, pos)
  {
    var next: seq<nat> := node + [pos];
    assert Init(next) == node;
    var items := ItemCount(root, node);
    if pos >= items {
      RightUpRank(root, node);
      UpShorter(root, node);
      UpInside(root, node);
      var right := LtrtNode(root, node, true);
      if right.Some? {
        next := right.value + [0];
        FirstDownRank(root, RightUp(root, node).value, |node|);
        FirstDownNode(root, RightUp(root, node).value, |node|);
        NodeFilled(root, right.value);
        assert Init(next) == right.value;
      } else {
        var level, above := NeigPlace(root, node, true);
        if level == 0 { return None; }
        next := above;
      }
    }
    r := DownToData(root, next);
    RankOfData(root, r.value);
  }

  /** Behind a data item the rank is one more. */
  lemma StepRight(root: Node, p: seq<nat>)
    requires DataAt(root, p)
    ensures Rank(root, Init(p) + [Last(p) + 1]) == Rank(root, p) + 1
  {
    var n, i := NodeAt(root, Init(p)).value, Last(p);
    assert p == Init(p) + [i];
    RankSnoc(root, Init(p), i);
    RankSnoc(root, Init(p), i + 1);
    assert n.items[..i + 1] == n.items[..i] + [n.items[i]];
    FlatSnoc(n.items[..i], n.items[i]);
  }

  /** The end of next_place: while the item is a pointer, go to the first item
      of the child. */
  method DownToData(root: Node, u: seq<nat>) returns (r: Option<seq<nat>>)
    requires u != [] && IsNode(root, Init(u)) && Last(u) < Len(root, Init(u)) && Filled(root)
    ensures r.Some? && DataAt(root, r.value) && Rank(root, r.value) == Rank(root, u)
  {
    var next := u;
    var n := Fetch(root, Init(next));
    while n.items[Last(next)].Ptr?
      invariant next != [] && NodeAt(root, Init(next)) == Some(n) && Last(next) < |n.items|
      invariant Rank(root, next) == Rank(root, u)
      decreases n
    {
      assert next == Init(next) + [Last(next)];
      NodeAtSnoc(root, Init(next), Last(next));
      RankDown(root, Init(next), Last(next));
      NodeFilled(root, next);
      n := n.items[Last(next)].child;
      assert Init(next + [0]) == next;
      next := next + [0];
    }
    r := Some(next);
  }

  /** Iterating next_place from the first item of a tree with data visits every
      data item exactly once, in key order. */
  method VisitAll(root: Node) returns (visited: seq<Item>)
    requires root.items != [] && Filled(root)
    ensures visited == FlatNode(root)
  {
    assert Init([0]) == [];
    var place := DownToData(root, [0]);
    assert root.items[..0] == [];
    visited := [];
    while place.Some?
      invariant place.Some? ==> DataAt(root, place.value) && |visited| == Rank(root, place.value)
      invariant place.None? ==> |visited| == |FlatNode(root)|
      invariant visited <= FlatNode(root)
      decreases place.Some?, |FlatNode(root)| - |visited|
    {
      var n := Fetch(root, Init(place.value));
      RankOfData(root, place.value);
      visited := visited + [n.items[Last(place.value)]];
      place := NextPlace(root, place.value);
    }
  }

  /** Two data places with the same rank are the same place. */
  lemma {:induction false} RankInjective(root: Node, p: seq<nat>, q: seq<nat>)
    requires DataAt(root, p) && DataAt(root, q) && Rank(root, p) == Rank(root, q)
    ensures p == q
    decreases |p|
  {
    FlatAround(root.items, p[0]);
    FlatAround(root.items, q[0]);
    InsideItem(root, p);
    InsideItem(root, q);
    if p[0] < q[0] { PrefixLonger(root.items, p[0], q[0]); }
    if q[0] < p[0] { PrefixLonger(root.items, q[0], p[0]); }
    if |p| == 1 || |q| == 1 {
      assert Init([p[0]]) == [];
      if |p| > 1 { NodePrefix(root, p); }
      if |q| > 1 { NodePrefix(root, q); }
      if |p| == 1 { assert Init(p) == [] && p == [p[0]]; }
      if |q| == 1 { assert Init(q) == [] && q == [q[0]]; }
    } else {
      var c := root.items[p[0]].child;
      assert Init(p)[1..] == Init(p[1..]) && Last(p[1..]) == Last(p);
      assert Init(q)[1..] == Init(q[1..]) && Last(q[1..]) == Last(q);
      RankInjective(c, p[1..], q[1..]);
      assert p == [p[0]] + p[1..] && q == [q[0]] + q[1..];
    }
  }

  lemma NodePrefix(root: Node, p: seq<nat>)
    requires |p| > 1 && IsNode(root, Init(p))
    ensures p[0] < |root.items| && root.items[p[0]].Ptr?
  {
  }

  /** The rank of a place inside item p[0] lies in that item's stretch. */
  lemma InsideItem(root: Node, p: seq<nat>)
    requires DataAt(root, p)
    ensures |Flat(root.items[..p[0]])| <= Rank(root, p) < |Flat(root.items[..p[0]])| + |FlatItem(root.items[p[0]])|
  {
    if |p| == 1 { assert Init(p) == []; }
    else {
      assert Init(p)[1..] == Init(p[1..]) && Last(p[1..]) == Last(p);
      RankOfData(root.items[p[0]].child, p[1..]);
    }
  }

  lemma PrefixLonger(items: seq<Item>, i: nat, j: nat)
    requires i < j <= |items|
    ensures |Flat(items[..j])| >= |Flat(items[..i])| + |FlatItem(items[i])|
  {
    assert items[..j] == items[..i] + items[i..j];
    FlatConcat(items[..i], items[i..j]);
  }
}

/** Left delimiting keys: after the first key of a node has changed,
    reiser4_tree_update_keys brings the pointers above it up to date. */
module TreeKeys {
  import opened SearchTree
  import opened TreeWalk

  /** u is the place of an existing item. */
  ghost predicate IsPlace(n: Node, u: seq<nat>)
    decreases |u|
  {
    && u != [] && u[0] < |n.items|
    && (|u| > 1 ==> n.items[u[0]].Ptr? && IsPlace(n.items[u[0]].child, u[1..]))
  }

  ghost function KeyAt(n: Node, u: seq<nat>): nat
    requires IsPlace(n, u)
    decreases |u|
  {
    if |u| == 1 then n.items[u[0]].key else KeyAt(n.items[u[0]].child, u[1..])
  }

  /** reiser4_node_update_key at place u. */
  function SetKey(n: Node, u: seq<nat>, key: nat): Node
    requires IsPlace(n, u)
    decreases |u|
  {
    var it := n.items[u[0]];
    if |u| == 1 then n.(items := n.items[u[0] := it.(key := key)])
    else n.(items := n.items[u[0] := it.(child := SetKey(it.child, u[1..], key))])
  }

  // ------------------------------------------------------ delimiting keys

  /** A pointer carries the first key of its child. */
  ghost predicate Delimits(it: Item) {
    it.Ptr? ==> it.child.items != [] ==> it.key == it.child.items[0].key
  }

  ghost predicate Delimited(n: Node)
    decreases n
  {
    forall i {:trigger DelimitedAt(n, i)} :: 0 <= i < |n.items| ==> DelimitedAt(n, i)
  }

  ghost predicate DelimitedAt(n: Node, i: int)
    requires 0 <= i < |n.items|
    decreases n, 0
  {
    Delimits(n.items[i]) && (n.items[i].Ptr? ==> Delimited(n.items[i].child))
  }

  /** All pointers but possibly the one at place u carry the right key. */
  ghost predicate DelimitedBut(n: Node, u: seq<nat>)
    requires IsPlace(n, u)
    decreases |u|
  {
    && (forall i {:trigger DelimitedAt(n, i)} :: 0 <= i < |n.items| && i != u[0] ==> DelimitedAt(n, i))
    && var it := n.items[u[0]];
    if |u| == 1 then it.Ptr? ==> Delimited(it.child)
    else Delimits(it) && DelimitedBut(it.child, u[1..])
  }

  /** The first key below the pointer at place u. */
  ghost predicate FirstKeyBelow(n: Node, u: seq<nat>, key: nat)
    requires IsPlace(n, u)
    decreases |u|
  {
    if |u| == 1 then n.items[u[0]].Ptr? ==> n.items[u[0]].child.items != [] ==> n.items[u[0]].child.items[0].key == key
    else FirstKeyBelow(n.items[u[0]].child, u[1..], key)
  }

  // ------------------------------------------------------------ set_key

  lemma {:induction false} SetKeyPlace(n: Node, u: seq<nat>, key: nat, v: seq<nat>)
    requires IsPlace(n, u)
    ensures IsPlace(SetKey(n, u, key), v) <==> IsPlace(n, v)
    ensures |SetKey(n, u, key).items| == |n.items|
    ensures IsPlace(n, v) && v != u ==> KeyAt(SetKey(n, u, key), v) == KeyAt(n, v)
    ensures IsPlace(SetKey(n, u, key), u) && KeyAt(SetKey(n, u, key), u) == key
    decreases |u|
  {
    if |u| > 1 {
      var it := n.items[u[0]];
      SetKeyPlace(it.child, u[1..], key, u[1..]);
      if |v| > 1 && v[0] == u[0] {
        SetKeyPlace(it.child, u[1..], key, v[1..]);
        assert v != u ==> v[1..] != u[1..] by { assert v == [v[0]] + v[1..] && u == [u[0]] + u[1..]; }
      }
    } else if IsPlace(n, v) && v != u {
      assert u == [u[0]];
      if |v| == 1 { assert v == [v[0]]; }
    }
  }

  /** Setting keys at two different places commutes. */
  lemma {:induction false} SetKeyCommutes(n: Node, u: seq<nat>, v: seq<nat>, key: nat)
    requires IsPlace(n, u) && IsPlace(n, v) && |v| < |u|
    ensures IsPlace(SetKey(n, v, key), u) && IsPlace(SetKey(n, u, key), v)
    ensures SetKey(SetKey(n, v, key), u, key) == SetKey(SetKey(n, u, key), v, key)
    decreases |u|
  {
    SetKeyPlace(n, v, key, u);
    SetKeyPlace(n, u, key, v);
    if v[0] == u[0] && |v| > 1 {
      SetKeyCommutes(n.items[u[0]].child, u[1..], v[1..], key);
    }
    assert SetKey(SetKey(n, v, key), u, key).items == SetKey(SetKey(n, u, key), v, key).items;
  }

  /** Changing a key does not touch the data. */
  lemma {:induction false} SetKeyFlat(n: Node, u: seq<nat>, key: nat)
    requires IsPlace(n, u) && IsNode(n, u)
    ensures FlatNode(SetKey(n, u, key)) == FlatNode(n)
    ensures IsNode(SetKey(n, u, key), u)
    decreases |u|
  {
    var t := SetKey(n, u, key);
    if |u| > 1 { SetKeyFlat(n.items[u[0]].child, u[1..], key); }
    FlatAround(n.items, u[0]);
    FlatAround(t.items, u[0]);
    assert t.items[..u[0]] == n.items[..u[0]] && t.items[u[0] + 1..] == n.items[u[0] + 1..];
  }

  /** With the right key at u only the pointer above can be wrong, and only if
      u is the first item of its node. */
  lemma {:induction false} SetKeyDelimits(n: Node, u: seq<nat>, key: nat)
    requires IsPlace(n, u) && DelimitedBut(n, u) && FirstKeyBelow(n, u, key)
    ensures IsPlace(SetKey(n, u, key), u)
    ensures |u| == 1 ==> Delimited(SetKey(n, u, key))
    ensures |u| > 1 && Last(u) > 0 ==> Delimited(SetKey(n, u, key)) && SetKey(n, u, key).items[0].key == n.items[0].key
    ensures |u| > 1 && Last(u) == 0 ==>
      && IsPlace(SetKey(n, u, key), Init(u)) && DelimitedBut(SetKey(n, u, key), Init(u))
      && FirstKeyBelow(SetKey(n, u, key), Init(u), key)
    decreases |u|
  {
    var t := SetKey(n, u, key);
    SetKeyPlace(n, u, key, u);
    forall i | 0 <= i < |n.items| && i != u[0] ensures DelimitedAt(t, i) { assert DelimitedAt(n, i); }
    if |u| == 1 {
      assert DelimitedAt(t, u[0]);
    } else {
      var c := n.items[u[0]].child;
      SetKeyDelimits(c, u[1..], key);
      assert Last(u[1..]) == Last(u);
      if |u| == 2 {
        assert Init(u) == [u[0]];
        assert Last(u) == u[1];
        if Last(u) > 0 { assert DelimitedAt(t, u[0]); }
      } else {
        assert Init(u)[1..] == Init(u[1..]);
        if Last(u) > 0 { assert DelimitedAt(t, u[0]); }
      }
    }
  }

  // ----------------------------------------------------------- update_keys

  lemma SetKeyPlaces(n: Node, u: seq<nat>, key: nat)
    requires IsPlace(n, u)
    ensures forall w :: IsPlace(SetKey(n, u, key), w) <==> IsPlace(n, w)
  {
    forall w ensures IsPlace(SetKey(n, u, key), w) <==> IsPlace(n, w) { SetKeyPlace(n, u, key, w); }
  }

  /** What reiser4_tree_update_keys makes of the tree. */
  ghost function Updated(n: Node, u: seq<nat>, key: nat): (t: Node)
    requires IsPlace(n, u)
    ensures forall w :: IsPlace(t, w) <==> IsPlace(n, w)
    decreases |u|
  {
    if KeyAt(n, u) == key then n
    else if Last(u) == 0 && |u| > 1 then
      PlaceInit(n, u);
      var t := Updated(n, Init(u), key);
      SetKeyPlaces(t, u, key);
      SetKey(t, u, key)
    else
      SetKeyPlaces(n, u, key);
      SetKey(n, u, key)
  }

  lemma {:induction false} PlaceInit(n: Node, u: seq<nat>)
    requires IsPlace(n, u) && |u| > 1
    ensures IsPlace(n, Init(u))
    decreases |u|
  {
    if |u| > 2 {
      PlaceInit(n.items[u[0]].child, u[1..]);
      assert Init(u)[1..] == Init(u[1..]);
    }
  }

  /** Setting the key at u first and then updating above gives the same tree as
      the source's order. */
  lemma {:induction false} UpdatedCommutes(n: Node, v: seq<nat>, u: seq<nat>, key: nat)
    requires IsPlace(n, u) && IsPlace(n, v) && |v| < |u|
    ensures IsPlace(SetKey(n, u, key), v) && IsPlace(Updated(n, v, key), u)
    ensures Updated(SetKey(n, u, key), v, key) == SetKey(Updated(n, v, key), u, key)
    decreases |v|
  {
    SetKeyPlace(n, u, key, v);
    if KeyAt(n, v) != key {
      if Last(v) == 0 && |v| > 1 {
        PlaceInit(n, v);
        UpdatedCommutes(n, Init(v), u, key);
        SetKeyCommutes(Updated(n, Init(v), key), u, v, key);
      } else {
        SetKeyCommutes(n, u, v, key);
      }
    }
  }

  /** update_keys restores the delimiting keys of the whole tree after the first
      key below the pointer at u has become `key`.  The early return on an
      equal key is sound: everything above agrees already. */
  lemma {:induction false} UpdateRestores(n: Node, u: seq<nat>, key: nat)
    requires IsPlace(n, u) && DelimitedBut(n, u) && FirstKeyBelow(n, u, key)
    ensures Delimited(Updated(n, u, key))
    decreases |u|
  {
    if KeyAt(n, u) == key {
      AlreadyDelimited(n, u, key);
    } else {
      SetKeyDelimits(n, u, key);
      if Last(u) == 0 && |u| > 1 {
        PlaceInit(n, u);
        UpdatedCommutes(n, Init(u), u, key);
        UpdateRestores(SetKey(n, u, key), Init(u), key);
      }
    }
  }

  lemma {:induction false} AlreadyDelimited(n: Node, u: seq<nat>, key: nat)
    requires IsPlace(n, u) && DelimitedBut(n, u) && FirstKeyBelow(n, u, key) && KeyAt(n, u) == key
    ensures Delimited(n)
    decreases |u|
  {
    if |u| > 1 { AlreadyDelimited(n.items[u[0]].child, u[1..], key); }
    assert DelimitedAt(n, u[0]);
  }

  /** Data items, their order and the shape of the tree stay. */
  lemma {:induction false} UpdateKeepsData(n: Node, u: seq<nat>, key: nat)
    requires IsPlace(n, u) && IsNode(n, u)
    ensures FlatNode(Updated(n, u, key)) == FlatNode(n) && IsNode(Updated(n, u, key), u)
    decreases |u|
  {
    if KeyAt(n, u) != key {
      if Last(u) == 0 && |u| > 1 {
        PlaceInit(n, u);
        NodeInit(n, u);
        UpdateKeepsData(n, Init(u), key);
        UpdatedCommutes(n, Init(u), u, key);
        SetKeyFlat(n, u, key);
        SetKeyPlace(n, u, key, Init(u));
        NodeInit(SetKey(n, u, key), u);
        UpdateKeepsData(SetKey(n, u, key), Init(u), key);
        StaysNode(n, Init(u), u, key);
      } else {
        SetKeyFlat(n, u, key);
      }
    }
  }

  lemma {:induction false} SetKeyNode(n: Node, v: seq<nat>, u: seq<nat>, key: nat)
    requires IsPlace(n, v) && IsNode(n, u)
    ensures IsNode(SetKey(n, v, key), u)
    decreases |u|
  {
    if u != [] && v[0] == u[0] && |v| > 1 { SetKeyNode(n.items[u[0]].child, v[1..], u[1..], key); }
  }

  lemma {:induction false} StaysNode(n: Node, v: seq<nat>, u: seq<nat>, key: nat)
    requires IsPlace(n, v) && IsPlace(n, u) && IsNode(n, u) && |v| < |u|
    ensures IsPlace(Updated(n, v, key), u) && IsNode(Updated(n, v, key), u) &&
      IsNode(SetKey(Updated(n, v, key), u, key), u)
    decreases |v|
  {
    if KeyAt(n, v) != key {
      if Last(v) == 0 && |v| > 1 {
        PlaceInit(n, v);
        StaysNode(n, Init(v), u, key);
        SetKeyNode(Updated(n, Init(v), key), v, u, key);
      } else {
        SetKeyNode(n, v, u, key);
      }
    }
    SetKeyNode(Updated(n, v, key), u, u, key);
  }

  class KeyedTree {
    var root: Node

    constructor (root: Node)
      ensures this.root == root
    {
      this.root := root;
    }

    method ReadKey(u: seq<nat>) returns (key: nat)
      requires IsPlace(root, u)
      ensures key == KeyAt(root, u)
    {
      var n, i := root, 0;
      while i + 1 < |u|
        invariant i < |u| && IsPlace(n, u[i..]) && KeyAt(n, u[i..]) == KeyAt(root, u)
      {
        assert u[i..][1..] == u[i + 1..];
        n := n.items[u[i]].child;
        i := i + 1;
      }
      key := n.items[u[i]].key;
    }

    /** reiser4_tree_update_keys */
    method UpdateKeys(u: seq<nat>, key: nat)
      requires IsPlace(root, u)
      modifies this
      ensures root == Updated(old(root), u, key)
      decreases |u|
    {
      var present := ReadKey(u);
      if present == key { return; }
      if Last(u) == 0 && |u| > 1 {
        PlaceInit(root, u);
        UpdateKeys(Init(u), key);
      }
      root := SetKey(root, u, key);
    }

    /** The repair at the end of tree_post_modify: the first key of the node at
        path u is now `key`. */
    method RepairAbove(u: seq<nat>, key: nat)
      requires IsPlace(root, u) && IsNode(root, u) && DelimitedBut(root, u) && FirstKeyBelow(root, u, key)
      modifies this
      ensures Delimited(root) && FlatNode(root) == old(FlatNode(root))
    {
      UpdateRestores(root, u, key);
      UpdateKeepsData(root, u, key);
      UpdateKeys(u, key);
    }
  }
}

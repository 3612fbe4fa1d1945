/** Bitmaps seen as sets of block numbers.  Operations on a region that does
    not lie inside the bitmap change nothing. */
module BlockSet {
  type Blk = nat

  function Region(start: Blk, count: nat): (r: set<Blk>)
    ensures forall b :: b in r <==> start <= b < start + count
  {
    if count == 0 then {} else Region(start, count - 1) + {start + count - 1}
  }

  predicate Inside(total: nat, start: Blk, count: nat) { start < total && start + count <= total }

  function Marked(s: set<Blk>, total: nat, start: Blk, count: nat): (r: set<Blk>)
    ensures forall b :: b in r <==> b in s || (start <= b < start + count && start + count <= total)
  {
    if Inside(total, start, count) then s + Region(start, count) else s
  }

  function Cleared(s: set<Blk>, total: nat, start: Blk, count: nat): (r: set<Blk>)
    ensures forall b :: b in r <==> b in s && !(start <= b < start + count && start + count <= total)
  {
    if Inside(total, start, count) then s - Region(start, count) else s
  }

  /** Clearing a bit that has just been set undoes it. */
  lemma ClearUndoesMark(s: set<Blk>, total: nat, b: Blk)
    requires b !in s
    ensures Cleared(Marked(s, total, b, 1), total, b, 1) == s
  {
    RegionOne(b);
  }

  /** reiser4_bitmap_find_marked: the first member from start on. */
  method FindMarked(s: set<Blk>, total: nat, start: Blk) returns (found: bool, b: Blk)
    ensures start <= b && forall c :: start <= c < b ==> c !in s
    ensures found <==> b < total
    ensures found ==> b in s
    ensures start <= total ==> b <= total
  {
    b := start;
    while b < total && b !in s
      invariant start <= b && (start <= total ==> b <= total)
      invariant forall c :: start <= c < b ==> c !in s
    {
      b := b + 1;
    }
    found := b < total;
  }

  lemma RegionOne(b: Blk)
    ensures Region(b, 1) == {b}
  {
  }
}

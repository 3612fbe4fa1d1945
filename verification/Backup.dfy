/** Where backups of the superblock data go (libreiser4/backup.c): one block
    behind the bitmap blocks nearest below the powers of 3/2. */
module Backup {
  import opened Arithmetic
  import opened BlockSet
  import opened Alloc40

  function Master(bs: nat): (b: Blk)
    requires bs >= 512
  {
    65536 / bs
  }

  /** The first block behind the superblocks, the first bitmap block, the
      journal and the status block. */
  function Start(bs: nat): (b: Blk)
    requires bs >= 512
  {
    Master(bs) + 6
  }

  /** The chunk that describes a block. */
  function Index(bs: nat, b: Blk): (k: nat)
    requires bs >= 512
  {
    if b < Bpb(bs) then 0 else 1 + Index(bs, b - Bpb(bs))
  }

  lemma {:induction false} IndexBounds(bs: nat, b: Blk)
    requires bs >= 512
    ensures Begin(bs, Index(bs, b)) <= b < Begin(bs, Index(bs, b)) + Bpb(bs)
  {
    if b >= Bpb(bs) { IndexBounds(bs, b - Bpb(bs)); }
  }

  lemma IndexIs(bs: nat, b: Blk)
    requires bs >= 512
    ensures Bpb(bs) > 0 && b / Bpb(bs) == Index(bs, b) && b / Bpb(bs) * Bpb(bs) == Begin(bs, Index(bs, b))
  {
    FirstFits(bs);
    IndexBounds(bs, b);
    BeginIs(bs, Index(bs, b));
    Quotient(Bpb(bs), b, Index(bs, b));
  }

  /** BACKUP_EXP_LAYOUT in 64 bits. */
  function Next(b: Blk): (r: Blk)
    ensures 3 * b < TWO64 ==> r == b * 3 / 2
  {
    b * 3 % TWO64 / 2
  }

  /** The i-th block number tried. */
  function Tried(i: nat): (b: Blk)
    ensures b >= 3
  {
    if i == 0 then 3 else Tried(i - 1) * 3 / 2
  }

  lemma {:induction false} TriedGrows(i: nat, j: nat)
    requires i < j
    ensures Tried(i) < Tried(j)
  {
    if i < j - 1 { TriedGrows(i, j - 1); }
  }

  /** The block proposed for a block number: the second block of its chunk, but
      never one of the format area; a chunk of one block offers none. */
  function Proposed(bs: nat, len: nat, blk: Blk): (c: Blk)
    requires bs >= 512
  {
    var second := Begin(bs, Index(bs, blk)) + 1;
    if second == len || second < Start(bs) then Start(bs) else second
  }

  /** Blocks with contents of their own. */
  ghost predicate Taken(bs: nat, b: Blk)
    requires bs >= 512
  {
    FormatArea(bs, b) || BitmapBlock(bs, b)
  }

  /** Each bitmap block but the first one is the first of the (bs - 4) * 8 blocks
      that it describes. */
  ghost predicate BitmapBlock(bs: nat, b: Blk)
    requires bs >= 512
  {
    b % ((bs - 4) * 8) == 0
  }

  /** The blocks in front of the master superblock at byte 65536, and the six
      from there on: the superblocks of master and format, the first bitmap
      block, header and footer of the journal, and the status block. */
  ghost predicate FormatArea(bs: nat, b: Blk)
    requires bs >= 512
  {
    b <= 65536 / bs + 5
  }

  /** cb_region called for the chunk of blk by alloc40_region. */
  method Second(bs: nat, total: nat, blk: Blk) returns (copy: Blk)
    requires BlockSize(bs) && blk <= total
    ensures copy == if Begin(bs, Index(bs, blk)) + 1 == total then 0 else Begin(bs, Index(bs, blk)) + 1
  {
    IndexIs(bs, blk);
    IndexBounds(bs, blk);
    var size := Bpb(bs);
    var start := blk / size * size;
    if start + size > total { size := total - start; }
    copy := if size == 1 then 0 else start + 1;
  }

  method Candidate(bs: nat, len: nat, blk: Blk) returns (copy: Blk)
    requires BlockSize(bs) && blk <= len
    ensures copy == Proposed(bs, len, blk)
  {
    copy := Second(bs, len, blk);
    if copy < Start(bs) { copy := Start(bs); }
  }

  /** The i-th number's proposal was emitted, or lies beyond the end. */
  ghost predicate Answered(bs: nat, len: nat, copies: seq<Blk>, i: nat)
    requires bs >= 512
  {
    Proposed(bs, len, Tried(i)) in copies || Proposed(bs, len, Tried(i)) > len
  }

  ghost predicate ComesFrom(bs: nat, len: nat, c: Blk, i: nat)
    requires bs >= 512
  {
    c == Proposed(bs, len, Tried(i))
  }

  ghost predicate Stems(bs: nat, len: nat, c: Blk, n: nat)
    requires bs >= 512
  {
    exists i: nat {:trigger ComesFrom(bs, len, c, i)} :: i < n && ComesFrom(bs, len, c, i)
  }

  /** c is the second block of the chunk of the i-th number, not the first
      chunk. */
  ghost predicate SecondOf(bs: nat, len: nat, c: Blk, i: nat)
    requires bs >= 512
  {
    var n := (bs - 4) * 8;
    Tried(i) <= len && Tried(i) / n >= 1 && c == Tried(i) / n * n + 1
  }

  /** The copies emitted for the first n block numbers. */
  ghost predicate Emitted(bs: nat, len: nat, copies: seq<Blk>, n: nat)
    requires bs >= 512
  {
    && (forall i: nat {:trigger Answered(bs, len, copies, i)} :: i < n ==> Answered(bs, len, copies, i))
    && (forall c {:trigger Stems(bs, len, c, n)} :: c in copies ==> Stems(bs, len, c, n))
    && (forall c :: c in copies ==> Start(bs) <= c <= len)
    && (copies != [] ==> copies[0] == Start(bs))
    && (forall i, j :: 0 <= i < j < |copies| ==> copies[i] < copies[j])
  }

  function Last(copies: seq<Blk>): (b: Blk) { if copies == [] then 0 else copies[|copies| - 1] }

  /** Proposals do not decrease, apart from the first one of a chunk that has no
      room. */
  lemma ProposedGrows(bs: nat, len: nat, x: Blk, y: Blk)
    requires bs >= 512 && x <= y
    ensures Proposed(bs, len, x) <= Proposed(bs, len, y) || Proposed(bs, len, y) == Start(bs)
    ensures y <= Proposed(bs, len, x) ==> Proposed(bs, len, y) == Proposed(bs, len, x)
  {
    FirstFits(bs);
    var (p, q) := (Index(bs, x), Index(bs, y));
    IndexBounds(bs, x);
    IndexBounds(bs, y);
    if p < q { BeginsGrow(bs, p, q); }
    if q < p { BeginsGrow(bs, q, p); }
  }

  /** A number at or below the last copy proposes nothing new. */
  lemma NothingNew(bs: nat, len: nat, copies: seq<Blk>, n: nat)
    requires bs >= 512 && Emitted(bs, len, copies, n)
    requires Tried(n) <= Last(copies) || Proposed(bs, len, Tried(n)) <= Last(copies) ||
      Proposed(bs, len, Tried(n)) > len
    ensures Emitted(bs, len, copies, n + 1)
  {
    if copies != [] {
      var last := Last(copies);
      assert last in copies;
      assert Stems(bs, len, last, n);
      var i: nat :| i < n && ComesFrom(bs, len, last, i);
      TriedGrows(i, n);
      ProposedGrows(bs, len, Tried(i), Tried(n));
      assert copies[0] in copies;
    }
    assert Answered(bs, len, copies, n);
    forall c | c in copies ensures Stems(bs, len, c, n + 1) { assert Stems(bs, len, c, n); }
  }

  lemma NewCopy(bs: nat, len: nat, copies: seq<Blk>, n: nat)
    requires bs >= 512 && Emitted(bs, len, copies, n)
    requires Last(copies) < Proposed(bs, len, Tried(n)) <= len && (copies == [] ==> n == 0)
    ensures Emitted(bs, len, copies + [Proposed(bs, len, Tried(n))], n + 1)
  {
    var c := Proposed(bs, len, Tried(n));
    var more := copies + [c];
    FirstFits(bs);
    if copies == [] {
      assert Tried(0) == 3;
      SmallProposes(bs, len, 3);
    }
    forall i: nat | i < n + 1 ensures Answered(bs, len, more, i) {
      if i == n { assert more[|copies|] == c; } else { assert Answered(bs, len, copies, i); }
    }
    forall d | d in more ensures Stems(bs, len, d, n + 1) {
      if d in copies { assert Stems(bs, len, d, n); } else { assert ComesFrom(bs, len, d, n); }
    }
    forall i, j | 0 <= i < j < |more| ensures more[i] < more[j] {
      if j == |copies| && i < |copies| - 1 { assert copies[i] < copies[|copies| - 1]; }
    }
  }

  /** Exactly the numbers up to len were tried. */
  ghost predicate Complete(bs: nat, len: nat, copies: seq<Blk>, n: nat)
    requires bs >= 512
  {
    Emitted(bs, len, copies, n) && copies != [] && Tried(n) > len && (n > 0 ==> Tried(n - 1) <= len)
  }

  lemma SmallProposes(bs: nat, len: nat, b: Blk)
    requires bs >= 512 && b < Bpb(bs)
    ensures Proposed(bs, len, b) == Start(bs)
  {
    FirstFits(bs);
  }

  /** The loop of reiser4_backup_layout_body. */
  method Walk(bs: nat, len: nat) returns (copies: seq<Blk>)
    requires BlockSize(bs) && len >= 9 + Master(bs) && 3 * len < TWO64
    ensures exists n: nat :: Complete(bs, len, copies, n)
  {
    var blk, prev := 2, 0;
    copies := [];
    ghost var n: nat := 0;
    while true
      invariant n == 0 ==> blk == 2 && copies == []
      invariant n > 0 ==> blk == Tried(n - 1) && copies != []
      invariant 2 <= blk <= len && prev == Last(copies) <= len
      invariant Emitted(bs, len, copies, n)
      decreases len - blk
    {
      blk := Next(blk);
      if blk <= prev {
        NothingNew(bs, len, copies, n);
        n := n + 1;
        continue;
      }
      if blk > len {
        assert Complete(bs, len, copies, n);
        return;
      }
      var copy := Candidate(bs, len, blk);
      if copy > len {
        NothingNew(bs, len, copies, n);
        AtEnd(bs, len, blk, n);
        assert Complete(bs, len, copies, n + 1);
        return;
      }
      if copy <= prev {
        NothingNew(bs, len, copies, n);
        n := n + 1;
        continue;
      }
      NewCopy(bs, len, copies, n);
      copies := copies + [copy];
      prev := copy;
      n := n + 1;
    }
  }

  /** A proposal beyond the end comes from the last block number only. */
  lemma AtEnd(bs: nat, len: nat, blk: Blk, n: nat)
    requires bs >= 512 && blk <= len && len >= Start(bs) && Proposed(bs, len, blk) > len && blk == Tried(n)
    ensures Tried(n + 1) > len
  {
    IndexBounds(bs, blk);
    TriedGrows(n, n + 1);
  }

  lemma TriedWithin(len: nat, n: nat, i: nat)
    requires Tried(n) > len && (n > 0 ==> Tried(n - 1) <= len)
    ensures i < n <==> Tried(i) <= len
  {
    if i > n { TriedGrows(n, i); }
    if i < n - 1 { TriedGrows(i, n - 1); }
  }

  /** Where the copies are: in increasing order, at least one, inside the
      filesystem, and on no block that is used otherwise. */
  lemma CopiesAreSafe(bs: nat, len: nat, copies: seq<Blk>, n: nat)
    requires bs >= 512 && len >= 9 + Master(bs) && Complete(bs, len, copies, n)
    ensures |copies| >= 1 && copies[0] == 65536 / bs + 6
    ensures forall i, j :: 0 <= i < j < |copies| ==> copies[i] < copies[j]
    ensures forall c :: c in copies ==> c < len && !Taken(bs, c)
  {
    forall c | c in copies ensures c < len && !Taken(bs, c) {
      assert Stems(bs, len, c, n);
      var i: nat :| i < n && ComesFrom(bs, len, c, i);
      TriedWithin(len, n, i);
      CopyIsSafe(bs, len, Tried(i));
    }
  }

  lemma CopyIsSafe(bs: nat, len: nat, b: Blk)
    requires bs >= 512 && len >= 9 + Master(bs) && b <= len && Proposed(bs, len, b) <= len
    ensures Proposed(bs, len, b) < len && !Taken(bs, Proposed(bs, len, b))
  {
    FirstFits(bs);
    var (p, c) := (Index(bs, b), Proposed(bs, len, b));
    IndexBounds(bs, b);
    BeginIs(bs, p);
    if c == Start(bs) { Behind(Bpb(bs), 0, c); } else { Behind(Bpb(bs), p, 1); }
  }

  lemma Behind(n: nat, p: nat, r: nat)
    requires r < n
    ensures (p * n + r) % n == r
  {
    Quotient(n, p * n + r, p);
    DivMod(p * n + r, n);
  }

  /** reiser4_backup_layout_body on an allocator as long as the filesystem, with
      a callback that does not fail. */
  method Layout(bs: nat, len: nat) returns (copies: seq<Blk>)
    requires BlockSize(bs) && len >= 9 + Master(bs) && 3 * len < TWO64
    ensures exists n: nat :: Complete(bs, len, copies, n)
    ensures |copies| >= 1 && copies[0] == 65536 / bs + 6
    ensures forall i, j :: 0 <= i < j < |copies| ==> copies[i] < copies[j]
    ensures forall c :: c in copies ==> c < len && !Taken(bs, c)
  {
    copies := Walk(bs, len);
    ghost var n: nat :| Complete(bs, len, copies, n);
    CopiesAreSafe(bs, len, copies, n);
  }

  lemma SecondIs(bs: nat, len: nat, c: Blk, i: nat)
    requires bs >= 512
    ensures SecondOf(bs, len, c, i) <==>
      Tried(i) <= len && Index(bs, Tried(i)) >= 1 && c == Begin(bs, Index(bs, Tried(i))) + 1
  {
    IndexIs(bs, Tried(i));
  }

  /** Every copy but the first is the second block of a later chunk. */
  lemma CopyIsSecond(bs: nat, len: nat, copies: seq<Blk>, n: nat, c: Blk) returns (i: nat)
    requires bs >= 512 && Complete(bs, len, copies, n) && c in copies && c != Start(bs)
    ensures SecondOf(bs, len, c, i)
  {
    assert Stems(bs, len, c, n);
    i :| i < n && ComesFrom(bs, len, c, i);
    TriedWithin(len, n, i);
    SecondIs(bs, len, c, i);
  }

  /** Every such block inside the filesystem is a copy. */
  lemma SecondIsCopy(bs: nat, len: nat, copies: seq<Blk>, n: nat, c: Blk, i: nat)
    requires bs >= 512 && Complete(bs, len, copies, n) && c < len && SecondOf(bs, len, c, i)
    ensures c in copies
  {
    TriedWithin(len, n, i);
    FirstFits(bs);
    SecondIs(bs, len, c, i);
    BeginsGrow(bs, 0, Index(bs, Tried(i)));
    assert Answered(bs, len, copies, i);
  }

  /** Which blocks are copies: the start of the backup area, and the second
      block of every later chunk that holds a tried number and has a second
      block. */
  lemma CopiesExactly(bs: nat, len: nat, copies: seq<Blk>, n: nat, c: Blk)
    requires bs >= 512 && len >= 9 + Master(bs) && Complete(bs, len, copies, n)
    ensures c in copies <==> c == 65536 / bs + 6 || (c < len && exists i: nat :: SecondOf(bs, len, c, i))
  {
    assert copies[0] in copies;
    CopiesAreSafe(bs, len, copies, n);
    if c in copies && c != Start(bs) {
      var i := CopyIsSecond(bs, len, copies, n, c);
    }
    if c < len && exists i: nat :: SecondOf(bs, len, c, i) {
      var i: nat :| SecondOf(bs, len, c, i);
      SecondIsCopy(bs, len, copies, n, c, i);
    }
  }
}

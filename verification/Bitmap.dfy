/** The bitmap of libreiser4/bitmap.c: a byte-aligned buffer of bits, of which
    the first total are significant, and a counter of the marked ones.  The
    bits of the last byte beyond total may hold anything. */
module Bitmaps {
  import opened Arithmetic
  import opened BlockSet
  import opened Common

  /** The longest bitmap whose size in bytes fits its 32-bit field. */
  const MAX_LEN: nat := 8 * (TWO32 - 1)

  /** start + count - 1 in 64 bits. */
  function EndOf(start: nat, count: nat): (e: nat)
    ensures 0 < start + count <= TWO64 ==> e == start + count - 1
  {
    (start + count + TWO64 - 1) % TWO64
  }

  /** The region is inside and its bits are the asked one. */
  ghost predicate AllAre(ones: set<nat>, total: nat, start: nat, count: nat, marked: bool) {
    Inside(total, start, count) && forall i :: start <= i < start + count ==> ((i in ones) == marked)
  }

  /** The marked positions among the first n bits. */
  ghost function OnesOf(bits: seq<bool>, n: nat): (r: set<nat>)
    requires n <= |bits|
  {
    set i: nat | i < n && bits[i]
  }

  /** How many positions of a region have the asked bit; positions from total on
      count as cleared. */
  function Hits(bits: seq<bool>, total: nat, start: nat, count: nat, marked: bool): (n: nat)
    requires total <= |bits|
    ensures n <= count
  {
    if count == 0 then 0
    else
      var last := start + count - 1;
      Hits(bits, total, start, count - 1, marked) + (if (last < total && bits[last]) == marked then 1 else 0)
  }

  lemma {:induction false} HitsSplit(bits: seq<bool>, total: nat, start: nat, a: nat, b: nat, marked: bool)
    requires total <= |bits|
    ensures Hits(bits, total, start, a + b, marked) ==
      Hits(bits, total, start, a, marked) + Hits(bits, total, start + a, b, marked)
  {
    if b > 0 { HitsSplit(bits, total, start, a, b - 1, marked); }
  }

  /** Equal bits give equal counts. */
  lemma {:induction false} HitsSame(x: seq<bool>, y: seq<bool>, total: nat, start: nat, count: nat, marked: bool)
    requires total <= |x| && total <= |y|
    requires forall i :: start <= i < start + count && i < total ==> x[i] == y[i]
    ensures Hits(x, total, start, count, marked) == Hits(y, total, start, count, marked)
  {
    if count > 0 { HitsSame(x, y, total, start, count - 1, marked); }
  }

  /** Marked and cleared positions make up the region. */
  lemma {:induction false} HitsBoth(bits: seq<bool>, total: nat, start: nat, count: nat)
    requires total <= |bits|
    ensures Hits(bits, total, start, count, true) + Hits(bits, total, start, count, false) == count
  {
    if count > 0 { HitsBoth(bits, total, start, count - 1); }
  }

  lemma {:induction false} HitsUniform(bits: seq<bool>, total: nat, start: nat, count: nat, value: bool)
    requires start + count <= total <= |bits|
    requires forall i :: start <= i < start + count ==> bits[i] == value
    ensures Hits(bits, total, start, count, true) == if value then count else 0
  {
    if count > 0 { HitsUniform(bits, total, start, count - 1, value); }
  }

  /** The number of marked blocks. */
  function Popcount(bits: seq<bool>, total: nat): (n: nat)
    requires total <= |bits|
  {
    Hits(bits, total, 0, total, true)
  }

  /** It is the size of the set of marked blocks. */
  lemma PopcountIsSize(bits: seq<bool>, total: nat)
    requires total <= |bits|
    ensures Popcount(bits, total) == |OnesOf(bits, total)|
  {
    HitsIsSize(bits, total, total);
  }

  lemma {:induction false} HitsIsSize(bits: seq<bool>, total: nat, n: nat)
    requires n <= total <= |bits|
    ensures Hits(bits, total, 0, n, true) == |OnesOf(bits, n)|
  {
    if n == 0 {
      assert OnesOf(bits, 0) == {};
    } else {
      HitsIsSize(bits, total, n - 1);
      OnesNext(bits, n - 1);
    }
  }

  lemma OnesNext(bits: seq<bool>, n: nat)
    requires n < |bits|
    ensures |OnesOf(bits, n + 1)| == |OnesOf(bits, n)| + (if bits[n] then 1 else 0)
  {
    var had := OnesOf(bits, n);
    if bits[n] {
      assert OnesOf(bits, n + 1) == had + {n};
    } else {
      assert OnesOf(bits, n + 1) == had;
    }
  }

  /** Giving a whole region one value changes the count by what the region
      lacked. */
  lemma RegionCounts(x: seq<bool>, y: seq<bool>, total: nat, start: nat, count: nat, value: bool)
    requires |x| == |y| && start + count <= total <= |x|
    requires forall i :: 0 <= i < |x| ==> y[i] == if start <= i < start + count then value else x[i]
    ensures Popcount(y, total) == if value then Popcount(x, total) + Hits(x, total, start, count, false)
                                  else Popcount(x, total) - Hits(x, total, start, count, true)
  {
    var rest := total - start - count;
    forall z | z == x || z == y
      ensures Popcount(z, total) ==
        Hits(z, total, 0, start, true) + Hits(z, total, start, count, true) + Hits(z, total, start + count, rest, true)
    {
      HitsSplit(z, total, 0, start, count + rest, true);
      HitsSplit(z, total, start, count, rest, true);
    }
    HitsSame(x, y, total, 0, start, true);
    HitsSame(x, y, total, start + count, rest, true);
    HitsUniform(y, total, start, count, value);
    HitsBoth(x, total, start, count);
  }

  lemma OneBit(x: seq<bool>, y: seq<bool>, total: nat, bit: nat, value: bool)
    requires |x| == |y| && bit < total <= |x| && x[bit] == !value
    requires forall i :: 0 <= i < |x| ==> y[i] == if i == bit then value else x[i]
    ensures Popcount(y, total) == if value then Popcount(x, total) + 1 else Popcount(x, total) - 1
  {
    RegionCounts(x, y, total, bit, 1, value);
    assert Hits(x, total, bit, 0, value) == 0;
    assert Hits(x, total, bit, 1, !value) == 1;
  }

  /** What counting finds after bytes were added, the bits behind the old end
      having been cleared or not. */
  lemma Enlarged(x: seq<bool>, y: seq<bool>, total: nat, len: nat, cleared: bool)
    requires total <= |x| <= len <= |y|
    requires forall i :: 0 <= i < |x| ==> y[i] == (x[i] && (cleared ==> i < total))
    requires forall i :: |x| <= i < len ==> !y[i]
    ensures Popcount(y, len) == Popcount(x, total) <==> cleared || forall i :: total <= i < |x| ==> !x[i]
  {
    var more := |x| - total;
    HitsSplit(y, len, 0, total, len - total, true);
    HitsSplit(y, len, total, more, len - |x|, true);
    HitsUniform(y, len, |x|, len - |x|, false);
    HitsWithin(x, y, total, len, total);
    NoHits(y, len, total, more);
    if !cleared {
      assert forall i :: total <= i < |x| ==> (x[i] <==> y[i]);
    }
  }

  lemma {:induction false} NoHits(bits: seq<bool>, total: nat, start: nat, count: nat)
    requires start + count <= total <= |bits|
    ensures Hits(bits, total, start, count, true) == 0 <==> forall i :: start <= i < start + count ==> !bits[i]
  {
    if count > 0 { NoHits(bits, total, start, count - 1); }
  }

  lemma {:induction false} HitsWithin(x: seq<bool>, y: seq<bool>, total: nat, len: nat, n: nat)
    requires n <= total <= |x| && total <= len <= |y|
    requires forall i :: 0 <= i < total ==> y[i] == x[i]
    ensures Hits(y, len, 0, n, true) == Hits(x, total, 0, n, true)
  {
    if n > 0 { HitsWithin(x, y, total, len, n - 1); }
  }

  /** Flipping every bit swaps marked and cleared. */
  lemma {:induction false} FlipCounts(x: seq<bool>, y: seq<bool>, total: nat, n: nat)
    requires n <= total <= |x| && total <= |y|
    requires forall i :: 0 <= i < total ==> y[i] == !x[i]
    ensures Hits(y, total, 0, n, true) == n - Hits(x, total, 0, n, true)
  {
    if n > 0 { FlipCounts(x, y, total, n - 1); }
  }

  /** A call of one of the operations that change a bitmap. */
  datatype Call =
    | ToMark(bit: nat)
    | ToClear(bit: nat)
    | ToMarkRegion(start: nat, count: nat)
    | ToClearRegion(start: nat, count: nat)
    | ToInvert
    | ToResize(len: nat)

  /** A region that begins inside ends by 2^64; a map stays below 2^29 bytes. */
  predicate Proper(c: Call, total: nat) {
    match c
    case ToMarkRegion(start, count) => start >= total || start + count <= TWO64
    case ToClearRegion(start, count) => start >= total || start + count <= TWO64
    case ToResize(len) => len + 8 <= TWO32
    case _ => true
  }

  predicate AllProper(calls: seq<Call>, total: nat) {
    calls == [] ||
    (Proper(calls[0], total) && AllProper(calls[1..], if calls[0].ToResize? then calls[0].len else total))
  }

  class Bitmap {
    var buffer: array<bool>
    var total: nat
    var size: nat
    var marked: nat

    ghost predicate Shaped()
      reads this
    {
      buffer.Length == 8 * size && size == (total + 7) / 8 && total <= MAX_LEN
    }

    /** The marked blocks. */
    ghost function Ones(): (r: set<nat>)
      requires Shaped()
      reads this, buffer
    {
      OnesOf(buffer[..], total)
    }

    /** The counter is the number of marked blocks. */
    ghost predicate Valid()
      reads this, buffer
    {
      Shaped() && marked == Popcount(buffer[..], total)
    }

    constructor Create(len: nat)
      requires len <= MAX_LEN
      ensures Valid() && fresh(buffer) && total == len && Ones() == {}
      ensures forall i :: 0 <= i < buffer.Length ==> !buffer[i]
    {
      marked, total, size := 0, len, (len + 7) / 8;
      buffer := new bool[8 * ((len + 7) / 8)](_ => false);
      new;
      HitsUniform(buffer[..], total, 0, total, false);
    }

    method Mark(bit: nat)
      requires Valid()
      modifies this`marked, buffer
      ensures Valid() && Ones() == if bit < total then old(Ones()) + {bit} else old(Ones())
      ensures forall i :: 0 <= i < buffer.Length && i != bit ==> buffer[i] == old(buffer[i])
    {
      if bit >= total { return; }
      if buffer[bit] { return; }
      buffer[bit] := true;
      marked := marked + 1;
      OneBit(old(buffer[..]), buffer[..], total, bit, true);
    }

    method Clear(bit: nat)
      requires Valid()
      modifies this`marked, buffer
      ensures Valid() && Ones() == if bit < total then old(Ones()) - {bit} else old(Ones())
      ensures forall i :: 0 <= i < buffer.Length && i != bit ==> buffer[i] == old(buffer[i])
    {
      if bit >= total { return; }
      if !buffer[bit] { return; }
      buffer[bit] := false;
      OneBit(old(buffer[..]), buffer[..], total, bit, false);
      marked := marked - 1;
    }

    method Test(bit: nat) returns (r: bool)
      requires Shaped()
      ensures r <==> bit in Ones()
    {
      if bit >= total { return false; }
      r := buffer[bit];
    }

    /** The number of marked, or of cleared, blocks in a region; blocks outside
        the bitmap count as cleared.  A region that reaches 2^64 counts as
        empty. */
    method Calc(start: nat, count: nat, marked: bool) returns (bits: nat)
      requires Shaped() && start < TWO64 && count < TWO64
      ensures bits == if start + count < TWO64 then Hits(buffer[..], total, start, count, marked) else 0
    {
      bits := 0;
      var i, end := start, Add64(start, count);
      while i < end
        invariant start <= i && (i <= end || i == start)
        invariant bits == Hits(buffer[..], total, start, i - start, marked)
      {
        var t := Test(i);
        bits := bits + if t == marked then 1 else 0;
        i := i + 1;
      }
    }

    /** aal_set_bits and aal_clear_bits. */
    method SetBits(start: nat, count: nat, value: bool)
      requires Shaped() && start + count <= total
      modifies buffer
      ensures Ones() == if value then old(Ones()) + Region(start, count) else old(Ones()) - Region(start, count)
      ensures forall i :: 0 <= i < buffer.Length ==>
        buffer[i] == if start <= i < start + count then value else old(buffer[i])
    {
      for i := start to start + count
        invariant forall j :: 0 <= j < buffer.Length ==> buffer[j] == if start <= j < i then value else old(buffer[j])
      {
        buffer[i] := value;
      }
    }

    /** A region that begins inside and reaches past 2^64 passes the test of the
        bounds in the source, and bits outside the buffer are written. */
    method MarkRegion(start: nat, count: nat)
      requires Valid() && (start >= total || start + count <= TWO64)
      modifies this`marked, buffer
      ensures Valid() && Ones() == Marked(old(Ones()), total, start, count)
      ensures forall i :: 0 <= i < buffer.Length ==>
        buffer[i] == (old(buffer[i]) || (Inside(total, start, count) && start <= i < start + count))
    {
      if start >= total || EndOf(start, count) >= total { return; }
      var num := Calc(start, count, false);
      SetBits(start, count, true);
      RegionCounts(old(buffer[..]), buffer[..], total, start, count, true);
      marked := marked + num;
    }

    method ClearRegion(start: nat, count: nat)
      requires Valid() && (start >= total || start + count <= TWO64)
      modifies this`marked, buffer
      ensures Valid() && Ones() == Cleared(old(Ones()), total, start, count)
      ensures forall i :: 0 <= i < buffer.Length ==>
        buffer[i] == (old(buffer[i]) && !(Inside(total, start, count) && start <= i < start + count))
    {
      if start >= total || EndOf(start, count) >= total { return; }
      var num := Calc(start, count, true);
      SetBits(start, count, false);
      RegionCounts(old(buffer[..]), buffer[..], total, start, count, false);
      marked := marked - num;
    }

    /** The first block from start on whose bit is the asked one, or INVAL_BLK. */
    method Find(start: nat, marked: bool) returns (bit: nat)
      requires Shaped()
      ensures bit == INVAL_BLK || (start <= bit < total && ((bit in Ones()) == marked))
      ensures forall i: nat :: start <= i < total && (bit == INVAL_BLK || i < bit) ==> (i in Ones()) == !marked
    {
      if start >= total { return INVAL_BLK; }
      bit := start;
      while bit < total && buffer[bit] != marked
        invariant start <= bit <= total
        invariant forall i: nat :: start <= i < bit ==> (i in Ones()) == !marked
      {
        bit := bit + 1;
      }
      if bit >= total { return INVAL_BLK; }
    }

    /** Whether the region lies inside the bitmap and all its bits are the asked
        one: this is what is answered exactly when the region does not begin
        inside and reach past 2^64.  Then the answer is yes. */
    method TestRegion(start: nat, count: nat, marked: bool) returns (r: bool)
      requires Shaped() && 0 < count < TWO64 && start < TWO64
      ensures (r <==> AllAre(Ones(), total, start, count, marked)) <==> (start >= total || start + count <= TWO64)
      ensures start < total && start + count > TWO64 ==> r
    {
      if start >= total || EndOf(start, count) >= total { return false; }
      var next := Find(start, !marked);
      if start <= next < Add64(start, count) { return false; }
      return true;
    }

    /** The first run of asked bits from start on, cut to count. */
    method FindRegion(start: nat, count: nat, marked: bool) returns (first: nat, found: nat)
      requires Shaped() && count > 0
      ensures found <= count && (found > 0 ==> Inside(total, first, found) && start <= first)
      ensures forall i :: first <= i < first + found ==> ((i in Ones()) == marked)
      ensures found == 0 ==> forall i: nat :: start <= i < total ==> (i in Ones()) == !marked
      ensures found > 0 ==> forall i: nat :: start <= i < first ==> (i in Ones()) == !marked
      ensures 0 < found < count ==> first + found == total || (first + found in Ones()) == !marked
    {
      found := 0;
      first := Find(start, marked);
      if first == INVAL_BLK { return; }
      while found < count && first + found < total && buffer[first + found] == marked
        invariant found <= count && first + found <= total
        invariant forall i :: first <= i < first + found ==> ((i in Ones()) == marked)
      {
        found := found + 1;
      }
    }

    method CalcMarked() returns (r: nat)
      requires Shaped()
      modifies this`marked
      ensures Valid() && r == marked
    {
      var n := Calc(0, total, true);
      marked := n;
      return n;
    }

    method CalcCleared() returns (r: nat)
      requires Valid()
      ensures r == total - marked
    {
      r := Calc(0, total, false);
      HitsBoth(buffer[..], total, 0, total);
    }

    method Clone() returns (clone: Bitmap)
      requires Valid()
      ensures fresh(clone) && fresh(clone.buffer) && clone.Valid()
      ensures clone.total == total && clone.Ones() == Ones() && clone.buffer[..] == buffer[..]
    {
      clone := new Bitmap.Create(total);
      clone.marked := marked;
      forall i | 0 <= i < buffer.Length { clone.buffer[i] := buffer[i]; }
      assert clone.buffer[..] == buffer[..] == old(buffer[..]);
    }

    /** A map of the asked size with what the old one holds.  When it is
        larger, the bits behind the old end are cleared up to eight times the
        old size, which is computed in 32 bits. */
    method NewMap(bytes: nat) returns (map_: array<bool>)
      requires Valid()
      ensures fresh(map_) && map_.Length == 8 * bytes
      ensures forall i :: 0 <= i < map_.Length ==>
        map_[i] == (i < buffer.Length && buffer[i] && (i < total || bytes <= size || 8 * size >= TWO32))
    {
      var enlarge := bytes > size;
      map_ := new bool[8 * bytes](_ => false);
      forall i | 0 <= i < 8 * (if enlarge then size else bytes) { map_[i] := buffer[i]; }
      if enlarge {
        var end := 8 * size % TWO32;
        forall i | total <= i < end { map_[i] := false; }
      }
    }

    /** The blocks that survive are as before.  From 2^29 bytes on nothing is
        cleared when bytes are added, and then the counter is exact only if
        there was nothing to clear.  Within its last byte an enlarged bitmap
        gains whatever the byte holds. */
    method Resize(len: nat)
      requires Valid() && len <= MAX_LEN
      modifies this
      ensures Shaped() && fresh(buffer) && total == len
      ensures Valid() <==> (size <= old(size) || old(8 * size) < TWO32 || old(Tidy()))
      ensures forall i: nat :: i < len && i < old(total) ==> ((i in Ones()) <==> (i in old(Ones())))
      ensures forall i: nat :: old(total) <= i < len ==>
        ((i in Ones()) <==> (i < old(8 * size) && (size == old(size) || old(8 * size) >= TWO32) && old(buffer[i])))
      ensures size == old(size) ==> buffer[..] == old(buffer[..])
    {
      var bytes := (len + 7) / 8;
      var map_ := NewMap(bytes);
      var enlarge := bytes > size;
      if enlarge {
        Enlarged(buffer[..], map_[..], total, len, 8 * size < TWO32);
      }
      buffer, total, size := map_, len, bytes;
      if !enlarge {
        var n := CalcMarked();
      }
    }

    /** The bits behind the end are clear. */
    ghost predicate Tidy()
      requires Shaped()
      reads this, buffer
    {
      forall i :: total <= i < buffer.Length ==> !buffer[i]
    }

    /** Every bit of the map is inverted; those behind the end are then cleared
        up to eight times the size, again computed in 32 bits. */
    method Flip()
      requires Shaped()
      modifies buffer
      ensures forall i :: 0 <= i < buffer.Length ==>
        buffer[i] == (!old(buffer[i]) && (i < total || 8 * size >= TWO32))
    {
      forall i | 0 <= i < buffer.Length { buffer[i] := !buffer[i]; }
      var end := 8 * size % TWO32;
      forall i | total <= i < end { buffer[i] := false; }
    }

    /** From 2^29 bytes on the bits behind the end stay inverted. */
    method Invert()
      requires Valid()
      modifies this`marked, buffer
      ensures Valid() && Ones() == Region(0, total) - old(Ones())
      ensures forall i :: total <= i < buffer.Length ==> buffer[i] == (8 * size >= TWO32 && !old(buffer[i]))
      ensures old(Tidy()) ==> (Tidy() <==> total == 8 * size || 8 * size < TWO32)
    {
      Flip();
      FlipCounts(old(buffer[..]), buffer[..], total, total);
      marked := total - marked;
      assert total < buffer.Length ==> buffer[total] == (8 * size >= TWO32 && !old(buffer[total]));
    }

    /** One of the operations that change a bitmap. */
    method Change(c: Call)
      requires Valid() && 8 * size < TWO32 && Proper(c, total)
      modifies this, buffer
      ensures Valid() && 8 * size < TWO32 && (buffer == old(buffer) || fresh(buffer))
      ensures total == if c.ToResize? then c.len else old(total)
    {
      match c
      case ToMark(bit) => Mark(bit);
      case ToClear(bit) => Clear(bit);
      case ToMarkRegion(start, count) => MarkRegion(start, count);
      case ToClearRegion(start, count) => ClearRegion(start, count);
      case ToInvert => Invert();
      case ToResize(len) => Resize(len);
    }

    /** The counter is exact after any sequence of them, on maps of less than
        2^29 bytes. */
    method Run(calls: seq<Call>)
      requires Valid() && 8 * size < TWO32 && AllProper(calls, total)
      modifies this, buffer
      ensures Valid() && marked == |Ones()|
    {
      for k := 0 to |calls|
        invariant Valid() && 8 * size < TWO32 && (buffer == old(buffer) || fresh(buffer))
        invariant AllProper(calls[k..], total)
      {
        Change(calls[k]);
        assert calls[k..][1..] == calls[k + 1..];
      }
      PopcountIsSize(buffer[..], total);
    }

    /** The loop of reiser4_bitmap_unpack over the run lengths. */
    method ReadRuns(runs: seq<nat>) returns (o: Outcome)
      requires Valid() && Ones() == {} && Words(runs)
      modifies this`marked, buffer
      ensures Valid()
      ensures o.Overrun? <==> exists k :: Overruns(runs, total, k)
      ensures o.Accepted? <==> Passes(runs, total)
      ensures o.Accepted? ==> Ones() == OnesAfter(runs, total, |runs|)
    {
      var at, bit, set_ := 0, 0, true;
      while at < |runs|
        invariant at <= |runs| && Valid()
        invariant bit == Pos(runs, at) && set_ == (at % 2 == 0)
        invariant InBounds(runs, total, at) && forall k :: 0 <= k < at ==> !Overruns(runs, total, k)
        invariant Ones() == OnesAfter(runs, total, at)
      {
        var count := runs[at];
        PosNext(runs, at);
        if Add64(bit, count) > total {
          assert forall k :: Overruns(runs, total, k) ==> k < at;
          return Rejected;
        }
        if set_ && bit < total && bit + count > TWO64 {
          assert Overruns(runs, total, at);
          return Overrun;
        }
        if set_ { MarkRegion(bit, count); }
        set_, bit, at := !set_, Add64(bit, count), at + 1;
      }
      o := if bit == total then Accepted else Rejected;
    }

    // ---- Packing ----

    /** The significant bits. */
    ghost function Bits(): (r: seq<bool>)
      requires Shaped()
      reads this, buffer
    {
      buffer[..total]
    }

    /** The end of the run of equal bits from count on; INVAL_BLK when it is the
        end of the bitmap. */
    method RunEnd(count: nat, value: bool) returns (i: nat)
      requires Shaped() && count <= total
      ensures i == INVAL_BLK || (count <= i < total && Bits()[i] == !value)
      ensures forall j :: count <= j < total && (i == INVAL_BLK || j < i) ==> Bits()[j] == value
    {
      i := Find(count, !value);
      RunFound(Bits(), Ones(), count, value, if i == INVAL_BLK then total else i);
    }

    /** reiser4_bitmap_pack: the length and the run lengths, marked first. */
    method Pack() returns (stream: seq<nat>)
      requires Valid()
      ensures |stream| >= 2 && stream[..2] == [0x7270_6d62, total]
      ensures PackedAs(Bits(), stream[2..])
    {
      ghost var b := Bits();
      var runs: seq<nat> := [];
      var count, set_ := 0, true;
      while true
        invariant PackedUpTo(b, runs, count) && set_ == (|runs| % 2 == 0)
        invariant |runs| > 0 ==> count < total && b[count] == set_
        decreases total - count, if runs == [] then 1 else 0
      {
        var i := RunEnd(count, set_);
        assert b == Bits();
        if i == INVAL_BLK { break; }
        AddsRun(b, runs, count, i);
        runs := runs + [i - count];
        count, set_ := i, !set_;
      }
      AddsRun(b, runs, count, total);
      runs := runs + [total - count];
      stream := [MAGIC, total] + runs;
      assert stream[2..] == runs;
    }
  }

  const MAGIC: nat := 0x7270_6d62

  // ---- What run lengths mean ----

  function Repeat(value: bool, n: nat): (r: seq<bool>)
    ensures |r| == n && forall i :: 0 <= i < n ==> r[i] == value
  {
    seq(n, _ => value)
  }

  /** The sum of the first k run lengths. */
  function SumTo(runs: seq<nat>, k: nat): (n: nat)
    requires k <= |runs|
  {
    if k == 0 then 0 else SumTo(runs, k - 1) + runs[k - 1]
  }

  /** The bits the first k run lengths stand for: runs of marked and of cleared
      bits in turn. */
  function Expand(runs: seq<nat>, k: nat): (b: seq<bool>)
    requires k <= |runs|
  {
    if k == 0 then [] else Expand(runs, k - 1) + Repeat((k - 1) % 2 == 0, runs[k - 1])
  }

  /** Only the first run may be empty. */
  ghost predicate Canonical(runs: seq<nat>) {
    runs != [] && forall i :: 1 <= i < |runs| ==> runs[i] > 0
  }

  /** The runs sum to the length of the bitmap, stand for its bits, and none but
      the first is empty, except that the empty bitmap is one empty run. */
  ghost predicate PackedAs(b: seq<bool>, runs: seq<nat>) {
    SumTo(runs, |runs|) == |b| && Expand(runs, |runs|) == b && Canonical(runs)
  }

  ghost predicate PackedUpTo(b: seq<bool>, runs: seq<nat>, count: nat) {
    && count <= |b| && SumTo(runs, |runs|) == count && Expand(runs, |runs|) == b[..count]
    && forall i :: 1 <= i < |runs| ==> runs[i] > 0
  }

  lemma {:induction false} SumGrows(runs: seq<nat>, j: nat, k: nat)
    requires j <= k <= |runs|
    ensures SumTo(runs, j) <= SumTo(runs, k)
  {
    if j < k { SumGrows(runs, j, k - 1); }
  }

  /** Runs to come do not change what the earlier ones stand for. */
  lemma {:induction false} PrefixKept(x: seq<nat>, y: seq<nat>, k: nat)
    requires k <= |x| && k <= |y| && forall i :: 0 <= i < k ==> x[i] == y[i]
    ensures SumTo(x, k) == SumTo(y, k) && Expand(x, k) == Expand(y, k)
  {
    if k > 0 { PrefixKept(x, y, k - 1); }
  }

  lemma {:induction false} ExpandLength(runs: seq<nat>, k: nat)
    requires k <= |runs|
    ensures |Expand(runs, k)| == SumTo(runs, k)
  {
    if k > 0 { ExpandLength(runs, k - 1); }
  }

  lemma RunFound(b: seq<bool>, ones: set<nat>, at: nat, value: bool, end: nat)
    requires at <= end <= |b| && ones == OnesOf(b, |b|)
    requires forall i: nat :: at <= i < end ==> (i in ones) == value
    requires end < |b| ==> (end in ones) == !value
    ensures forall i :: at <= i < end ==> b[i] == value
    ensures end < |b| ==> b[end] == !value
  {
    assert forall i: nat :: i < |b| ==> (i in ones <==> b[i]);
  }

  lemma Appended(now: seq<bool>, was: seq<bool>, value: bool, n: nat)
    requires |now| == |was| + n && now[..|was|] == was
    requires forall i :: |was| <= i < |now| ==> now[i] == value
    ensures now == was + Repeat(value, n)
  {
    assert now == now[..|was|] + now[|was|..];
    assert now[|was|..] == Repeat(value, n);
  }

  lemma AddsRun(b: seq<bool>, runs: seq<nat>, count: nat, end: nat)
    requires PackedUpTo(b, runs, count) && count <= end <= |b|
    requires forall i :: count <= i < end ==> b[i] == (|runs| % 2 == 0)
    requires |runs| > 0 ==> count < end
    ensures PackedUpTo(b, runs + [end - count], end)
  {
    var more := runs + [end - count];
    PrefixKept(runs, more, |runs|);
    Appended(b[..end], b[..count], |runs| % 2 == 0, end - count);
  }

  // ---- The packed form is unique ----

  /** Every bit of a run has the value of the run. */
  lemma {:induction false} BitOfRun(runs: seq<nat>, k: nat, i: nat, n: nat)
    requires k < n <= |runs| && SumTo(runs, k) <= i < SumTo(runs, k + 1)
    ensures i < |Expand(runs, n)| && Expand(runs, n)[i] == (k % 2 == 0)
    decreases n
  {
    ExpandNext(runs, n - 1);
    if k < n - 1 {
      SumGrows(runs, k + 1, n - 1);
      BitOfRun(runs, k, i, n - 1);
    }
  }

  lemma ExpandNext(runs: seq<nat>, n: nat)
    requires n < |runs|
    ensures |Expand(runs, n)| == SumTo(runs, n) && SumTo(runs, n + 1) == SumTo(runs, n) + runs[n]
    ensures Expand(runs, n + 1) == Expand(runs, n) + Repeat(n % 2 == 0, runs[n])
  {
    ExpandLength(runs, n);
  }

  /** Two packed forms of the same bits agree run by run. */
  lemma SameRun(b: seq<bool>, x: seq<nat>, y: seq<nat>, k: nat)
    requires PackedAs(b, x) && PackedAs(b, y) && k < |x| && k < |y| && SumTo(x, k) == SumTo(y, k)
    ensures x[k] >= y[k]
  {
    var i := SumTo(x, k + 1);
    if i < SumTo(y, k + 1) {
      BitOfRun(y, k, i, |y|);
      EndOfRun(b, x, k);
    }
  }

  /** Where a run of a packed form ends, the bits end or change. */
  lemma EndOfRun(b: seq<bool>, x: seq<nat>, k: nat)
    requires PackedAs(b, x) && k < |x|
    ensures SumTo(x, k + 1) < |b| ==> b[SumTo(x, k + 1)] == (k % 2 == 1)
  {
    if k + 1 < |x| {
      assert SumTo(x, k + 2) == SumTo(x, k + 1) + x[k + 1];
      BitOfRun(x, k + 1, SumTo(x, k + 1), |x|);
    }
  }

  lemma {:induction false} SameRuns(b: seq<bool>, x: seq<nat>, y: seq<nat>, k: nat)
    requires PackedAs(b, x) && PackedAs(b, y) && k <= |x| && k <= |y|
    ensures SumTo(x, k) == SumTo(y, k) && forall i :: 0 <= i < k ==> x[i] == y[i]
  {
    if k > 0 {
      SameRuns(b, x, y, k - 1);
      SameRun(b, x, y, k - 1);
      SameRun(b, y, x, k - 1);
    }
  }

  /** Packing what was unpacked gives the same runs exactly when they were
      canonical: a bitmap has one packed form. */
  lemma PackedFormUnique(b: seq<bool>, x: seq<nat>, y: seq<nat>)
    requires PackedAs(b, x) && SumTo(y, |y|) == |b| && Expand(y, |y|) == b
    ensures x == y <==> Canonical(y)
  {
    if Canonical(y) {
      var n := if |x| <= |y| then |x| else |y|;
      SameRuns(b, x, y, n);
      if n < |y| { SumGrows(y, n + 1, |y|); }
      if n < |x| { SumGrows(x, n + 1, |x|); }
    }
  }

  // ---- Unpacking ----

  /** How reading the runs of a stream ends.  In an overrun bits outside the
      bitmap are set. */
  datatype Outcome = Accepted | Rejected | Overrun

  datatype Unpacked = Bad | Good(bits: seq<bool>)

  predicate Headed(stream: seq<nat>) { |stream| >= 2 && stream[0] == 0x7270_6d62 }

  /** What a stream is meant to stand for: the announced length must be the sum
      of the runs. */
  function Meaning(stream: seq<nat>): (r: Unpacked) {
    if !Headed(stream) then Bad
    else
      var runs := stream[2..];
      if SumTo(runs, |runs|) != stream[1] then Bad else Good(Expand(runs, |runs|))
  }

  ghost predicate Words(s: seq<nat>) { forall i :: 0 <= i < |s| ==> s[i] < TWO64 }

  /** Where the source sees the end of the first k runs. */
  function Pos(runs: seq<nat>, k: nat): (bit: nat)
    requires k <= |runs|
  {
    SumTo(runs, k) % TWO64
  }

  lemma PosNext(runs: seq<nat>, k: nat)
    requires k < |runs|
    ensures Pos(runs, k + 1) == Add64(Pos(runs, k), runs[k])
  {
    assert SumTo(runs, k + 1) == SumTo(runs, k) + runs[k];
  }

  /** The first k runs pass the test of the bound. */
  ghost predicate InBounds(runs: seq<nat>, total: nat, k: nat)
    requires k <= |runs|
  {
    forall j :: 0 <= j <= k ==> Pos(runs, j) <= total
  }

  /** Run k is one of marked bits that begins inside and passes the test of the
      bound only because the sum wraps. */
  ghost predicate Overruns(runs: seq<nat>, total: nat, k: int) {
    && 0 <= k < |runs| && k % 2 == 0
    && Pos(runs, k) < total && Pos(runs, k) + runs[k] > TWO64 && InBounds(runs, total, k + 1)
  }

  /** All tests pass. */
  ghost predicate Passes(runs: seq<nat>, total: nat) {
    && InBounds(runs, total, |runs|) && Pos(runs, |runs|) == total
    && !exists k :: Overruns(runs, total, k)
  }

  /** The bits that are marked after k runs. */
  ghost function OnesAfter(runs: seq<nat>, total: nat, k: nat): (r: set<nat>)
    requires k <= |runs|
  {
    if k == 0 then {}
    else
      var before := OnesAfter(runs, total, k - 1);
      if (k - 1) % 2 == 0 then Marked(before, total, Pos(runs, k - 1), runs[k - 1]) else before
  }

  /** Without a wrap these are the bits that the runs stand for. */
  lemma {:induction false} OnesExpand(runs: seq<nat>, total: nat, k: nat)
    requires k <= |runs| && SumTo(runs, k) <= total < TWO64
    ensures |Expand(runs, k)| == SumTo(runs, k)
    ensures OnesAfter(runs, total, k) == OnesOf(Expand(runs, k), |Expand(runs, k)|)
  {
    if k == 0 {
      assert OnesOf([], 0) == {};
    } else {
      OnesExpand(runs, total, k - 1);
      OnesNextRun(runs, total, k - 1);
    }
  }

  lemma OnesNextRun(runs: seq<nat>, total: nat, k: nat)
    requires k < |runs| && SumTo(runs, k) + runs[k] <= total < TWO64
    requires |Expand(runs, k)| == SumTo(runs, k)
    requires OnesAfter(runs, total, k) == OnesOf(Expand(runs, k), |Expand(runs, k)|)
    ensures |Expand(runs, k + 1)| == SumTo(runs, k + 1)
    ensures OnesAfter(runs, total, k + 1) == OnesOf(Expand(runs, k + 1), |Expand(runs, k + 1)|)
  {
    var (a, n, value) := (Expand(runs, k), runs[k], k % 2 == 0);
    OnesAppend(a, value, n, total);
    assert Expand(runs, k + 1) == a + Repeat(value, n);
    assert Pos(runs, k) == |a|;
  }

  lemma OnesAppend(a: seq<bool>, value: bool, n: nat, total: nat)
    requires |a| + n <= total
    ensures OnesOf(a + Repeat(value, n), |a + Repeat(value, n)|) ==
      if value then Marked(OnesOf(a, |a|), total, |a|, n) else OnesOf(a, |a|)
  {
    var b := a + Repeat(value, n);
    forall i: nat ensures i in OnesOf(b, |b|) <==> i in OnesOf(a, |a|) || (value && |a| <= i < |b|) {}
  }

  lemma BitsExpand(runs: seq<nat>, bits: seq<bool>)
    requires SumTo(runs, |runs|) == |bits| < TWO64
    requires OnesOf(bits, |bits|) == OnesAfter(runs, |bits|, |runs|)
    ensures bits == Expand(runs, |runs|)
  {
    OnesExpand(runs, |bits|, |runs|);
    var b := Expand(runs, |runs|);
    forall i: nat | i < |bits| ensures bits[i] == b[i] {
      assert i in OnesOf(bits, |bits|) <==> bits[i];
      assert i in OnesOf(b, |b|) <==> b[i];
    }
  }

  /** A stream whose runs sum to the announced length passes. */
  lemma SumPasses(runs: seq<nat>, total: nat)
    requires SumTo(runs, |runs|) == total < TWO64
    ensures Passes(runs, total)
  {
    forall j | 0 <= j <= |runs| ensures Pos(runs, j) == SumTo(runs, j) <= total {
      SumGrows(runs, j, |runs|);
    }
    forall k | 0 <= k < |runs| ensures !Overruns(runs, total, k) {
      assert SumTo(runs, k + 1) == SumTo(runs, k) + runs[k];
    }
  }

  /** The sum reaches 2^64 and all tests pass all the same. */
  ghost predicate PassesByWrap(runs: seq<nat>, total: nat) {
    SumTo(runs, |runs|) >= TWO64 && Passes(runs, total)
  }

  /** What follows the length. */
  method UnpackRuns(total: nat, runs: seq<nat>) returns (b: Bitmap, o: Outcome)
    requires Words(runs) && total <= MAX_LEN
    ensures fresh(b) && fresh(b.buffer) && b.Valid() && b.total == total
    ensures o.Accepted? <==> SumTo(runs, |runs|) == total || PassesByWrap(runs, total)
    ensures o.Accepted? ==> b.Ones() == OnesAfter(runs, total, |runs|)
    ensures SumTo(runs, |runs|) == total ==> b.Bits() == Expand(runs, |runs|)
    ensures o.Overrun? <==> exists k :: Overruns(runs, total, k)
  {
    b := new Bitmap.Create(total);
    o := b.ReadRuns(runs);
    if SumTo(runs, |runs|) == total {
      SumPasses(runs, total);
      BitsExpand(runs, b.Bits());
    }
  }

  /** reiser4_bitmap_unpack.  Exactly the streams whose runs sum to the length
      they announce are accepted, but for those that pass because a sum of
      64-bit words wraps. */
  method Unpack(stream: seq<nat>) returns (r: Bitmap?, overrun: bool)
    requires Words(stream) && (|stream| >= 2 ==> stream[1] <= MAX_LEN)
    ensures r != null <==> Meaning(stream) != Bad || (Headed(stream) && PassesByWrap(stream[2..], stream[1]))
    ensures r != null ==> fresh(r) && fresh(r.buffer) && r.Valid() && Headed(stream) && r.total == stream[1]
    ensures r != null ==> r.Ones() == OnesAfter(stream[2..], stream[1], |stream| - 2)
    ensures Meaning(stream) != Bad ==> Meaning(stream) == Good(r.Bits())
    ensures overrun <==> Headed(stream) && exists k :: Overruns(stream[2..], stream[1], k)
  {
    if |stream| < 1 || stream[0] != MAGIC { return null, false; }
    if |stream| < 2 { return null, false; }
    var b, o := UnpackRuns(stream[1], stream[2..]);
    return if o.Accepted? then b else null, o.Overrun?;
  }

  /** Packing and unpacking gives the same bits and the same counter. */
  method PackThenUnpack(b: Bitmap) returns (r: Bitmap?)
    requires b.Valid()
    ensures r != null && fresh(r) && r.Valid()
    ensures r.total == b.total && r.Bits() == b.Bits() && r.marked == b.marked
  {
    var stream := b.Pack();
    var runs := stream[2..];
    assert stream[0] == stream[..2][0] && stream[1] == stream[..2][1];
    forall i | 0 <= i < |runs| ensures runs[i] <= b.total { RunAtMost(runs, i); }
    var overrun;
    r, overrun := Unpack(stream);
    HitsSame(r.buffer[..], b.buffer[..], b.total, 0, b.total, true);
  }

  lemma RunAtMost(runs: seq<nat>, i: nat)
    requires i < |runs|
    ensures runs[i] <= SumTo(runs, |runs|)
  {
    SumGrows(runs, i + 1, |runs|);
  }

  // ---- What the wraps do ----

  /** A stream that announces eight bits, has runs of five, of 2^64 - 2 and of
      five, and is accepted. */
  lemma WrappedStream()
    ensures var runs := [5, TWO64 - 2, 5]; Words(runs) && SumTo(runs, 3) != 8 && PassesByWrap(runs, 8)
  {
    var runs := [5, TWO64 - 2, 5];
    FourEnds(5, TWO64 - 2, 5);
    assert Pos(runs, 1) == 5 && Pos(runs, 2) == 3 && Pos(runs, 3) == 8;
  }

  /** One whose third run is handed to the marking of a region with a length
      of 2^64 - 2. */
  lemma OverrunStream()
    ensures var runs := [5, 0, TWO64 - 2, 5]; Words(runs) && Overruns(runs, 8, 2)
  {
    var runs := [5, 0, TWO64 - 2, 5];
    FourEnds(5, 0, TWO64 - 2);
    PrefixKept([5, 0, TWO64 - 2], runs, 3);
    PrefixKept([5, 0, TWO64 - 2], runs, 2);
    PrefixKept([5, 0, TWO64 - 2], runs, 1);
    assert Pos(runs, 0) == 0 && Pos(runs, 1) == 5 && Pos(runs, 2) == 5 && Pos(runs, 3) == 3;
  }

  lemma FourEnds(a: nat, b: nat, c: nat)
    ensures SumTo([a, b, c], 0) == 0 && SumTo([a, b, c], 1) == a
    ensures SumTo([a, b, c], 2) == a + b && SumTo([a, b, c], 3) == a + b + c
  {
  }

  /** Eight clear blocks, and the answer that the 2^64 - 2 blocks from the fifth
      on are all marked. */
  method WrappedRegion() returns (r: bool)
    ensures r
  {
    var b := new Bitmap.Create(8);
    r := b.TestRegion(5, TWO64 - 2, true);
    assert !AllAre(b.Ones(), 8, 5, TWO64 - 2, true);
  }

  /** A bit left behind the end comes back when bytes are added, and is not
      counted. */
  method Miscounted() returns (b: Bitmap)
    ensures b.Shaped() && b.Ones() != {} && !b.Valid()
  {
    b := new Bitmap.Create(TWO32);
    b.Mark(TWO32 - 1);
    assert TWO32 - 1 in b.Ones();
    b.Resize(TWO32 - 7);
    b.Resize(TWO32 + 8);
    assert TWO32 - 1 in b.Ones();
  }

  /** Inverting sets seven bits behind the end, which are not counted when bytes
      are added. */
  method InvertedMiscounted() returns (b: Bitmap)
    ensures b.Shaped() && !b.Valid()
  {
    b := new Bitmap.Create(TWO32 + 1);
    b.Invert();
    b.Resize(TWO32 + 100);
  }
}

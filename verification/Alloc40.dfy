/** The block allocator alloc40: the bitmap on disk, cut into chunks that each
    fill one block behind a checksum (plugin/alloc/alloc40). */
module Alloc40 {
  import opened Arithmetic
  import opened BlockSet
  import opened Bitmaps
  import opened Adler

  const CRC_SIZE: nat := 4

  /** The blocks a bitmap block describes can be computed in 32 bits; blocks
      have at most 8192 bytes. */
  predicate BlockSize(bs: nat) { 512 <= bs && 8 * bs < TWO32 }

  // ---- Where the chunks lie ----

  /** The bytes of a chunk, and the blocks it describes. */
  function MapSize(bs: nat): (n: nat)
    requires bs >= 512
  {
    bs - CRC_SIZE
  }

  function Bpb(bs: nat): (n: nat)
    requires bs >= 512
  {
    MapSize(bs) * 8
  }

  /** The block of the first chunk; the format area comes before it. */
  function First(bs: nat): (n: nat)
    requires bs >= 512
  {
    65536 / bs + 2
  }

  /** The first block chunk k describes. */
  function Begin(bs: nat, k: nat): (b: Blk)
    requires bs >= 512
  {
    if k == 0 then 0 else Begin(bs, k - 1) + Bpb(bs)
  }

  lemma {:induction false} BeginIs(bs: nat, k: nat)
    requires bs >= 512
    ensures Begin(bs, k) == k * Bpb(bs)
  {
    if k > 0 {
      BeginIs(bs, k - 1);
      assert (k - 1) * Bpb(bs) + Bpb(bs) == k * Bpb(bs);
    }
  }

  /** The block chunk k is kept in. */
  function Place(bs: nat, k: nat): (b: Blk)
    requires bs >= 512
  {
    if k == 0 then First(bs) else Begin(bs, k)
  }

  /** Chunk k describes (bs - 4) * 8 blocks, and lies on the first of them; the
      first chunk lies behind the two superblocks at byte 65536. */
  lemma WhereChunksLie(bs: nat, k: nat)
    requires bs >= 512
    ensures Begin(bs, k) == k * ((bs - 4) * 8)
    ensures Place(bs, k) == if k == 0 then 65536 / bs + 2 else k * ((bs - 4) * 8)
  {
    BeginIs(bs, k);
  }

  /** The chunks a bitmap of total bits is cut into. */
  function Chunks(bs: nat, total: nat): (n: nat)
    requires bs >= 512
  {
    ((total + 7) / 8 + MapSize(bs) - 1) / MapSize(bs)
  }

  /** The checksums alloc40_create makes room for. */
  function CreatedSums(bs: nat, total: nat): (n: nat)
    requires bs >= 512
  {
    (total + 7) / 8 / MapSize(bs)
  }

  /** The checksums alloc40_open and alloc40_unpack make room for; the sum is
      one of 32-bit words. */
  function OpenedSums(bs: nat, total: nat): (n: nat)
    requires bs >= 512
  {
    ((total + 7) / 8 + MapSize(bs) - 1) % TWO32 / MapSize(bs)
  }

  /** The sum does not wrap. */
  predicate SumsFit(bs: nat, total: nat)
    requires bs >= 512
  {
    (total + 7) / 8 + MapSize(bs) - 1 < TWO32
  }

  /** No block that begins a chunk lies in the stretch, as long as the format
      area, behind the end of the filesystem. */
  ghost predicate Fits(bs: nat, total: nat)
    requires bs >= 512
  {
    forall k: nat {:trigger Place(bs, k)} :: k >= 1 ==> !(total <= Place(bs, k) < total + First(bs))
  }

  lemma FirstFits(bs: nat)
    requires bs >= 512
    ensures First(bs) <= 130 < 4064 <= Bpb(bs)
  {
    assert 65536 / bs <= 128 by { if 65536 / bs >= 129 { Times(65536 / bs, 129, bs); DivMod(65536, bs); } }
  }

  /** Chunk k describes block b exactly when b lies in the k-th stretch. */
  lemma PlaceOf(bs: nat, k: nat)
    requires bs >= 512
    ensures Place(bs, k) / Bpb(bs) == k
  {
    FirstFits(bs);
    BeginIs(bs, k);
    Quotient(Bpb(bs), Place(bs, k), k);
  }

  lemma PlacesGrow(bs: nat, i: nat, j: nat)
    requires bs >= 512 && i < j
    ensures Place(bs, i) < Place(bs, j)
    ensures i >= 1 ==> Place(bs, i) + Bpb(bs) <= Place(bs, j)
  {
    FirstFits(bs);
    BeginsGrow(bs, i, j);
  }

  lemma {:induction false} BeginsGrow(bs: nat, i: nat, j: nat)
    requires bs >= 512 && i < j
    ensures Begin(bs, i) + Bpb(bs) <= Begin(bs, j)
  {
    if i < j - 1 { BeginsGrow(bs, i, j - 1); }
  }

  lemma NextPlace(bs: nat, k: nat)
    requires bs >= 512
    ensures (Place(bs, k) / Bpb(bs) + 1) * Bpb(bs) == Place(bs, k + 1) > Place(bs, k)
    ensures Place(bs, k) / Bpb(bs) == k
  {
    PlaceOf(bs, k);
    PlacesGrow(bs, k, k + 1);
    BeginIs(bs, k + 1);
  }

  /** The k-th chunk is needed exactly when it begins before the end. */
  lemma ChunkNeeded(bs: nat, total: nat, k: nat)
    requires bs >= 512
    ensures k < Chunks(bs, total) <==> Begin(bs, k) < total
  {
    BeginIs(bs, k);
    var (m, size) := (MapSize(bs), (total + 7) / 8);
    Quotient(m, size + m - 1, Chunks(bs, total));
    var n := Chunks(bs, total);
    assert n * m <= size + m - 1 < n * m + m;
    if k < n { Times(n, k + 1, m); } else { Times(k, n, m); }
    assert (k + 1) * m == k * m + m;
    assert k < n <==> k * m < size;
    EightTimes(k, m);
  }

  /** alloc40_layout: the blocks it calls its callback for. */
  method Layout(bs: nat, total: nat) returns (visits: seq<Blk>)
    requires BlockSize(bs) && total <= MAX_LEN
    ensures forall i: nat :: i < |visits| ==> visits[i] == Place(bs, i)
    ensures forall i: nat :: i < |visits| <==> Place(bs, i) < First(bs) + total
  {
    var bpb := Bpb(bs);
    var start := First(bs);
    var blk := start;
    visits := [];
    FirstFits(bs);
    while blk < start + total
      invariant blk == Place(bs, |visits|)
      invariant forall i: nat :: i < |visits| ==> visits[i] == Place(bs, i) && visits[i] < start + total
      decreases start + total - blk
    {
      NextPlace(bs, |visits|);
      visits := visits + [blk];
      blk := (blk / bpb + 1) * bpb;
    }
    forall i: nat ensures i < |visits| <==> Place(bs, i) < First(bs) + total {
      if i > |visits| { PlacesGrow(bs, |visits|, i); }
    }
  }

  /** The layout visits each chunk of the bitmap once and nothing else exactly
      when no chunk would begin just behind the end of the filesystem. */
  lemma LayoutExact(bs: nat, total: nat, n: nat)
    requires bs >= 512
    requires forall i: nat :: i < n <==> Place(bs, i) < First(bs) + total
    ensures n == Chunks(bs, total) <==> Fits(bs, total)
    ensures n >= Chunks(bs, total)
  {
    FirstFits(bs);
    forall k: nat ensures k < Chunks(bs, total) <==> Begin(bs, k) < total { ChunkNeeded(bs, total, k); }
    var c := Chunks(bs, total);
    assert n < n <==> Place(bs, n) < First(bs) + total;
    assert c < n <==> Place(bs, c) < First(bs) + total;
    if !Fits(bs, total) {
      var k: nat :| k >= 1 && total <= Place(bs, k) < total + First(bs);
      assert k < n && k >= Chunks(bs, total);
    }
  }

  // ---- Bits, bytes and chunks ----

  function Bit(b: bool, weight: nat): (n: nat) { if b then weight else 0 }

  function ByteOf(b: seq<bool>): (v: Byte)
    requires |b| == 8
  {
    (Bit(b[0], 1) + Bit(b[1], 2) + Bit(b[2], 4) + Bit(b[3], 8) +
     Bit(b[4], 16) + Bit(b[5], 32) + Bit(b[6], 64) + Bit(b[7], 128)) as Byte
  }

  /** Bits as a binary number, the lowest one first. */
  function Binary(b: seq<bool>): (n: nat) {
    if b == [] then 0 else (if b[0] then 1 else 0) + 2 * Binary(b[1..])
  }

  /** The bits of a byte are numbered from the lowest one. */
  lemma ByteIsBinary(b: seq<bool>)
    requires |b| == 8
    ensures ByteOf(b) as int == Binary(b)
  {
    FourBits(b[..4]);
    FourBits(b[4..]);
    assert b == b[..4] + b[4..];
    BinaryAppend(b[..4], b[4..]);
  }

  lemma FourBits(b: seq<bool>)
    requires |b| == 4
    ensures Binary(b) == Bit(b[0], 1) + Bit(b[1], 2) + Bit(b[2], 4) + Bit(b[3], 8)
  {
    assert b[1..][1..] == b[2..] && b[2..][1..] == b[3..] && b[3..][1..] == [];
    assert Binary(b[3..]) == Bit(b[3], 1) && Binary(b[2..]) == Bit(b[2], 1) + 2 * Binary(b[3..]);
    assert Binary(b[1..]) == Bit(b[1], 1) + 2 * Binary(b[2..]);
  }

  lemma BinaryAppend(a: seq<bool>, b: seq<bool>)
    requires |a| == 4
    ensures Binary(a + b) == Binary(a) + 16 * Binary(b)
  {
    var c := a + b;
    FourBits(a);
    assert c[1..][1..] == c[2..] && c[2..][1..] == c[3..] && c[3..][1..] == b;
    assert Binary(c[3..]) == Bit(a[3], 1) + 2 * Binary(b) && Binary(c[2..]) == Bit(a[2], 1) + 2 * Binary(c[3..]);
    assert Binary(c[1..]) == Bit(a[1], 1) + 2 * Binary(c[2..]);
  }

  /** The i-th byte of a buffer of bits. */
  function ByteAt(bits: seq<bool>, i: nat): (v: Byte)
    requires 8 * i + 8 <= |bits|
  {
    ByteOf(bits[8 * i..8 * i + 8])
  }

  function Bytes(bits: seq<bool>): (s: seq<Byte>)
    requires |bits| % 8 == 0
    ensures |s| == |bits| / 8
  {
    seq(|bits| / 8, i requires 0 <= i < |bits| / 8 => ByteAt(bits, i))
  }

  /** Bytes are equal exactly when their bits are. */
  lemma ByteBits(x: seq<bool>, y: seq<bool>, i: nat)
    requires 8 * i + 8 <= |x| && 8 * i + 8 <= |y|
    ensures ByteAt(x, i) == ByteAt(y, i) <==> x[8 * i..8 * i + 8] == y[8 * i..8 * i + 8]
  {
    if ByteAt(x, i) == ByteAt(y, i) { EightBits(x[8 * i..8 * i + 8], y[8 * i..8 * i + 8]); }
  }

  lemma EightBits(a: seq<bool>, b: seq<bool>)
    requires |a| == 8 && |b| == 8 && ByteOf(a) == ByteOf(b)
    ensures a == b
  {
    assert a[7] == b[7] && a[6] == b[6] && a[5] == b[5] && a[4] == b[4];
    assert a[3] == b[3] && a[2] == b[2] && a[1] == b[1] && a[0] == b[0];
  }

  /** What the buffer holds for chunk k; the last chunk may be short. */
  function Chunk(bs: nat, bits: seq<bool>, k: nat): (c: seq<bool>)
    requires bs >= 512 && Begin(bs, k) <= |bits|
    ensures |c| <= Bpb(bs)
  {
    bits[Begin(bs, k)..if Begin(bs, k + 1) <= |bits| then Begin(bs, k + 1) else |bits|]
  }

  /** A short chunk is filled up with marked bits. */
  function Padded(bs: nat, c: seq<bool>): (p: seq<bool>)
    requires bs >= 512 && |c| <= Bpb(bs)
    ensures |p| == Bpb(bs)
  {
    c + Repeat(true, Bpb(bs) - |c|)
  }

  function ChunkSum(bs: nat, c: seq<bool>): (n: nat)
    requires bs >= 512 && |c| <= Bpb(bs)
  {
    Checksum(0, Bytes(Padded(bs, c)))
  }

  /** A block of the bitmap on disk. */
  datatype Block = Block(crc: nat, data: seq<bool>)

  // ---- Storage ----

  /** The buffer holds whole bytes, enough for total bits. */
  ghost predicate Sized(bits: seq<bool>, total: nat) { |bits| == 8 * ((total + 7) / 8) }

  lemma ChunkInside(bs: nat, total: nat, bits: seq<bool>, k: nat)
    requires bs >= 512 && Sized(bits, total) && k < Chunks(bs, total)
    ensures Begin(bs, k) < |bits|
  {
    ChunkNeeded(bs, total, k);
  }

  /** Every position lies in one of the chunks. */
  lemma ChunkOf(bs: nat, total: nat, bits: seq<bool>, i: nat) returns (k: nat)
    requires bs >= 512 && Sized(bits, total) && i < |bits|
    ensures k < Chunks(bs, total) && Begin(bs, k) <= i < Begin(bs, k + 1)
  {
    k := i / Bpb(bs);
    FirstFits(bs);
    DivMod(i, Bpb(bs));
    BeginIs(bs, k);
    var (m, size) := (MapSize(bs), (total + 7) / 8);
    EightTimes(k, m);
    assert k * m < size;
    Quotient(m, size + m - 1, Chunks(bs, total));
    if Chunks(bs, total) <= k { Times(k, Chunks(bs, total), m); }
  }

  /** Two buffers with the same chunks are the same. */
  lemma SameChunks(bs: nat, total: nat, x: seq<bool>, y: seq<bool>)
    requires bs >= 512 && Sized(x, total) && Sized(y, total)
    requires forall k: nat {:trigger Begin(bs, k)} :: k < Chunks(bs, total) && Begin(bs, k) <= |x| ==>
      Chunk(bs, x, k) == Chunk(bs, y, k)
    ensures x == y
  {
    forall i | 0 <= i < |x| ensures x[i] == y[i] {
      var k := ChunkOf(bs, total, x, i);
      assert Chunk(bs, x, k)[i - Begin(bs, k)] == x[i];
      assert Chunk(bs, y, k)[i - Begin(bs, k)] == y[i];
    }
  }

  /** Chunk k lies on the device as alloc40_sync writes it. */
  ghost predicate ChunkStored(bs: nat, blocks: map<Blk, Block>, bits: seq<bool>, k: nat)
    requires bs >= 512
  {
    && Begin(bs, k) <= |bits| && Place(bs, k) in blocks
    && blocks[Place(bs, k)] == Block(ChunkSum(bs, Chunk(bs, bits, k)), Padded(bs, Chunk(bs, bits, k)))
  }

  ghost predicate Stored(bs: nat, total: nat, blocks: map<Blk, Block>, bits: seq<bool>)
    requires bs >= 512
  {
    StoredUpTo(bs, blocks, bits, Chunks(bs, total))
  }

  /** The buffer and the checksums hold what the device has for chunk k. */
  ghost predicate ChunkLoaded(bs: nat, blocks: map<Blk, Block>, bits: seq<bool>, crc: seq<nat>, k: nat)
    requires bs >= 512
  {
    && Begin(bs, k) <= |bits| && Place(bs, k) in blocks && k < |crc|
    && crc[k] == blocks[Place(bs, k)].crc
    && Chunk(bs, bits, k) <= blocks[Place(bs, k)].data
  }

  ghost predicate Loaded(bs: nat, total: nat, blocks: map<Blk, Block>, bits: seq<bool>, crc: seq<nat>)
    requires bs >= 512
  {
    LoadedUpTo(bs, blocks, bits, crc, Chunks(bs, total))
  }

  ghost predicate ChunkSound(bs: nat, bits: seq<bool>, crc: seq<nat>, k: nat)
    requires bs >= 512
  {
    Begin(bs, k) <= |bits| && k < |crc| && crc[k] == ChunkSum(bs, Chunk(bs, bits, k))
  }

  /** The checksum of every chunk is right. */
  ghost predicate Sound(bs: nat, total: nat, bits: seq<bool>, crc: seq<nat>)
    requires bs >= 512
  {
    forall k: nat {:trigger ChunkSound(bs, bits, crc, k)} :: k < Chunks(bs, total) ==> ChunkSound(bs, bits, crc, k)
  }

  /** What alloc40_sync wrote is what alloc40_open reads: the same bits, with
      checksums that are right. */
  lemma StoredLoads(bs: nat, total: nat, blocks: map<Blk, Block>, x: seq<bool>, y: seq<bool>, crc: seq<nat>)
    requires bs >= 512 && Sized(x, total) && Sized(y, total)
    requires Stored(bs, total, blocks, x) && Loaded(bs, total, blocks, y, crc)
    ensures x == y && Sound(bs, total, y, crc)
  {
    forall k: nat | k < Chunks(bs, total)
      ensures Begin(bs, k) <= |x| && Chunk(bs, x, k) == Chunk(bs, y, k) && ChunkSound(bs, y, crc, k)
    {
      assert ChunkStored(bs, blocks, x, k) && ChunkLoaded(bs, blocks, y, crc, k);
      var (c, d) := (Chunk(bs, x, k), Chunk(bs, y, k));
      assert |c| == |d| && Padded(bs, c)[..|c|] == c;
      assert d == blocks[Place(bs, k)].data[..|d|];
    }
    SameChunks(bs, total, x, y);
  }

  lemma Slice(s: seq<bool>, n: nat, a: nat, b: nat)
    requires a <= b <= n <= |s|
    ensures s[..n][a..b] == s[a..b]
  {
  }

  lemma {:induction false} BeginWhole(bs: nat, k: nat)
    requires bs >= 512
    ensures Begin(bs, k) % 8 == 0
  {
    if k > 0 { BeginWhole(bs, k - 1); }
  }

  lemma ChunkWhole(bs: nat, total: nat, bits: seq<bool>, k: nat)
    requires bs >= 512 && Sized(bits, total) && Begin(bs, k) <= |bits|
    ensures |Chunk(bs, bits, k)| % 8 == 0
  {
    BeginWhole(bs, k);
    BeginWhole(bs, k + 1);
  }

  /** Byte i of the significant part of a stored block was overwritten. */
  ghost predicate ByteDamaged(was: Block, block: Block, size: nat, i: nat) {
    && block.crc == was.crc && |block.data| == |was.data|
    && 8 * i + 8 <= size <= |was.data|
    && block.data[8 * i..8 * i + 8] != was.data[8 * i..8 * i + 8]
    && block.data[..8 * i] == was.data[..8 * i] && block.data[8 * i + 8..] == was.data[8 * i + 8..]
  }

  /** The filling behind the significant part was overwritten. */
  ghost predicate FillDamaged(was: Block, block: Block, size: nat) {
    block.crc == was.crc && |block.data| == |was.data| && size <= |was.data| && block.data[..size] == was.data[..size]
  }

  /** alloc40_valid fails after an open when a stored checksum or a byte of a
      stored chunk was changed; a change in the filling of the last chunk goes
      unnoticed, and does no harm. */
  lemma DamageNoticed(bs: nat, total: nat, blocks: map<Blk, Block>, x: seq<bool>, y: seq<bool>, crc: seq<nat>, k: nat,
                      i: nat, was: Block, block: Block)
    requires bs >= 512 && Sized(x, total) && Sized(y, total) && k < Chunks(bs, total)
    requires ChunkStored(bs, blocks, x, k) && was == blocks[Place(bs, k)]
    requires Loaded(bs, total, blocks[Place(bs, k) := block], y, crc)
    ensures block.data == was.data && block.crc != was.crc ==> !Sound(bs, total, y, crc)
    ensures ByteDamaged(was, block, |Chunk(bs, x, k)|, i) ==> !Sound(bs, total, y, crc)
    ensures FillDamaged(was, block, |Chunk(bs, x, k)|) ==>
      ChunkSound(bs, y, crc, k) && Chunk(bs, y, k) == Chunk(bs, x, k)
  {
    assert ChunkLoaded(bs, blocks[Place(bs, k) := block], y, crc, k);
    var (c, d) := (Chunk(bs, x, k), Chunk(bs, y, k));
    assert d == block.data[..|d|] && |c| == |d| && was.data[..|c|] == c;
    ChunkWhole(bs, total, x, k);
    assert Sound(bs, total, y, crc) ==> ChunkSound(bs, y, crc, k);
    if ByteDamaged(was, block, |c|, i) {
      Slice(was.data, |c|, 8 * i, 8 * i + 8);
      Slice(was.data, |c|, 0, 8 * i);
      OneByteOff(bs, c, d, block.data, i);
    }
  }

  lemma OneByteOff(bs: nat, c: seq<bool>, d: seq<bool>, data: seq<bool>, i: nat)
    requires bs >= 512 && |c| == |d| <= Bpb(bs) && |c| % 8 == 0 && |data| == Bpb(bs) && d == data[..|d|]
    requires 8 * i + 8 <= |c| && data[8 * i..8 * i + 8] != c[8 * i..8 * i + 8]
    requires data[..8 * i] == c[..8 * i] && data[8 * i + 8..] == Padded(bs, c)[8 * i + 8..]
    ensures ChunkSum(bs, c) != ChunkSum(bs, d)
  {
    var p := Padded(bs, c);
    assert Padded(bs, d) == data;
    Outside(p, data, c, i);
    BytesDiffer(p, data, i);
    OneByteDetected(0, Bytes(p), i, Bytes(data)[i]);
  }

  lemma Outside(p: seq<bool>, data: seq<bool>, c: seq<bool>, i: nat)
    requires 8 * i + 8 <= |c| <= |p| == |data| && p[..|c|] == c
    requires data[8 * i..8 * i + 8] != c[8 * i..8 * i + 8]
    requires data[..8 * i] == c[..8 * i] && data[8 * i + 8..] == p[8 * i + 8..]
    ensures forall t :: 0 <= t < |p| && !(8 * i <= t < 8 * i + 8) ==> p[t] == data[t]
    ensures p[8 * i..8 * i + 8] != data[8 * i..8 * i + 8]
  {
    Slice(p, |c|, 8 * i, 8 * i + 8);
    assert forall t :: 0 <= t < 8 * i ==> data[t] == data[..8 * i][t] && p[t] == c[..8 * i][t];
    assert forall t :: 8 * i + 8 <= t < |p| ==>
      data[t] == data[8 * i + 8..][t - (8 * i + 8)] && p[t] == p[8 * i + 8..][t - (8 * i + 8)];
  }

  lemma BytesDiffer(p: seq<bool>, q: seq<bool>, i: nat)
    requires |p| == |q| && |p| % 8 == 0 && 8 * i + 8 <= |p|
    requires forall t :: 0 <= t < |p| && !(8 * i <= t < 8 * i + 8) ==> p[t] == q[t]
    requires p[8 * i..8 * i + 8] != q[8 * i..8 * i + 8]
    ensures Bytes(q) == Bytes(p)[i := Bytes(q)[i]] && Bytes(q)[i] != Bytes(p)[i]
  {
    var (u, v) := (Bytes(p), Bytes(q));
    forall j: nat | j < |u| && j != i ensures v[j] == u[j] { OtherByte(p, q, i, j); }
    ByteBits(p, q, i);
    assert v == u[i := v[i]];
  }

  lemma OtherByte(p: seq<bool>, q: seq<bool>, i: nat, j: nat)
    requires |p| == |q| && 8 * j + 8 <= |p| && j != i
    requires forall t :: 0 <= t < |p| && !(8 * i <= t < 8 * i + 8) ==> p[t] == q[t]
    ensures ByteAt(p, j) == ByteAt(q, j)
  {
    assert p[8 * j..8 * j + 8] == q[8 * j..8 * j + 8];
  }

  // ---- The allocator ----

  class Device {
    var blocks: map<Blk, Block>
  }

  /** One field of a packed allocator. */
  datatype Field = Length(total: nat) | Crc(crc: nat) | Bits(bits: seq<bool>)

  class Allocator {
    const bs: nat
    const bitmap: Bitmap
    const crc: array<nat>
    var dirty: bool

    ghost predicate Valid()
      reads this, bitmap, bitmap.buffer
    {
      BlockSize(bs) && bitmap.Valid()
    }

    /** A checksum is kept for every chunk. */
    predicate HasSums()
      requires bs >= 512
      reads this, bitmap
    {
      crc.Length == Chunks(bs, bitmap.total)
    }

    ghost function Buffer(): (r: seq<bool>)
      reads this, bitmap, bitmap.buffer
    {
      bitmap.buffer[..]
    }

    /** alloc40_open and alloc40_unpack before the chunks are read. */
    constructor Prepare(bs: nat, blocks: nat)
      requires BlockSize(bs) && blocks <= MAX_LEN && SumsFit(bs, blocks)
      ensures Valid() && HasSums() && fresh(bitmap) && fresh(bitmap.buffer) && fresh(crc)
      ensures this.bs == bs && bitmap.total == blocks && bitmap.Ones() == {} && !dirty
    {
      OpenedSumsSuffice(bs, blocks);
      this.bs := bs;
      bitmap := new Bitmap.Create(blocks);
      crc := new nat[OpenedSums(bs, blocks)](_ => 0);
      dirty := false;
    }

    /** alloc40_create: the checksums are fewer when the last chunk is short. */
    constructor Create(bs: nat, blocks: nat)
      requires BlockSize(bs) && blocks <= MAX_LEN
      ensures Valid() && fresh(bitmap) && fresh(bitmap.buffer) && fresh(crc)
      ensures this.bs == bs && bitmap.total == blocks && bitmap.Ones() == {} && dirty
      ensures crc.Length == CreatedSums(bs, blocks)
    {
      this.bs := bs;
      bitmap := new Bitmap.Create(blocks);
      crc := new nat[CreatedSums(bs, blocks)](_ => 0);
      dirty := true;
    }

    // ---- Blocks ----

    method Occupy(start: nat, count: nat)
      requires Valid() && (start >= bitmap.total || start + count <= TWO64)
      modifies this`dirty, bitmap`marked, bitmap.buffer
      ensures Valid() && dirty && bitmap.Ones() == Marked(old(bitmap.Ones()), bitmap.total, start, count)
    {
      bitmap.MarkRegion(start, count);
      dirty := true;
    }

    method Release(start: nat, count: nat)
      requires Valid() && (start >= bitmap.total || start + count <= TWO64)
      modifies this`dirty, bitmap`marked, bitmap.buffer
      ensures Valid() && dirty && bitmap.Ones() == Cleared(old(bitmap.Ones()), bitmap.total, start, count)
    {
      bitmap.ClearRegion(start, count);
      dirty := true;
    }

    /** The first free run, cut to count, becomes used. */
    method Allocate(count: nat) returns (start: nat, found: nat)
      requires Valid() && count > 0
      modifies this`dirty, bitmap`marked, bitmap.buffer
      ensures Valid() && found <= count
      ensures found == 0 <==> forall b: nat :: b < bitmap.total ==> b in old(bitmap.Ones())
      ensures found == 0 ==> bitmap.Ones() == old(bitmap.Ones())
      ensures found > 0 ==> Inside(bitmap.total, start, found) && Region(start, found) !! old(bitmap.Ones())
      ensures found > 0 ==> bitmap.Ones() == old(bitmap.Ones()) + Region(start, found) && dirty
      ensures found > 0 ==> forall b: nat :: b < start ==> b in old(bitmap.Ones())
      ensures 0 < found < count ==> start + found == bitmap.total || start + found in old(bitmap.Ones())
    {
      start, found := bitmap.FindRegion(0, count, false);
      assert bitmap.Ones() == old(bitmap.Ones());
      if found > 0 {
        assert start in Region(start, found) && start !in bitmap.Ones();
        bitmap.MarkRegion(start, found);
        dirty := true;
      }
    }

    // ---- Storage ----

    /** alloc40_sync: each chunk goes to its block, behind its checksum. */
    method Sync(dev: Device)
      requires Valid() && Fits(bs, bitmap.total)
      modifies dev, this`dirty
      ensures Stored(bs, bitmap.total, dev.blocks, Buffer()) && !dirty
      ensures forall b ::
        (forall k: nat {:trigger Place(bs, k)} :: k < Chunks(bs, bitmap.total) ==> b != Place(bs, k)) ==>
        (b in dev.blocks <==> b in old(dev.blocks)) && (b in dev.blocks ==> dev.blocks[b] == old(dev.blocks)[b])
    {
      ghost var (bits, total) := (Buffer(), bitmap.total);
      var visits := Layout(bs, bitmap.total);
      LayoutExact(bs, total, |visits|);
      var k: nat := 0;
      while k < |visits|
        invariant k <= |visits|
        invariant StoredUpTo(bs, dev.blocks, bits, k)
        invariant forall b :: (forall j: nat {:trigger Place(bs, j)} :: j < |visits| ==> b != Place(bs, j)) ==>
          (b in dev.blocks <==> b in old(dev.blocks)) && (b in dev.blocks ==> dev.blocks[b] == old(dev.blocks)[b])
      {
        ChunkInside(bs, total, bits, k);
        ghost var was := dev.blocks;
        var block := ChunkBlock(k);
        dev.blocks := dev.blocks[visits[k] := block];
        StoreStep(bs, was, dev.blocks, bits, k);
        k := k + 1;
      }
      dirty := false;
    }

    /** cb_sync_bitmap: a short chunk is filled with marked bits, in the block
        and for the checksum. */
    method ChunkBlock(k: nat) returns (block: Block)
      requires BlockSize(bs) && Begin(bs, k) <= bitmap.buffer.Length
      ensures block == Block(ChunkSum(bs, Chunk(bs, Buffer(), k)), Padded(bs, Chunk(bs, Buffer(), k)))
    {
      var chunk := ReadChunk(k);
      var data := chunk + Repeat(true, Bpb(bs) - |chunk|);
      var adler := Adler32(0, Bytes(data));
      block := Block(adler, data);
    }

    method ReadChunk(k: nat) returns (chunk: seq<bool>)
      requires bs >= 512 && Begin(bs, k) <= bitmap.buffer.Length
      ensures chunk == Chunk(bs, Buffer(), k)
    {
      var (from, to) := (Begin(bs, k), Begin(bs, k + 1));
      chunk := bitmap.buffer[from..if to <= bitmap.buffer.Length then to else bitmap.buffer.Length];
    }

    /** cb_valid_block. */
    method CheckChunk(k: nat) returns (right: bool)
      requires BlockSize(bs) && Begin(bs, k) <= bitmap.buffer.Length && k < crc.Length
      ensures right <==> ChunkSound(bs, Buffer(), crc[..], k)
    {
      var block := ChunkBlock(k);
      right := crc[k] == block.crc;
    }

    /** alloc40_valid: whether every chunk has the checksum it was loaded with. */
    method Check() returns (ok: bool)
      requires Valid() && HasSums() && Fits(bs, bitmap.total)
      ensures ok <==> Sound(bs, bitmap.total, Buffer(), crc[..])
    {
      ghost var (bits, sums, total) := (Buffer(), crc[..], bitmap.total);
      var visits := Layout(bs, bitmap.total);
      LayoutExact(bs, total, |visits|);
      ok := true;
      var k: nat := 0;
      while k < |visits|
        invariant k <= |visits|
        invariant ok <==> forall j: nat {:trigger ChunkSound(bs, bits, sums, j)} :: j < k ==>
          ChunkSound(bs, bits, sums, j)
      {
        ChunkInside(bs, total, bits, k);
        var right := CheckChunk(k);
        ok := ok && right;
        k := k + 1;
      }
    }

    /** One chunk is copied into the buffer with its checksum. */
    method TakeChunk(k: nat, c: nat, data: seq<bool>)
      requires bs >= 512 && Begin(bs, k) <= bitmap.buffer.Length && k < crc.Length
      requires |data| >= |Chunk(bs, Buffer(), k)|
      modifies bitmap.buffer, crc
      ensures Chunk(bs, Buffer(), k) == data[..|Chunk(bs, Buffer(), k)|] && crc[k] == c
      ensures forall j :: 0 <= j < crc.Length && j != k ==> crc[j] == old(crc[j])
      ensures Buffer()[..Begin(bs, k)] == old(Buffer()[..Begin(bs, k)])
    {
      var (from, to) := (Begin(bs, k), Begin(bs, k + 1));
      var end := if to <= bitmap.buffer.Length then to else bitmap.buffer.Length;
      forall i | from <= i < end { bitmap.buffer[i] := data[i - from]; }
      crc[k] := c;
      forall i | 0 <= i < end - from ensures Buffer()[from..end][i] == data[i] {
        assert Buffer()[from + i] == bitmap.buffer[from + i];
      }
      assert Buffer()[from..end] == data[..end - from];
      assert Chunk(bs, Buffer(), k) == Buffer()[from..end];
    }

    /** cb_fetch_bitmap. */
    method FetchChunk(dev: Device, k: nat, blk: Blk)
      requires bs >= 512 && bitmap.Shaped() && k < crc.Length && Begin(bs, k) <= bitmap.buffer.Length
      requires blk == Place(bs, k) && blk in dev.blocks && |dev.blocks[blk].data| == Bpb(bs)
      requires LoadedUpTo(bs, dev.blocks, Buffer(), crc[..], k)
      modifies bitmap.buffer, crc
      ensures LoadedUpTo(bs, dev.blocks, Buffer(), crc[..], k + 1)
    {
      ghost var (bits, sums) := (Buffer(), crc[..]);
      var block := dev.blocks[blk];
      TakeChunk(k, block.crc, block.data);
      LoadStep(bs, dev.blocks, bits, Buffer(), sums, crc[..], k);
    }

    /** The chunks are read one by one; it fails when a block cannot be read. */
    method Fetch(dev: Device) returns (ok: bool)
      requires Valid() && HasSums() && Fits(bs, bitmap.total)
      requires forall b :: b in dev.blocks ==> |dev.blocks[b].data| == Bpb(bs)
      modifies bitmap.buffer, crc
      ensures !ok <==>
        exists k: nat {:trigger Place(bs, k)} :: k < Chunks(bs, bitmap.total) && Place(bs, k) !in dev.blocks
      ensures ok ==> Loaded(bs, bitmap.total, dev.blocks, Buffer(), crc[..])
    {
      ghost var total := bitmap.total;
      var visits := Layout(bs, bitmap.total);
      LayoutExact(bs, total, |visits|);
      var k: nat := 0;
      while k < |visits|
        invariant k <= |visits| && LoadedUpTo(bs, dev.blocks, Buffer(), crc[..], k)
        invariant forall j: nat {:trigger Place(bs, j)} :: j < k ==> Place(bs, j) in dev.blocks
      {
        ChunkInside(bs, total, Buffer(), k);
        if visits[k] !in dev.blocks { return false; }
        FetchChunk(dev, k, visits[k]);
        k := k + 1;
      }
      ok := true;
    }

    /** alloc40_open: the bitmap is read and its marked blocks counted. */
    static method Open(dev: Device, bs: nat, blocks: nat) returns (a: Allocator?)
      requires BlockSize(bs) && blocks <= MAX_LEN && Fits(bs, blocks) && SumsFit(bs, blocks)
      requires forall b :: b in dev.blocks ==> |dev.blocks[b].data| == Bpb(bs)
      ensures a == null <==>
        exists k: nat {:trigger Place(bs, k)} :: k < Chunks(bs, blocks) && Place(bs, k) !in dev.blocks
      ensures a != null ==> fresh(a) && a.Valid() && a.HasSums() && a.bs == bs && a.bitmap.total == blocks && !a.dirty
      ensures a != null ==> Loaded(bs, blocks, dev.blocks, a.Buffer(), a.crc[..])
    {
      var b := new Allocator.Prepare(bs, blocks);
      var ok := b.Fetch(dev);
      if !ok { return null; }
      var n := b.bitmap.CalcMarked();
      return b;
    }

    /** alloc40_pack: the length, then checksum and bits of every chunk. */
    method Pack() returns (stream: seq<Field>)
      requires Valid() && HasSums() && Fits(bs, bitmap.total)
      ensures StreamOf(bs, bitmap.total, Buffer(), crc[..], stream)
    {
      ghost var (bits, total) := (Buffer(), bitmap.total);
      stream := [Length(bitmap.total)];
      var visits := Layout(bs, bitmap.total);
      LayoutExact(bs, total, |visits|);
      var k: nat := 0;
      while k < |visits|
        invariant k <= |visits| && |stream| == 1 + 2 * k && stream[0] == Length(total)
        invariant forall j: nat {:trigger ChunkPacked(bs, bits, crc[..], stream, j)} :: j < k ==>
          ChunkPacked(bs, bits, crc[..], stream, j)
      {
        ChunkInside(bs, total, bits, k);
        ghost var was := stream;
        var chunk := ReadChunk(k);
        stream := stream + [Crc(crc[k]), Bits(chunk)];
        forall j: nat | j <= k ensures ChunkPacked(bs, bits, crc[..], stream, j) {
          if j < k { assert ChunkPacked(bs, bits, crc[..], was, j); }
        }
        k := k + 1;
      }
    }

    /** The chunks are taken from the stream; it fails when a field is missing
        or has the wrong size. */
    method TakeFields(stream: seq<Field>) returns (ok: bool)
      requires Valid() && HasSums() && Fits(bs, bitmap.total) && stream != [] && stream[0] == Length(bitmap.total)
      modifies bitmap.buffer, crc
      ensures ok ==> StreamHolds(bs, bitmap.total, Buffer(), crc[..], stream)
      ensures !ok ==> NoStream(bs, stream)
    {
      ghost var total := bitmap.total;
      var visits := Layout(bs, bitmap.total);
      LayoutExact(bs, total, |visits|);
      var k: nat := 0;
      while k < |visits|
        invariant k <= |visits| && FieldsUpTo(bs, Buffer(), crc[..], stream, k)
      {
        ChunkInside(bs, total, Buffer(), k);
        ghost var (bits, sums) := (Buffer(), crc[..]);
        var chunk := ReadChunk(k);
        if |stream| <= 2 * k + 2 || !stream[2 * k + 1].Crc? || !stream[2 * k + 2].Bits? ||
           |stream[2 * k + 2].bits| != |chunk| {
          ShortStream(bs, total, bits, stream, k);
          return false;
        }
        TakeChunk(k, stream[2 * k + 1].crc, stream[2 * k + 2].bits);
        PackStep(bs, stream, bits, Buffer(), sums, crc[..], k);
        k := k + 1;
      }
      ok := true;
    }

    /** alloc40_unpack: an allocator with the packed length, bits and checksums
        comes back, unless the stream ends early. */
    static method Unpack(bs: nat, stream: seq<Field>) returns (a: Allocator?)
      requires BlockSize(bs)
      requires stream != [] && stream[0].Length? ==>
        stream[0].total <= MAX_LEN && Fits(bs, stream[0].total) && SumsFit(bs, stream[0].total)
      ensures a != null ==> fresh(a) && a.Valid() && a.HasSums() && a.bs == bs && a.dirty
      ensures a != null ==> StreamHolds(bs, a.bitmap.total, a.Buffer(), a.crc[..], stream)
      ensures a == null ==> NoStream(bs, stream)
    {
      if stream == [] || !stream[0].Length? { return null; }
      var b := new Allocator.Prepare(bs, stream[0].total);
      var ok := b.TakeFields(stream);
      if !ok { return null; }
      b.dirty := true;
      var n := b.bitmap.CalcMarked();
      return b;
    }
  }

  /** What is stored opens with the same bits and the same counter, and passes
      the check. */
  method SyncThenOpen(a: Allocator, dev: Device) returns (b: Allocator?, ok: bool)
    requires a.Valid() && Fits(a.bs, a.bitmap.total) && SumsFit(a.bs, a.bitmap.total)
    requires forall c :: c in dev.blocks ==> |dev.blocks[c].data| == Bpb(a.bs)
    modifies dev, a`dirty
    ensures b != null && fresh(b) && b.Valid() && !b.dirty && ok
    ensures b.bitmap.total == a.bitmap.total && b.Buffer() == a.Buffer() && b.bitmap.marked == a.bitmap.marked
  {
    var bs, total := a.bs, a.bitmap.total;
    a.Sync(dev);
    forall k: nat | k < Chunks(bs, total) ensures Place(bs, k) in dev.blocks {
      assert ChunkStored(bs, dev.blocks, a.Buffer(), k);
    }
    forall c | c in dev.blocks ensures |dev.blocks[c].data| == Bpb(bs) {
      if k: nat {:trigger Place(bs, k)} :| k < Chunks(bs, total) && c == Place(bs, k) {
        assert ChunkStored(bs, dev.blocks, a.Buffer(), k);
      }
    }
    b := Allocator.Open(dev, bs, total);
    StoredLoads(bs, total, dev.blocks, a.Buffer(), b.Buffer(), b.crc[..]);
    ok := b.Check();
  }

  /** What is packed unpacks to the same bits, counter and checksums. */
  method PackThenUnpack(a: Allocator) returns (b: Allocator?)
    requires a.Valid() && a.HasSums() && Fits(a.bs, a.bitmap.total) && SumsFit(a.bs, a.bitmap.total)
    ensures b != null && fresh(b) && b.Valid() && b.HasSums() && b.dirty && b.bs == a.bs
    ensures b.bitmap.total == a.bitmap.total && b.Buffer() == a.Buffer() && b.bitmap.marked == a.bitmap.marked
    ensures b.crc[..] == a.crc[..]
  {
    var bs, total := a.bs, a.bitmap.total;
    var stream := a.Pack();
    b := Allocator.Unpack(bs, stream);
    assert !NoStream(bs, stream);
    PackedUnpacks(bs, total, a.Buffer(), a.crc[..], b.bitmap.total, b.Buffer(), b.crc[..], stream);
  }

  ghost predicate StoredUpTo(bs: nat, blocks: map<Blk, Block>, bits: seq<bool>, n: nat)
    requires bs >= 512
  {
    forall k: nat {:trigger ChunkStored(bs, blocks, bits, k)} :: k < n ==> ChunkStored(bs, blocks, bits, k)
  }

  /** Writing a chunk leaves the earlier ones in place. */
  lemma StoreStep(bs: nat, a: map<Blk, Block>, b: map<Blk, Block>, bits: seq<bool>, k: nat)
    requires bs >= 512 && StoredUpTo(bs, a, bits, k) && ChunkStored(bs, b, bits, k)
    requires b == a[Place(bs, k) := b[Place(bs, k)]]
    ensures StoredUpTo(bs, b, bits, k + 1)
  {
    forall j: nat | j < k + 1 ensures ChunkStored(bs, b, bits, j) {
      if j < k {
        assert ChunkStored(bs, a, bits, j);
        PlacesGrow(bs, j, k);
      }
    }
  }

  /** The first n chunks hold what the device has. */
  ghost predicate LoadedUpTo(bs: nat, blocks: map<Blk, Block>, bits: seq<bool>, crc: seq<nat>, n: nat)
    requires bs >= 512
  {
    forall k: nat {:trigger ChunkLoaded(bs, blocks, bits, crc, k)} :: k < n ==> ChunkLoaded(bs, blocks, bits, crc, k)
  }

  lemma LoadStep(bs: nat, blocks: map<Blk, Block>, x: seq<bool>, y: seq<bool>, cx: seq<nat>, cy: seq<nat>, k: nat)
    requires bs >= 512 && |x| == |y| && |cx| == |cy| && k < |cx| && Begin(bs, k) <= |x|
    requires LoadedUpTo(bs, blocks, x, cx, k) && ChunkLoaded(bs, blocks, y, cy, k)
    requires x[..Begin(bs, k)] == y[..Begin(bs, k)] && forall j :: 0 <= j < |cx| && j != k ==> cx[j] == cy[j]
    ensures LoadedUpTo(bs, blocks, y, cy, k + 1)
  {
    forall j: nat | j < k + 1 ensures ChunkLoaded(bs, blocks, y, cy, j) {
      if j < k {
        assert ChunkLoaded(bs, blocks, x, cx, j);
        ChunkKept(bs, x, y, j, k);
      }
    }
  }

  ghost predicate FieldsUpTo(bs: nat, bits: seq<bool>, crc: seq<nat>, stream: seq<Field>, n: nat)
    requires bs >= 512
  {
    forall k: nat {:trigger ChunkPacked(bs, bits, crc, stream, k)} :: k < n ==> ChunkPacked(bs, bits, crc, stream, k)
  }

  lemma PackStep(bs: nat, stream: seq<Field>, x: seq<bool>, y: seq<bool>, cx: seq<nat>, cy: seq<nat>, k: nat)
    requires bs >= 512 && |x| == |y| && |cx| == |cy| && k < |cx| && Begin(bs, k) <= |x|
    requires FieldsUpTo(bs, x, cx, stream, k) && ChunkPacked(bs, y, cy, stream, k)
    requires x[..Begin(bs, k)] == y[..Begin(bs, k)] && forall j :: 0 <= j < |cx| && j != k ==> cx[j] == cy[j]
    ensures FieldsUpTo(bs, y, cy, stream, k + 1)
  {
    forall j: nat | j < k + 1 ensures ChunkPacked(bs, y, cy, stream, j) {
      if j < k {
        assert ChunkPacked(bs, x, cx, stream, j);
        ChunkKept(bs, x, y, j, k);
      }
    }
  }

  /** No packed allocator looks like this. */
  ghost predicate NoStream(bs: nat, stream: seq<Field>)
    requires bs >= 512
  {
    forall total, bits, crc :: Sized(bits, total) ==> !StreamOf(bs, total, bits, crc, stream)
  }

  /** The fields of chunk k in a packed allocator. */
  ghost predicate ChunkPacked(bs: nat, bits: seq<bool>, crc: seq<nat>, stream: seq<Field>, k: nat)
    requires bs >= 512
  {
    && Begin(bs, k) <= |bits| && k < |crc| && 2 * k + 2 < |stream|
    && stream[2 * k + 1] == Crc(crc[k]) && stream[2 * k + 2] == Bits(Chunk(bs, bits, k))
  }

  ghost predicate StreamHolds(bs: nat, total: nat, bits: seq<bool>, crc: seq<nat>, stream: seq<Field>)
    requires bs >= 512
  {
    && stream != [] && stream[0] == Length(total)
    && FieldsUpTo(bs, bits, crc, stream, Chunks(bs, total))
  }

  ghost predicate StreamOf(bs: nat, total: nat, bits: seq<bool>, crc: seq<nat>, stream: seq<Field>)
    requires bs >= 512
  {
    StreamHolds(bs, total, bits, crc, stream) && |stream| == 1 + 2 * Chunks(bs, total)
  }

  lemma ShortStream(bs: nat, total: nat, bits: seq<bool>, stream: seq<Field>, k: nat)
    requires bs >= 512 && Sized(bits, total) && k < Chunks(bs, total) && Begin(bs, k) <= |bits|
    requires stream != [] && stream[0] == Length(total)
    requires |stream| <= 2 * k + 2 || !stream[2 * k + 1].Crc? || !stream[2 * k + 2].Bits? ||
      |stream[2 * k + 2].bits| != |Chunk(bs, bits, k)|
    ensures NoStream(bs, stream)
  {
    forall t, b, c | Sized(b, t) ensures !StreamOf(bs, t, b, c, stream) {
      if stream[0] == Length(t) {
        assert |b| == |bits|;
        assert StreamOf(bs, t, b, c, stream) ==> ChunkPacked(bs, b, c, stream, k);
      }
    }
  }

  /** Packing and unpacking an allocator gives the same bits and checksums. */
  lemma PackedUnpacks(bs: nat, total: nat, x: seq<bool>, cx: seq<nat>, t: nat, y: seq<bool>, cy: seq<nat>,
                      stream: seq<Field>)
    requires bs >= 512 && Sized(x, total) && Sized(y, t) && |cx| == Chunks(bs, total) && |cy| == Chunks(bs, t)
    requires StreamOf(bs, total, x, cx, stream) && StreamHolds(bs, t, y, cy, stream)
    ensures t == total && x == y && cx == cy
  {
    forall k: nat | k < Chunks(bs, total)
      ensures Begin(bs, k) <= |x| && Chunk(bs, x, k) == Chunk(bs, y, k) && cx[k] == cy[k]
    {
      assert ChunkPacked(bs, x, cx, stream, k) && ChunkPacked(bs, y, cy, stream, k);
    }
    SameChunks(bs, total, x, y);
  }

  /** A chunk lies in front of the next ones. */
  lemma ChunkKept(bs: nat, x: seq<bool>, y: seq<bool>, j: nat, k: nat)
    requires bs >= 512 && j < k && |x| == |y| && Begin(bs, k) <= |x|
    requires x[..Begin(bs, k)] == y[..Begin(bs, k)]
    ensures Begin(bs, j) <= |x| && Chunk(bs, x, j) == Chunk(bs, y, j)
  {
    BeginsGrow(bs, j, k);
    if j + 1 < k { BeginsGrow(bs, j + 1, k); }
    var (p, from, to) := (x[..Begin(bs, k)], Begin(bs, j), Begin(bs, j + 1));
    assert x[from..to] == p[from..to] && y[from..to] == y[..Begin(bs, k)][from..to];
  }

  /** A created allocator has no place for the checksum of a short last chunk. */
  lemma CreatedSumsSuffice(bs: nat, total: nat)
    requires bs >= 512
    ensures CreatedSums(bs, total) == Chunks(bs, total) <==> (total + 7) / 8 % MapSize(bs) == 0
  {
    RoundedUp((total + 7) / 8, MapSize(bs));
  }

  /** Taking at least d off n takes at least one off n / d. */
  lemma Smaller(n: nat, less: nat, d: nat)
    requires 0 < d && less + d <= n
    ensures less / d < n / d
  {
    DivMod(n, d);
    DivMod(less, d);
    AtLeast(less / d, n / d, d);
  }

  lemma AtLeast(a: nat, b: nat, n: nat)
    ensures a >= b ==> a * n >= b * n
  {
    if a >= b { Times(a, b, n); }
  }

  /** An opened allocator has room for the checksum of every chunk exactly when
      the sum does not wrap. */
  lemma OpenedSumsSuffice(bs: nat, total: nat)
    requires BlockSize(bs) && total <= MAX_LEN
    ensures OpenedSums(bs, total) == Chunks(bs, total) <==> SumsFit(bs, total)
    ensures OpenedSums(bs, total) <= Chunks(bs, total)
  {
    var m, sum := MapSize(bs), (total + 7) / 8 + MapSize(bs) - 1;
    if sum >= TWO32 { Smaller(sum, sum % TWO32, m); }
  }

  // ---- All three on 4096-byte blocks ----

  /** A filesystem of 32736 blocks has one chunk, and the layout goes on to the
      block behind its end. */
  lemma ExtraChunk()
    ensures !Fits(4096, 32736) && Chunks(4096, 32736) == 1
    ensures Place(4096, 1) == 32736 < First(4096) + 32736
  {
    assert Begin(4096, 1) == Begin(4096, 0) + Bpb(4096);
    assert Place(4096, 1) == 32736;
  }

  /** One of 100 blocks has one chunk, and is created without a place for its
      checksum. */
  lemma NoSum()
    ensures Chunks(4096, 100) == 1 && CreatedSums(4096, 100) == 0 && Fits(4096, 100)
  {
    forall k: nat | k >= 1 ensures !(100 <= Place(4096, k) < 100 + First(4096)) {
      PlacesGrow(4096, 0, k);
      BeginIs(4096, k);
      Times(k, 1, Bpb(4096));
    }
  }

  /** One of 2^35 - 8 blocks is opened without any place for a checksum. */
  lemma NoRoom()
    ensures Fits(4096, MAX_LEN) && Chunks(4096, MAX_LEN) == 1049602 && OpenedSums(4096, MAX_LEN) == 0
  {
    forall k: nat | k >= 1 ensures !(MAX_LEN <= Place(4096, k) < MAX_LEN + First(4096)) {
      BeginIs(4096, k);
      assert Place(4096, k) == 32736 * k;
    }
  }

  lemma RoundedUp(n: nat, d: nat)
    requires d > 0
    ensures n / d == (n + d - 1) / d <==> n % d == 0
  {
    DivMod(n, d);
    DivMod(n + d - 1, d);
    Quotient(d, n + d - 1, n / d);
  }
}

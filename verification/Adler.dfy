/** aux_adler32 (libaux/aux.c), on 32-bit registers. */
module Adler {
  const BASE: nat := 65521
  const NMAX: nat := 5552
  const WORD: nat := 0x1_0000_0000

  newtype Byte = x: int | 0 <= x < 256

  /** The sum of the bytes. */
  function Sum(s: seq<Byte>): (n: nat) {
    if s == [] then 0 else Sum(s[..|s| - 1]) + s[|s| - 1] as int
  }

  /** Every byte weighed with its distance from the end. */
  function WeightedSum(s: seq<Byte>): (n: nat) {
    if s == [] then 0 else WeightedSum(s[..|s| - 1]) + Sum(s)
  }

  // ---- The definition: sums modulo 65521 (section 2.2 of RFC 1950) ----

  datatype Sums = Sums(s1: nat, s2: nat)

  /** One byte, reduced at once. */
  function Step(p: Sums, b: Byte): Sums {
    var s1 := (p.s1 + b as int) % BASE;
    Sums(s1, (p.s2 + s1) % BASE)
  }

  function Modular(p: Sums, s: seq<Byte>): Sums {
    if s == [] then Sums(p.s1 % BASE, p.s2 % BASE) else Step(Modular(p, s[..|s| - 1]), s[|s| - 1])
  }

  /** The registers a seed stands for; seed 0 is read as 1. */
  function Seed(adler: nat): (p: Sums)
  {
    var a := if adler == 0 then 1 else adler;
    Sums(a % 0x1_0000, a / 0x1_0000)
  }

  /** The checksum: an empty buffer leaves the seed alone. */
  function Checksum(adler: nat, s: seq<Byte>): (r: nat) {
    if s == [] then (if adler == 0 then 1 else adler)
    else Modular(Seed(adler), s).s2 * 0x1_0000 + Modular(Seed(adler), s).s1
  }

  // ---- What the deferred reduction computes ----

  lemma ModAdd(x: int, y: int)
    ensures (x % BASE + y) % BASE == (x + y) % BASE
  {
    var q := x / BASE;
    assert x == BASE * q + x % BASE;
    ModShift(x % BASE + y, q);
  }

  lemma ModShift(x: int, q: int)
    ensures (x + BASE * q) % BASE == x % BASE
  {
  }

  /** The definition in closed form: s1 is the seed plus the sum of the bytes,
      s2 adds up the values s1 takes. */
  lemma {:induction false} ModularIsSum(p: Sums, s: seq<Byte>)
    ensures Modular(p, s).s1 == (p.s1 + Sum(s)) % 65521
    ensures Modular(p, s).s2 == (p.s2 + |s| * p.s1 + WeightedSum(s)) % 65521
  {
    if s != [] {
      var front := s[..|s| - 1];
      ModularIsSum(p, front);
      ModAdd(p.s1 + Sum(front), s[|s| - 1] as int);
      var (x, y) := (p.s2 + |front| * p.s1 + WeightedSum(front), p.s1 + Sum(s));
      ModAdd(x, y % BASE);
      ModAdd(y, x);
      Distribute(|front|, p.s1);
      assert x + y == p.s2 + |s| * p.s1 + WeightedSum(s);
    }
  }

  lemma Distribute(n: nat, x: nat)
    ensures (n + 1) * x == n * x + x
  {
  }

  lemma Take(s: seq<Byte>, t: nat)
    requires t < |s|
    ensures s[..t + 1][..t] == s[..t] && s[..t + 1][t] == s[t]
  {
  }

  /** The registers agree with the definition modulo BASE. */
  ghost predicate Agree(s1: nat, s2: nat, p: Sums) { s1 % BASE == p.s1 && s2 % BASE == p.s2 }

  lemma AgreeStep(s1: nat, s2: nat, p: Sums, b: Byte)
    requires Agree(s1, s2, p)
    ensures Agree(s1 + b as int, s2 + s1 + b as int, Step(p, b))
  {
    var t := s1 + b as int;
    ModAdd(s1, b as int);
    ModAdd(s2, t);
    ModAdd(t, p.s2);
  }

  /** The largest value s2 can reach j bytes after a reduction. */
  function Peak(j: nat): (n: nat) {
    if j == 0 then 65535 else Peak(j - 1) + 65535 + 255 * j
  }

  lemma {:induction false} PeakClosed(j: nat)
    ensures 2 * Peak(j) == 2 * 65535 * (j + 1) + 255 * (j * (j + 1))
  {
    if j > 0 {
      PeakClosed(j - 1);
      assert (j - 1) * j + 2 * j == j * (j + 1);
    }
  }

  lemma {:induction false} PeakGrows(i: nat, j: nat)
    requires i <= j
    ensures Peak(i) <= Peak(j)
  {
    if i < j { PeakGrows(i, j - 1); }
  }

  /** NMAX bytes fit: one more could wrap around. */
  lemma NmaxFits()
    ensures Peak(NMAX) == 4_294_773_495 < WORD <= Peak(NMAX + 1)
  {
    PeakClosed(NMAX);
    PeakClosed(NMAX + 1);
  }

  /** t bytes are summed, the last j of them without a reduction. */
  ghost predicate Summed(seed: Sums, buff: seq<Byte>, t: nat, j: nat, s1: nat, s2: nat) {
    && t <= |buff| && Agree(s1, s2, Modular(seed, buff[..t]))
    && s1 <= 65535 + 255 * j && s2 <= Peak(j)
  }

  /** The next byte does not wrap the registers around. */
  lemma SummedStep(seed: Sums, buff: seq<Byte>, t: nat, j: nat, s1: nat, s2: nat)
    requires Summed(seed, buff, t, j, s1, s2) && t < |buff| && j < NMAX
    ensures var (u1, u2) := (s1 + buff[t] as int, s2 + s1 + buff[t] as int);
      u1 < WORD && u2 < WORD && Summed(seed, buff, t + 1, j + 1, u1, u2)
  {
    NmaxFits();
    PeakGrows(j + 1, NMAX);
    Take(buff, t);
    AgreeStep(s1, s2, Modular(seed, buff[..t]), buff[t]);
  }

  /** What holds between blocks: before the first byte the registers are the
      seed's, afterwards they are reduced. */
  ghost predicate Between(seed: Sums, buff: seq<Byte>, t: nat, s1: nat, s2: nat) {
    && t <= |buff| && s1 <= 65535 && s2 <= 65535
    && if t == 0 then s1 == seed.s1 && s2 == seed.s2 else Sums(s1, s2) == Modular(seed, buff[..t])
  }

  lemma BlockStarts(seed: Sums, buff: seq<Byte>, t: nat, s1: nat, s2: nat)
    requires Between(seed, buff, t, s1, s2)
    ensures Summed(seed, buff, t, 0, s1, s2)
  {
    Reduced(seed, buff[..t]);
    if t == 0 { assert buff[..0] == []; }
  }

  lemma BlockEnds(seed: Sums, buff: seq<Byte>, t: nat, j: nat, s1: nat, s2: nat)
    requires Summed(seed, buff, t, j, s1, s2) && t > 0
    ensures Between(seed, buff, t, s1 % BASE, s2 % BASE)
  {
  }

  lemma Finish(adler: nat, buff: seq<Byte>, s1: nat, s2: nat)
    requires adler < WORD && Between(Seed(adler), buff, |buff|, s1, s2)
    ensures s2 * 0x1_0000 % WORD + s1 == Checksum(adler, buff) < WORD
  {
    assert buff[..|buff|] == buff;
  }

  /** The loop with the reduction put off for NMAX bytes computes the checksum,
      for every seed and every buffer. */
  method Adler32(adler: nat, buff: seq<Byte>) returns (r: nat)
    requires adler < WORD && |buff| < WORD
    ensures r == Checksum(adler, buff) && r < WORD
  {
    ghost var seed := Seed(adler);
    var a := if adler == 0 then 1 else adler;
    var s1: nat, s2: nat := a % 0x1_0000, a / 0x1_0000;
    var n: nat, t: nat := |buff|, 0;
    while n > 0
      invariant t + n == |buff| && Between(seed, buff, t, s1, s2)
    {
      var k: nat := if n < NMAX then n else NMAX;
      n := n - k;
      ghost var j: nat := 0;
      BlockStarts(seed, buff, t, s1, s2);
      while k > 0
        invariant t + k + n == |buff| && j + k <= NMAX && j + k > 0 && t >= j
        invariant Summed(seed, buff, t, j, s1, s2)
      {
        SummedStep(seed, buff, t, j, s1, s2);
        s1 := Add(s1, buff[t] as int);
        s2 := Add(s2, s1);
        k, t, j := k - 1, t + 1, j + 1;
      }
      BlockEnds(seed, buff, t, j, s1, s2);
      s1, s2 := s1 % BASE, s2 % BASE;
    }
    Finish(adler, buff, s1, s2);
    r := s2 * 0x1_0000 % WORD + s1;
  }

  /** Addition of 32-bit registers. */
  function Add(x: nat, y: nat): (r: nat)
    ensures x + y < WORD ==> r == x + y
  {
    (x + y) % WORD
  }

  // ---- Detection ----

  lemma {:induction false} SumWith(s: seq<Byte>, i: nat, b: Byte)
    requires i < |s|
    ensures Sum(s[i := b]) == Sum(s) - s[i] as int + b as int
  {
    var n := |s| - 1;
    if i < n {
      SumWith(s[..n], i, b);
      assert s[i := b][..n] == s[..n][i := b];
    } else {
      assert s[i := b][..n] == s[..n];
    }
  }

  /** Changing any one byte changes the checksum, whatever the seed. */
  lemma OneByteDetected(adler: nat, s: seq<Byte>, i: nat, b: Byte)
    requires i < |s| && s[i] != b
    ensures Checksum(adler, s[i := b]) != Checksum(adler, s)
  {
    FirstSumDiffers(Seed(adler), s, i, b);
    var (x, y) := (Modular(Seed(adler), s), Modular(Seed(adler), s[i := b]));
    LowHalf(x.s2, x.s1, y.s2, y.s1);
  }

  lemma LowHalf(a: nat, x: nat, b: nat, y: nat)
    requires x < 0x1_0000 && y < 0x1_0000 && x != y
    ensures a * 0x1_0000 + x != b * 0x1_0000 + y
  {
  }

  lemma FirstSumDiffers(p: Sums, s: seq<Byte>, i: nat, b: Byte)
    requires i < |s| && s[i] != b
    ensures Modular(p, s[i := b]).s1 != Modular(p, s).s1
    ensures Modular(p, s[i := b]).s1 < BASE && Modular(p, s).s1 < BASE
  {
    var u := s[i := b];
    ModularIsSum(p, s);
    ModularIsSum(p, u);
    SumWith(s, i, b);
    Close(p.s1 + Sum(s), p.s1 + Sum(u));
    Reduced(p, s);
    Reduced(p, u);
  }

  lemma Reduced(p: Sums, s: seq<Byte>)
    ensures Modular(p, s).s1 < BASE && Modular(p, s).s2 < BASE
  {
  }

  lemma Close(x: int, y: int)
    requires x != y && x - y < BASE && y - x < BASE
    ensures x % BASE != y % BASE
  {
    assert x == BASE * (x / BASE) + x % BASE && y == BASE * (y / BASE) + y % BASE;
  }
}

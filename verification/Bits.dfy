/** Single bits of a 64-bit word, indexed by ordinary numbers. */
module Bits {
  import opened Words

  function Index(g: nat): (i: byte)
    requires g < 64
    ensures i < 64
  {
    ByteOfInt(g);
    ByteOrder(g as byte, 64);
    g as byte
  }

  /** `1 << g`. */
  function Mask(g: nat): bv64
    requires g < 64
  {
    (1 as bv64) << Index(g)
  }

  /** `x << n`, one place at a time. */
  function Shl(x: bv64, n: nat): bv64 {
    if n == 0 then x else Shl(x, n - 1) << 1
  }

  predicate Bit(x: bv64, g: nat)
    requires g < 64
  {
    At(x, Index(g))
  }

  predicate At(x: bv64, i: byte)
    requires i < 64
  {
    x & ((1 as bv64) << i) != 0
  }

  // ---- Facts about words -------------------------------------------------------

  lemma ByteOrder(a: byte, b: byte)
    ensures a < b <==> a as int < b as int
  {
  }

  lemma ByteSame(a: byte, b: byte)
    ensures a == b <==> a as int == b as int
  {
  }

  lemma ShlAt(x: bv64, i: byte)
    requires 0 < i < 64
    ensures At(x << 1, i) <==> At(x, i - 1)
  {
  }

  lemma ShlLow(x: bv64)
    ensures !At(x << 1, 0)
  {
  }

  lemma OrAt(x: bv64, i: byte, j: byte)
    requires i < 64 && j < 64
    ensures At(x | ((1 as bv64) << i), j) <==> j == i || At(x, j)
  {
  }

  lemma OneAt(i: byte)
    requires i < 64
    ensures At(1, i) <==> i == 0
  {
  }

  // ---- The same with ordinary numbers ------------------------------------------

  lemma IndexSame(g: nat, h: nat)
    requires g < 64 && h < 64
    ensures Index(g) == Index(h) <==> g == h
  {
    ByteOfInt(g);
    ByteOfInt(h);
  }

  lemma IndexNext(g: nat)
    requires g < 63
    ensures Index(g) < 63 && Index(g + 1) == Index(g) + 1
  {
    ByteOfInt(g);
    ByteOfInt(g + 1);
    ByteOrder(Index(g), 63);
    NextByte(Index(g));
    ByteSame(Index(g + 1), Index(g) + 1);
  }

  lemma IndexZero()
    ensures Index(0) == 0
  {
    ByteOfInt(0);
    ByteSame(Index(0), 0);
  }

  lemma Shl1Bit(x: bv64, g: nat)
    requires g < 64
    ensures Bit(x << 1, g) <==> g >= 1 && Bit(x, g - 1)
  {
    if g == 0 {
      IndexZero();
      ShlLow(x);
    } else {
      IndexNext(g - 1);
      ShlAt(x, Index(g));
    }
  }

  /** Shifting left by `n` moves every bit up by `n` and fills with zeros. */
  lemma {:induction false} ShlBit(x: bv64, n: nat, g: nat)
    requires g < 64
    ensures Bit(Shl(x, n), g) <==> g >= n && Bit(x, g - n)
  {
    if n > 0 {
      Shl1Bit(Shl(x, n - 1), g);
      if g >= 1 {
        ShlBit(x, n - 1, g - 1);
      }
    }
  }

  /** Setting bit `g` changes that bit and no other. */
  lemma OrBit(x: bv64, g: nat, h: nat)
    requires g < 64 && h < 64
    ensures Bit(x | Mask(g), h) <==> h == g || Bit(x, h)
  {
    IndexSame(g, h);
    OrAt(x, Index(g), Index(h));
  }

  lemma OneBit(g: nat)
    requires g < 64
    ensures Bit(1, g) <==> g == 0
  {
    IndexZero();
    IndexSame(g, 0);
    OneAt(Index(g));
  }

  /** `count_ones`, over the first `n` bits. */
  function Ones(x: bv64, n: nat): (c: nat)
    requires n <= 64
    ensures c <= n
  {
    if n == 0 then 0 else Ones(x, n - 1) + if Bit(x, n - 1) then 1 else 0
  }
}

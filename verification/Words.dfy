/** Machine words: bytes, wrapping 32-bit sequence numbers and big-endian fields. */
module Words {

  type byte = bv8

  type u16 = n: int | 0 <= n < 0x1_0000
  type u32 = n: int | 0 <= n < 0x1_0000_0000
  type u64 = n: int | 0 <= n < 0x1_0000_0000_0000_0000

  datatype Option<+T> = None | Some(value: T)

  datatype Result<+T, +E> = Ok(value: T) | Err(error: E)

  /** `a.wrapping_add(b)` on u32. */
  function WrapAdd(a: u32, b: u32): u32 {
    (a + b) % 0x1_0000_0000
  }

  /** `a.wrapping_sub(b)` on u32: the forward distance from `b` to `a` on the circle. */
  function WrapSub(a: u32, b: u32): u32 {
    (a - b) % 0x1_0000_0000
  }

  /** Big-endian bytes of an n-byte word. */
  function BigEndian(n: nat, width: nat): (s: seq<byte>)
    ensures |s| == width
  {
    if width == 0 then []
    else BigEndian(n / 256, width - 1) + [(n % 256) as byte]
  }

  /** The number a big-endian byte string stands for. */
  function FromBigEndian(s: seq<byte>): (n: nat) {
    if s == [] then 0
    else FromBigEndian(s[..|s| - 1]) * 256 + s[|s| - 1] as int
  }

  function Pow256(width: nat): (p: nat)
    ensures p >= 1
  {
    if width == 0 then 1 else 256 * Pow256(width - 1)
  }

  lemma IntOfByte(b: byte)
    ensures (b as int) as byte == b
  {
  }

  lemma NextByte(b: byte)
    requires b != 255
    ensures (b + 1) as int == b as int + 1
  {
  }

  lemma {:induction false} ByteFor(n: nat) returns (b: byte)
    requires n < 256
    ensures b as int == n
  {
    if n == 0 {
      b := 0;
    } else {
      b := ByteFor(n - 1);
      NextByte(b);
      b := b + 1;
    }
  }

  lemma ByteOfInt(n: nat)
    requires n < 256
    ensures (n as byte) as int == n
  {
    var b := ByteFor(n);
    IntOfByte(b);
  }

  lemma {:induction false} FromBigEndianBound(s: seq<byte>)
    ensures FromBigEndian(s) < Pow256(|s|)
  {
    if s != [] {
      FromBigEndianBound(s[..|s| - 1]);
    }
  }

  lemma {:induction false} DecodeBigEndian(n: nat, width: nat)
    requires n < Pow256(width)
    ensures FromBigEndian(BigEndian(n, width)) == n
  {
    if width > 0 {
      DecodeBigEndian(n / 256, width - 1);
      var s := BigEndian(n, width);
      assert s[..|s| - 1] == BigEndian(n / 256, width - 1);
      ByteOfInt(n % 256);
    }
  }

  lemma BigEndianLast(n: nat, high: nat, low: nat, width: nat)
    requires n == high * 256 + low && low < 256
    ensures BigEndian(n, width + 1) == BigEndian(high, width) + [low as byte]
  {
    assert n / 256 == high && n % 256 == low;
  }

  lemma FromBigEndianLast(s: seq<byte>, last: byte)
    ensures FromBigEndian(s + [last]) == FromBigEndian(s) * 256 + last as int
  {
    assert (s + [last])[..|s|] == s;
  }

  lemma {:induction false} EncodeBigEndian(s: seq<byte>)
    ensures BigEndian(FromBigEndian(s), |s|) == s
  {
    if s != [] {
      var high, last := s[..|s| - 1], s[|s| - 1];
      assert s == high + [last];
      EncodeBigEndian(high);
      FromBigEndianLast(high, last);
      BigEndianLast(FromBigEndian(s), FromBigEndian(high), last as int, |high|);
      IntOfByte(last);
    }
  }

  lemma LastByte(n: nat, width: nat)
    requires width > 0
    ensures BigEndian(n, width)[width - 1] == (n % 256) as byte
    ensures forall i :: 0 <= i < width - 1 ==> BigEndian(n, width)[i] == BigEndian(n / 256, width - 1)[i]
  {
  }

  /** The most significant byte comes first. */
  lemma BigEndianOrder(n: nat)
    ensures BigEndian(n, 4)[3] == BigEndian(n, 2)[1] == (n % 256) as byte
    ensures BigEndian(n, 4)[2] == BigEndian(n, 2)[0] == (n / 256 % 256) as byte
    ensures BigEndian(n, 4)[1] == (n / 256 / 256 % 256) as byte
    ensures BigEndian(n, 4)[0] == (n / 256 / 256 / 256 % 256) as byte
  {
    LastByte(n, 4);
    LastByte(n, 2);
    LastByte(n / 256, 3);
    LastByte(n / 256, 1);
    LastByte(n / 256 / 256, 2);
    LastByte(n / 256 / 256 / 256, 1);
  }

  lemma Pow256Values()
    ensures Pow256(2) == 0x1_0000
    ensures Pow256(4) == 0x1_0000_0000
    ensures Pow256(8) == 0x1_0000_0000_0000_0000
  {
    assert Pow256(1) == 256;
    assert Pow256(3) == 256 * Pow256(2);
    assert Pow256(5) == 256 * Pow256(4);
    assert Pow256(6) == 256 * Pow256(5);
    assert Pow256(7) == 256 * Pow256(6);
  }

  /** Stepping from `b` by the distance to `a` reaches `a`. */
  lemma WrapForward(a: u32, b: u32)
    ensures (b + WrapSub(a, b)) % 0x1_0000_0000 == a
  {
  }

  // ---- Division facts ----------------------------------------------------------

  lemma MulAtLeast(d: int, c: int)
    requires c > 0
    ensures d >= 1 ==> d * c >= c
    ensures d <= -1 ==> d * c <= -c
  {
  }

  lemma DivUnique(x: int, c: int, q: int, r: int)
    requires c > 0 && x == q * c + r && 0 <= r < c
    ensures x / c == q && x % c == r
  {
    var d := q - x / c;
    assert x == (x / c) * c + x % c;
    assert d * c == x % c - r;
    MulAtLeast(d, c);
  }

  /** Reducing by a multiple of `c` first does not change the residue modulo `c`. */
  lemma ModOfMod(n: int, m: int, c: int)
    requires m > 0 && c > 0 && m % c == 0
    ensures (n % m) % c == n % c
  {
    var k, q, r := m / c, n / m, n % m;
    assert m == k * c;
    assert n == q * m + r && r == (r / c) * c + r % c;
    assert q * m == (q * k) * c;
    DivUnique(n, c, q * k + r / c, r % c);
  }

  lemma CloseAndCongruent(a: int, b: int, c: int)
    requires c > 0 && a % c == b % c && -c < a - b < c
    ensures a == b
  {
    var d := a / c - b / c;
    assert a == (a / c) * c + a % c && b == (b / c) * c + b % c;
    assert d * c == a - b;
    MulAtLeast(d, c);
  }

  /** `out[at..at + |src|].copy_from_slice(src)`, extending the part already written. */
  method CopyInto(out: array<byte>, at: nat, src: seq<byte>)
    requires at + |src| <= out.Length
    modifies out
    ensures out[..at + |src|] == old(out[..at]) + src
    ensures forall j :: at + |src| <= j < out.Length ==> out[j] == old(out[j])
  {
    for k := 0 to |src|
      invariant out[..at + k] == old(out[..at]) + src[..k]
      invariant forall j :: at + k <= j < out.Length ==> out[j] == old(out[j])
    {
      out[at + k] := src[k];
      assert out[..at + k + 1] == out[..at + k] + [src[k]];
      assert src[..k + 1] == src[..k] + [src[k]];
    }
    assert src[..|src|] == src;
  }
}

/**
 A second detection law of the checksum. The generator polynomial has an even number of terms, so
 a shift of the register keeps the parity of its bits, and every packet that parses has an even
 number of one bits. Flipping any odd number of bits, anywhere and however far apart, is
 therefore noticed.

 Parities are booleans, combined by "differs from"; the lemmas about strings take the parity of a
 byte and of the register as parameters, which keeps bit arithmetic out of them.
 */
module OddErrors {
  import opened Words
  import opened Checksum
  import opened Packet

  // ---- Counting bits -----------------------------------------------------------

  /** `i` as a shift amount. */
  function Place(i: nat): bv16 {
    match i
    case 0 => 0 case 1 => 1 case 2 => 2 case 3 => 3 case 4 => 4 case 5 => 5 case 6 => 6 case 7 => 7
    case 8 => 8 case 9 => 9 case 10 => 10 case 11 => 11 case 12 => 12 case 13 => 13 case 14 => 14
    case _ => 15
  }

  predicate At(c: bv16, place: bv16)
    requires place < 16
  {
    (c >> place) & 1 == 1
  }

  lemma PlaceFits(i: nat)
    ensures Place(i) < 16
    ensures i < 15 ==> Place(i) < 15 && Place(i + 1) == Place(i) + 1
  {
  }

  type Bits = seq<bool>

  /** The sixteen bits of a register, lowest first. */
  function BitsOf(c: bv16): (s: Bits)
    ensures |s| == 16
  {
    seq(16, i requires 0 <= i < 16 => PlaceFits(i); At(c, Place(i)))
  }

  /** The number of ones. */
  function Ones(s: Bits): nat {
    if s == [] then 0 else Ones(s[..|s| - 1]) + if s[|s| - 1] then 1 else 0
  }

  /** Whether it is odd. */
  predicate Parity(s: Bits) {
    if s == [] then false else Parity(s[..|s| - 1]) != s[|s| - 1]
  }

  predicate OddRegister(c: bv16) {
    Parity(BitsOf(c))
  }

  /** The number of ones in a byte, and its parity. */
  function ByteOnes(b: byte): nat {
    Ones(BitsOf(High(b)))
  }

  predicate OddByte(b: byte) {
    OddRegister(High(b))
  }

  predicate IsOdd(n: nat) {
    n % 2 == 1
  }

  /** How many bits differ between two strings. */
  function Flips(a: seq<byte>, b: seq<byte>): nat
    requires |a| == |b|
  {
    if a == [] then 0
    else
      var n := |a| - 1;
      Flips(a[..n], b[..n]) + ByteOnes(a[n] ^ b[n])
  }

  lemma {:induction false} OnesParity(s: Bits)
    ensures IsOdd(Ones(s)) == Parity(s)
  {
    if s != [] {
      OnesParity(s[..|s| - 1]);
    }
  }

  // ---- Bits under XOR and shift ------------------------------------------------

  ghost predicate XorOf(x: Bits, y: Bits, z: Bits) {
    |x| == |y| == |z| && forall i :: 0 <= i < |z| ==> (z[i] <==> x[i] != y[i])
  }

  lemma {:induction false} XorParity(x: Bits, y: Bits, z: Bits)
    requires XorOf(x, y, z)
    ensures Parity(z) <==> Parity(x) != Parity(y)
  {
    if z != [] {
      var n := |z| - 1;
      XorParity(x[..n], y[..n], z[..n]);
    }
  }

  lemma {:induction false} ShiftParity(x: Bits)
    ensures Parity([false] + x) == Parity(x)
  {
    if x == [] {
      assert [false] + x == [false];
    } else {
      var n := |x| - 1;
      ShiftParity(x[..n]);
      assert ([false] + x)[..n + 1] == [false] + x[..n];
    }
  }

  lemma XorAt(a: bv16, b: bv16, z: bv16, place: bv16)
    requires place < 16 && z == a ^ b
    ensures At(z, place) <==> At(a, place) != At(b, place)
  {
  }

  lemma ShiftAt(c: bv16, z: bv16, place: bv16, next: bv16)
    requires place < 15 && next == place + 1 && z == c << 1
    ensures At(z, next) <==> At(c, place)
  {
  }

  lemma ShiftLow(c: bv16, z: bv16)
    requires z == c << 1
    ensures !At(z, 0)
  {
  }

  lemma TopAt(c: bv16)
    ensures At(c, 15) <==> c & 0x8000 != 0
  {
  }

  lemma XorBits(a: bv16, b: bv16, z: bv16)
    requires z == a ^ b
    ensures XorOf(BitsOf(a), BitsOf(b), BitsOf(z))
  {
    var x, y, s := BitsOf(a), BitsOf(b), BitsOf(z);
    forall i | 0 <= i < 16 ensures s[i] <==> x[i] != y[i] {
      PlaceFits(i);
      XorAt(a, b, z, Place(i));
    }
  }

  lemma ShiftBits(c: bv16, z: bv16)
    requires z == c << 1
    ensures BitsOf(z) == [false] + BitsOf(c)[..15]
  {
    var s, x := BitsOf(z), BitsOf(c);
    ShiftLow(c, z);
    forall i | 0 <= i < 15 ensures s[i + 1] == x[i] {
      PlaceFits(i);
      PlaceFits(i + 1);
      ShiftAt(c, z, Place(i), Place(i + 1));
    }
    forall i | 0 <= i < 16 ensures s[i] == ([false] + x[..15])[i] {
      if i > 0 {
        assert s[i - 1 + 1] == x[i - 1];
      }
    }
  }

  // ---- The register ------------------------------------------------------------

  /** Parity is additive. */
  lemma RegisterXor(a: bv16, b: bv16, z: bv16)
    requires z == a ^ b
    ensures OddRegister(z) <==> OddRegister(a) != OddRegister(b)
  {
    XorBits(a, b, z);
    XorParity(BitsOf(a), BitsOf(b), BitsOf(z));
  }

  lemma RegisterShift(c: bv16, z: bv16)
    requires z == c << 1
    ensures OddRegister(z) <==> OddRegister(c) != (c & 0x8000 != 0)
  {
    ShiftBits(c, z);
    ShiftParity(BitsOf(c)[..15]);
    TopAt(c);
  }

  lemma {:induction false} SingleIsOdd(s: Bits, k: nat)
    requires k < |s| && forall i :: 0 <= i < |s| ==> (s[i] <==> i == k)
    ensures Parity(s)
  {
    var n := |s| - 1;
    if k == n {
      NoneIsEven(s[..n]);
    } else {
      SingleIsOdd(s[..n], k);
    }
  }

  lemma {:induction false} NoneIsEven(s: Bits)
    requires forall i :: 0 <= i < |s| ==> !s[i]
    ensures !Parity(s)
  {
    if s != [] {
      NoneIsEven(s[..|s| - 1]);
    }
  }

  lemma {:induction false} AllParity(s: Bits)
    requires forall i :: 0 <= i < |s| ==> s[i]
    ensures Parity(s) == IsOdd(|s|)
  {
    if s != [] {
      AllParity(s[..|s| - 1]);
    }
  }

  lemma TermBits(i: nat)
    requires i < 16
    ensures Place(i) < 16
    ensures At(0x1000, Place(i)) <==> i == 12
    ensures At(0x0020, Place(i)) <==> i == 5
    ensures At(0x0001, Place(i)) <==> i == 0
    ensures At(0xFFFF, Place(i))
  {
  }

  lemma TermsAreOdd()
    ensures OddRegister(0x1000) && OddRegister(0x0020) && OddRegister(0x0001)
  {
    var x, y, z := BitsOf(0x1000), BitsOf(0x0020), BitsOf(0x0001);
    forall i | 0 <= i < 16 ensures (x[i] <==> i == 12) && (y[i] <==> i == 5) && (z[i] <==> i == 0) {
      TermBits(i);
    }
    SingleIsOdd(x, 12);
    SingleIsOdd(y, 5);
    SingleIsOdd(z, 0);
  }

  /** The polynomial's low part has three terms. */
  lemma PolynomialIsOdd()
    ensures OddRegister(0x1021)
  {
    TermsAreOdd();
    RegisterXor(0x1000, 0x0020, 0x1020);
    RegisterXor(0x1020, 0x0001, 0x1021);
  }

  lemma StartIsEven()
    ensures !OddRegister(INIT)
  {
    var x := BitsOf(INIT);
    forall i | 0 <= i < 16 ensures x[i] {
      TermBits(i);
    }
    AllParity(x);
  }

  /** What falls off the top is made up for by the polynomial's three low terms. */
  lemma ShiftKeepsParity(c: bv16)
    ensures OddRegister(BitStep(c)) == OddRegister(c)
  {
    var z := c << 1;
    RegisterShift(c, z);
    if c & 0x8000 != 0 {
      PolynomialIsOdd();
      RegisterXor(z, 0x1021, BitStep(c));
    }
  }

  /** `f` keeps the parity `odd`. */
  ghost predicate Keeps(f: bv16 -> bv16, odd: bv16 -> bool) {
    forall c :: odd(f(c)) == odd(c)
  }

  lemma {:induction false} IterateKeeps(f: bv16 -> bv16, odd: bv16 -> bool, n: nat, c: bv16)
    requires Keeps(f, odd)
    ensures odd(Iterate(f, n, c)) == odd(c)
  {
    if n > 0 {
      IterateKeeps(f, odd, n - 1, f(c));
    }
  }

  lemma Shift8Keeps()
    ensures Keeps(Shift8, OddRegister)
  {
    forall c ensures OddRegister(BitStep(c)) == OddRegister(c) {
      ShiftKeepsParity(c);
    }
    assert Keeps(BitStep, OddRegister);
    forall c ensures OddRegister(Shift8(c)) == OddRegister(c) {
      IterateKeeps(BitStep, OddRegister, 8, c);
    }
  }

  // ---- Strings -----------------------------------------------------------------

  /** The parity of a string, given that of a byte. */
  predicate OddBytes(odd: byte -> bool, s: seq<byte>) {
    if s == [] then false else OddBytes(odd, s[..|s| - 1]) != odd(s[|s| - 1])
  }

  /** Absorbing a byte adds its parity to the register's. */
  ghost predicate Absorbs(f: bv16 -> bv16, register: bv16 -> bool, odd: byte -> bool) {
    forall c, b :: AbsorbsAt(f, register, odd, c, b)
  }

  ghost predicate AbsorbsAt(f: bv16 -> bv16, register: bv16 -> bool, odd: byte -> bool, c: bv16, b: byte) {
    register(ByteStep(f, c, b)) <==> register(c) != odd(b)
  }

  lemma CrcAbsorbs()
    ensures Absorbs(Shift8, OddRegister, OddByte)
  {
    Shift8Keeps();
    forall c: bv16, b: byte ensures AbsorbsAt(Shift8, OddRegister, OddByte, c, b) {
      AbsorbOne(c, High(b), c ^ High(b));
    }
  }

  lemma AbsorbOne(c: bv16, h: bv16, z: bv16)
    requires z == c ^ h && Keeps(Shift8, OddRegister)
    ensures OddRegister(Shift8(z)) <==> OddRegister(c) != OddRegister(h)
  {
    RegisterXor(c, h, z);
  }

  /** The register's parity is that of its start and of everything it has absorbed. */
  lemma {:induction false} CrcParity(f: bv16 -> bv16, register: bv16 -> bool, odd: byte -> bool, c: bv16, data: seq<byte>)
    requires Absorbs(f, register, odd)
    ensures register(Crc(f, c, data)) <==> register(c) != OddBytes(odd, data)
  {
    if data != [] {
      var n := |data| - 1;
      CrcParity(f, register, odd, c, data[..n]);
      assert AbsorbsAt(f, register, odd, Crc(f, c, data[..n]), data[n]);
    }
  }

  lemma {:induction false} OddConcat(odd: byte -> bool, a: seq<byte>, b: seq<byte>)
    ensures OddBytes(odd, a + b) <==> OddBytes(odd, a) != OddBytes(odd, b)
  {
    if b == [] {
      assert a + b == a;
    } else {
      var n := |b| - 1;
      OddConcat(odd, a, b[..n]);
      assert (a + b)[..|a + b| - 1] == a + b[..n];
    }
  }

  lemma Halves(c: bv16)
    ensures c == High((c >> 8) as byte) ^ (c & 0xFF)
    ensures High((c & 0xFF) as byte) == (c & 0xFF) << 8
    ensures c & 0xFF <= 0xFF
  {
  }

  lemma LowByteParity(x: bv16, z: bv16)
    requires x <= 0xFF && z == x << 8
    ensures OddRegister(z) == OddRegister(x)
  {
    LowByteMoves(x);
    Shift8Keeps();
    assert OddRegister(Shift8(x)) == OddRegister(x);
  }

  lemma HalvesParity(c: bv16, hi: byte, lo: byte)
    requires hi == (c >> 8) as byte && lo == (c & 0xFF) as byte
    ensures OddRegister(c) <==> OddByte(hi) != OddByte(lo)
  {
    Halves(c);
    RegisterXor(High(hi), c & 0xFF, c);
    LowByteParity(c & 0xFF, High(lo));
  }

  lemma TwoBytes(odd: byte -> bool, a: byte, b: byte)
    ensures OddBytes(odd, [a, b]) <==> odd(a) != odd(b)
  {
    assert [a, b][..1] == [a] && [a][..0] == [];
    assert OddBytes(odd, [a]) == odd(a);
  }

  lemma ChecksumParity(c: bv16)
    ensures OddBytes(OddByte, ChecksumBytes(c)) == OddRegister(c)
  {
    var hi, lo := (c >> 8) as byte, (c & 0xFF) as byte;
    HalvesParity(c, hi, lo);
    TwoBytes(OddByte, hi, lo);
  }

  ghost predicate FlipsAt(odd: byte -> bool, a: byte, b: byte) {
    IsOdd(ByteOnes(a ^ b)) <==> odd(a) != odd(b)
  }

  lemma FlipParity(a: byte, b: byte)
    ensures FlipsAt(OddByte, a, b)
  {
    HighXor(a, b, a ^ b);
    RegisterXor(High(a), High(b), High(a ^ b));
    OnesParity(BitsOf(High(a ^ b)));
  }

  lemma HighXor(a: byte, b: byte, z: byte)
    requires z == a ^ b
    ensures High(z) == High(a) ^ High(b)
  {
  }

  /** An odd number of flips changes the parity of a string, an even number does not. */
  lemma {:induction false} FlipsChangeParity(odd: byte -> bool, a: seq<byte>, b: seq<byte>)
    requires |a| == |b| && forall x, y :: FlipsAt(odd, x, y)
    ensures IsOdd(Flips(a, b)) <==> OddBytes(odd, a) != OddBytes(odd, b)
  {
    if a != [] {
      var n := |a| - 1;
      FlipsChangeParity(odd, a[..n], b[..n]);
      assert FlipsAt(odd, a[n], b[n]);
      OddSum(Flips(a[..n], b[..n]), ByteOnes(a[n] ^ b[n]));
    }
  }

  lemma OddSum(m: nat, n: nat)
    ensures IsOdd(m + n) <==> IsOdd(m) != IsOdd(n)
  {
  }

  // ---- Packets -----------------------------------------------------------------

  lemma PrintIsEven(h: Header, payload: seq<byte>)
    ensures !OddBytes(OddByte, Print(h, payload))
  {
    var covered := Covered(h, payload);
    StartIsEven();
    CrcAbsorbs();
    CrcParity(Shift8, OddRegister, OddByte, INIT, covered);
    ChecksumParity(Crc16(covered));
    OddConcat(OddByte, covered, ChecksumBytes(Crc16(covered)));
  }

  /** Whatever parses has an even number of one bits. */
  lemma ParsesOnlyEven(buf: seq<byte>)
    requires Parse(buf).Ok?
    ensures !OddBytes(OddByte, buf)
  {
    Reprint(buf);
    var v := Parse(buf).value;
    PrintIsEven(v.header, v.payload);
  }

  /** No change of an odd number of bits, anywhere in a printed packet, gets past the parser. */
  lemma OddErrorDetected(h: Header, payload: seq<byte>, bad: seq<byte>)
    requires |bad| == |Print(h, payload)| && IsOdd(Flips(Print(h, payload), bad))
    ensures Parse(bad).Err?
  {
    PrintIsEven(h, payload);
    forall x, y ensures FlipsAt(OddByte, x, y) {
      FlipParity(x, y);
    }
    FlipsChangeParity(OddByte, Print(h, payload), bad);
    if Parse(bad).Ok? {
      ParsesOnlyEven(bad);
    }
  }
}

/**
 CRC-16/CCITT-FALSE: the bit-serial definition, the table-driven loops that compute it,
 and the algebra (linearity, injectivity, burst detection) behind error detection.

 The register theory is stated for an arbitrary byte shift `f`, so that its proofs use only
 the three laws of `IsShifter`; `Shift8` is the one instance that matters.
 */
module Checksum {
  import opened Words

  const INIT: bv16 := 0xFFFF

  // ---- Bit-serial definition ---------------------------------------------------

  /** One shift of the register; the polynomial is 0x1021. */
  function BitStep(crc: bv16): bv16 {
    if crc & 0x8000 != 0 then (crc << 1) ^ 0x1021 else crc << 1
  }

  function Iterate(f: bv16 -> bv16, n: nat, c: bv16): bv16 {
    if n == 0 then c else Iterate(f, n - 1, f(c))
  }

  /** Eight shifts of the register. */
  function Shift8(crc: bv16): bv16 {
    Iterate(BitStep, 8, crc)
  }

  /** A byte placed in the high half of the register. */
  function High(b: byte): bv16 {
    (b as bv16) << 8
  }

  /** Absorption of one byte: add it to the high half, then shift by a byte. */
  function ByteStep(f: bv16 -> bv16, crc: bv16, b: byte): bv16 {
    f(crc ^ High(b))
  }

  /** The register after a byte string. */
  function Crc(f: bv16 -> bv16, crc: bv16, data: seq<byte>): bv16 {
    if data == [] then crc
    else ByteStep(f, Crc(f, crc, data[..|data| - 1]), data[|data| - 1])
  }

  /** CRC-16/CCITT-FALSE, bit by bit. */
  function Crc16(data: seq<byte>): bv16 {
    Crc(Shift8, INIT, data)
  }

  // ---- Laws of a shift ---------------------------------------------------------

  ghost predicate LinearAt(f: bv16 -> bv16, x: bv16, y: bv16, z: bv16) {
    f(z) == f(x) ^ f(y)
  }

  ghost predicate Linear(f: bv16 -> bv16) {
    forall x, y, z | z == x ^ y :: LinearAt(f, x, y, z)
  }

  ghost predicate InjectiveAt(f: bv16 -> bv16, x: bv16, y: bv16) {
    f(x) == f(y) ==> x == y
  }

  ghost predicate Injective(f: bv16 -> bv16) {
    forall x, y :: InjectiveAt(f, x, y)
  }

  /** A low byte moves to the high half without feedback. */
  ghost predicate MovesLowByte(f: bv16 -> bv16) {
    forall x: bv16 :: x <= 0xFF ==> f(x) == x << 8
  }

  ghost predicate IsShifter(f: bv16 -> bv16) {
    Linear(f) && Injective(f) && MovesLowByte(f)
  }

  // ---- Iterating a linear, injective step --------------------------------------

  /** The three registers stay in the relation "z is x xor y" through `n` steps of `f`. */
  ghost predicate SumAfter(f: bv16 -> bv16, n: nat, x: bv16, y: bv16, z: bv16) {
    Iterate(f, n, z) == Iterate(f, n, x) ^ Iterate(f, n, y)
  }

  lemma SumAfterNone(f: bv16 -> bv16, x: bv16, y: bv16, z: bv16)
    requires z == x ^ y
    ensures SumAfter(f, 0, x, y, z)
  {
  }

  lemma SumAfterMore(f: bv16 -> bv16, n: nat, x: bv16, y: bv16, z: bv16)
    requires n > 0
    requires SumAfter(f, n - 1, f(x), f(y), f(z))
    ensures SumAfter(f, n, x, y, z)
  {
  }

  lemma {:induction false} IterateLinear(f: bv16 -> bv16, n: nat, x: bv16, y: bv16, z: bv16)
    requires Linear(f)
    requires z == x ^ y
    ensures SumAfter(f, n, x, y, z)
  {
    if n == 0 {
      SumAfterNone(f, x, y, z);
    } else {
      assert LinearAt(f, x, y, z);
      IterateLinear(f, n - 1, f(x), f(y), f(z));
      SumAfterMore(f, n, x, y, z);
    }
  }

  lemma {:induction false} IterateInjective(f: bv16 -> bv16, n: nat, x: bv16, y: bv16)
    requires Injective(f)
    requires Iterate(f, n, x) == Iterate(f, n, y)
    ensures x == y
  {
    if n > 0 {
      IterateInjective(f, n - 1, f(x), f(y));
      assert InjectiveAt(f, x, y);
    }
  }

  lemma {:induction false} IterateLast(f: bv16 -> bv16, n: nat, c: bv16)
    ensures Iterate(f, n + 1, c) == f(Iterate(f, n, c))
  {
    if n > 0 {
      IterateLast(f, n - 1, f(c));
    }
  }

  // ---- The register step is linear and injective -------------------------------

  /** The shift without a branch: the feedback is a multiple of the outgoing bit. */
  function Lfsr(c: bv16): bv16 {
    (c << 1) ^ ((c >> 15) * 0x1021)
  }

  function LfsrBack(c: bv16): bv16 {
    ((c ^ ((c & 1) * 0x1021)) >> 1) | ((c & 1) << 15)
  }

  lemma TopBit(c: bv16)
    ensures c >> 15 == if c & 0x8000 != 0 then 1 else 0
  {
  }

  lemma BitStepIsLfsr(c: bv16)
    ensures BitStep(c) == Lfsr(c)
  {
    TopBit(c);
    var top := c >> 15;
    if c & 0x8000 != 0 {
      assert top * 0x1021 == 0x1021;
    } else {
      assert top * 0x1021 == 0;
      assert (c << 1) ^ 0 == c << 1;
    }
  }

  lemma LfsrInverse(c: bv16)
    ensures LfsrBack(Lfsr(c)) == c
  {
  }

  lemma LfsrLinear(x: bv16, y: bv16, z: bv16)
    requires z == x ^ y
    ensures LinearAt(Lfsr, x, y, z)
  {
  }

  lemma LfsrProperties()
    ensures Linear(Lfsr) && Injective(Lfsr)
  {
    forall x, y, z | z == x ^ y ensures LinearAt(Lfsr, x, y, z) {
      LfsrLinear(x, y, z);
    }
    forall x, y ensures InjectiveAt(Lfsr, x, y) {
      LfsrInverse(x);
      LfsrInverse(y);
    }
  }

  ghost predicate Same(f: bv16 -> bv16, g: bv16 -> bv16) {
    forall x :: f(x) == g(x)
  }

  lemma LinearAtSame(f: bv16 -> bv16, g: bv16 -> bv16, x: bv16, y: bv16, z: bv16)
    requires f(x) == g(x) && f(y) == g(y) && f(z) == g(z)
    requires LinearAt(g, x, y, z)
    ensures LinearAt(f, x, y, z)
  {
  }

  lemma LinearSame(f: bv16 -> bv16, g: bv16 -> bv16)
    requires Same(f, g) && Linear(g)
    ensures Linear(f)
  {
    forall x, y, z | z == x ^ y ensures LinearAt(f, x, y, z) {
      LinearAtSame(f, g, x, y, z);
    }
  }

  lemma InjectiveSame(f: bv16 -> bv16, g: bv16 -> bv16)
    requires Same(f, g) && Injective(g)
    ensures Injective(f)
  {
    forall x, y ensures InjectiveAt(f, x, y) {
      assert InjectiveAt(g, x, y);
    }
  }

  lemma BitStepSameAsLfsr()
    ensures Same(BitStep, Lfsr)
  {
    forall x ensures BitStep(x) == Lfsr(x) {
      BitStepIsLfsr(x);
    }
  }

  lemma BitStepProperties()
    ensures Linear(BitStep) && Injective(BitStep)
  {
    BitStepSameAsLfsr();
    LfsrProperties();
    LinearSame(BitStep, Lfsr);
    InjectiveSame(BitStep, Lfsr);
  }

  lemma NoFeedback(c: bv16, k: nat)
    requires k > 0 && c & 0x8000 == 0
    ensures Iterate(BitStep, k, c) == Iterate(BitStep, k - 1, c << 1)
  {
    assert BitStep(c) == c << 1;
  }

  lemma LowByteMoves(c: bv16)
    requires c <= 0xFF
    ensures Shift8(c) == c << 8
  {
    NoFeedback(c, 8);
    NoFeedback(c << 1, 7);
    NoFeedback(c << 2, 6);
    NoFeedback(c << 3, 5);
    NoFeedback(c << 4, 4);
    NoFeedback(c << 5, 3);
    NoFeedback(c << 6, 2);
    NoFeedback(c << 7, 1);
  }

  lemma Shift8Linear(x: bv16, y: bv16, z: bv16)
    requires z == x ^ y
    ensures LinearAt(Shift8, x, y, z)
  {
    BitStepProperties();
    IterateLinear(BitStep, 8, x, y, z);
  }

  lemma Shift8Injective(x: bv16, y: bv16)
    ensures InjectiveAt(Shift8, x, y)
  {
    BitStepProperties();
    if Shift8(x) == Shift8(y) {
      IterateInjective(BitStep, 8, x, y);
    }
  }

  /** The byte shift of CRC-16/CCITT-FALSE is linear, injective, and moves a low byte intact. */
  lemma Shift8IsShifter()
    ensures IsShifter(Shift8)
  {
    forall x, y, z | z == x ^ y ensures LinearAt(Shift8, x, y, z) {
      Shift8Linear(x, y, z);
    }
    forall x, y ensures InjectiveAt(Shift8, x, y) {
      Shift8Injective(x, y);
    }
    forall x: bv16 | x <= 0xFF ensures Shift8(x) == x << 8 {
      LowByteMoves(x);
    }
  }

  // ---- The table ---------------------------------------------------------------

  function Entry(f: bv16 -> bv16, i: nat): bv16
    requires i < 256
  {
    f(High(i as byte))
  }

  ghost predicate IsTable(f: bv16 -> bv16, table: seq<bv16>) {
    |table| == 256 && forall i :: 0 <= i < 256 ==> table[i] == Entry(f, i)
  }

  lemma TableEntry(f: bv16 -> bv16, table: seq<bv16>, b: byte)
    requires IsTable(f, table)
    ensures table[b as int] == f(High(b))
  {
    IntOfByte(b);
  }

  lemma SplitRegister(c: bv16, b: byte, low: bv16, high: bv16)
    requires low == c & 0xFF && high == High(((c >> 8) as byte) ^ b)
    ensures c ^ High(b) == low ^ high && low << 8 == c << 8
  {
  }

  lemma AddEntry(f: bv16 -> bv16, c: bv16, low: bv16, high: bv16, z: bv16)
    requires LinearAt(f, low, high, z) && f(low) == c << 8
    ensures (c << 8) ^ f(high) == f(z)
  {
  }

  lemma LinearInstance(f: bv16 -> bv16, x: bv16, y: bv16, z: bv16)
    requires Linear(f) && z == x ^ y
    ensures LinearAt(f, x, y, z)
  {
  }

  lemma LowByteInstance(f: bv16 -> bv16, x: bv16)
    requires MovesLowByte(f) && x <= 0xFF
    ensures f(x) == x << 8
  {
  }

  /** Shifting the register by a byte and adding one table entry absorbs the byte. */
  lemma TableStep(f: bv16 -> bv16, c: bv16, b: byte)
    requires IsShifter(f)
    ensures (c << 8) ^ f(High(((c >> 8) as byte) ^ b)) == ByteStep(f, c, b)
  {
    var low, high, z := c & 0xFF, High(((c >> 8) as byte) ^ b), c ^ High(b);
    SplitRegister(c, b, low, high);
    LinearInstance(f, low, high, z);
    LowByteInstance(f, low);
    AddEntry(f, c, low, high, z);
  }

  lemma LookupStep(f: bv16 -> bv16, table: seq<bv16>, c: bv16, b: byte, idx: byte)
    requires IsShifter(f) && IsTable(f, table)
    requires idx == ((c >> 8) as byte) ^ b
    ensures (c << 8) ^ table[idx as int] == ByteStep(f, c, b)
  {
    TableEntry(f, table, idx);
    TableStep(f, c, b);
  }

  lemma WideByte(b: byte)
    ensures (b as bv16) as int == b as int
  {
  }

  lemma IntOfWord(w: bv16)
    ensures (w as int) as bv16 == w
  {
  }

  lemma WordOfInt(i: nat)
    requires i < 256
    ensures i as bv16 == (i as byte) as bv16
  {
    var b := i as byte;
    ByteOfInt(i);
    WideByte(b);
    IntOfWord(b as bv16);
  }

  /** The inner loop of `build_table`: eight shifts of index `i`. */
  method ShiftIndex(i: nat) returns (crc: bv16)
    requires i < 256
    ensures crc == Entry(Shift8, i)
  {
    WordOfInt(i);
    crc := (i as bv16) << 8;
    var bit := 0;
    while bit < 8
      invariant 0 <= bit <= 8
      invariant crc == Iterate(BitStep, bit, High(i as byte))
    {
      IterateLast(BitStep, bit, High(i as byte));
      crc := BitStep(crc);
      bit := bit + 1;
    }
  }

  /** `build_table`: the 256-entry lookup table. */
  method BuildTable() returns (table: array<bv16>)
    ensures fresh(table)
    ensures IsTable(Shift8, table[..])
  {
    table := new bv16[256];
    var i := 0;
    while i < 256
      invariant 0 <= i <= 256
      invariant forall k :: 0 <= k < i ==> table[k] == Entry(Shift8, k)
    {
      table[i] := ShiftIndex(i);
      i := i + 1;
    }
  }

  /** `crc_step`: continues a CRC over `data` with table lookups. */
  method CrcStep(ghost f: bv16 -> bv16, table: array<bv16>, start: bv16, data: seq<byte>) returns (crc: bv16)
    requires IsShifter(f) && IsTable(f, table[..])
    ensures crc == Crc(f, start, data)
  {
    crc := start;
    for k := 0 to |data|
      invariant crc == Crc(f, start, data[..k])
    {
      var idx := ((crc >> 8) as byte) ^ data[k];
      LookupStep(f, table[..], crc, data[k], idx);
      assert data[..k + 1][..k] == data[..k];
      crc := (crc << 8) ^ table[idx as int];
    }
    assert data[..|data|] == data;
  }

  /** `crc16_table`: the whole-buffer checksum equals the bit-serial one. */
  method Crc16Table(data: seq<byte>) returns (crc: bv16)
    ensures crc == Crc16(data)
  {
    var table := BuildTable();
    Shift8IsShifter();
    crc := CrcStep(Shift8, table, INIT, data);
  }

  lemma {:induction false} CrcConcat(f: bv16 -> bv16, c: bv16, a: seq<byte>, b: seq<byte>)
    ensures Crc(f, c, a + b) == Crc(f, Crc(f, c, a), b)
  {
    if b == [] {
      assert a + b == a;
    } else {
      var k := |b| - 1;
      CrcConcat(f, c, a, b[..k]);
      assert (a + b)[..|a + b| - 1] == a + b[..k];
    }
  }

  /** `crc16_two_segments`: two loops over two slices give the CRC of their concatenation. */
  method Crc16TwoSegments(a: seq<byte>, b: seq<byte>) returns (crc: bv16)
    ensures crc == Crc16(a + b)
  {
    var table := BuildTable();
    Shift8IsShifter();
    crc := CrcStep(Shift8, table, INIT, a);
    crc := CrcStep(Shift8, table, crc, b);
    CrcConcat(Shift8, INIT, a, b);
  }

  // ---- Error detection ---------------------------------------------------------

  lemma XorCancel(c: bv16, c': bv16, b: byte, x: bv16, y: bv16)
    requires x == c ^ High(b) && y == c' ^ High(b) && x == y
    ensures c == c'
  {
  }

  lemma ByteStepInjective(f: bv16 -> bv16, c: bv16, c': bv16, b: byte)
    requires Injective(f) && ByteStep(f, c, b) == ByteStep(f, c', b)
    ensures c == c'
  {
    var x, y := c ^ High(b), c' ^ High(b);
    assert InjectiveAt(f, x, y);
    XorCancel(c, c', b, x, y);
  }

  /** Equal input never merges two different registers. */
  lemma {:induction false} CrcInjective(f: bv16 -> bv16, c: bv16, c': bv16, data: seq<byte>)
    requires Injective(f) && Crc(f, c, data) == Crc(f, c', data)
    ensures c == c'
  {
    if data != [] {
      var k := |data| - 1;
      ByteStepInjective(f, Crc(f, c, data[..k]), Crc(f, c', data[..k]), data[k]);
      CrcInjective(f, c, c', data[..k]);
    }
  }

  /** Two registers whose difference is `d`. */
  ghost predicate Differ(x: bv16, y: bv16, d: bv16) {
    d == x ^ y
  }

  lemma AddBytes(c: bv16, c': bv16, d: bv16, b: byte, b': byte)
    requires Differ(c, c', d)
    ensures Differ(c ^ High(b), c' ^ High(b'), d ^ High(b ^ b'))
  {
  }

  lemma DifferShift(f: bv16 -> bv16, x: bv16, y: bv16, d: bv16)
    requires Linear(f) && Differ(x, y, d)
    ensures Differ(f(x), f(y), f(d))
  {
    LinearInstance(f, x, y, d);
  }

  /** Differences evolve by the same shift, fed with the difference of the bytes. */
  lemma DifferStep(f: bv16 -> bv16, c: bv16, c': bv16, d: bv16, b: byte, b': byte)
    requires Linear(f) && Differ(c, c', d)
    ensures Differ(ByteStep(f, c, b), ByteStep(f, c', b'), ByteStep(f, d, b ^ b'))
  {
    AddBytes(c, c', d, b, b');
    DifferShift(f, c ^ High(b), c' ^ High(b'), d ^ High(b ^ b'));
  }

  /** Difference after three bytes, starting from none. */
  function Difference(f: bv16 -> bv16, d0: byte, d1: byte, d2: byte): bv16 {
    ByteStep(f, ByteStep(f, ByteStep(f, 0, d0), d1), d2)
  }

  lemma DifferThree(f: bv16 -> bv16, c: bv16, a: seq<byte>, b: seq<byte>)
    requires Linear(f) && |a| == |b| == 3
    ensures Differ(Crc(f, c, a), Crc(f, c, b), Difference(f, a[0] ^ b[0], a[1] ^ b[1], a[2] ^ b[2]))
  {
    assert Differ(c, c, 0);
    var a1, b1 := ByteStep(f, c, a[0]), ByteStep(f, c, b[0]);
    DifferStep(f, c, c, 0, a[0], b[0]);
    var d1 := ByteStep(f, 0, a[0] ^ b[0]);
    DifferStep(f, a1, b1, d1, a[1], b[1]);
    DifferStep(f, ByteStep(f, a1, a[1]), ByteStep(f, b1, b[1]), ByteStep(f, d1, a[1] ^ b[1]), a[2], b[2]);
    CrcThree(f, c, a);
    CrcThree(f, c, b);
  }

  lemma CrcThree(f: bv16 -> bv16, c: bv16, a: seq<byte>)
    requires |a| == 3
    ensures Crc(f, c, a) == ByteStep(f, ByteStep(f, ByteStep(f, c, a[0]), a[1]), a[2])
  {
    assert a[..2][..1] == a[..1] && a[..1][..0] == [];
    assert Crc(f, c, a[..1]) == ByteStep(f, c, a[0]);
    assert Crc(f, c, a[..2]) == ByteStep(f, Crc(f, c, a[..1]), a[1]);
  }

  lemma XorZero(x: bv16, y: bv16)
    ensures x ^ y == 0 <==> x == y
    ensures 0 ^ x == x
  {
  }

  lemma LowByteIsHigh(f: bv16 -> bv16, b: byte)
    requires MovesLowByte(f)
    ensures f(b as bv16) == High(b)
  {
    LowByteInstance(f, b as bv16);
  }

  lemma NoDifferenceLast(f: bv16 -> bv16, c: bv16, b: byte)
    requires IsShifter(f) && ByteStep(f, c, b) == 0
    ensures c == f(b as bv16)
  {
    LowByteInstance(f, 0);
    assert InjectiveAt(f, c ^ High(b), 0);
    XorZero(c, High(b));
    LowByteIsHigh(f, b);
  }

  lemma NoDifferenceMiddle(f: bv16 -> bv16, c: bv16, b: byte, l: bv16)
    requires Injective(f) && ByteStep(f, c, b) == f(l)
    ensures Differ(c, High(b), l)
  {
    assert InjectiveAt(f, c ^ High(b), l);
  }

  lemma DifferPreimage(f: bv16 -> bv16, x: bv16, y: bv16, z: bv16, l: bv16)
    requires LinearAt(f, x, y, z) && Differ(f(x), f(y), l)
    ensures f(z) == l
  {
  }

  lemma NoDifferenceFirst(f: bv16 -> bv16, h: bv16, b: byte, l: bv16)
    requires IsShifter(f) && Differ(f(h), High(b), l)
    ensures f(h ^ (b as bv16)) == l
  {
    LowByteIsHigh(f, b);
    LinearInstance(f, h, b as bv16, h ^ (b as bv16));
    DifferPreimage(f, h, b as bv16, h ^ (b as bv16), l);
  }

  /** If three differing bytes leave no difference, the first two are determined by the third. */
  lemma NoDifference(f: bv16 -> bv16, d0: byte, d1: byte, d2: byte)
    requires IsShifter(f) && Difference(f, d0, d1, d2) == 0
    ensures f(High(d0) ^ (d1 as bv16)) == d2 as bv16
  {
    var s1 := ByteStep(f, 0, d0);
    assert s1 == f(High(d0)) by {
      XorZero(High(d0), 0);
    }
    NoDifferenceLast(f, ByteStep(f, s1, d1), d2);
    NoDifferenceMiddle(f, s1, d1, d2 as bv16);
    NoDifferenceFirst(f, High(d0), d1, d2 as bv16);
  }

  /** Eight unrolled shifts. */
  function Eight(f: bv16 -> bv16, c: bv16): bv16 {
    f(f(f(f(f(f(f(f(c))))))))
  }

  lemma Unroll(f: bv16 -> bv16, c: bv16)
    ensures Iterate(f, 8, c) == Eight(f, c)
  {
    var c2 := f(f(c));
    var c4 := f(f(c2));
    var c6 := f(f(c4));
    assert Iterate(f, 8, c) == Iterate(f, 6, c2);
    assert Iterate(f, 6, c2) == Iterate(f, 4, c4);
    assert Iterate(f, 4, c4) == Iterate(f, 2, c6);
    assert Iterate(f, 2, c6) == Iterate(f, 1, f(c6));
    assert Iterate(f, 1, f(c6)) == f(f(c6));
  }

  lemma EightSame(f: bv16 -> bv16, g: bv16 -> bv16, c: bv16)
    requires Same(f, g)
    ensures Eight(f, c) == Eight(g, c)
  {
  }

  lemma Shift8Unrolled(c: bv16)
    ensures Shift8(c) == Eight(Lfsr, c)
  {
    Unroll(BitStep, c);
    BitStepSameAsLfsr();
    EightSame(BitStep, Lfsr, c);
  }

  /** The 24-bit difference pattern fits in 16 consecutive bits, `s` places up from the end. */
  predicate InBurst(d0: byte, d1: byte, d2: byte, s: bv24) {
    s <= 8 && (((d0 as bv24) << 16) | ((d1 as bv24) << 8) | (d2 as bv24)) & !(0xFFFF << s) == 0
  }

  lemma BurstSurvives(d0: byte, d1: byte, d2: byte, s: bv24)
    requires InBurst(d0, d1, d2, s)
    requires Eight(Lfsr, High(d0) ^ (d1 as bv16)) == d2 as bv16
    ensures d0 == 0 && d1 == 0 && d2 == 0
  {
  }

  lemma XorByte(a: byte, b: byte)
    ensures a ^ b == 0 ==> a == b
  {
  }

  /** CRC-16 detects every burst of at most 16 bits: strings that agree outside a window of
      16 consecutive bits and have the same register are equal. */
  lemma BurstDetected(c: bv16, a: seq<byte>, b: seq<byte>, s: bv24)
    requires |a| == |b| == 3
    requires InBurst(a[0] ^ b[0], a[1] ^ b[1], a[2] ^ b[2], s)
    requires Crc(Shift8, c, a) == Crc(Shift8, c, b)
    ensures a == b
  {
    var d0, d1, d2 := a[0] ^ b[0], a[1] ^ b[1], a[2] ^ b[2];
    Shift8IsShifter();
    DifferThree(Shift8, c, a, b);
    XorZero(Crc(Shift8, c, a), Crc(Shift8, c, b));
    NoDifference(Shift8, d0, d1, d2);
    Shift8Unrolled(High(d0) ^ (d1 as bv16));
    BurstSurvives(d0, d1, d2, s);
    XorByte(a[0], b[0]);
    XorByte(a[1], b[1]);
    XorByte(a[2], b[2]);
  }

  // ---- Check value -------------------------------------------------------------

  ghost predicate Register(data: seq<byte>, c: bv16) {
    Crc(Shift8, INIT, data) == c
  }

  lemma Absorb(data: seq<byte>, c: bv16, b: byte, r: bv16) returns (more: seq<byte>)
    requires Register(data, c) && Eight(Lfsr, c ^ High(b)) == r
    ensures more == data + [b] && Register(more, r)
  {
    Shift8Unrolled(c ^ High(b));
    more := data + [b];
    assert more[..|data|] == data;
  }

  /** The published check value of CRC-16/CCITT-FALSE, which pins polynomial and initial value. */
  lemma CheckValue()
    ensures Crc16([0x31, 0x32, 0x33, 0x34, 0x35, 0x36, 0x37, 0x38, 0x39]) == 0x29B1
  {
    assert Register([], 0xFFFF);
    var d := Absorb([], 0xFFFF, 0x31, 0xC782);
    d := Absorb(d, 0xC782, 0x32, 0x3DBA);
    d := Absorb(d, 0x3DBA, 0x33, 0x5BCE);
    d := Absorb(d, 0x5BCE, 0x34, 0x5349);
    d := Absorb(d, 0x5349, 0x35, 0x4560);
    d := Absorb(d, 0x4560, 0x36, 0x2EF4);
    d := Absorb(d, 0x2EF4, 0x37, 0x7718);
    d := Absorb(d, 0x7718, 0x38, 0xA12B);
    d := Absorb(d, 0xA12B, 0x39, 0x29B1);
    assert d == [0x31, 0x32, 0x33, 0x34, 0x35, 0x36, 0x37, 0x38, 0x39];
  }
}

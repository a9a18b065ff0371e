/**
 The STUN client: the binding request it sends and the attribute loop that finds the mapped
 address in a binding response (sections 6, 15, 15.1 and 15.2 of RFC 5389).
 */
module Stun {
  import opened Words

  const BINDING_REQUEST: u16 := 0x0001
  const BINDING_RESPONSE: u16 := 0x0101
  const COOKIE: bv32 := 0x2112_A442
  const COOKIE_HIGH: bv16 := 0x2112
  const XOR_MAPPED_ADDRESS: u16 := 0x0020
  const MAPPED_ADDRESS: u16 := 0x0001
  const FAMILY_IPV4: byte := 0x01

  datatype Address = Address(ip: bv32, port: bv16)

  datatype Attribute = Attribute(kind: u16, value: seq<byte>)

  // ---- Address values ----------------------------------------------------------

  /** `u16::from_be_bytes`. */
  function Join16(hi: byte, lo: byte): bv16 {
    ((hi as bv16) << 8) | (lo as bv16)
  }

  /** `u32::from_be_bytes`, also the number of an IPv4 address. */
  function Join32(a: byte, b: byte, c: byte, d: byte): bv32 {
    ((a as bv32) << 24) | ((b as bv32) << 16) | ((c as bv32) << 8) | (d as bv32)
  }

  function Split16(x: bv16): (s: seq<byte>)
    ensures |s| == 2 && Join16(s[0], s[1]) == x
  {
    [(x >> 8) as byte, (x & 0xFF) as byte]
  }

  function Split32(x: bv32): (s: seq<byte>)
    ensures |s| == 4 && Join32(s[0], s[1], s[2], s[3]) == x
  {
    [(x >> 24) as byte, ((x >> 16) & 0xFF) as byte, ((x >> 8) & 0xFF) as byte, (x & 0xFF) as byte]
  }

  function ParseXorMapped(v: seq<byte>): Option<Address> {
    if |v| < 8 || v[1] != FAMILY_IPV4 then None
    else Some(Address(Join32(v[4], v[5], v[6], v[7]) ^ COOKIE, Join16(v[2], v[3]) ^ COOKIE_HIGH))
  }

  function ParseMapped(v: seq<byte>): Option<Address> {
    if |v| < 8 || v[1] != FAMILY_IPV4 then None
    else Some(Address(Join32(v[4], v[5], v[6], v[7]), Join16(v[2], v[3])))
  }

  /** The value a server writes for MAPPED-ADDRESS. */
  function PrintMapped(a: Address): (v: seq<byte>)
    ensures |v| == 8
  {
    [0, FAMILY_IPV4] + Split16(a.port) + Split32(a.ip)
  }

  /** The value a server writes for XOR-MAPPED-ADDRESS. */
  function PrintXorMapped(a: Address): (v: seq<byte>)
    ensures |v| == 8
  {
    PrintMapped(Address(a.ip ^ COOKIE, a.port ^ COOKIE_HIGH))
  }

  lemma XorTwice(a: Address)
    ensures (a.ip ^ COOKIE) ^ COOKIE == a.ip
    ensures (a.port ^ COOKIE_HIGH) ^ COOKIE_HIGH == a.port
  {
  }

  lemma MappedRoundTrip(a: Address)
    ensures ParseMapped(PrintMapped(a)) == Some(a)
  {
    var v := PrintMapped(a);
    assert v[2] == Split16(a.port)[0] && v[3] == Split16(a.port)[1];
    assert v[4] == Split32(a.ip)[0] && v[5] == Split32(a.ip)[1];
    assert v[6] == Split32(a.ip)[2] && v[7] == Split32(a.ip)[3];
  }

  /** XOR decoding is plain decoding with the cookie taken off again. */
  lemma XorIsMasked(v: seq<byte>, a: Address)
    requires ParseMapped(v) == Some(a)
    ensures ParseXorMapped(v) == Some(Address(a.ip ^ COOKIE, a.port ^ COOKIE_HIGH))
  {
  }

  lemma XorMappedRoundTrip(a: Address)
    ensures ParseXorMapped(PrintXorMapped(a)) == Some(a)
  {
    var masked := Address(a.ip ^ COOKIE, a.port ^ COOKIE_HIGH);
    MappedRoundTrip(masked);
    XorIsMasked(PrintXorMapped(a), masked);
    XorTwice(a);
  }

  /** XOR decoding byte by byte: the cookie's bytes are 21 12 A4 42, and its high half masks the port. */
  lemma XorMappedBytes(v: seq<byte>)
    ensures ParseXorMapped(v) ==
            if |v| >= 8 && v[1] == 0x01 then
              Some(Address(Join32(v[4] ^ 0x21, v[5] ^ 0x12, v[6] ^ 0xA4, v[7] ^ 0x42), Join16(v[2] ^ 0x21, v[3] ^ 0x12)))
            else None
  {
    if |v| >= 8 {
      MaskedPort(v[2], v[3]);
      MaskedIp(v[4], v[5], v[6], v[7]);
    }
  }

  lemma MaskedPort(hi: byte, lo: byte)
    ensures Join16(hi, lo) ^ COOKIE_HIGH == Join16(hi ^ 0x21, lo ^ 0x12)
  {
  }

  lemma MaskedIp(a: byte, b: byte, c: byte, d: byte)
    ensures Join32(a, b, c, d) ^ COOKIE == Join32(a ^ 0x21, b ^ 0x12, c ^ 0xA4, d ^ 0x42)
  {
  }

  /** The test vector of section 2.2 of RFC 5769: 192.0.2.1, port 32853. */
  lemma XorMappedVector()
    ensures ParseXorMapped([0x00, 0x01, 0xA1, 0x47, 0xE1, 0x12, 0xA6, 0x43]) == Some(Address(0xC000_0201, 32853))
    ensures ParseMapped([0x00, 0x01, 0x80, 0x55, 0xC0, 0x00, 0x02, 0x01]) == Some(Address(0xC000_0201, 32853))
    ensures ParseXorMapped([0x00, 0x02, 0xA1, 0x47, 0xE1, 0x12, 0xA6, 0x43]) == None
  {
  }

  // ---- Reading fields ----------------------------------------------------------

  /** `u16::from_be_bytes`. */
  function Word16(hi: byte, lo: byte): u16 {
    hi as int * 256 + lo as int
  }

  /** `to_be_bytes`. */
  function U16Bytes(n: u16): (s: seq<byte>)
    ensures |s| == 2 && Word16(s[0], s[1]) == n
  {
    ByteOfInt(n / 256);
    ByteOfInt(n % 256);
    [(n / 256) as byte, (n % 256) as byte]
  }

  /** `(len + 3) & !3`, counted in groups of four; `PaddedRounds` says so without recursion. */
  function Padded(len: nat): (p: nat)
    ensures len <= p < len + 4
  {
    if len == 0 then 0 else if len <= 4 then 4 else 4 + Padded(len - 4)
  }

  lemma {:induction false} PaddedRounds(len: nat)
    ensures Padded(len) == (len + 3) / 4 * 4
  {
    if len > 4 {
      PaddedRounds(len - 4);
    }
  }

  /** How a message is read and written: a 16-bit field both ways, and the two kinds of
      address. The loop is proved for every such format and used with `Rfc5389`. */
  datatype Format = Format(
    word: (byte, byte) -> u16,
    bytes: u16 -> seq<byte>,
    xor: Attribute -> Option<Address>,
    plain: Attribute -> Option<Address>)
  {
    /** Reading a field undoes writing it. */
    ghost predicate Sound() {
      forall n: u16 :: |bytes(n)| == 2 && word(bytes(n)[0], bytes(n)[1]) == n
    }
  }

  function XorAddress(a: Attribute): Option<Address> {
    if a.kind == XOR_MAPPED_ADDRESS then ParseXorMapped(a.value) else None
  }

  function PlainAddress(a: Attribute): Option<Address> {
    if a.kind == MAPPED_ADDRESS then ParseMapped(a.value) else None
  }

  function Rfc5389(): Format {
    Format(Word16, U16Bytes, XorAddress, PlainAddress)
  }

  lemma Rfc5389Sound()
    ensures Rfc5389().Sound()
  {
  }

  // ---- The answer in a list of attributes --------------------------------------

  /** Walking the attributes with a fallback in hand. */
  function Select(f: Format, attrs: seq<Attribute>, fallback: Option<Address>): Option<Address> {
    if attrs == [] then fallback
    else if f.xor(attrs[0]).Some? then f.xor(attrs[0])
    else Select(f, attrs[1..], if f.plain(attrs[0]).Some? then f.plain(attrs[0]) else fallback)
  }

  predicate NoneOf(parse: Attribute -> Option<Address>, attrs: seq<Attribute>) {
    forall j :: 0 <= j < |attrs| ==> parse(attrs[j]).None?
  }

  predicate IsFirst(parse: Attribute -> Option<Address>, attrs: seq<Attribute>, i: nat) {
    i < |attrs| && parse(attrs[i]).Some? && NoneOf(parse, attrs[..i])
  }

  predicate IsLast(parse: Attribute -> Option<Address>, attrs: seq<Attribute>, i: nat) {
    i < |attrs| && parse(attrs[i]).Some? && NoneOf(parse, attrs[i + 1..])
  }

  /** The first valid XOR-MAPPED-ADDRESS, else the last valid MAPPED-ADDRESS, else `fallback`. */
  ghost predicate IsAnswer(f: Format, attrs: seq<Attribute>, fallback: Option<Address>, r: Option<Address>) {
    || (exists i: nat :: IsFirst(f.xor, attrs, i) && r == f.xor(attrs[i]))
    || (NoneOf(f.xor, attrs) && exists i: nat :: IsLast(f.plain, attrs, i) && r == f.plain(attrs[i]))
    || (NoneOf(f.xor, attrs) && NoneOf(f.plain, attrs) && r == fallback)
  }

  lemma FirstLater(parse: Attribute -> Option<Address>, a: Attribute, rest: seq<Attribute>, i: nat)
    requires parse(a).None? && IsFirst(parse, rest, i)
    ensures IsFirst(parse, [a] + rest, i + 1)
  {
    assert ([a] + rest)[..i + 1] == [a] + rest[..i];
  }

  lemma LastLater(parse: Attribute -> Option<Address>, a: Attribute, rest: seq<Attribute>, i: nat)
    requires IsLast(parse, rest, i)
    ensures IsLast(parse, [a] + rest, i + 1)
  {
    assert ([a] + rest)[i + 2..] == rest[i + 1..];
  }

  /** Putting one more attribute in front of an answered list. */
  lemma AnswerInFront(f: Format, a: Attribute, rest: seq<Attribute>, fallback: Option<Address>, r: Option<Address>)
    requires f.xor(a).None?
    requires IsAnswer(f, rest, if f.plain(a).Some? then f.plain(a) else fallback, r)
    ensures IsAnswer(f, [a] + rest, fallback, r)
  {
    var all := [a] + rest;
    if i: nat :| IsFirst(f.xor, rest, i) && r == f.xor(rest[i]) {
      FirstLater(f.xor, a, rest, i);
    } else if i: nat :| NoneOf(f.xor, rest) && IsLast(f.plain, rest, i) && r == f.plain(rest[i]) {
      LastLater(f.plain, a, rest, i);
      assert NoneOf(f.xor, all) && r == f.plain(all[i + 1]);
    } else {
      assert NoneOf(f.xor, all);
      if f.plain(a).Some? {
        assert all[1..] == rest;
        assert IsLast(f.plain, all, 0);
      }
    }
  }

  lemma {:induction false} SelectAnswers(f: Format, attrs: seq<Attribute>, fallback: Option<Address>)
    ensures IsAnswer(f, attrs, fallback, Select(f, attrs, fallback))
  {
    if attrs == [] {
      assert NoneOf(f.xor, attrs) && NoneOf(f.plain, attrs);
    } else if f.xor(attrs[0]).Some? {
      assert IsFirst(f.xor, attrs, 0);
    } else {
      var a, rest := attrs[0], attrs[1..];
      var next := if f.plain(a).Some? then f.plain(a) else fallback;
      SelectAnswers(f, rest, next);
      AnswerInFront(f, a, rest, fallback, Select(f, rest, next));
      assert [a] + rest == attrs;
    }
  }

  // ---- The attributes in a message ---------------------------------------------

  /** The attributes of `buf[pos..end]`, up to the first one that does not fit. */
  function Attributes(f: Format, buf: seq<byte>, pos: nat, end: nat): seq<Attribute>
    requires end <= |buf|
    decreases end - pos
  {
    if pos + 4 > end then []
    else
      var len: int := f.word(buf[pos + 2], buf[pos + 3]);
      if pos + 4 + len > end then []
      else [Attribute(f.word(buf[pos], buf[pos + 1]), buf[pos + 4..pos + 4 + len])]
           + Attributes(f, buf, pos + 4 + Padded(len), end)
  }

  predicate IsResponse(buf: seq<byte>, txId: seq<byte>) {
    && |buf| >= 20
    && Word16(buf[0], buf[1]) == BINDING_RESPONSE
    && |buf| >= 20 + Word16(buf[2], buf[3])
    && Join32(buf[4], buf[5], buf[6], buf[7]) == COOKIE
    && buf[8..20] == txId
  }

  /** Where the attributes of a response end. */
  function End(buf: seq<byte>): (end: nat)
    requires |buf| >= 20
    ensures end >= 20
  {
    20 + Word16(buf[2], buf[3])
  }

  function Answer(buf: seq<byte>, txId: seq<byte>): Option<Address> {
    if IsResponse(buf, txId) then Select(Rfc5389(), Attributes(Rfc5389(), buf, 20, End(buf)), None) else None
  }

  /** What the loop finds from `pos` on, with `fallback` in hand. */
  function Scan(f: Format, buf: seq<byte>, pos: nat, end: nat, fallback: Option<Address>): Option<Address>
    requires end <= |buf|
    decreases end - pos
  {
    if pos + 4 > end then fallback
    else
      var len: int := f.word(buf[pos + 2], buf[pos + 3]);
      if pos + 4 + len > end then fallback
      else
        var a := Attribute(f.word(buf[pos], buf[pos + 1]), buf[pos + 4..pos + 4 + len]);
        if f.xor(a).Some? then f.xor(a)
        else Scan(f, buf, pos + 4 + Padded(len), end, if f.plain(a).Some? then f.plain(a) else fallback)
  }

  /** Scanning is listing the attributes and then selecting. */
  lemma {:induction false} ScanSelects(f: Format, buf: seq<byte>, pos: nat, end: nat, fallback: Option<Address>)
    requires end <= |buf|
    ensures Scan(f, buf, pos, end, fallback) == Select(f, Attributes(f, buf, pos, end), fallback)
    decreases end - pos
  {
    if pos + 4 > end || pos + 4 + f.word(buf[pos + 2], buf[pos + 3]) as int > end {
      NothingFits(f, buf, pos, end, fallback);
    } else {
      var len: int := f.word(buf[pos + 2], buf[pos + 3]);
      var a := Attribute(f.word(buf[pos], buf[pos + 1]), buf[pos + 4..pos + 4 + len]);
      var next, kept := pos + 4 + Padded(len), if f.plain(a).Some? then f.plain(a) else fallback;
      ScanSelects(f, buf, next, end, kept);
      ScanStep(f, buf, pos, end, fallback, a, next, kept);
      SelectStep(f, buf, pos, end, fallback, a, next, kept);
    }
  }

  lemma NothingFits(f: Format, buf: seq<byte>, pos: nat, end: nat, fallback: Option<Address>)
    requires end <= |buf| && (pos + 4 > end || pos + 4 + f.word(buf[pos + 2], buf[pos + 3]) as int > end)
    ensures Scan(f, buf, pos, end, fallback) == fallback && Select(f, Attributes(f, buf, pos, end), fallback) == fallback
  {
  }

  /** Attribute `a` is at `pos`, the next one at `next`, and `kept` is the fallback after it. */
  predicate IsNext(f: Format, buf: seq<byte>, pos: nat, end: nat, fallback: Option<Address>,
                   a: Attribute, next: nat, kept: Option<Address>) {
    && pos + 4 + |a.value| <= end <= |buf| && f.word(buf[pos + 2], buf[pos + 3]) == |a.value|
    && a == Attribute(f.word(buf[pos], buf[pos + 1]), buf[pos + 4..pos + 4 + |a.value|])
    && next == pos + 4 + Padded(|a.value|) && kept == if f.plain(a).Some? then f.plain(a) else fallback
  }

  lemma ScanStep(f: Format, buf: seq<byte>, pos: nat, end: nat, fallback: Option<Address>,
                 a: Attribute, next: nat, kept: Option<Address>)
    requires IsNext(f, buf, pos, end, fallback, a, next, kept)
    ensures Scan(f, buf, pos, end, fallback) == if f.xor(a).Some? then f.xor(a) else Scan(f, buf, next, end, kept)
  {
  }

  lemma SelectStep(f: Format, buf: seq<byte>, pos: nat, end: nat, fallback: Option<Address>,
                   a: Attribute, next: nat, kept: Option<Address>)
    requires IsNext(f, buf, pos, end, fallback, a, next, kept)
    ensures Select(f, Attributes(f, buf, pos, end), fallback)
            == if f.xor(a).Some? then f.xor(a) else Select(f, Attributes(f, buf, next, end), kept)
  {
    var rest := Attributes(f, buf, next, end);
    assert Attributes(f, buf, pos, end) == [a] + rest;
    assert ([a] + rest)[1..] == rest;
  }

  /** `parse_binding_response`: every index is in bounds and the loop ends, on every buffer. */
  method ParseBindingResponse(buf: seq<byte>, txId: seq<byte>) returns (r: Option<Address>)
    ensures r == Answer(buf, txId)
  {
    if !IsResponse(buf, txId) {
      return None;
    }
    r := FindMapped(Rfc5389(), buf, End(buf));
    ScanSelects(Rfc5389(), buf, 20, End(buf), None);
  }

  /** The attribute loop over `buf[20..end]`. */
  method FindMapped(f: Format, buf: seq<byte>, end: nat) returns (r: Option<Address>)
    requires 20 <= end <= |buf|
    ensures r == Scan(f, buf, 20, end, None)
  {
    var pos: nat := 20;
    var fallback: Option<Address> := None;
    while pos + 4 <= end
      invariant Scan(f, buf, pos, end, fallback) == Scan(f, buf, 20, end, None)
      decreases end - pos
    {
      var kind, len: int := f.word(buf[pos], buf[pos + 1]), f.word(buf[pos + 2], buf[pos + 3]);
      pos := pos + 4;
      if pos + len > end {
        return fallback;
      }
      var attribute := Attribute(kind, buf[pos..pos + len]);
      if f.xor(attribute).Some? {
        return f.xor(attribute);
      }
      if f.plain(attribute).Some? {
        fallback := f.plain(attribute);
      }
      pos := pos + Padded(len);
    }
    return fallback;
  }

  // ---- Messages a server writes ------------------------------------------------

  /** An attribute on the wire: its value is padded to four bytes with any bytes at all. */
  datatype Wire = Wire(attribute: Attribute, padding: seq<byte>) {
    predicate Fits() {
      && |attribute.value| < 0x1_0000
      && |attribute.value| + |padding| == Padded(|attribute.value|)
    }

    function Bytes(f: Format): seq<byte>
      requires Fits()
    {
      f.bytes(attribute.kind) + f.bytes(|attribute.value|) + attribute.value + padding
    }
  }

  predicate AllFit(ws: seq<Wire>) {
    forall i :: 0 <= i < |ws| ==> ws[i].Fits()
  }

  function Body(f: Format, ws: seq<Wire>): seq<byte>
    requires AllFit(ws)
  {
    if ws == [] then [] else ws[0].Bytes(f) + Body(f, ws[1..])
  }

  function Written(ws: seq<Wire>): seq<Attribute> {
    if ws == [] then [] else [ws[0].attribute] + Written(ws[1..])
  }

  /** Slices of a window are slices of the buffer. */
  lemma Window(buf: seq<byte>, pos: nat, end: nat, s: seq<byte>, i: nat, j: nat)
    requires pos <= end <= |buf| && buf[pos..end] == s && i <= j <= |s|
    ensures buf[pos + i..pos + j] == s[i..j]
  {
    var left, right := buf[pos + i..pos + j], s[i..j];
    assert |left| == |right| == j - i;
    forall k | 0 <= k < j - i ensures left[k] == right[k] {
      assert buf[pos..end][i + k] == s[i + k];
    }
  }

  lemma WireSlices(kind: seq<byte>, len: seq<byte>, value: seq<byte>, padding: seq<byte>, after: seq<byte>)
    requires |kind| == 2 && |len| == 2
    ensures var s, n := kind + len + value + padding + after, |value|;
            && |s| == 4 + n + |padding| + |after|
            && s[0] == kind[0] && s[1] == kind[1] && s[2] == len[0] && s[3] == len[1]
            && s[4..4 + n] == value && s[4 + n + |padding|..|s|] == after
  {
  }

  lemma WireReads(kind: seq<byte>, len: seq<byte>, value: seq<byte>, padding: seq<byte>, after: seq<byte>,
                  buf: seq<byte>, pos: nat, end: nat)
    requires |kind| == 2 && |len| == 2
    requires pos <= end <= |buf| && buf[pos..end] == kind + len + value + padding + after
    ensures var n, next := |value|, pos + 4 + |value| + |padding|;
            && next <= end
            && buf[pos] == kind[0] && buf[pos + 1] == kind[1] && buf[pos + 2] == len[0] && buf[pos + 3] == len[1]
            && buf[pos + 4..pos + 4 + n] == value
            && buf[next..end] == after
  {
    var s := buf[pos..end];
    WireSlices(kind, len, value, padding, after);
    assert buf[pos] == s[0] && buf[pos + 1] == s[1] && buf[pos + 2] == s[2] && buf[pos + 3] == s[3];
    Window(buf, pos, end, s, 4, 4 + |value|);
    Window(buf, pos, end, s, 4 + |value| + |padding|, |s|);
  }

  /** The first attribute of a written body is read back, and what follows it starts right
      behind its padding. */
  lemma FirstAttribute(f: Format, w: Wire, after: seq<byte>, buf: seq<byte>, pos: nat, end: nat)
    requires f.Sound() && w.Fits() && pos <= end <= |buf| && buf[pos..end] == w.Bytes(f) + after
    ensures var next := Next(pos, w);
            && next <= end && buf[next..end] == after
            && Attributes(f, buf, pos, end) == [w.attribute] + Attributes(f, buf, next, end)
  {
    var a := w.attribute;
    WireReads(f.bytes(a.kind), f.bytes(|a.value|), a.value, w.padding, after, buf, pos, end);
  }

  function Next(pos: nat, w: Wire): nat {
    pos + 4 + Padded(|w.attribute.value|)
  }

  lemma BodySplit(f: Format, ws: seq<Wire>, stray: seq<byte>)
    requires AllFit(ws) && ws != []
    ensures AllFit(ws[1..]) && Body(f, ws) + stray == ws[0].Bytes(f) + (Body(f, ws[1..]) + stray)
  {
    Regroup(ws[0].Bytes(f), Body(f, ws[1..]), stray);
  }

  lemma FirstOfBody(f: Format, buf: seq<byte>, pos: nat, end: nat, ws: seq<Wire>, stray: seq<byte>)
    requires f.Sound() && AllFit(ws) && ws != []
    requires pos <= end <= |buf| && buf[pos..end] == Body(f, ws) + stray
    ensures var next := Next(pos, ws[0]);
            && AllFit(ws[1..]) && next <= end && buf[next..end] == Body(f, ws[1..]) + stray
            && Attributes(f, buf, pos, end) == [ws[0].attribute] + Attributes(f, buf, next, end)
  {
    BodySplit(f, ws, stray);
    FirstAttribute(f, ws[0], Body(f, ws[1..]) + stray, buf, pos, end);
  }

  /** Reading back any list of attributes, whatever the padding bytes are and with up to three
      stray bytes at the end of the message. */
  lemma {:induction false} AttributesRoundTrip(
    f: Format, buf: seq<byte>, pos: nat, end: nat, ws: seq<Wire>, stray: seq<byte>)
    requires f.Sound() && AllFit(ws) && |stray| < 4
    requires pos <= end <= |buf| && buf[pos..end] == Body(f, ws) + stray
    ensures Attributes(f, buf, pos, end) == Written(ws)
    decreases |ws|
  {
    if ws != [] {
      FirstOfBody(f, buf, pos, end, ws, stray);
      AttributesRoundTrip(f, buf, Next(pos, ws[0]), end, ws[1..], stray);
    }
  }

  function Header(kind: u16, length: u16, txId: seq<byte>): (h: seq<byte>) {
    U16Bytes(kind) + U16Bytes(length) + [0x21, 0x12, 0xA4, 0x42] + txId
  }

  lemma Slices(a: seq<byte>, b: seq<byte>, c: seq<byte>, d: seq<byte>, after: seq<byte>)
    requires |a| == 2 && |b| == 2 && |c| == 4 && |d| == 12
    ensures var s := a + b + c + d + after;
            && |s| == 20 + |after|
            && s[0] == a[0] && s[1] == a[1] && s[2] == b[0] && s[3] == b[1]
            && s[4] == c[0] && s[5] == c[1] && s[6] == c[2] && s[7] == c[3]
            && s[8..20] == d && s[20..] == after
  {
  }

  lemma CookieBytes()
    ensures Join32(0x21, 0x12, 0xA4, 0x42) == COOKIE
  {
  }

  lemma HeaderReads(kind: u16, length: u16, txId: seq<byte>, after: seq<byte>)
    requires |txId| == 12
    ensures var s := Header(kind, length, txId) + after;
            && |s| == 20 + |after|
            && Word16(s[0], s[1]) == kind && Word16(s[2], s[3]) == length
            && Join32(s[4], s[5], s[6], s[7]) == COOKIE
            && s[8..20] == txId && s[20..] == after
  {
    Slices(U16Bytes(kind), U16Bytes(length), [0x21, 0x12, 0xA4, 0x42], txId, after);
    CookieBytes();
  }

  lemma Regroup(a: seq<byte>, b: seq<byte>, c: seq<byte>)
    ensures a + b + c == a + (b + c)
    ensures (a + (b + c))[|a|..|a| + |b|] == b
  {
  }

  /** A response header in front of a body of the stated length is recognised. */
  lemma ResponseShape(txId: seq<byte>, body: seq<byte>, beyond: seq<byte>)
    requires |txId| == 12 && |body| < 0x1_0000
    ensures var buf := Header(BINDING_RESPONSE, |body|, txId) + body + beyond;
            IsResponse(buf, txId) && End(buf) == 20 + |body| && buf[20..End(buf)] == body
  {
    var header := Header(BINDING_RESPONSE, |body|, txId);
    Regroup(header, body, beyond);
    HeaderReads(BINDING_RESPONSE, |body|, txId, body + beyond);
  }

  lemma BodyAnswered(f: Format, buf: seq<byte>, end: nat, ws: seq<Wire>, stray: seq<byte>)
    requires f.Sound() && AllFit(ws) && |stray| < 4
    requires 20 <= end <= |buf| && buf[20..end] == Body(f, ws) + stray
    ensures IsAnswer(f, Written(ws), None, Select(f, Attributes(f, buf, 20, end), None))
  {
    AttributesRoundTrip(f, buf, 20, end, ws, stray);
    SelectAnswers(f, Written(ws), None);
  }

  /** A response to our request, with any attributes, any padding, up to three stray bytes and
      anything beyond its stated length, is answered with the first valid XOR-MAPPED-ADDRESS in
      it, else the last valid MAPPED-ADDRESS, else nothing. */
  lemma ResponseAnswered(txId: seq<byte>, ws: seq<Wire>, stray: seq<byte>, beyond: seq<byte>)
    requires |txId| == 12 && AllFit(ws) && |stray| < 4 && |Body(Rfc5389(), ws) + stray| < 0x1_0000
    ensures var body := Body(Rfc5389(), ws) + stray;
            IsAnswer(Rfc5389(), Written(ws), None,
                     Answer(Header(BINDING_RESPONSE, |body|, txId) + body + beyond, txId))
  {
    var body := Body(Rfc5389(), ws) + stray;
    var buf := Header(BINDING_RESPONSE, |body|, txId) + body + beyond;
    ResponseShape(txId, body, beyond);
    Rfc5389Sound();
    BodyAnswered(Rfc5389(), buf, End(buf), ws, stray);
  }

  lemma SmallBytes()
    ensures U16Bytes(BINDING_REQUEST) == [0x00, 0x01] && U16Bytes(0) == [0x00, 0x00]
  {
    ByteOfInt(0);
    ByteOfInt(1);
  }

  lemma RequestBytes(txId: seq<byte>)
    ensures Header(BINDING_REQUEST, 0, txId) == [0x00, 0x01, 0x00, 0x00, 0x21, 0x12, 0xA4, 0x42] + txId
  {
    SmallBytes();
  }

  /** `build_binding_request`: a bare header. */
  method BuildBindingRequest(txId: seq<byte>) returns (pkt: array<byte>)
    requires |txId| == 12
    ensures fresh(pkt) && pkt.Length == 20 && pkt[..] == Header(BINDING_REQUEST, 0, txId)
    ensures pkt[..] == [0x00, 0x01, 0x00, 0x00, 0x21, 0x12, 0xA4, 0x42] + txId
  {
    pkt := new byte[20];
    CopyInto(pkt, 0, U16Bytes(BINDING_REQUEST));
    CopyInto(pkt, 2, U16Bytes(0));
    CopyInto(pkt, 4, [0x21, 0x12, 0xA4, 0x42]);
    CopyInto(pkt, 8, txId);
    assert pkt[..] == pkt[..20];
    RequestBytes(txId);
  }

  /** The parser never takes a request for a response. */
  lemma RequestIsNoResponse(txId: seq<byte>, other: seq<byte>)
    requires |txId| == 12
    ensures Answer(Header(BINDING_REQUEST, 0, txId), other) == None
  {
    HeaderReads(BINDING_REQUEST, 0, txId, []);
    assert Header(BINDING_REQUEST, 0, txId) + [] == Header(BINDING_REQUEST, 0, txId);
  }

  // ---- Literal responses -------------------------------------------------------

  lemma OneAttribute(f: Format, buf: seq<byte>, kind: u16, value: seq<byte>)
    requires |buf| == 32 && |value| == 8 && buf[24..32] == value
    requires f.word(buf[20], buf[21]) == kind && f.word(buf[22], buf[23]) == 8
    ensures Attributes(f, buf, 20, 32) == [Attribute(kind, value)]
  {
    assert Padded(8) == 4 + Padded(4) == 8;
    assert Attributes(f, buf, 32, 32) == [];
  }

  lemma SelectOne(f: Format, a: Attribute)
    ensures Select(f, [a], None) == if f.xor(a).Some? then f.xor(a) else if f.plain(a).Some? then f.plain(a) else None
  {
    var next := if f.plain(a).Some? then f.plain(a) else None;
    assert Select(f, [], next) == next;
    assert [a][1..] == [];
  }

  /** A whole response with one attribute of eight bytes, byte for byte. */
  function ShortResponse(txId: seq<byte>, kind: byte, value: seq<byte>): seq<byte> {
    [0x01, 0x01, 0x00, 0x0C, 0x21, 0x12, 0xA4, 0x42] + txId + [0x00, kind, 0x00, 0x08] + value
  }

  lemma ShortResponseReads(txId: seq<byte>, kind: byte, value: seq<byte>)
    requires |txId| == 12 && |value| == 8
    ensures var buf := ShortResponse(txId, kind, value);
            && |buf| == 32 && buf[8..20] == txId && buf[24..32] == value
            && buf[0] == 0x01 && buf[1] == 0x01 && buf[2] == 0x00 && buf[3] == 0x0C
            && buf[4] == 0x21 && buf[5] == 0x12 && buf[6] == 0xA4 && buf[7] == 0x42
            && buf[20] == 0x00 && buf[21] == kind && buf[22] == 0x00 && buf[23] == 0x08
  {
  }

  lemma SmallWords()
    ensures Word16(0x01, 0x01) == 0x0101 && Word16(0x00, 0x0C) == 12 && Word16(0x00, 0x08) == 8
    ensures Word16(0x00, 0x20) == 0x0020 && Word16(0x00, 0x01) == 0x0001
  {
  }

  /** The parser on whole responses, with every code spelled out: type 0101, length 12, the cookie, the
      transaction id, one attribute 0020 or 0001 of length 8, and any other attribute kind. */
  lemma LiteralResponse(txId: seq<byte>, kind: byte, value: seq<byte>)
    requires |txId| == 12 && |value| == 8
    ensures Answer(ShortResponse(txId, kind, value), txId) ==
            if kind == 0x20 then ParseXorMapped(value) else if kind == 0x01 then ParseMapped(value) else None
  {
    var buf := ShortResponse(txId, kind, value);
    ShortResponseReads(txId, kind, value);
    SmallWords();
    CookieBytes();
    var word := Word16(0x00, kind);
    OneAttribute(Rfc5389(), buf, word, value);
    SelectOne(Rfc5389(), Attribute(word, value));
    KindOf(kind);
  }

  lemma KindOf(kind: byte)
    ensures Word16(0x00, kind) == 0x20 <==> kind == 0x20
    ensures Word16(0x00, kind) == 0x01 <==> kind == 0x01
  {
    IntOfByte(kind);
  }

  /** What is never answered: a short buffer, another type, a length beyond the buffer, another cookie,
      another transaction. */
  lemma NeverAnswered(buf: seq<byte>, txId: seq<byte>)
    ensures |buf| < 20 ==> Answer(buf, txId) == None
    ensures |buf| >= 20 && !(buf[0] == 0x01 && buf[1] == 0x01) ==> Answer(buf, txId) == None
    ensures |buf| >= 20 && |buf| < 20 + buf[2] as int * 256 + buf[3] as int ==> Answer(buf, txId) == None
    ensures |buf| >= 20 && buf[4..8] != [0x21, 0x12, 0xA4, 0x42] ==> Answer(buf, txId) == None
    ensures |buf| >= 20 && buf[8..20] != txId ==> Answer(buf, txId) == None
  {
    if |buf| >= 20 {
      TypeCode(buf[0], buf[1]);
      CookieIsBytes(buf[4], buf[5], buf[6], buf[7]);
      assert buf[4..8] == [buf[4], buf[5], buf[6], buf[7]];
    }
  }

  lemma TypeCode(hi: byte, lo: byte)
    ensures Word16(hi, lo) == BINDING_RESPONSE <==> hi == 0x01 && lo == 0x01
  {
    IntOfByte(hi);
    IntOfByte(lo);
  }

  lemma CookieIsBytes(a: byte, b: byte, c: byte, d: byte)
    ensures Join32(a, b, c, d) == COOKIE <==> a == 0x21 && b == 0x12 && c == 0xA4 && d == 0x42
  {
  }
}

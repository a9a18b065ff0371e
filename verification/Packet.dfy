/** Packet framing: the 24-byte header, the length and checksum trailer, parser and printer. */
module Packet {
  import opened Words
  import opened Checksum

  const HEADER_SIZE: nat := 24
  const MAX_PAYLOAD_SIZE: nat := 1176
  const PROTOCOL_VERSION: byte := 1

  datatype Header = Header(
    version: byte,
    flags: byte,
    msgType: byte,
    sessionId: u32,
    sequence: u32,
    timestamp: u64)

  datatype Error =
    | TooShort
    | BadMagic
    | ProtocolMismatch
    | ReservedFieldNonZero
    | LengthMismatch
    | PayloadTooLarge
    | BadChecksum
    | BufferTooSmall

  datatype View = View(header: Header, payload: seq<byte>)

  // ---- Wire format -------------------------------------------------------------

  function HeaderBytes(h: Header): (s: seq<byte>)
    ensures |s| == HEADER_SIZE
  {
    [0x47, 0x53, h.version, h.flags, h.msgType, 0, 0, 0]
    + BigEndian(h.sessionId, 4) + BigEndian(h.sequence, 4) + BigEndian(h.timestamp, 8)
  }

  function ChecksumBytes(c: bv16): seq<byte> {
    [(c >> 8) as byte, (c & 0xFF) as byte]
  }

  /** Everything the checksum covers: header, payload, payload length. */
  function Covered(h: Header, payload: seq<byte>): seq<byte> {
    HeaderBytes(h) + payload + BigEndian(|payload|, 2)
  }

  /** The printed packet. */
  function Print(h: Header, payload: seq<byte>): (s: seq<byte>)
    ensures |s| == HEADER_SIZE + |payload| + 4
  {
    Covered(h, payload) + ChecksumBytes(Crc16(Covered(h, payload)))
  }

  function ParseHeader(buf: seq<byte>): Result<Header, Error> {
    if |buf| < HEADER_SIZE then Err(TooShort)
    else if buf[0] != 0x47 || buf[1] != 0x53 then Err(BadMagic)
    else if buf[2] != PROTOCOL_VERSION then Err(ProtocolMismatch)
    else if buf[5] != 0 || buf[6] != 0 || buf[7] != 0 then Err(ReservedFieldNonZero)
    else
      FieldBounds(buf);
      Ok(Header(buf[2], buf[3], buf[4],
                FromBigEndian(buf[8..12]), FromBigEndian(buf[12..16]), FromBigEndian(buf[16..24])))
  }

  lemma FieldBounds(buf: seq<byte>)
    requires |buf| >= HEADER_SIZE
    ensures FromBigEndian(buf[8..12]) < 0x1_0000_0000
    ensures FromBigEndian(buf[12..16]) < 0x1_0000_0000
    ensures FromBigEndian(buf[16..24]) < 0x1_0000_0000_0000_0000
  {
    Pow256Values();
    FromBigEndianBound(buf[8..12]);
    FromBigEndianBound(buf[12..16]);
    FromBigEndianBound(buf[16..24]);
  }

  /** The parser, in the order of its checks. */
  function Parse(buf: seq<byte>): Result<View, Error> {
    var n := |buf|;
    if n < HEADER_SIZE + 4 then Err(TooShort)
    else
      var h := ParseHeader(buf);
      if h.Err? then Err(h.error)
      else
        var len := FromBigEndian(buf[n - 4..n - 2]);
        if HEADER_SIZE + len + 4 != n then Err(LengthMismatch)
        else if len > MAX_PAYLOAD_SIZE then Err(PayloadTooLarge)
        else if buf[n - 2..] != ChecksumBytes(Crc16(buf[..n - 2])) then Err(BadChecksum)
        else Ok(View(h.value, buf[HEADER_SIZE..HEADER_SIZE + len]))
  }

  // ---- Parser and printer are mutual inverses ----------------------------------

  lemma HeaderRoundTrip(h: Header, rest: seq<byte>)
    ensures var r := ParseHeader(HeaderBytes(h) + rest);
            if h.version == PROTOCOL_VERSION then r == Ok(h) else r == Err(ProtocolMismatch)
  {
    var buf := HeaderBytes(h) + rest;
    Pow256Values();
    assert buf[8..12] == BigEndian(h.sessionId, 4);
    assert buf[12..16] == BigEndian(h.sequence, 4);
    assert buf[16..24] == BigEndian(h.timestamp, 8);
    DecodeBigEndian(h.sessionId, 4);
    DecodeBigEndian(h.sequence, 4);
    DecodeBigEndian(h.timestamp, 8);
  }

  lemma HeaderReprint(buf: seq<byte>)
    requires ParseHeader(buf).Ok?
    ensures HeaderBytes(ParseHeader(buf).value) == buf[..HEADER_SIZE]
  {
    var fixed := [0x47, 0x53, buf[2], buf[3], buf[4], 0, 0, 0];
    assert buf[..8] == fixed;
    EncodeBigEndian(buf[8..12]);
    EncodeBigEndian(buf[12..16]);
    EncodeBigEndian(buf[16..24]);
    assert buf[..HEADER_SIZE] == buf[..8] + buf[8..12] + buf[12..16] + buf[16..24];
  }

  lemma Slices(head: seq<byte>, payload: seq<byte>, len: seq<byte>, sum: seq<byte>)
    requires |len| == |sum| == 2
    ensures var buf, n := head + payload + len + sum, |head| + |payload| + 4;
            && |buf| == n
            && buf == head + (payload + len + sum)
            && buf[n - 4..n - 2] == len
            && buf[..n - 2] == head + payload + len
            && buf[n - 2..] == sum
            && buf[|head|..|head| + |payload|] == payload
  {
  }

  lemma Reassemble(buf: seq<byte>, k: nat)
    requires k + 4 <= |buf|
    ensures var n := |buf|;
            && buf[..n - 2] == buf[..k] + buf[k..n - 4] + buf[n - 4..n - 2]
            && buf == buf[..n - 2] + buf[n - 2..]
  {
  }

  /** Any printable packet parses back to itself exactly when its version is the protocol's. */
  lemma RoundTrip(h: Header, payload: seq<byte>)
    requires |payload| <= MAX_PAYLOAD_SIZE
    ensures Parse(Print(h, payload)) ==
            if h.version == PROTOCOL_VERSION then Ok(View(h, payload)) else Err(ProtocolMismatch)
  {
    var head, len, sum := HeaderBytes(h), BigEndian(|payload|, 2), ChecksumBytes(Crc16(Covered(h, payload)));
    Slices(head, payload, len, sum);
    HeaderRoundTrip(h, payload + len + sum);
    Pow256Values();
    DecodeBigEndian(|payload|, 2);
  }

  /** Whatever parses is reproduced byte for byte by printing it. */
  lemma Reprint(buf: seq<byte>)
    requires Parse(buf).Ok?
    ensures var v := Parse(buf).value;
            Print(v.header, v.payload) == buf && |v.payload| <= MAX_PAYLOAD_SIZE
  {
    var n := |buf|;
    HeaderReprint(buf);
    EncodeBigEndian(buf[n - 4..n - 2]);
    Reassemble(buf, HEADER_SIZE);
  }

  // ---- Error detection ---------------------------------------------------------

  lemma ChecksumBytesInjective(c: bv16, d: bv16)
    requires ChecksumBytes(c) == ChecksumBytes(d)
    ensures c == d
  {
    WordFromHalves(c);
    WordFromHalves(d);
    assert ChecksumBytes(c)[0] == ChecksumBytes(d)[0] && ChecksumBytes(c)[1] == ChecksumBytes(d)[1];
  }

  lemma WordFromHalves(c: bv16)
    ensures c == High((c >> 8) as byte) | (((c & 0xFF) as byte) as bv16)
  {
  }

  /** `bad` is `good` with some bits changed inside one window of 16 consecutive bits,
      lying in bytes i, i+1, i+2. Two adjacent bytes are the cases s == 0 and s == 8. */
  ghost predicate BurstError(good: seq<byte>, bad: seq<byte>, i: nat, s: bv24) {
    && |good| == |bad| && i + 3 <= |good|
    && good[..i] == bad[..i] && good[i + 3..] == bad[i + 3..]
    && InBurst(good[i] ^ bad[i], good[i + 1] ^ bad[i + 1], good[i + 2] ^ bad[i + 2], s)
  }

  /** A burst within three bytes. */
  ghost predicate BurstIn(g: seq<byte>, b: seq<byte>, s: bv24) {
    |g| == |b| == 3 && InBurst(g[0] ^ b[0], g[1] ^ b[1], g[2] ^ b[2], s)
  }

  lemma BurstSlices(good: seq<byte>, bad: seq<byte>, i: nat, s: bv24)
    requires BurstError(good, bad, i, s)
    ensures BurstIn(good[i..i + 3], bad[i..i + 3], s)
  {
    var g, b := good[i..i + 3], bad[i..i + 3];
    assert g[0] == good[i] && g[1] == good[i + 1] && g[2] == good[i + 2];
    assert b[0] == bad[i] && b[1] == bad[i + 1] && b[2] == bad[i + 2];
  }

  /** Equal checksums of strings that agree around three bytes mean equal registers after them. */
  lemma SameCrcAround(good: seq<byte>, bad: seq<byte>, i: nat, c: bv16)
    requires |good| == |bad| && i + 3 <= |good| && c == Crc(Shift8, INIT, good[..i])
    requires good[..i] == bad[..i] && good[i + 3..] == bad[i + 3..] && Crc16(good) == Crc16(bad)
    ensures Crc(Shift8, c, good[i..i + 3]) == Crc(Shift8, c, bad[i..i + 3])
  {
    CrcSplit(good, i, c);
    CrcSplit(bad, i, c);
    Shift8IsShifter();
    CrcInjective(Shift8, Crc(Shift8, c, good[i..i + 3]), Crc(Shift8, c, bad[i..i + 3]), good[i + 3..]);
  }

  lemma SameRegisterSameBytes(c: bv16, g: seq<byte>, b: seq<byte>, s: bv24)
    requires BurstIn(g, b, s) && Crc(Shift8, c, g) == Crc(Shift8, c, b)
    ensures g == b
  {
    BurstDetected(c, g, b, s);
  }

  lemma BurstChangesCrc(good: seq<byte>, bad: seq<byte>, i: nat, s: bv24)
    requires BurstError(good, bad, i, s) && Crc16(good) == Crc16(bad)
    ensures good == bad
  {
    var c := Crc(Shift8, INIT, good[..i]);
    BurstSlices(good, bad, i, s);
    SameCrcAround(good, bad, i, c);
    SameRegisterSameBytes(c, good[i..i + 3], bad[i..i + 3], s);
    Reassembled(good, bad, i);
  }

  lemma Reassembled(good: seq<byte>, bad: seq<byte>, i: nat)
    requires |good| == |bad| && i + 3 <= |good|
    requires good[..i] == bad[..i] && good[i..i + 3] == bad[i..i + 3] && good[i + 3..] == bad[i + 3..]
    ensures good == bad
  {
    assert good == good[..i] + good[i..i + 3] + good[i + 3..];
    assert bad == bad[..i] + bad[i..i + 3] + bad[i + 3..];
  }

  lemma CrcSplit(s: seq<byte>, i: nat, c: bv16)
    requires i + 3 <= |s| && c == Crc(Shift8, INIT, s[..i])
    ensures Crc16(s) == Crc(Shift8, Crc(Shift8, c, s[i..i + 3]), s[i + 3..])
  {
    assert s == s[..i] + s[i..i + 3] + s[i + 3..];
    CrcConcat(Shift8, INIT, s[..i] + s[i..i + 3], s[i + 3..]);
    CrcConcat(Shift8, INIT, s[..i], s[i..i + 3]);
  }

  /** No burst error of at most 16 bits, anywhere in a printed packet, gets past the parser. */
  lemma BurstErrorDetected(h: Header, payload: seq<byte>, bad: seq<byte>, i: nat, s: bv24)
    requires |payload| <= MAX_PAYLOAD_SIZE
    requires BurstError(Print(h, payload), bad, i, s) && bad != Print(h, payload)
    ensures Parse(bad).Err?
  {
    var good := Print(h, payload);
    var n := |good|;
    assert good[..n - 2] == Covered(h, payload);
    assert good[n - 4..n - 2] == BigEndian(|payload|, 2);
    Pow256Values();
    DecodeBigEndian(|payload|, 2);
    if Parse(bad).Ok? {
      assert FromBigEndian(bad[n - 4..n - 2]) == |payload|;
      EncodeBigEndian(bad[n - 4..n - 2]);
      assert bad[n - 4..n - 2] == good[n - 4..n - 2];
      if i + 3 <= n - 2 {
        BurstInCovered(good, bad, i, s);
      } else {
        BurstInTrailer(good, bad, i);
      }
    }
  }

  lemma BurstTruncated(good: seq<byte>, bad: seq<byte>, i: nat, s: bv24, m: nat)
    requires BurstError(good, bad, i, s) && i + 3 <= m <= |good|
    ensures BurstError(good[..m], bad[..m], i, s) && good[m..] == bad[m..]
  {
    assert good[..m][i + 3..] == good[i + 3..][..m - i - 3] && bad[..m][i + 3..] == bad[i + 3..][..m - i - 3];
    assert good[..m][..i] == good[..i] && bad[..m][..i] == bad[..i];
    assert good[m..] == good[i + 3..][m - i - 3..] && bad[m..] == bad[i + 3..][m - i - 3..];
  }

  lemma BurstInCovered(good: seq<byte>, bad: seq<byte>, i: nat, s: bv24)
    requires |good| >= 2 && i + 3 <= |good| - 2 && BurstError(good, bad, i, s)
    requires good[|good| - 2..] == ChecksumBytes(Crc16(good[..|good| - 2]))
    requires bad[|bad| - 2..] == ChecksumBytes(Crc16(bad[..|bad| - 2]))
    ensures good == bad
  {
    var m := |good| - 2;
    BurstTruncated(good, bad, i, s, m);
    ChecksumBytesInjective(Crc16(good[..m]), Crc16(bad[..m]));
    BurstChangesCrc(good[..m], bad[..m], i, s);
    assert good == good[..m] + good[m..] && bad == bad[..m] + bad[m..];
  }

  lemma BurstInTrailer(good: seq<byte>, bad: seq<byte>, i: nat)
    requires |good| == |bad| >= 4 && |good| - 2 < i + 3 <= |good|
    requires good[..i] == bad[..i]
    requires good[|good| - 4..|good| - 2] == bad[|bad| - 4..|bad| - 2]
    requires good[|good| - 2..] == ChecksumBytes(Crc16(good[..|good| - 2]))
    requires bad[|bad| - 2..] == ChecksumBytes(Crc16(bad[..|bad| - 2]))
    ensures good == bad
  {
    var m := |good| - 2;
    assert good[..m] == bad[..m] by {
      assert forall k :: 0 <= k < m - 2 ==> good[k] == good[..i][k] && bad[k] == bad[..i][k];
      assert good[..m] == good[..m - 2] + good[m - 2..m] && bad[..m] == bad[..m - 2] + bad[m - 2..m];
    }
    assert good == good[..m] + good[m..] && bad == bad[..m] + bad[m..];
  }

  // ---- The format, field by field ----------------------------------------------

  /** Where each field of a packet is, with its constants written out. */
  lemma FieldOffsets(h: Header, payload: seq<byte>)
    ensures var s, n := Print(h, payload), |payload|;
            && |s| == n + 28
            && s[0] == 0x47 && s[1] == 0x53
            && s[2] == h.version && s[3] == h.flags && s[4] == h.msgType
            && s[5] == 0 && s[6] == 0 && s[7] == 0
            && s[8..12] == BigEndian(h.sessionId, 4)
            && s[12..16] == BigEndian(h.sequence, 4)
            && s[16..24] == BigEndian(h.timestamp, 8)
            && s[24..24 + n] == payload
            && s[24 + n..26 + n] == BigEndian(n, 2)
            && s[26 + n..28 + n] == ChecksumBytes(Crc16(s[..26 + n]))
  {
    var s, n := Print(h, payload), |payload|;
    var c := Covered(h, payload);
    assert s[..26 + n] == c;
    HeaderOffsets(h);
    var head := HeaderBytes(h);
    assert s[..24] == head;
    assert s[8..12] == head[8..12] && s[12..16] == head[12..16] && s[16..24] == head[16..24];
    assert s[0] == head[0] && s[1] == head[1] && s[2] == head[2] && s[3] == head[3];
    assert s[4] == head[4] && s[5] == head[5] && s[6] == head[6] && s[7] == head[7];
  }

  lemma HeaderOffsets(h: Header)
    ensures var s := HeaderBytes(h);
            && s[0] == 0x47 && s[1] == 0x53 && s[2] == h.version && s[3] == h.flags && s[4] == h.msgType
            && s[5] == 0 && s[6] == 0 && s[7] == 0 && s[8..12] == BigEndian(h.sessionId, 4)
            && s[12..16] == BigEndian(h.sequence, 4) && s[16..24] == BigEndian(h.timestamp, 8)
  {
  }

  /** A printed packet decodes if and only if its version is 1 and its payload at most 1176 bytes. */
  lemma PrintDecodesIff(h: Header, payload: seq<byte>)
    ensures Parse(Print(h, payload)).Ok? <==> h.version == 1 && |payload| <= 1176
    ensures h.version != 1 ==> Parse(Print(h, payload)) == Err(ProtocolMismatch)
  {
    FieldOffsets(h, payload);
    if h.version == 1 && |payload| <= 1176 {
      RoundTrip(h, payload);
    }
  }

  /** The first check that fails decides the error. */
  lemma ErrorsInOrder(buf: seq<byte>)
    ensures |buf| < 28 ==> Parse(buf) == Err(TooShort)
    ensures |buf| >= 28 && !(buf[0] == 0x47 && buf[1] == 0x53) ==> Parse(buf) == Err(BadMagic)
    ensures |buf| >= 28 && buf[0] == 0x47 && buf[1] == 0x53 && buf[2] != 1 ==> Parse(buf) == Err(ProtocolMismatch)
    ensures |buf| >= 28 && buf[0] == 0x47 && buf[1] == 0x53 && buf[2] == 1 && buf[5..8] != [0, 0, 0] ==>
              Parse(buf) == Err(ReservedFieldNonZero)
  {
    if |buf| >= 28 {
      assert buf[5..8] == [buf[5], buf[6], buf[7]];
    }
  }

  // ---- The imperative encoder and decoder --------------------------------------

  /** `PacketHeader::encode`. */
  method EncodeHeader(h: Header, out: array<byte>) returns (r: Result<(), Error>)
    modifies out
    ensures out.Length < HEADER_SIZE ==> r == Err(BufferTooSmall) && out[..] == old(out[..])
    ensures out.Length >= HEADER_SIZE ==>
              && r == Ok(())
              && out[..HEADER_SIZE] == HeaderBytes(h)
              && forall j :: HEADER_SIZE <= j < out.Length ==> out[j] == old(out[j])
  {
    if out.Length < HEADER_SIZE {
      return Err(BufferTooSmall);
    }
    CopyInto(out, 0, [0x47, 0x53, h.version, h.flags, h.msgType, 0, 0, 0]);
    CopyInto(out, 8, BigEndian(h.sessionId, 4));
    CopyInto(out, 12, BigEndian(h.sequence, 4));
    CopyInto(out, 16, BigEndian(h.timestamp, 8));
    r := Ok(());
  }

  /** The CRC of `PacketBuilder::encode`: two segments, then the length bytes. */
  method EncoderChecksum(head: seq<byte>, payload: seq<byte>, len: seq<byte>) returns (crc: bv16)
    ensures crc == Crc16(head + payload + len)
  {
    crc := Crc16TwoSegments(head, payload);
    var table := BuildTable();
    Shift8IsShifter();
    crc := CrcStep(Shift8, table, crc, len);
    CrcConcat(Shift8, INIT, head + payload, len);
  }

  /** `PacketBuilder::encode`. */
  method Encode(h: Header, payload: seq<byte>, out: array<byte>) returns (r: Result<nat, Error>)
    modifies out
    ensures |payload| > MAX_PAYLOAD_SIZE ==> r == Err(PayloadTooLarge) && out[..] == old(out[..])
    ensures |payload| <= MAX_PAYLOAD_SIZE && out.Length < HEADER_SIZE + |payload| + 4 ==>
              r == Err(BufferTooSmall) && out[..] == old(out[..])
    ensures |payload| <= MAX_PAYLOAD_SIZE && out.Length >= HEADER_SIZE + |payload| + 4 ==>
              var total := HEADER_SIZE + |payload| + 4;
              && r == Ok(total)
              && out[..total] == Print(h, payload)
              && forall j :: total <= j < out.Length ==> out[j] == old(out[j])
  {
    var len := |payload|;
    if len > MAX_PAYLOAD_SIZE {
      return Err(PayloadTooLarge);
    }
    var total := HEADER_SIZE + len + 4;
    if out.Length < total {
      return Err(BufferTooSmall);
    }
    var head := EncodeHeader(h, out);
    CopyInto(out, HEADER_SIZE, payload);
    CopyInto(out, total - 4, BigEndian(len, 2));
    assert out[..total - 2] == Covered(h, payload);
    assert out[..HEADER_SIZE] == out[..total - 2][..HEADER_SIZE] == HeaderBytes(h);
    var crc := EncoderChecksum(out[..HEADER_SIZE], payload, BigEndian(len, 2));
    CopyInto(out, total - 2, ChecksumBytes(crc));
    r := Ok(total);
  }

  /** `compute_checksum`: three passes over header, payload and length. */
  method ComputeChecksum(header: seq<byte>, payload: seq<byte>, len: seq<byte>) returns (crc: bv16)
    ensures crc == Crc16(header + payload + len)
  {
    var table := BuildTable();
    Shift8IsShifter();
    crc := CrcStep(Shift8, table, INIT, header);
    crc := CrcStep(Shift8, table, crc, payload);
    crc := CrcStep(Shift8, table, crc, len);
    CrcConcat(Shift8, INIT, header, payload);
    CrcConcat(Shift8, INIT, header + payload, len);
  }

  /** `PacketView::decode`. */
  method Decode(buf: seq<byte>) returns (r: Result<View, Error>)
    ensures r == Parse(buf)
  {
    var n := |buf|;
    if n < HEADER_SIZE + 4 {
      return Err(TooShort);
    }
    var h := ParseHeader(buf);
    if h.Err? {
      return Err(h.error);
    }
    var len := FromBigEndian(buf[n - 4..n - 2]);
    if HEADER_SIZE + len + 4 != n {
      return Err(LengthMismatch);
    }
    if len > MAX_PAYLOAD_SIZE {
      return Err(PayloadTooLarge);
    }
    var payload := buf[HEADER_SIZE..HEADER_SIZE + len];
    EncodeBigEndian(buf[n - 4..n - 2]);
    var computed := ComputeChecksum(buf[..HEADER_SIZE], payload, BigEndian(len, 2));
    assert buf[..n - 2] == buf[..HEADER_SIZE] + payload + BigEndian(len, 2);
    if buf[n - 2..] != ChecksumBytes(computed) {
      return Err(BadChecksum);
    }
    r := Ok(View(h.value, payload));
  }
}

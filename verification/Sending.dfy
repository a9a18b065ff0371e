/**
 The sending half of the audio path: `send_audio` numbers a frame, sends it and feeds the FEC
 encoder, which emits a parity packet after every fourth frame it is fed.

 A send can fail after the frame has been numbered: encryption, the packet encoder's size check
 and the socket all return early. Such a frame uses up its number and never reaches the encoder.
 Packets are modelled before encryption; AEAD decryption inverting encryption is taken as given.
 */
module Sending {
  import opened Words
  import opened JitterRuns
  import opened Fec

  const FEC_WINDOW: nat := 4

  /** A frame handed to `send_audio`; `sent` says whether the send went through. */
  datatype Captured = Captured(payload: bytes, stamp: u64, sent: bool)

  /** A decrypted datagram: an audio frame or a parity packet. */
  datatype Packet =
    | Audio(stamp: u64, plaintext: bytes)
    | ParityPacket(plaintext: bytes)

  datatype Sender = Sender(next: u32, enc: Encoder)

  const NEW_SENDER := Sender(0, Encoder(FEC_WINDOW, 0, []))

  /** Plaintext = audio sequence, 4 bytes big-endian, then the payload. */
  function AudioPacket(sequence: u32, item: Captured): Packet {
    Audio(item.stamp, BigEndian(sequence, 4) + item.payload)
  }

  /** Plaintext = group base, 4 bytes big-endian, window, then the parity bytes. */
  function FecPacket(p: Parity): Packet
    requires p.window < 256
  {
    ParityPacket(BigEndian(p.seqBase, 4) + [p.window as byte] + p.payload)
  }

  /** The layout on the wire, by offsets. */
  lemma WireLayout(sequence: u32, item: Captured, p: Parity)
    requires p.window < 256
    ensures var a, f := AudioPacket(sequence, item).plaintext, FecPacket(p).plaintext;
            && |a| == 4 + |item.payload| && a[..4] == BigEndian(sequence, 4) && a[4..] == item.payload
            && |f| == 5 + |p.payload| && f[..4] == BigEndian(p.seqBase, 4) && f[4] as int == p.window && f[5..] == p.payload
  {
    ByteOfInt(p.window);
  }

  function AfterSend(s: Sender, item: Captured): Sender {
    Sender(WrapAdd(s.next, 1), if item.sent then s.enc.Push(s.next, item.payload) else s.enc)
  }

  /** The packets one `send_audio` call puts on the wire. */
  function Emits(s: Sender, item: Captured): seq<Packet>
    requires s.enc.window < 256
  {
    var parity := s.enc.Emitted(s.next, item.payload);
    if !item.sent then []
    else [AudioPacket(s.next, item)] + if parity.Some? then [FecPacket(parity.value)] else []
  }

  function SenderAfter(items: seq<Captured>): (s: Sender)
    ensures s.enc.window == FEC_WINDOW
  {
    if items == [] then NEW_SENDER else AfterSend(SenderAfter(items[..|items| - 1]), items[|items| - 1])
  }

  /** The packets of the `i`-th frame of a stream. */
  function Sent(items: seq<Captured>, i: nat): seq<Packet>
    requires i < |items|
  {
    Emits(SenderAfter(items[..i]), items[i])
  }

  // ---- Which frames the encoder's open group holds -----------------------------

  /** The numbers of the frames in the open group. */
  function Open(items: seq<Captured>): (idx: seq<nat>)
    ensures |idx| < 4 && Below(idx, |items|)
  {
    if items == [] then []
    else
      var n := |items| - 1;
      Opened(Open(items[..n]), n, items[n].sent)
  }

  /** The open group after frame `n`. */
  function Opened(before: seq<nat>, n: nat, sent: bool): seq<nat> {
    if !sent then before else if |before| == 3 then [] else before + [n]
  }

  predicate Below(idx: seq<nat>, n: nat) {
    forall k :: 0 <= k < |idx| ==> idx[k] < n
  }

  function Pick(items: seq<Captured>, idx: seq<nat>): (frames: seq<bytes>)
    requires Below(idx, |items|)
    ensures |frames| == |idx| && forall k :: 0 <= k < |idx| ==> frames[k] == items[idx[k]].payload
  {
    seq(|idx|, k requires 0 <= k < |idx| => items[idx[k]].payload)
  }

  lemma OpenNext(items: seq<Captured>, n: nat)
    requires n < |items|
    ensures Open(items[..n + 1]) == Opened(Open(items[..n]), n, items[n].sent)
  {
    assert items[..n + 1][..n] == items[..n];
  }

  /** The sender's counter counts every frame; its open group holds the frames `Open` names and
      starts at the first of them. */
  ghost predicate Tracks(s: Sender, n: nat, idx: seq<nat>, frames: seq<bytes>) {
    && s.next == Wrap(n) && s.enc.window == FEC_WINDOW && s.enc.group == frames && |frames| == |idx| < 4
    && (idx != [] ==> s.enc.base == Wrap(idx[0]))
  }

  lemma TracksNext(s: Sender, n: nat, idx: seq<nat>, frames: seq<bytes>, item: Captured)
    requires Tracks(s, n, idx, frames)
    ensures Tracks(AfterSend(s, item), n + 1, Opened(idx, n, item.sent),
                   if !item.sent then frames else if |idx| == 3 then [] else frames + [item.payload])
  {
    NextWraps(n);
  }

  lemma PickNext(items: seq<Captured>, idx: seq<nat>, n: nat)
    requires n == |items| - 1 && Below(idx, n)
    ensures Pick(items, idx) == Pick(items[..n], idx)
    ensures Pick(items, idx + [n]) == Pick(items[..n], idx) + [items[n].payload]
  {
  }

  /** Over every stream, failed sends included. */
  lemma {:induction false} SenderTracks(items: seq<Captured>)
    ensures Tracks(SenderAfter(items), |items|, Open(items), Pick(items, Open(items)))
  {
    if items != [] {
      var n := |items| - 1;
      var idx := Open(items[..n]);
      SenderTracks(items[..n]);
      TracksNext(SenderAfter(items[..n]), n, idx, Pick(items[..n], idx), items[n]);
      PickNext(items, idx, n);
    }
  }

  /** Frame `i` carries number i modulo 2^32 whatever happened to earlier sends, and is on the
      wire exactly when its own send went through. */
  lemma SentAudio(items: seq<Captured>, i: nat)
    requires i < |items|
    ensures !items[i].sent ==> Sent(items, i) == []
    ensures items[i].sent ==> Sent(items, i) != [] && Sent(items, i)[0] == AudioPacket(Wrap(i), items[i])
  {
    SenderTracks(items[..i]);
  }

  /** Frame `i` is sent and completes a group. */
  predicate Closes(items: seq<Captured>, i: nat)
    requires i < |items|
  {
    items[i].sent && |Open(items[..i])| == 3
  }

  /** The numbers of the group that frame `i` completes. */
  function Group(items: seq<Captured>, i: nat): (idx: seq<nat>)
    requires i < |items|
    ensures Below(idx, |items|)
  {
    Open(items[..i]) + [i]
  }

  lemma EmitsParity(s: Sender, item: Captured, n: nat, idx: seq<nat>, frames: seq<bytes>)
    requires Tracks(s, n, idx, frames) && item.sent
    ensures Emits(s, item)
            == [AudioPacket(Wrap(n), item)]
               + if |idx| == 3 then [FecPacket(Parity(Wrap(idx[0]), FEC_WINDOW, ParityOf(frames + [item.payload])))]
                 else []
  {
  }

  /** A parity packet covers exactly the four frames sent since the last one, and is numbered by
      the first of them. */
  lemma ParityCovers(items: seq<Captured>, i: nat)
    requires i < |items| && items[i].sent
    ensures Sent(items, i)
            == [AudioPacket(Wrap(i), items[i])]
               + if Closes(items, i) then
                   [FecPacket(Parity(Wrap(Group(items, i)[0]), FEC_WINDOW, ParityOf(Pick(items, Group(items, i)))))]
                 else []
  {
    var idx := Open(items[..i]);
    SenderTracks(items[..i]);
    EmitsParity(SenderAfter(items[..i]), items[i], i, idx, Pick(items[..i], idx));
    assert Pick(items, idx + [i]) == Pick(items[..i], idx) + [items[i].payload];
  }

  // ---- When groups are the ones the decoder expects ----------------------------

  /** The aligned group `g` of the decoder. */
  function Block(g: nat): seq<nat> {
    [4 * g, 4 * g + 1, 4 * g + 2, 4 * g + 3]
  }

  /** Every group the encoder completes is one of the decoder's. */
  ghost predicate GroupsAligned(items: seq<Captured>) {
    forall i :: 0 <= i < |items| && Closes(items, i) ==> Group(items, i) == Block(i / 4)
  }

  predicate SentAt(items: seq<Captured>, u: nat) {
    u < |items| && items[u].sent
  }

  /** The four frames of a block were all sent, or none of them was. */
  predicate Whole(items: seq<Captured>, g: nat) {
    && 4 * g + 4 <= |items|
    && SentAt(items, 4 * g) == SentAt(items, 4 * g + 1) == SentAt(items, 4 * g + 2) == SentAt(items, 4 * g + 3)
  }

  /** Up to every frame that completes a group, blocks are whole. */
  ghost predicate BlocksWhole(items: seq<Captured>) {
    forall i, g: nat :: 0 <= i < |items| && Closes(items, i) && 4 * g <= i ==> Whole(items, g)
  }

  lemma FourMore(items: seq<Captured>, g: nat)
    requires 4 * g + 4 <= |items| && Open(items[..4 * g]) == []
    ensures var o1, o2, o3, o4 := Open(items[..4 * g + 1]), Open(items[..4 * g + 2]), Open(items[..4 * g + 3]),
                                  Open(items[..4 * g + 4]);
            && o1 == Opened([], 4 * g, items[4 * g].sent) && o2 == Opened(o1, 4 * g + 1, items[4 * g + 1].sent)
            && o3 == Opened(o2, 4 * g + 2, items[4 * g + 2].sent) && o4 == Opened(o3, 4 * g + 3, items[4 * g + 3].sent)
  {
    OpenNext(items, 4 * g);
    OpenNext(items, 4 * g + 1);
    OpenNext(items, 4 * g + 2);
    OpenNext(items, 4 * g + 3);
  }

  /** Whole blocks leave no open group behind. */
  lemma {:induction false} WholeLeavesNone(items: seq<Captured>, g: nat)
    requires 4 * g <= |items| && forall h: nat :: h < g ==> Whole(items, h)
    ensures Open(items[..4 * g]) == []
  {
    if g > 0 {
      WholeLeavesNone(items, g - 1);
      FourMore(items, g - 1);
      assert Whole(items, g - 1);
    }
  }

  lemma {:induction false} OpenWasSent(items: seq<Captured>, k: nat)
    requires k < |Open(items)|
    ensures SentAt(items, Open(items)[k])
  {
    var n := |items| - 1;
    if k < |Open(items[..n])| {
      OpenWasSent(items[..n], k);
    }
  }

  /** The group open at `j` is completed by the time frame `i` completes one. */
  lemma {:induction false} NextClose(items: seq<Captured>, j: nat, i: nat) returns (c: nat)
    requires j <= i < |items| && Open(items[..j]) != [] && Closes(items, i)
    ensures j <= c <= i && Closes(items, c) && Group(items, c)[0] == Open(items[..j])[0]
    decreases i - j
  {
    if Closes(items, j) {
      c := j;
    } else {
      OpenNext(items, j);
      c := NextClose(items, j + 1, i);
    }
  }

  lemma AlignedGroupSent(items: seq<Captured>, c: nat, g: nat)
    requires c < |items| && Closes(items, c) && Group(items, c) == Block(g)
    ensures c == 4 * g + 3 && Whole(items, g)
  {
    var idx := Open(items[..c]);
    assert idx[0] == Block(g)[0] && idx[1] == Block(g)[1] && idx[2] == Block(g)[2] && c == Block(g)[3];
    OpenWasSent(items[..c], 0);
    OpenWasSent(items[..c], 1);
    OpenWasSent(items[..c], 2);
  }

  /** A sent frame that opens its group, followed by the completion of some group, makes its block
      whole if completed groups are aligned. */
  lemma OpenerFillsBlock(items: seq<Captured>, f: nat, i: nat)
    requires GroupsAligned(items) && f < i < |items| && Closes(items, i)
    requires items[f].sent && Open(items[..f]) == []
    ensures Whole(items, f / 4)
  {
    OpenNext(items, f);
    var c := NextClose(items, f + 1, i);
    var g := c / 4;
    AlignedGroupSent(items, c, g);
    assert f == Group(items, c)[0] == Block(g)[0];
  }

  lemma {:induction false} FailuresOpenNone(items: seq<Captured>, b: nat, f: nat)
    requires b <= f <= |items| && Open(items[..b]) == []
    requires forall u :: b <= u < f ==> !items[u].sent
    ensures Open(items[..f]) == []
  {
    if b < f {
      FailuresOpenNone(items, b, f - 1);
      OpenNext(items, f - 1);
    }
  }

  lemma FirstSentFillsBlock(items: seq<Captured>, g: nat, f: nat, i: nat)
    requires GroupsAligned(items) && 4 * g <= f <= i < |items| && f < 4 * g + 4
    requires Closes(items, i) && Open(items[..4 * g]) == []
    requires items[f].sent && forall u :: 4 * g <= u < f ==> !items[u].sent
    ensures Whole(items, g)
  {
    FailuresOpenNone(items, 4 * g, f);
    assert f != i;
    OpenerFillsBlock(items, f, i);
  }

  lemma AlignedBlockWhole(items: seq<Captured>, g: nat, i: nat)
    requires GroupsAligned(items) && i < |items| && Closes(items, i) && 4 * g <= i && Open(items[..4 * g]) == []
    ensures Whole(items, g)
  {
    assert Group(items, i)[3] == i == Block(i / 4)[3];
    if f :| 4 * g <= f < 4 * g + 4 && items[f].sent && forall u :: 4 * g <= u < f ==> !items[u].sent {
      FirstSentFillsBlock(items, g, f, i);
    } else {
      NoneSent(items, 4 * g);
    }
  }

  lemma NoneSent(items: seq<Captured>, b: nat)
    requires b + 4 <= |items|
    requires !exists f :: b <= f < b + 4 && items[f].sent && forall u :: b <= u < f ==> !items[u].sent
    ensures !items[b].sent && !items[b + 1].sent && !items[b + 2].sent && !items[b + 3].sent
  {
  }

  lemma {:induction false} AlignedBlocksWhole(items: seq<Captured>, g: nat, i: nat)
    requires GroupsAligned(items) && i < |items| && Closes(items, i) && 4 * g <= i
    ensures forall h: nat :: h <= g ==> Whole(items, h)
  {
    if g > 0 {
      AlignedBlocksWhole(items, g - 1, i);
    }
    WholeLeavesNone(items, g);
    AlignedBlockWhole(items, g, i);
  }

  lemma WholeBlockAligned(items: seq<Captured>, i: nat)
    requires i < |items| && Closes(items, i) && forall g: nat :: 4 * g <= i ==> Whole(items, g)
    ensures Group(items, i) == Block(i / 4)
  {
    var g := i / 4;
    WholeLeavesNone(items, g);
    assert Whole(items, g);
    FourMore(items, g);
    assert i == 4 * g || i == 4 * g + 1 || i == 4 * g + 2 || i == 4 * g + 3;
  }

  /** Failed sends leave every parity on a group of the decoder if and only if they take out whole
      blocks of four: up to the last parity, each block was sent entirely or not at all. */
  lemma GroupsAlignedIff(items: seq<Captured>)
    ensures GroupsAligned(items) <==> BlocksWhole(items)
  {
    if GroupsAligned(items) {
      forall i, g: nat | 0 <= i < |items| && Closes(items, i) && 4 * g <= i ensures Whole(items, g) {
        AlignedBlocksWhole(items, g, i);
      }
    }
    if BlocksWhole(items) {
      forall i | 0 <= i < |items| && Closes(items, i) ensures Group(items, i) == Block(i / 4) {
        WholeBlockAligned(items, i);
      }
    }
  }

  /** One failed send is enough: frame 0 fails, frames 1 to 4 go out, and their parity is numbered
      1, which is no group of the decoder. */
  lemma OneFailureMisaligns(items: seq<Captured>)
    requires |items| == 5 && forall i :: 0 <= i < 5 ==> (items[i].sent <==> i != 0)
    ensures Closes(items, 4) && Group(items, 4) == [1, 2, 3, 4] && !GroupsAligned(items)
  {
    assert items[..0] == [];
    FourMore(items, 0);
  }

  // ---- Streams without a failed send -------------------------------------------

  predicate AllSent(items: seq<Captured>) {
    forall i :: 0 <= i < |items| ==> items[i].sent
  }

  lemma AllSentIsWhole(items: seq<Captured>, g: nat)
    requires AllSent(items) && 4 * g + 4 <= |items|
    ensures Closes(items, 4 * g + 3) && Group(items, 4 * g + 3) == Block(g)
  {
    forall h: nat | h < g ensures Whole(items, h) {
    }
    WholeLeavesNone(items, g);
    FourMore(items, g);
  }

  /** The payloads of group `g` of the stream. */
  function Frames(items: seq<Captured>, g: nat): (frames: seq<bytes>)
    requires 4 * g + 4 <= |items|
    ensures |frames| == 4 && forall k :: 0 <= k < 4 ==> frames[k] == items[4 * g + k].payload
  {
    Pick(items, Block(g))
  }

  function GroupParity(items: seq<Captured>, g: nat): Parity
    requires 4 * g + 4 <= |items|
  {
    Parity(Wrap(4 * g), FEC_WINDOW, ParityOf(Frames(items, g)))
  }

  /** When no send fails, the last frame of every group is followed by the parity of exactly that
      group. */
  lemma SentParity(items: seq<Captured>, g: nat)
    requires AllSent(items) && 4 * g + 4 <= |items|
    ensures var i := 4 * g + 3;
            Sent(items, i) == [AudioPacket(Wrap(i), items[i]), FecPacket(GroupParity(items, g))]
  {
    AllSentIsWhole(items, g);
    ParityCovers(items, 4 * g + 3);
  }
}

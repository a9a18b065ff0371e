/**
 The audio path end to end: `Sending` numbers frames and emits parity, the network loses and
 reorders packets, `dispatch_packet` feeds the FEC decoder and the jitter buffer, and the
 consumer drains the buffer.
 */
module Pipeline {
  import opened Words
  import opened Folds
  import opened Jitter
  import opened JitterRuns
  import opened Playout
  import opened Fec
  import opened Sending

  // ---- Receiver ----------------------------------------------------------------

  /** The big-endian sequence number at the front of a plaintext. */
  function Prefix(plaintext: bytes): u32
    requires |plaintext| >= 4
  {
    PrefixBound(plaintext);
    FromBigEndian(plaintext[..4])
  }

  lemma PrefixBound(plaintext: bytes)
    requires |plaintext| >= 4
    ensures FromBigEndian(plaintext[..4]) < 0x1_0000_0000
  {
    FromBigEndianBound(plaintext[..4]);
    Pow256Values();
  }

  function ParityIn(plaintext: bytes): Parity
    requires |plaintext| >= 5
  {
    Parity(Prefix(plaintext), plaintext[4] as int, plaintext[5..])
  }

  /** The decoder after `dispatch_packet`. Too-short plaintexts are dropped. */
  function DecoderAfter(dec: GoodDecoder, packet: Packet): GoodDecoder
  {
    match packet
    case Audio(_, plaintext) =>
      if |plaintext| < 4 then dec else dec.PushData(Prefix(plaintext), plaintext[4..])
    case ParityPacket(plaintext) =>
      if |plaintext| < 5 then dec else dec.PushParity(ParityIn(plaintext))
  }

  /** The frame `dispatch_packet` pushes into the jitter buffer, if any. */
  function FrameOf(dec: GoodDecoder, packet: Packet): Option<Frame>
  {
    match packet
    case Audio(stamp, plaintext) =>
      if |plaintext| < 4 then None else Some(Frame(Prefix(plaintext), stamp, plaintext[4..]))
    case ParityPacket(plaintext) =>
      if |plaintext| < 5 then None
      else
        var recovered := dec.PushParity(ParityIn(plaintext)).Recovered();
        if recovered.Some? then Some(Frame(recovered.value.0, 0, recovered.value.1)) else None
  }

  lemma ReadsAudio(dec: GoodDecoder, sequence: u32, item: Captured)
    ensures FrameOf(dec, AudioPacket(sequence, item)) == Some(Frame(sequence, item.stamp, item.payload))
    ensures DecoderAfter(dec, AudioPacket(sequence, item)) == dec.PushData(sequence, item.payload)
  {
    var plaintext := BigEndian(sequence, 4) + item.payload;
    assert plaintext[..4] == BigEndian(sequence, 4) && plaintext[4..] == item.payload;
    Pow256Values();
    DecodeBigEndian(sequence, 4);
  }

  lemma ReadsParity(dec: GoodDecoder, p: Parity)
    requires p.window < 256
    ensures var after := dec.PushParity(p);
            && DecoderAfter(dec, FecPacket(p)) == after
            && FrameOf(dec, FecPacket(p)) ==
               if after.Recovered().Some? then Some(Frame(after.Recovered().value.0, 0, after.Recovered().value.1)) else None
  {
    var plaintext := BigEndian(p.seqBase, 4) + [p.window as byte] + p.payload;
    assert plaintext[..4] == BigEndian(p.seqBase, 4) && plaintext[5..] == p.payload;
    Pow256Values();
    DecodeBigEndian(p.seqBase, 4);
    ByteOfInt(p.window);
    assert ParityIn(plaintext) == p;
  }

  /** Receiver state: the FEC decoder and the jitter buffer with its delivery history. */
  datatype Receiver = Receiver(dec: GoodDecoder, h: History)

  /** Dispatch one packet, then drain. */
  function OnPacket(x: Receiver, packet: Packet): Receiver {
    var frame := FrameOf(x.dec, packet);
    Receiver(DecoderAfter(x.dec, packet), if frame.Some? then Take(x.h, frame.value) else x.h)
  }

  // ---- Decoding and playout separate -------------------------------------------

  /** The decoder alone, with the frames it hands to the jitter buffer. */
  datatype Unpacker = Unpacker(dec: GoodDecoder, out: seq<Frame>)

  function Unpack(x: Unpacker, packet: Packet): Unpacker {
    var frame := FrameOf(x.dec, packet);
    Unpacker(DecoderAfter(x.dec, packet), if frame.Some? then x.out + [frame.value] else x.out)
  }

  lemma FoldLast(h: History, fs: seq<Frame>, f: Frame)
    ensures Fold(Take, h, fs + [f]) == Take(Fold(Take, h, fs), f)
  {
    assert (fs + [f])[..|fs|] == fs;
  }

  /** Interleaving dispatch and playout is the same as unpacking everything, then playing it. */
  lemma {:induction false} ReceiverFactors(dec: GoodDecoder, h: History, packets: seq<Packet>)
    ensures var u := Fold(Unpack, Unpacker(dec, []), packets);
            Fold(OnPacket, Receiver(dec, h), packets) == Receiver(u.dec, Fold(Take, h, u.out))
  {
    if packets != [] {
      var n := |packets| - 1;
      ReceiverFactors(dec, h, packets[..n]);
      var u := Fold(Unpack, Unpacker(dec, []), packets[..n]);
      var frame := FrameOf(u.dec, packets[n]);
      if frame.Some? {
        FoldLast(h, u.out, frame.value);
      }
    }
  }

  // ---- One group ---------------------------------------------------------------

  /** What the network delivers of a group: data packets by offset, then perhaps the parity. */
  datatype Arrival = Arrival(order: seq<nat>, parity: bool)

  /** At most one of the group's five packets is lost; repetitions and any order are allowed. */
  ghost predicate Tolerable(a: Arrival) {
    Offsets(a.order, 4) && (Lost(4, a.order) == {} || (|Lost(4, a.order)| == 1 && a.parity))
  }

  /** The group's base is aligned and the group ends before the wrap. */
  lemma GroupAligned(g: nat)
    ensures Wrap(4 * g) % 4 == 0 && BeforeWrap(Wrap(4 * g), 4)
  {
    ModOfMod(4 * g, 0x1_0000_0000, 4);
    DividingWindowNeverCrosses(4, Wrap(4 * g));
  }

  lemma WrapInGroup(g: nat, k: nat)
    ensures Wrap(4 * g + k) == SequenceAt(Wrap(4 * g), k)
  {
  }

  lemma NextGroupDiffers(g: nat)
    ensures Wrap(4 * g) != Wrap(4 * g + 4)
  {
  }

  /** The data packets of a group in arrival order, as the sender emitted them. */
  ghost function DataPackets(items: seq<Captured>, g: nat, order: seq<nat>): seq<Packet>
    requires AllSent(items) && 4 * g + 4 <= |items| && Offsets(order, 4)
  {
    seq(|order|, j requires 0 <= j < |order| => Sent(items, 4 * g + order[j])[0])
  }

  /** A group's packets: the data that arrived, then the parity if it did. */
  ghost function GroupPackets(items: seq<Captured>, g: nat, a: Arrival): seq<Packet>
    requires AllSent(items) && 4 * g + 4 <= |items| && Offsets(a.order, 4)
  {
    SentParity(items, g);
    DataPackets(items, g, a.order) + if a.parity then [Sent(items, 4 * g + 3)[1]] else []
  }

  /** The frames those data packets carry. */
  ghost function DataFrames(items: seq<Captured>, g: nat, order: seq<nat>): (fs: seq<Frame>)
    requires 4 * g + 4 <= |items| && Offsets(order, 4)
    ensures |fs| == |order|
  {
    seq(|order|, j requires 0 <= j < |order| => SentFrame(items, 4 * g + order[j]))
  }

  function SentFrame(items: seq<Captured>, u: nat): Frame
    requires u < |items|
  {
    Frame(Wrap(u), items[u].stamp, items[u].payload)
  }

  lemma UnpackFrame(x: Unpacker, sequence: u32, item: Captured)
    ensures Unpack(x, AudioPacket(sequence, item)) ==
            Unpacker(x.dec.PushData(sequence, item.payload), x.out + [Frame(sequence, item.stamp, item.payload)])
  {
    ReadsAudio(x.dec, sequence, item);
  }

  /** From `x`, the data packets at `order` of a group have been unpacked into the frames `fs`. */
  ghost predicate Unpacked(x: Unpacker, y: Unpacker, base: u32, frames: seq<bytes>, order: seq<nat>, fs: seq<Frame>) {
    && Offsets(order, |frames|)
    && y.dec == Receive(x.dec, base, frames, order)
    && y.out == x.out + fs
  }

  lemma ReceiveMore(d: GoodDecoder, base: u32, frames: seq<bytes>, order: seq<nat>, k: nat)
    requires Offsets(order, |frames|) && k < |frames|
    ensures Receive(d, base, frames, order + [k])
            == Receive(d, base, frames, order).PushData(SequenceAt(base, k), frames[k])
  {
    assert (order + [k])[..|order|] == order;
  }

  lemma UnpackNext(x: Unpacker, y: Unpacker, z: Unpacker, base: u32, frames: seq<bytes>, order: seq<nat>,
                   fs: seq<Frame>, k: nat, f: Frame)
    requires Unpacked(x, y, base, frames, order, fs) && k < |frames|
    requires z.dec == y.dec.PushData(SequenceAt(base, k), frames[k]) && z.out == y.out + [f]
    ensures Unpacked(x, z, base, frames, order + [k], fs + [f])
  {
    ReceiveMore(x.dec, base, frames, order, k);
  }

  lemma UnpackSent(y: Unpacker, items: seq<Captured>, g: nat, k: nat, packet: Packet)
    requires AllSent(items) && 4 * g + 4 <= |items| && k < 4 && packet == Sent(items, 4 * g + k)[0]
    ensures var u, z := 4 * g + k, Unpack(y, packet);
            && z.dec == y.dec.PushData(SequenceAt(Wrap(4 * g), k), items[u].payload)
            && z.out == y.out + [SentFrame(items, u)]
  {
    SentAudio(items, 4 * g + k);
    WrapInGroup(g, k);
    UnpackFrame(y, Wrap(4 * g + k), items[4 * g + k]);
  }

  lemma DataFramesMore(items: seq<Captured>, g: nat, order: seq<nat>, j: nat)
    requires 4 * g + 4 <= |items| && Offsets(order, 4) && j < |order|
    ensures DataFrames(items, g, order[..j + 1]) ==
            DataFrames(items, g, order[..j]) + [SentFrame(items, 4 * g + order[j])]
    ensures order[..j + 1] == order[..j] + [order[j]]
  {
  }

  /** `Unpacked` for the first `j` data packets of a group. */
  ghost predicate UnpackedUpTo(x: Unpacker, y: Unpacker, items: seq<Captured>, g: nat, order: seq<nat>, j: nat)
    requires 4 * g + 4 <= |items| && Offsets(order, 4)
  {
    j <= |order| && Unpacked(x, y, Wrap(4 * g), Frames(items, g), order[..j], DataFrames(items, g, order[..j]))
  }

  lemma UnpackStep(x: Unpacker, y: Unpacker, items: seq<Captured>, g: nat, order: seq<nat>, j: nat, packet: Packet)
    requires AllSent(items) && 4 * g + 4 <= |items| && Offsets(order, 4) && j < |order|
    requires UnpackedUpTo(x, y, items, g, order, j) && packet == Sent(items, 4 * g + order[j])[0]
    ensures UnpackedUpTo(x, Unpack(y, packet), items, g, order, j + 1)
  {
    var k := order[j];
    UnpackSent(y, items, g, k, packet);
    UnpackNext(x, y, Unpack(y, packet), Wrap(4 * g), Frames(items, g), order[..j],
               DataFrames(items, g, order[..j]), k, SentFrame(items, 4 * g + k));
    DataFramesMore(items, g, order, j);
  }

  lemma UnpackData(x: Unpacker, items: seq<Captured>, g: nat, order: seq<nat>)
    requires AllSent(items) && 4 * g + 4 <= |items| && Offsets(order, 4)
    ensures Unpacked(x, Fold(Unpack, x, DataPackets(items, g, order)),
                     Wrap(4 * g), Frames(items, g), order, DataFrames(items, g, order))
  {
    var packets := DataPackets(items, g, order);
    var inv := (y: Unpacker, j: nat) => UnpackedUpTo(x, y, items, g, order, j);
    forall y: Unpacker, j: nat | j < |packets| && inv(y, j) ensures inv(Unpack(y, packets[j]), j + 1) {
      UnpackStep(x, y, items, g, order, j, packets[j]);
    }
    GroupAligned(g);
    FoldInvariant(Unpack, x, packets, inv);
    assert order[..|order|] == order;
  }

  // ---- Parity and the completed group ------------------------------------------

  /** The offset that did not arrive. */
  ghost function LostOffset(order: seq<nat>): (lost: nat)
    requires |Lost(4, order)| == 1
    ensures Lost(4, order) == {lost} && lost < 4
  {
    var lost :| lost in Lost(4, order);
    SingletonSet(Lost(4, order), lost);
    lost
  }

  lemma SingletonSet(s: set<nat>, x: nat)
    requires |s| == 1 && x in s
    ensures s == {x}
  {
    assert |s - {x}| == 0;
  }

  /** The frame FEC hands over for a lost one: same number, payload padded to the longest of its group. */
  ghost function RebuiltFrame(items: seq<Captured>, g: nat, lost: nat): Frame
    requires 4 * g + 4 <= |items| && lost < 4
  {
    Frame(Wrap(4 * g + lost), 0, Pad(items[4 * g + lost].payload, MaxLen(Frames(items, g))))
  }

  /** All frames a group yields: those that arrived, then the rebuilt one. */
  ghost function GroupFrames(items: seq<Captured>, g: nat, a: Arrival): seq<Frame>
    requires 4 * g + 4 <= |items| && Tolerable(a)
  {
    DataFrames(items, g, a.order)
    + if Lost(4, a.order) == {} then [] else [RebuiltFrame(items, g, LostOffset(a.order))]
  }

  /** What the decoder's answer to the parity packet is. */
  lemma ParityAnswer(d: GoodDecoder, items: seq<Captured>, g: nat, order: seq<nat>)
    requires 4 * g + 4 <= |items| && Offsets(order, 4)
    requires d.window == FEC_WINDOW && !(d.active && d.base == Wrap(4 * g))
    ensures var out := ReceiveAll(d, Wrap(4 * g), Frames(items, g), order).Recovered();
            && (|Lost(4, order)| != 1 ==> out == None)
            && (|Lost(4, order)| == 1 ==>
                  var f := RebuiltFrame(items, g, LostOffset(order)); out == Some((f.sequence, f.payload)))
  {
    GroupAligned(g);
    if |Lost(4, order)| == 1 {
      var lost := LostOffset(order);
      WrapInGroup(g, lost);
      RecoversSingleLoss(d, Wrap(4 * g), Frames(items, g), order, lost);
    } else {
      RecoversNothingElse(d, Wrap(4 * g), Frames(items, g), order);
    }
  }

  lemma UnpackParity(y: Unpacker, p: Parity)
    requires p.window < 256
    ensures var d := y.dec.PushParity(p);
            Unpack(y, FecPacket(p)) ==
            Unpacker(d, if d.Recovered().Some? then y.out + [Frame(d.Recovered().value.0, 0, d.Recovered().value.1)]
                        else y.out)
  {
    ReadsParity(y.dec, p);
  }

  /** The decoder after a group is positioned on that group. */
  ghost predicate OnGroup(d: Decoder, g: nat) {
    d.window == FEC_WINDOW && d.active && d.base == Wrap(4 * g)
  }

  ghost predicate NotYetOnGroup(d: Decoder, g: nat) {
    d.window == FEC_WINDOW && !(d.active && d.base == Wrap(4 * g))
  }

  lemma DataOnGroup(d: GoodDecoder, items: seq<Captured>, g: nat, order: seq<nat>)
    requires 4 * g + 4 <= |items| && Offsets(order, 4) && order != []
    requires NotYetOnGroup(d, g)
    ensures OnGroup(Receive(d, Wrap(4 * g), Frames(items, g), order), g)
  {
    GroupAligned(g);
    ReceiveCollects(d, Wrap(4 * g), Frames(items, g), order);
  }

  lemma LostSome(order: seq<nat>)
    ensures order == [] ==> |Lost(4, order)| != 1 && Lost(4, order) != {}
  {
    if order == [] {
      var s := Lost(4, order);
      assert 0 in s && 1 in s - {0};
      assert |s - {0}| == |s| - 1;
    }
  }

  lemma ParityKeepsGroup(d: GoodDecoder, p: Parity, g: nat)
    requires OnGroup(d, g) && p.seqBase == Wrap(4 * g)
    ensures OnGroup(d.PushParity(p), g)
  {
  }

  /** Unpacking the parity packet after the group's data: the lost frame, or nothing. */
  lemma UnpackGroupParity(x: Unpacker, y: Unpacker, items: seq<Captured>, g: nat, order: seq<nat>)
    requires 4 * g + 4 <= |items| && Offsets(order, 4) && NotYetOnGroup(x.dec, g)
    requires Unpacked(x, y, Wrap(4 * g), Frames(items, g), order, DataFrames(items, g, order))
    ensures var z := Unpack(y, FecPacket(GroupParity(items, g)));
            && z.dec == y.dec.PushParity(GroupParity(items, g))
            && z.out == y.out + if |Lost(4, order)| == 1 then [RebuiltFrame(items, g, LostOffset(order))] else []
  {
    UnpackParity(y, GroupParity(items, g));
    ParityAnswer(x.dec, items, g, order);
  }

  /** Unpacking everything that arrived of a group yields each of its frames. */
  lemma UnpackGroup(x: Unpacker, items: seq<Captured>, g: nat, a: Arrival)
    requires AllSent(items) && 4 * g + 4 <= |items| && Tolerable(a) && NotYetOnGroup(x.dec, g)
    ensures var y := Fold(Unpack, x, GroupPackets(items, g, a));
            OnGroup(y.dec, g) && y.out == x.out + GroupFrames(items, g, a)
  {
    var data := DataPackets(items, g, a.order);
    var y := Fold(Unpack, x, data);
    UnpackData(x, items, g, a.order);
    LostSome(a.order);
    DataOnGroup(x.dec, items, g, a.order);
    if a.parity {
      SentParity(items, g);
      var packet := FecPacket(GroupParity(items, g));
      assert GroupPackets(items, g, a)[..|data|] == data;
      assert Fold(Unpack, x, GroupPackets(items, g, a)) == Unpack(y, packet);
      UnpackGroupParity(x, y, items, g, a.order);
      ParityKeepsGroup(y.dec, GroupParity(items, g), g);
    } else {
      assert GroupPackets(items, g, a) == data;
    }
  }

  // ---- The whole stream --------------------------------------------------------

  ghost predicate AllTolerable(arrivals: seq<Arrival>) {
    forall g :: 0 <= g < |arrivals| ==> Tolerable(arrivals[g])
  }

  /** Everything that arrives, group after group. */
  ghost function AllPackets(items: seq<Captured>, arrivals: seq<Arrival>): seq<Packet>
    requires AllSent(items) && 4 * |arrivals| <= |items| && AllTolerable(arrivals)
  {
    if arrivals == [] then []
    else
      var g := |arrivals| - 1;
      AllPackets(items, arrivals[..g]) + GroupPackets(items, g, arrivals[g])
  }

  ghost function AllFrames(items: seq<Captured>, arrivals: seq<Arrival>): seq<Frame>
    requires 4 * |arrivals| <= |items| && AllTolerable(arrivals)
  {
    if arrivals == [] then []
    else
      var g := |arrivals| - 1;
      AllFrames(items, arrivals[..g]) + GroupFrames(items, g, arrivals[g])
  }

  const NEW_DECODER: GoodDecoder := Decoder(FEC_WINDOW, false, 0, [], None)

  lemma UnpackOneMore(start: Unpacker, before: seq<Packet>, items: seq<Captured>, g: nat, a: Arrival)
    requires AllSent(items) && 4 * g + 4 <= |items| && Tolerable(a)
    requires NotYetOnGroup(Fold(Unpack, start, before).dec, g)
    ensures var x, y := Fold(Unpack, start, before), Fold(Unpack, start, before + GroupPackets(items, g, a));
            NotYetOnGroup(y.dec, g + 1) && y.out == x.out + GroupFrames(items, g, a)
  {
    FoldConcat(Unpack, start, before, GroupPackets(items, g, a));
    UnpackGroup(Fold(Unpack, start, before), items, g, a);
    NextGroupDiffers(g);
  }

  /** The receiver's unpacked stream, and the decoder ready for the next group. */
  ghost predicate UnpacksTo(items: seq<Captured>, arrivals: seq<Arrival>)
    requires AllSent(items) && 4 * |arrivals| <= |items| && AllTolerable(arrivals)
  {
    var y := Fold(Unpack, Unpacker(NEW_DECODER, []), AllPackets(items, arrivals));
    NotYetOnGroup(y.dec, |arrivals|) && y.out == AllFrames(items, arrivals)
  }

  lemma {:induction false} UnpackAll(items: seq<Captured>, arrivals: seq<Arrival>)
    requires AllSent(items) && 4 * |arrivals| <= |items| && AllTolerable(arrivals)
    ensures UnpacksTo(items, arrivals)
  {
    if arrivals != [] {
      var g := |arrivals| - 1;
      UnpackAll(items, arrivals[..g]);
      UnpackOneMore(Unpacker(NEW_DECODER, []), AllPackets(items, arrivals[..g]), items, g, arrivals[g]);
    }
  }

  // ---- Numbers and payloads of the stream --------------------------------------

  /** The numbers of the frames a group yields, in the order it yields them. */
  ghost function GroupNumbers(g: nat, a: Arrival): seq<nat>
    requires Tolerable(a)
  {
    seq(|a.order|, j requires 0 <= j < |a.order| => 4 * g + a.order[j])
    + if Lost(4, a.order) == {} then [] else [4 * g + LostOffset(a.order)]
  }

  ghost function AllNumbers(arrivals: seq<Arrival>): seq<nat>
    requires AllTolerable(arrivals)
  {
    if arrivals == [] then []
    else
      var g := |arrivals| - 1;
      AllNumbers(arrivals[..g]) + GroupNumbers(g, arrivals[g])
  }

  /** The payload the consumer should get for frame `k` of group `g`. */
  function Expected(items: seq<Captured>, g: nat, a: Arrival, k: nat): bytes
    requires 4 * g + 4 <= |items| && k < 4
  {
    if k in a.order then items[4 * g + k].payload else Pad(items[4 * g + k].payload, MaxLen(Frames(items, g)))
  }

  ghost predicate Wants(items: seq<Captured>, arrivals: seq<Arrival>, want: nat -> bytes)
    requires 4 * |arrivals| <= |items|
  {
    forall g: nat, k: nat :: g < |arrivals| && k < 4 ==> want(4 * g + k) == Expected(items, g, arrivals[g], k)
  }

  lemma GroupCarries(items: seq<Captured>, g: nat, a: Arrival, want: nat -> bytes)
    requires 4 * g + 4 <= |items| && Tolerable(a)
    requires forall k: nat :: k < 4 ==> want(4 * g + k) == Expected(items, g, a, k)
    ensures Carry(GroupFrames(items, g, a), GroupNumbers(g, a), want)
  {
    var fs, us := GroupFrames(items, g, a), GroupNumbers(g, a);
    forall j | 0 <= j < |us| ensures fs[j].sequence == Wrap(us[j]) && fs[j].payload == want(us[j]) {
      if j < |a.order| {
        assert a.order[j] in a.order;
        assert want(4 * g + a.order[j]) == Expected(items, g, a, a.order[j]);
      } else {
        var lost := LostOffset(a.order);
        assert lost in Lost(4, a.order);
        assert want(4 * g + lost) == Expected(items, g, a, lost);
      }
    }
  }

  lemma CarryConcat(fs: seq<Frame>, us: seq<nat>, gs: seq<Frame>, vs: seq<nat>, want: nat -> bytes)
    requires Carry(fs, us, want) && Carry(gs, vs, want)
    ensures Carry(fs + gs, us + vs, want)
  {
  }

  lemma {:induction false} AllCarry(items: seq<Captured>, arrivals: seq<Arrival>, want: nat -> bytes)
    requires 4 * |arrivals| <= |items| && AllTolerable(arrivals) && Wants(items, arrivals, want)
    ensures Carry(AllFrames(items, arrivals), AllNumbers(arrivals), want)
  {
    if arrivals != [] {
      var g := |arrivals| - 1;
      AllCarry(items, arrivals[..g], want);
      GroupCarries(items, g, arrivals[g], want);
      CarryConcat(AllFrames(items, arrivals[..g]), AllNumbers(arrivals[..g]),
                  GroupFrames(items, g, arrivals[g]), GroupNumbers(g, arrivals[g]), want);
    }
  }

  lemma GroupNumbersAre(g: nat, a: Arrival, u: nat)
    requires Tolerable(a)
    ensures u in GroupNumbers(g, a) <==> 4 * g <= u < 4 * g + 4
  {
    var us := GroupNumbers(g, a);
    forall j | 0 <= j < |us| ensures 4 * g <= us[j] < 4 * g + 4 {
    }
    if 4 * g <= u < 4 * g + 4 {
      var k := u - 4 * g;
      if k in a.order {
        var j :| 0 <= j < |a.order| && a.order[j] == k;
        assert us[j] == u;
      } else {
        assert k in Lost(4, a.order);
        assert us[|a.order|] == u;
      }
    }
  }

  lemma {:induction false} AllNumbersAre(arrivals: seq<Arrival>, u: nat)
    requires AllTolerable(arrivals)
    ensures u in AllNumbers(arrivals) <==> u < 4 * |arrivals|
  {
    if arrivals != [] {
      var g := |arrivals| - 1;
      AllNumbersAre(arrivals[..g], u);
      GroupNumbersAre(g, arrivals[g], u);
    }
  }

  lemma ElementsConcat(us: seq<nat>, vs: seq<nat>, u: nat)
    ensures u in Elements(us + vs) <==> u in us || u in vs
  {
    ElementsOf(us + vs);
  }

  lemma NearFollowing(us: seq<nat>, vs: seq<nat>, first: nat, i: nat)
    requires (forall u: nat :: u in us <==> u < first) && first % 4 == 0 && i < |vs|
    requires forall v :: v in vs ==> first <= v < first + 4
    ensures GroupStart(vs[i]) == first && Near(Elements(us + vs[..i]), vs[i], first)
  {
    forall u: nat ensures u in Elements(us + vs[..i]) <==> u in us || u in vs[..i] {
      ElementsConcat(us, vs[..i], u);
    }
    assert vs[i] in vs;
    forall v | v in Elements(us + vs[..i]) ensures v < first + 4 {
      if v in vs[..i] {
        assert v in vs;
      }
    }
  }

  lemma PacedConcat(us: seq<nat>, vs: seq<nat>, first: nat)
    requires Paced(us) && (forall u: nat :: u in us <==> u < first) && first % 4 == 0
    requires forall v :: v in vs ==> first <= v < first + 4
    requires us == [] && vs != [] ==> vs[0] == 0
    ensures Paced(us + vs)
  {
    var all := us + vs;
    forall j | 0 <= j < |all| ensures Near(Elements(all[..j]), all[j], GroupStart(all[j])) {
      if j < |us| {
        assert all[..j] == us[..j];
      } else {
        assert all[..j] == us + vs[..j - |us|];
        NearFollowing(us, vs, first, j - |us|);
      }
    }
  }

  lemma {:induction false} AllPaced(arrivals: seq<Arrival>)
    requires AllTolerable(arrivals)
    requires arrivals != [] ==> arrivals[0].order != [] && arrivals[0].order[0] == 0
    ensures Paced(AllNumbers(arrivals))
  {
    if arrivals != [] {
      var g := |arrivals| - 1;
      AllPaced(arrivals[..g]);
      forall u: nat ensures u in AllNumbers(arrivals[..g]) <==> u < 4 * g {
        AllNumbersAre(arrivals[..g], u);
      }
      forall u: nat ensures u in GroupNumbers(g, arrivals[g]) <==> 4 * g <= u < 4 * g + 4 {
        GroupNumbersAre(g, arrivals[g], u);
      }
      if AllNumbers(arrivals[..g]) == [] {
        assert g == 0 by { if g > 0 { AllNumbersAre(arrivals[..g], 0); } }
      }
      PacedConcat(AllNumbers(arrivals[..g]), GroupNumbers(g, arrivals[g]), 4 * g);
    }
  }

  // ---- The last, incomplete group ----------------------------------------------

  /** The frames after the last complete group all arrive, in any order, repeated or not. */
  ghost predicate TailArrives(tail: seq<nat>, n: nat) {
    Offsets(tail, n) && Lost(n, tail) == {}
  }

  ghost function TailPackets(items: seq<Captured>, first: nat, tail: seq<nat>): (ps: seq<Packet>)
    requires AllSent(items) && first <= |items| && Offsets(tail, |items| - first)
    ensures |ps| == |tail| && forall j :: 0 <= j < |tail| ==> ps[j] == AudioPacket(Wrap(first + tail[j]), items[first + tail[j]])
  {
    forall j | 0 <= j < |tail| ensures Sent(items, first + tail[j]) != []
      && Sent(items, first + tail[j])[0] == AudioPacket(Wrap(first + tail[j]), items[first + tail[j]])
    {
      SentAudio(items, first + tail[j]);
    }
    seq(|tail|, j requires 0 <= j < |tail| => Sent(items, first + tail[j])[0])
  }

  ghost function TailFrames(items: seq<Captured>, first: nat, tail: seq<nat>): (fs: seq<Frame>)
    requires first <= |items| && Offsets(tail, |items| - first)
    ensures |fs| == |tail|
  {
    seq(|tail|, j requires 0 <= j < |tail| => SentFrame(items, first + tail[j]))
  }

  ghost function TailNumbers(first: nat, tail: seq<nat>): (us: seq<nat>)
    ensures |us| == |tail| && forall j :: 0 <= j < |tail| ==> us[j] == first + tail[j]
  {
    seq(|tail|, j requires 0 <= j < |tail| => first + tail[j])
  }

  /** Audio packets one after another: each adds its frame. */
  lemma {:induction false} UnpackFrames(x: Unpacker, ps: seq<Packet>, fs: seq<Frame>)
    requires |ps| == |fs|
    requires forall j :: 0 <= j < |ps| ==> ps[j] == AudioPacket(fs[j].sequence, Captured(fs[j].payload, fs[j].timestamp, true))
    ensures Fold(Unpack, x, ps).out == x.out + fs
  {
    if ps != [] {
      var n := |ps| - 1;
      UnpackFrames(x, ps[..n], fs[..n]);
      UnpackFrame(Fold(Unpack, x, ps[..n]), fs[n].sequence, Captured(fs[n].payload, fs[n].timestamp, true));
      assert fs == fs[..n] + [fs[n]];
    }
  }

  lemma UnpackTail(x: Unpacker, items: seq<Captured>, first: nat, tail: seq<nat>)
    requires AllSent(items) && first <= |items| && Offsets(tail, |items| - first)
    ensures Fold(Unpack, x, TailPackets(items, first, tail)).out == x.out + TailFrames(items, first, tail)
  {
    UnpackFrames(x, TailPackets(items, first, tail), TailFrames(items, first, tail));
  }

  lemma TailNumbersAre(first: nat, tail: seq<nat>, n: nat, u: nat)
    requires TailArrives(tail, n)
    ensures u in TailNumbers(first, tail) <==> first <= u < first + n
  {
    var us := TailNumbers(first, tail);
    if first <= u < first + n {
      assert u - first !in Lost(n, tail);
      var j :| 0 <= j < |tail| && tail[j] == u - first;
      assert us[j] == u;
    }
  }

  // ---- End to end --------------------------------------------------------------

  /** What the consumer should get for frame `u`: the original payload, padded to the longest of
      its group if it had to be rebuilt. */
  function Payload(items: seq<Captured>, arrivals: seq<Arrival>, u: nat): bytes
    requires 4 * |arrivals| <= |items|
  {
    if u / 4 < |arrivals| then Expected(items, u / 4, arrivals[u / 4], u % 4)
    else if u < |items| then items[u].payload
    else []
  }

  /** Everything that arrives: group after group, then the last few frames. */
  ghost function Arriving(items: seq<Captured>, arrivals: seq<Arrival>, tail: seq<nat>): seq<Packet>
    requires AllSent(items) && 4 * |arrivals| <= |items| && AllTolerable(arrivals)
    requires Offsets(tail, |items| - 4 * |arrivals|)
  {
    AllPackets(items, arrivals) + TailPackets(items, 4 * |arrivals|, tail)
  }

  /** The receiver after everything that arrived, drained after each packet. */
  ghost function ReceiveStream(capacity: int, items: seq<Captured>, arrivals: seq<Arrival>, tail: seq<nat>): Receiver
    requires AllSent(items) && 4 * |arrivals| <= |items| && AllTolerable(arrivals)
    requires Offsets(tail, |items| - 4 * |arrivals|)
  {
    Fold(OnPacket, Receiver(NEW_DECODER, Start(capacity)), Arriving(items, arrivals, tail))
  }

  /** The stream the network may make of `items`: no send failed, of each complete group at most
      one of the five packets is lost, survivors arrive in any order within their group with
      repetitions and with parity last, the last few frames all arrive, and frame 0 comes first. */
  ghost predicate Delivers(items: seq<Captured>, arrivals: seq<Arrival>, tail: seq<nat>) {
    && AllSent(items) && AllTolerable(arrivals)
    && 4 * |arrivals| <= |items| < 4 * |arrivals| + 4
    && TailArrives(tail, |items| - 4 * |arrivals|)
    && (items != [] ==> StartsAtZero(arrivals, tail))
  }

  ghost predicate StartsAtZero(arrivals: seq<Arrival>, tail: seq<nat>) {
    if arrivals != [] then arrivals[0].order != [] && arrivals[0].order[0] == 0 else tail != [] && tail[0] == 0
  }

  lemma ArrivingUnpacks(items: seq<Captured>, arrivals: seq<Arrival>, tail: seq<nat>)
    requires Delivers(items, arrivals, tail)
    ensures Fold(Unpack, Unpacker(NEW_DECODER, []), Arriving(items, arrivals, tail)).out
            == AllFrames(items, arrivals) + TailFrames(items, 4 * |arrivals|, tail)
  {
    var start, first := Unpacker(NEW_DECODER, []), 4 * |arrivals|;
    UnpackAll(items, arrivals);
    FoldConcat(Unpack, start, AllPackets(items, arrivals), TailPackets(items, first, tail));
    UnpackTail(Fold(Unpack, start, AllPackets(items, arrivals)), items, first, tail);
  }

  lemma ArrivingCarries(items: seq<Captured>, arrivals: seq<Arrival>, tail: seq<nat>, want: nat -> bytes)
    requires Delivers(items, arrivals, tail) && forall u: nat :: want(u) == Payload(items, arrivals, u)
    ensures Carry(AllFrames(items, arrivals) + TailFrames(items, 4 * |arrivals|, tail),
                  AllNumbers(arrivals) + TailNumbers(4 * |arrivals|, tail), want)
  {
    forall g: nat, k: nat | g < |arrivals| && k < 4 ensures want(4 * g + k) == Expected(items, g, arrivals[g], k) {
      assert (4 * g + k) / 4 == g && (4 * g + k) % 4 == k;
    }
    AllCarry(items, arrivals, want);
    TailCarries(items, arrivals, tail, want);
    CarryConcat(AllFrames(items, arrivals), AllNumbers(arrivals),
                TailFrames(items, 4 * |arrivals|, tail), TailNumbers(4 * |arrivals|, tail), want);
  }

  lemma TailCarries(items: seq<Captured>, arrivals: seq<Arrival>, tail: seq<nat>, want: nat -> bytes)
    requires 4 * |arrivals| <= |items| && Offsets(tail, |items| - 4 * |arrivals|)
    requires forall u: nat :: want(u) == Payload(items, arrivals, u)
    ensures Carry(TailFrames(items, 4 * |arrivals|, tail), TailNumbers(4 * |arrivals|, tail), want)
  {
    forall j | 0 <= j < |tail| ensures want(4 * |arrivals| + tail[j]) == items[4 * |arrivals| + tail[j]].payload {
      assert (4 * |arrivals| + tail[j]) / 4 >= |arrivals|;
    }
  }

  lemma PacedAppend(us: seq<nat>, vs: seq<nat>, g: nat, first: nat, n: nat)
    requires Paced(us) && first == 4 * g <= n <= first + 4
    requires forall u: nat :: u in us <==> u < first
    requires forall u: nat :: u in vs <==> first <= u < n
    requires us == [] && vs != [] ==> vs[0] == 0
    ensures Paced(us + vs) && forall u: nat :: u in us + vs <==> u < n
  {
    PacedConcat(us, vs, first);
  }

  lemma FirstOfTail(items: seq<Captured>, arrivals: seq<Arrival>, tail: seq<nat>)
    requires Delivers(items, arrivals, tail)
    ensures var vs := TailNumbers(4 * |arrivals|, tail); AllNumbers(arrivals) == [] && vs != [] ==> vs[0] == 0
  {
    if arrivals != [] {
      AllNumbersAre(arrivals, 0);
    }
  }

  lemma AllNumbersPaced(arrivals: seq<Arrival>)
    requires AllTolerable(arrivals)
    requires arrivals != [] ==> arrivals[0].order != [] && arrivals[0].order[0] == 0
    ensures Paced(AllNumbers(arrivals)) && forall u: nat :: u in AllNumbers(arrivals) <==> u < 4 * |arrivals|
  {
    AllPaced(arrivals);
    forall u: nat ensures u in AllNumbers(arrivals) <==> u < 4 * |arrivals| {
      AllNumbersAre(arrivals, u);
    }
  }

  lemma TailRange(first: nat, tail: seq<nat>, n: nat)
    requires TailArrives(tail, n)
    ensures forall u: nat :: u in TailNumbers(first, tail) <==> first <= u < first + n
  {
    forall u: nat ensures u in TailNumbers(first, tail) <==> first <= u < first + n {
      TailNumbersAre(first, tail, n, u);
    }
  }

  lemma ArrivingPaced(items: seq<Captured>, arrivals: seq<Arrival>, tail: seq<nat>)
    requires Delivers(items, arrivals, tail)
    ensures var us := AllNumbers(arrivals) + TailNumbers(4 * |arrivals|, tail);
            Paced(us) && forall u: nat :: u in us <==> u < |items|
  {
    var first := 4 * |arrivals|;
    AllNumbersPaced(arrivals);
    TailRange(first, tail, |items| - first);
    FirstOfTail(items, arrivals, tail);
    PacedAppend(AllNumbers(arrivals), TailNumbers(first, tail), |arrivals|, first, |items|);
  }

  /** End to end: over every stream that `Delivers` allows, the consumer gets every frame exactly
      once, in order, across counter wraparound; a frame that had to be rebuilt is padded to its
      group's longest. */
  lemma EndToEnd(capacity: int, items: seq<Captured>, arrivals: seq<Arrival>, tail: seq<nat>)
    requires IsCapacity(capacity) && 4 <= capacity && Delivers(items, arrivals, tail)
    ensures var out := ReceiveStream(capacity, items, arrivals, tail).h.delivered;
            && |out| == |items|
            && forall i :: 0 <= i < |items| ==>
                 out[i].frame.sequence == Wrap(i) && out[i].frame.payload == Payload(items, arrivals, i)
  {
    var want := (u: nat) => Payload(items, arrivals, u);
    ReceiverFactors(NEW_DECODER, Start(capacity), Arriving(items, arrivals, tail));
    ArrivingUnpacks(items, arrivals, tail);
    ArrivingCarries(items, arrivals, tail, want);
    ArrivingPaced(items, arrivals, tail);
    PlaysEverything(capacity, AllFrames(items, arrivals) + TailFrames(items, 4 * |arrivals|, tail),
                    AllNumbers(arrivals) + TailNumbers(4 * |arrivals|, tail), want, |items|);
  }

  /** All frames of the group have the same length. */
  predicate EqualLengths(frames: seq<bytes>) {
    forall k :: 0 <= k < |frames| ==> |frames[k]| == |frames[0]|
  }

  lemma {:induction false} MaxLenOfEqual(frames: seq<bytes>, n: nat)
    requires forall k :: 0 <= k < |frames| ==> |frames[k]| == n
    ensures MaxLen(frames) == if frames == [] then 0 else n
  {
    if frames != [] {
      MaxLenOfEqual(frames[..|frames| - 1], n);
    }
  }

  lemma ExpectedIsOriginal(items: seq<Captured>, g: nat, a: Arrival, k: nat)
    requires 4 * g + 4 <= |items| && k < 4 && EqualLengths(Frames(items, g))
    ensures Expected(items, g, a, k) == items[4 * g + k].payload
  {
    var frames := Frames(items, g);
    MaxLenOfEqual(frames, |frames[0]|);
    PadNothing(frames[k], |frames[0]|);
  }

  lemma PayloadIsOriginal(items: seq<Captured>, arrivals: seq<Arrival>, u: nat)
    requires 4 * |arrivals| <= |items| && u < |items|
    requires forall g: nat :: g < |arrivals| ==> EqualLengths(Frames(items, g))
    ensures Payload(items, arrivals, u) == items[u].payload
  {
    var g, k := u / 4, u % 4;
    assert u == 4 * g + k;
    if g < |arrivals| {
      ExpectedIsOriginal(items, g, arrivals[g], k);
    }
  }

  /** With equal lengths inside each complete group, every delivered payload is the original one. */
  lemma EndToEndEqualLengths(capacity: int, items: seq<Captured>, arrivals: seq<Arrival>, tail: seq<nat>)
    requires IsCapacity(capacity) && 4 <= capacity && Delivers(items, arrivals, tail)
    requires forall g: nat :: g < |arrivals| ==> EqualLengths(Frames(items, g))
    ensures var out := ReceiveStream(capacity, items, arrivals, tail).h.delivered;
            && |out| == |items|
            && forall i :: 0 <= i < |items| ==>
                 out[i].frame.sequence == Wrap(i) && out[i].frame.payload == items[i].payload
  {
    EndToEnd(capacity, items, arrivals, tail);
    forall i | 0 <= i < |items| ensures Payload(items, arrivals, i) == items[i].payload {
      PayloadIsOriginal(items, arrivals, i);
    }
  }
}

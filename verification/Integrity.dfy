/**
 What the listener can never be given: a frame that carries a payload other than its own.

 The network here may do anything to the packets that were sent: lose, repeat and reorder them
 without limit, parity included. Sends may fail. The stream has at most 2^32 frames, so that a
 number names one frame.
 */
module Integrity {
  import opened Words
  import opened Folds
  import opened JitterRuns
  import opened Fec
  import opened Sending
  import opened Pipeline

  // ---- Any network -------------------------------------------------------------

  /** A packet that was sent: frame `i` itself, or the parity that followed it. */
  datatype Mention = Mention(i: nat, parity: bool)

  predicate WasSent(items: seq<Captured>, m: Mention) {
    SentAt(items, m.i) && (m.parity ==> Closes(items, m.i))
  }

  ghost function PacketOf(items: seq<Captured>, m: Mention): Packet
    requires WasSent(items, m)
  {
    ParityCovers(items, m.i);
    Sent(items, m.i)[if m.parity then 1 else 0]
  }

  ghost predicate AllWereSent(items: seq<Captured>, net: seq<Mention>) {
    forall j :: 0 <= j < |net| ==> WasSent(items, net[j])
  }

  ghost function Packets(items: seq<Captured>, net: seq<Mention>): (ps: seq<Packet>)
    requires AllWereSent(items, net)
    ensures |ps| == |net| && forall j :: 0 <= j < |net| ==> ps[j] == PacketOf(items, net[j])
  {
    seq(|net|, j requires 0 <= j < |net| => PacketOf(items, net[j]))
  }

  /** Every frame the receiver hands to the jitter buffer. */
  ghost function HandedOver(items: seq<Captured>, net: seq<Mention>): seq<Jitter.Frame>
    requires AllWereSent(items, net)
  {
    After(items, net).out
  }

  /** A frame of the stream, under its own number, perhaps padded with zeros. */
  predicate Genuine(items: seq<Captured>, f: Jitter.Frame) {
    && f.sequence < |items|
    && |items[f.sequence].payload| <= |f.payload|
    && f.payload == Pad(items[f.sequence].payload, |f.payload|)
  }

  ghost predicate Intact(items: seq<Captured>, net: seq<Mention>)
    requires AllWereSent(items, net)
  {
    forall f :: f in HandedOver(items, net) ==> Genuine(items, f)
  }

  // ---- Groups that steal a number ----------------------------------------------

  /** The group starts where one of the decoder's does, but its last frame lies beyond it. */
  predicate Steals(idx: seq<nat>) {
    |idx| == 4 && idx[0] % 4 == 0 && idx[2] < idx[0] + 4 <= idx[3]
  }

  ghost predicate NoTheft(items: seq<Captured>) {
    forall i :: 0 <= i < |items| && Closes(items, i) ==> !Steals(Group(items, i))
  }

  ghost predicate Ascending(idx: seq<nat>) {
    forall j, k :: 0 <= j < k < |idx| ==> idx[j] < idx[k]
  }

  lemma {:induction false} OpenAscends(items: seq<Captured>)
    ensures Ascending(Open(items))
  {
    if items != [] {
      OpenAscends(items[..|items| - 1]);
    }
  }

  /** Every frame sent since the open group started is in it. */
  lemma {:induction false} OpenHasAll(items: seq<Captured>, u: nat)
    requires SentAt(items, u) && Open(items) != [] && Open(items)[0] <= u
    ensures u in Open(items)
  {
    var n := |items| - 1;
    if u < n && Open(items[..n]) != [] {
      OpenHasAll(items[..n], u);
    }
  }

  /** A completed group: four sent frames in order, with none sent in between left out. */
  lemma GroupShape(items: seq<Captured>, i: nat)
    requires i < |items| && Closes(items, i)
    ensures var idx := Group(items, i);
            && |idx| == 4 && idx[3] == i && Ascending(idx)
            && (forall j :: 0 <= j < 4 ==> SentAt(items, idx[j]))
            && (forall u: nat :: SentAt(items, u) && idx[0] <= u <= i ==> u in idx)
  {
    var before, idx := items[..i], Group(items, i);
    OpenAscends(before);
    forall j | 0 <= j < 3 ensures SentAt(items, idx[j]) {
      OpenWasSent(before, j);
    }
    forall u: nat | SentAt(items, u) && idx[0] <= u <= i ensures u in idx {
      if u < i {
        assert SentAt(before, u);
        OpenHasAll(before, u);
      } else {
        assert idx[3] == u;
      }
    }
  }

  /** Three members below a bound that the last of four does not respect fill the first three. */
  lemma ThreeBelow(idx: seq<nat>, x: nat, y: nat, z: nat, bound: nat)
    requires |idx| == 4 && Ascending(idx) && x < y < z < bound <= idx[3]
    requires x in idx && y in idx && z in idx
    ensures idx[2] < bound
  {
    var px :| 0 <= px < 4 && idx[px] == x;
    var py :| 0 <= py < 4 && idx[py] == y;
    var pz :| 0 <= pz < 4 && idx[pz] == z;
    assert px < py < pz < 3;
  }

  predicate SentPlace(items: seq<Captured>, b: nat, j: nat) {
    SentAt(items, b + j)
  }

  /** If all but one frame of a decoder's group were sent, a group of the encoder that starts with it
      either is that group or steals a number of it. */
  lemma StealsOrAligned(items: seq<Captured>, i: nat, b: nat, k: nat)
    requires i < |items| && Closes(items, i) && b == Group(items, i)[0] && b % 4 == 0 && k < 4
    requires forall j :: 0 <= j < 4 && j != k ==> SentPlace(items, b, j)
    ensures Steals(Group(items, i)) || (Group(items, i) == Block(b / 4) && i == b + 3)
  {
    var idx := Group(items, i);
    GroupShape(items, i);
    assert b < idx[1] < idx[2] < idx[3];
    if i > b + 3 {
      var x, y, z := if k == 0 then 1 else 0, if k <= 1 then 2 else 1, if k == 3 then 2 else 3;
      assert SentPlace(items, b, x) && SentPlace(items, b, y) && SentPlace(items, b, z);
      ThreeBelow(idx, b + x, b + y, b + z, b + 4);
    }
  }

  // ---- The decoder under any network -------------------------------------------

  /** Whatever the decoder holds of a group is what was sent under those numbers. */
  ghost predicate Holds(items: seq<Captured>, d: Decoder) {
    && d.window == FEC_WINDOW
    && (d.active ==> |d.received| == 4 && forall k :: 0 <= k < 4 && d.received[k].Some? ==> HeldAt(items, d.base, k, d.received[k].value))
  }

  ghost predicate HeldAt(items: seq<Captured>, base: u32, k: nat, payload: bytes) {
    base % 4 == 0 && SentAt(items, base + k) && payload == items[base + k].payload
  }

  lemma SmallWrap(u: nat)
    requires u < 0x1_0000_0000
    ensures Wrap(u) == u
  {
  }

  lemma DataKeeps(items: seq<Captured>, d: GoodDecoder, u: nat)
    requires Holds(items, d) && SentAt(items, u) && |items| <= 0x1_0000_0000
    ensures Holds(items, d.PushData(Wrap(u), items[u].payload))
  {
    SmallWrap(u);
    OffsetIsRemainder(u, 4);
  }

  lemma ParityKeeps(items: seq<Captured>, d: GoodDecoder, p: Parity)
    requires Holds(items, d)
    ensures Holds(items, d.PushParity(p))
  {
  }

  lemma {:induction false} MaxLenAtLeast(frames: seq<bytes>, k: nat)
    requires k < |frames|
    ensures |frames[k]| <= MaxLen(frames)
  {
    if k < |frames| - 1 {
      MaxLenAtLeast(frames[..|frames| - 1], k);
    }
  }

  /** What an aligned parity recovers is the missing frame. */
  lemma AlignedRecovers(items: seq<Captured>, d: Decoder, g: nat, k: nat)
    requires 4 * g + 4 <= |items| <= 0x1_0000_0000 && d.base == 4 * g && |d.received| == 4 && OnlyLost(d.received, k)
    requires forall j :: 0 <= j < 4 && j != k ==> d.received[j] == Some(items[d.base + j].payload)
    requires d.parity == Some(ParityOf(Frames(items, g)))
    ensures d.Recovered() == Some(((4 * g + k) as u32, Pad(items[4 * g + k].payload, MaxLen(Frames(items, g)))))
    ensures |items[4 * g + k].payload| <= MaxLen(Frames(items, g))
  {
    RecoveredFrame(d, d.base, Frames(items, g), k);
    InsideCounter(d.base, k);
    MaxLenAtLeast(Frames(items, g), k);
  }

  function ParityAfter(items: seq<Captured>, i: nat): Parity
    requires i < |items|
  {
    Parity(Wrap(Group(items, i)[0]), FEC_WINDOW, ParityOf(Pick(items, Group(items, i))))
  }

  lemma ParityGenuine(items: seq<Captured>, d: GoodDecoder, i: nat)
    requires Holds(items, d) && |items| <= 0x1_0000_0000 && i < |items|
    requires Closes(items, i) && !Steals(Group(items, i))
    ensures var r := d.PushParity(ParityAfter(items, i)).Recovered();
            r.Some? ==> Genuine(items, Jitter.Frame(r.value.0, 0, r.value.1))
  {
    var d' := d.PushParity(ParityAfter(items, i));
    ParityKeeps(items, d, ParityAfter(items, i));
    if d'.Recovered().Some? {
      RecoveredGenuine(items, d', i);
    }
  }

  lemma RecoveredGenuine(items: seq<Captured>, d: Decoder, i: nat)
    requires Holds(items, d) && d.active && |items| <= 0x1_0000_0000 && i < |items|
    requires Closes(items, i) && !Steals(Group(items, i))
    requires d.base == Wrap(Group(items, i)[0]) && d.parity == Some(ParityOf(Pick(items, Group(items, i))))
    requires d.Recovered().Some?
    ensures var r := d.Recovered().value; Genuine(items, Jitter.Frame(r.0, 0, r.1))
  {
    var b, k := Group(items, i)[0], Missing(d.received)[0];
    GroupShape(items, i);
    SmallWrap(b);
    OneMissing(d.received);
    HeldPlaces(items, d, k);
    StealsOrAligned(items, i, b, k);
    AlignedRecovers(items, d, b / 4, k);
  }

  lemma HeldPlaces(items: seq<Captured>, d: Decoder, k: nat)
    requires Holds(items, d) && d.active && OnlyLost(d.received, k)
    ensures d.base % 4 == 0
    ensures forall j :: 0 <= j < 4 && j != k ==>
              SentPlace(items, d.base, j) && d.received[j] == Some(items[d.base + j].payload)
  {
    forall j | 0 <= j < 4 && j != k
      ensures SentPlace(items, d.base, j) && d.received[j] == Some(items[d.base + j].payload) && d.base % 4 == 0
    {
      assert HeldAt(items, d.base, j, d.received[j].value);
    }
    var other := if k == 0 then 1 else 0;
    assert SentPlace(items, d.base, other);
  }

  // ---- Integrity over every network --------------------------------------------

  ghost predicate Good(items: seq<Captured>, x: Unpacker) {
    Holds(items, x.dec) && forall f :: f in x.out ==> Genuine(items, f)
  }

  lemma UnpackAudio(items: seq<Captured>, x: Unpacker, i: nat)
    requires SentAt(items, i)
    ensures Unpack(x, PacketOf(items, Mention(i, false)))
            == Unpacker(x.dec.PushData(Wrap(i), items[i].payload),
                        x.out + [Jitter.Frame(Wrap(i), items[i].stamp, items[i].payload)])
  {
    ParityCovers(items, i);
    UnpackFrame(x, Wrap(i), items[i]);
  }

  lemma ParityPacketIs(items: seq<Captured>, i: nat)
    requires i < |items| && Closes(items, i)
    ensures PacketOf(items, Mention(i, true)) == FecPacket(ParityAfter(items, i))
  {
    ParityCovers(items, i);
  }

  lemma AudioKeeps(items: seq<Captured>, x: Unpacker, i: nat)
    requires Good(items, x) && SentAt(items, i) && |items| <= 0x1_0000_0000
    ensures Good(items, Unpack(x, PacketOf(items, Mention(i, false))))
  {
    UnpackAudio(items, x, i);
    DataKeeps(items, x.dec, i);
    SmallWrap(i);
    PaddingNone(items[i].payload);
  }

  lemma ParityPacketKeeps(items: seq<Captured>, x: Unpacker, i: nat)
    requires Good(items, x) && i < |items| <= 0x1_0000_0000 && Closes(items, i) && !Steals(Group(items, i))
    ensures Good(items, Unpack(x, PacketOf(items, Mention(i, true))))
  {
    ParityPacketIs(items, i);
    UnpackParity(x, ParityAfter(items, i));
    ParityKeeps(items, x.dec, ParityAfter(items, i));
    ParityGenuine(items, x.dec, i);
  }

  /** Whatever the network does with what was sent, every frame handed over is genuine, unless a
      failed send lets some group steal a number. */
  lemma EveryFrameGenuine(items: seq<Captured>, net: seq<Mention>)
    requires |items| <= 0x1_0000_0000 && NoTheft(items) && AllWereSent(items, net)
    ensures Intact(items, net)
  {
    var ps := Packets(items, net);
    var inv := (x: Unpacker, j: nat) => Good(items, x);
    forall x: Unpacker, j: nat | j < |ps| && inv(x, j) ensures inv(Unpack(x, ps[j]), j + 1) {
      var m := net[j];
      assert m == Mention(m.i, m.parity) && WasSent(items, m);
      if m.parity {
        ParityPacketKeeps(items, x, m.i);
      } else {
        AudioKeeps(items, x, m.i);
      }
    }
    FoldInvariant(Unpack, Unpacker(NEW_DECODER, []), ps, inv);
  }

  /** Aligned groups steal nothing. */
  lemma AlignedIsNoTheft(items: seq<Captured>)
    requires GroupsAligned(items)
    ensures NoTheft(items)
  {
    forall i | 0 <= i < |items| && Closes(items, i) ensures !Steals(Group(items, i)) {
      assert Group(items, i) == Block(i / 4);
    }
  }

  // ---- A theft can be made to show ---------------------------------------------

  ghost function Heard(b: nat, order: seq<nat>): (net: seq<Mention>)
    ensures |net| == |order| && forall j :: 0 <= j < |order| ==> net[j] == Mention(b + order[j], false)
  {
    seq(|order|, j requires 0 <= j < |order| => Mention(b + order[j], false))
  }

  /** The places at `order` of the group at `b` were sent and carry `frames`. */
  ghost predicate Carries(items: seq<Captured>, b: nat, frames: seq<bytes>, order: seq<nat>) {
    && |frames| == 4 && Offsets(order, 4)
    && forall j :: 0 <= j < |order| ==> CarriesAt(items, b + order[j], frames[order[j]])
  }

  predicate CarriesAt(items: seq<Captured>, u: nat, payload: bytes) {
    SentAt(items, u) && items[u].payload == payload
  }

  lemma {:induction false} HeardReceives(items: seq<Captured>, b: u32, frames: seq<bytes>, order: seq<nat>)
    requires |items| <= 0x1_0000_0000 && Carries(items, b, frames, order)
    ensures AllWereSent(items, Heard(b, order))
    ensures After(items, Heard(b, order)).dec == Receive(NEW_DECODER, b, frames, order)
  {
    if order != [] {
      var n := |order| - 1;
      var u, before := b + order[n], Heard(b, order[..n]);
      assert CarriesAt(items, b + order[n], frames[order[n]]);
      HeardReceives(items, b, frames, order[..n]);
      assert Heard(b, order) == before + [Mention(u, false)];
      AfterMore(items, before, Mention(u, false));
      UnpackAudio(items, After(items, before), u);
    }
  }

  /** The receiver after these packets. */
  ghost function After(items: seq<Captured>, net: seq<Mention>): Unpacker
    requires AllWereSent(items, net)
  {
    Fold(Unpack, Unpacker(NEW_DECODER, []), Packets(items, net))
  }

  lemma AfterMore(items: seq<Captured>, net: seq<Mention>, m: Mention)
    requires AllWereSent(items, net) && WasSent(items, m)
    ensures AllWereSent(items, net + [m]) && After(items, net + [m]) == Unpack(After(items, net), PacketOf(items, m))
  {
    var ps := Packets(items, net + [m]);
    assert ps[..|ps| - 1] == Packets(items, net);
  }

  lemma ParityHandsOver(x: Unpacker, p: Parity)
    requires p.window < 256
    ensures var r := x.dec.PushParity(p).Recovered();
            r.Some? ==> Jitter.Frame(r.value.0, 0, r.value.1) in Unpack(x, FecPacket(p)).out
  {
    UnpackParity(x, p);
    var r := x.dec.PushParity(p).Recovered();
    if r.Some? {
      var f := Jitter.Frame(r.value.0, 0, r.value.1);
      assert (x.out + [f])[|x.out|] == f;
    }
  }

  /** The group's frames at `order`, then a parity whose bytes are those of `frames`: the decoder hands
      over the missing place of `frames`. */
  lemma HeardRecovers(items: seq<Captured>, b: u32, frames: seq<bytes>, order: seq<nat>, i: nat, lost: nat)
    requires |items| <= 0x1_0000_0000 && Carries(items, b, frames, order)
    requires i < |items| && Closes(items, i) && ParityAfter(items, i) == Parity(b, 4, ParityOf(frames))
    requires b % 4 == 0 && BeforeWrap(b, 4) && Lost(4, order) == {lost}
    ensures lost < 4
    ensures var net := Heard(b, order) + [Mention(i, true)];
            && AllWereSent(items, net)
            && Jitter.Frame(SequenceAt(b, lost), 0, Pad(frames[lost], MaxLen(frames))) in HandedOver(items, net)
  {
    HeardReceives(items, b, frames, order);
    AfterMore(items, Heard(b, order), Mention(i, true));
    RecoversSingleLoss(NEW_DECODER, b, frames, order, lost);
    ParityPacketIs(items, i);
    ParityHandsOver(After(items, Heard(b, order)), ParityAfter(items, i));
  }

  /** Frames 0, 1, 2 and 4 go out and 3 fails. */
  predicate FrameThreeFails(items: seq<Captured>) {
    |items| == 5 && items[0].sent && items[1].sent && items[2].sent && !items[3].sent && items[4].sent
  }

  lemma StolenGroup(items: seq<Captured>)
    requires FrameThreeFails(items)
    ensures Closes(items, 4) && Group(items, 4) == [0, 1, 2, 4]
  {
    assert items[..0] == [];
    FourMore(items, 0);
  }

  lemma StolenParity(items: seq<Captured>, frames: seq<bytes>)
    requires FrameThreeFails(items) && frames == [items[0].payload, items[1].payload, items[2].payload, items[4].payload]
    ensures ParityAfter(items, 4) == Parity(0, 4, ParityOf(frames))
  {
    StolenGroup(items);
    assert Pick(items, [0, 1, 2, 4]) == frames;
    SmallWrap(0);
  }

  /** When the parity then overtakes frame 4, the receiver is handed frame 4's payload under number 3. */
  lemma StolenNumber(items: seq<Captured>)
    requires FrameThreeFails(items)
    ensures var net := Heard(0, [0, 1, 2]) + [Mention(4, true)];
            var frames := [items[0].payload, items[1].payload, items[2].payload, items[4].payload];
            && AllWereSent(items, net)
            && Jitter.Frame(3, 0, Pad(items[4].payload, MaxLen(frames))) in HandedOver(items, net)
  {
    var frames := [items[0].payload, items[1].payload, items[2].payload, items[4].payload];
    StolenGroup(items);
    StolenParity(items, frames);
    FirstThree();
    HeardRecovers(items, 0, frames, [0, 1, 2], 4, 3);
  }

  lemma FirstThree()
    ensures Lost(4, [0, 1, 2]) == {3} && SequenceAt(0, 3) == 3
  {
  }

  // ---- The exact condition -----------------------------------------------------

  /** The same sends fail; payloads may differ. */
  ghost predicate SamePattern(items: seq<Captured>, other: seq<Captured>) {
    |items| == |other| && forall i :: 0 <= i < |items| ==> other[i].sent == items[i].sent
  }

  lemma {:induction false} SameOpen(items: seq<Captured>, other: seq<Captured>)
    requires SamePattern(items, other)
    ensures Open(items) == Open(other)
  {
    if items != [] {
      SameOpen(items[..|items| - 1], other[..|items| - 1]);
    }
  }

  lemma SameGroups(items: seq<Captured>, other: seq<Captured>, i: nat)
    requires SamePattern(items, other) && i < |items|
    ensures Closes(items, i) == Closes(other, i) && Group(items, i) == Group(other, i)
  {
    SameOpen(items[..i], other[..i]);
  }

  /** The same sends with empty payloads, but for a one-byte payload in frame `i`. */
  function Marked(items: seq<Captured>, i: nat): (other: seq<Captured>)
    ensures SamePattern(items, other)
    ensures forall u :: 0 <= u < |other| ==> other[u].payload == if u == i then [1] else []
  {
    seq(|items|, u requires 0 <= u < |items| => Captured(if u == i then [1] else [], items[u].stamp, items[u].sent))
  }

  lemma {:induction false} NoBytes(frames: seq<bytes>)
    requires forall j :: 0 <= j < |frames| ==> frames[j] == []
    ensures MaxLen(frames) == 0 && XorAt(frames, 0) == 0
  {
    if frames != [] {
      NoBytes(frames[..|frames| - 1]);
    }
  }

  /** The parity of one marked frame among empty ones is its mark. */
  lemma {:induction false} MarkParity(frames: seq<bytes>, k: nat)
    requires k < |frames| && forall j :: 0 <= j < |frames| ==> frames[j] == if j == k then [1] else []
    ensures MaxLen(frames) == 1 && XorAt(frames, 0) == 1 && ParityOf(frames) == [1]
  {
    var n := |frames| - 1;
    if k == n {
      NoBytes(frames[..n]);
    } else {
      MarkParity(frames[..n], k);
    }
  }

  function MarkedFrames(k: nat): (frames: seq<bytes>)
    ensures |frames| == 4 && forall j :: 0 <= j < 4 ==> frames[j] == if j == k then [1] else []
  {
    seq(4, j => if j == k then [1] else [])
  }

  lemma MarkedParity(items: seq<Captured>, i: nat, b: u32, k: nat)
    requires i < |items| && Closes(items, i) && b == Group(items, i)[0] && k < 4
    ensures ParityAfter(Marked(items, i), i) == Parity(b, 4, ParityOf(MarkedFrames(k)))
  {
    var other := Marked(items, i);
    SameGroups(items, other, i);
    GroupShape(items, i);
    MarkParity(Pick(other, Group(other, i)), 3);
    MarkParity(MarkedFrames(k), k);
    SmallWrap(b);
  }

  /** Of three ascending offsets below 4 that start with 0, exactly one is left out. */
  lemma LeftOut(p: nat, q: nat)
    requires 0 < p < q < 4
    ensures Lost(4, [0, p, q]) == {6 - p - q}
  {
  }

  lemma MarkedCarries(items: seq<Captured>, i: nat, b: nat, p: nat, q: nat)
    requires i < |items| && Closes(items, i) && Steals(Group(items, i))
    requires var idx := Group(items, i); b == idx[0] && b + p == idx[1] && b + q == idx[2] && 0 < p < q < 4
    ensures Carries(Marked(items, i), b, MarkedFrames(6 - p - q), [0, p, q])
  {
    GroupShape(items, i);
    var other, idx := Marked(items, i), Group(items, i);
    assert SentAt(other, idx[0]) && SentAt(other, idx[1]) && SentAt(other, idx[2]);
  }

  /** A group that steals can be made to show: with these payloads and this network the receiver is
      handed a frame that was never sent under its number. */
  lemma TheftShows(items: seq<Captured>, i: nat) returns (other: seq<Captured>, net: seq<Mention>)
    requires i < |items| <= 0x1_0000_0000 && Closes(items, i) && Steals(Group(items, i))
    ensures SamePattern(items, other) && AllWereSent(other, net) && !Intact(other, net)
  {
    GroupShape(items, i);
    var idx := Group(items, i);
    var b := idx[0];
    var p, q := idx[1] - b, idx[2] - b;
    var k := 6 - p - q;
    other := Marked(items, i);
    net := Heard(b, [0, p, q]) + [Mention(i, true)];
    SameGroups(items, other, i);
    LeftOut(p, q);
    MarkedCarries(items, i, b, p, q);
    MarkedParity(items, i, b, k);
    HeardRecovers(other, b, MarkedFrames(k), [0, p, q], i, k);
    MarkParity(MarkedFrames(k), k);
    InsideCounter(b, k);
    MarkIsForged(other, Jitter.Frame((b + k) as u32, 0, Pad([1], 1)));
  }

  lemma MarkIsForged(items: seq<Captured>, f: Jitter.Frame)
    requires f.payload == Pad([1], 1) && f.sequence < |items| && items[f.sequence].payload == []
    ensures !Genuine(items, f)
  {
    assert f.payload[0] == 1 && Pad([], 1)[0] == 0;
  }

  /** Whatever the payloads and whatever the network, every frame handed over is genuine, if and only
      if no completed group starts where a group of the decoder does and ends beyond it with just one
      frame of it missing. */
  lemma IntegrityIff(items: seq<Captured>)
    requires |items| <= 0x1_0000_0000
    ensures (forall other, net :: SamePattern(items, other) && AllWereSent(other, net) ==> Intact(other, net))
            <==> NoTheft(items)
  {
    if NoTheft(items) {
      forall other, net | SamePattern(items, other) && AllWereSent(other, net) ensures Intact(other, net) {
        SameTheft(items, other);
        EveryFrameGenuine(other, net);
      }
    } else {
      var i :| 0 <= i < |items| && Closes(items, i) && Steals(Group(items, i));
      var other, net := TheftShows(items, i);
    }
  }

  lemma SameTheft(items: seq<Captured>, other: seq<Captured>)
    requires SamePattern(items, other) && NoTheft(items)
    ensures NoTheft(other)
  {
    forall i | 0 <= i < |other| && Closes(other, i) ensures !Steals(Group(other, i)) {
      SameGroups(items, other, i);
    }
  }

  /** Through the jitter buffer as well, however it is polled: every delivered frame is genuine. */
  lemma DeliveriesGenuine(items: seq<Captured>, net: seq<Mention>, capacity: int, ops: seq<Op>)
    requires |items| <= 0x1_0000_0000 && NoTheft(items) && AllWereSent(items, net) && Jitter.IsCapacity(capacity)
    requires forall f :: Arrive(f) in ops ==> f in HandedOver(items, net)
    ensures forall d :: d in Run(Start(capacity), ops).delivered ==> Genuine(items, d.frame)
  {
    EveryFrameGenuine(items, net);
    var ds := Run(Start(capacity), ops).delivered;
    forall d | d in ds ensures Genuine(items, d.frame) {
      var i :| 0 <= i < |ds| && ds[i] == d;
      DeliveredArrived(capacity, ops, i);
    }
  }
}

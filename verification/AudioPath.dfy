/**
 The mutable halves of the audio path: the sending side of `send_audio` and the receiving side
 of `dispatch_packet` and `recv_audio`, proved against the stream model of `Pipeline`.
 */
module AudioPath {
  import opened Words
  import opened Jitter
  import opened JitterRuns
  import opened Playout
  import opened Fec
  import opened Sending
  import opened Pipeline

  class Transmitter {
    var audioTxSeq: u32
    const fecEnc: FecEncoder

    ghost predicate Valid()
      reads this, fecEnc
    {
      fecEnc.Valid() && fecEnc.state.window == FEC_WINDOW
    }

    ghost function View(): Sender
      reads this, fecEnc
    {
      Sender(audioTxSeq, fecEnc.state)
    }

    constructor ()
      ensures Valid() && fresh(fecEnc) && View() == NEW_SENDER
    {
      audioTxSeq := 0;
      fecEnc := new FecEncoder(FEC_WINDOW);
    }

    /** `send_audio`: number the frame, send it, feed the encoder, send the parity it emits. When
        the send fails the number is used up and the encoder is not fed. */
    method SendAudio(item: Captured) returns (packets: seq<Packet>)
      requires Valid()
      modifies this, fecEnc
      ensures Valid()
      ensures packets == Emits(old(View()), item)
      ensures View() == AfterSend(old(View()), item)
    {
      var audioSeq := audioTxSeq;
      audioTxSeq := WrapAdd(audioTxSeq, 1);
      if !item.sent {
        return [];
      }
      packets := [Audio(item.stamp, BigEndian(audioSeq, 4) + item.payload)];
      var parity := fecEnc.Push(audioSeq, item.payload);
      if parity.Some? {
        var p := parity.value;
        packets := packets + [ParityPacket(BigEndian(p.seqBase, 4) + [p.window as byte] + p.payload)];
      }
    }
  }

  /** Everything a drain takes out of the ring, in order. */
  function Poppable(r: Ring): (fs: seq<Frame>)
    decreases |r.frames|
  {
    if r.Ready() then
      DropShrinks(r.frames, r.next);
      [r.frames[r.next]] + Poppable(r.Pop())
    else []
  }

  function AfterPops(r: Ring): Ring
    decreases |r.frames|
  {
    if r.Ready() then
      DropShrinks(r.frames, r.next);
      AfterPops(r.Pop())
    else r
  }

  function FramesOf(d: seq<Delivery>): seq<Frame> {
    seq(|d|, i requires 0 <= i < |d| => d[i].frame)
  }

  lemma FramesOfMore(d: seq<Delivery>, x: Delivery)
    ensures FramesOf(d + [x]) == FramesOf(d) + [x.frame]
  {
  }

  lemma PopOne(r: Ring, out: seq<Frame>, all: seq<Frame>)
    requires r.Ready() && out + Poppable(r) == all
    ensures out + [r.frames[r.next]] + Poppable(r.Pop()) == all
    ensures AfterPops(r) == AfterPops(r.Pop())
    ensures |r.Pop().frames| < |r.frames|
  {
    DropShrinks(r.frames, r.next);
  }

  /** Draining a history pops exactly the ready frames of its ring. */
  lemma {:induction false} DrainPops(h: History, all: seq<Frame>)
    requires FramesOf(h.delivered) + Poppable(h.ring) == all
    ensures Drain(h).ring == AfterPops(h.ring)
    ensures FramesOf(Drain(h).delivered) == all
    decreases |h.ring.frames|
  {
    if h.ring.Ready() {
      PopOne(h.ring, FramesOf(h.delivered), all);
      FramesOfMore(h.delivered, Delivery(h.pos, h.ring.frames[h.ring.next]));
      DrainPops(Step(h, Poll(false)), all);
    }
  }

  /** One step of the stream model is one dispatch into the ring followed by one drain. */
  lemma TakeIsPushThenPop(h: History, f: Frame)
    ensures Take(h, f).ring == AfterPops(h.ring.Push(f))
    ensures FramesOf(Take(h, f).delivered) == FramesOf(h.delivered) + Poppable(h.ring.Push(f))
  {
    var after := Step(h, Arrive(f));
    assert after.ring == h.ring.Push(f) && after.delivered == h.delivered;
    DrainPops(after, FramesOf(h.delivered) + Poppable(h.ring.Push(f)));
  }

  class ReceivePath {
    const fecDec: FecDecoder
    const jitter: JitterBuffer

    ghost predicate Valid()
      reads this, fecDec, jitter, jitter.slots
    {
      fecDec.Valid() && jitter.Valid()
    }

    constructor (capacity: int)
      requires IsCapacity(capacity)
      ensures Valid() && fresh(fecDec) && fresh(jitter) && fresh(jitter.slots)
      ensures fecDec.View() == NEW_DECODER && jitter.ring == EmptyRing(capacity)
    {
      fecDec := new FecDecoder(FEC_WINDOW);
      jitter := new JitterBuffer(capacity);
    }

    /** The audio and parity branches of `dispatch_packet`, after decryption. */
    method Dispatch(packet: Packet)
      requires Valid()
      modifies fecDec, jitter, jitter.slots
      ensures Valid()
      ensures fecDec.View() == DecoderAfter(old(fecDec.View()), packet)
      ensures var frame := FrameOf(old(fecDec.View()), packet);
              jitter.ring == if frame.Some? then old(jitter.ring).Push(frame.value) else old(jitter.ring)
    {
      match packet
      case Audio(stamp, plaintext) => OnAudio(stamp, plaintext);
      case ParityPacket(plaintext) => OnParity(plaintext);
    }

    method OnAudio(stamp: u64, plaintext: bytes)
      requires Valid()
      modifies fecDec, jitter, jitter.slots
      ensures Valid()
      ensures fecDec.View() == DecoderAfter(old(fecDec.View()), Audio(stamp, plaintext))
      ensures var frame := FrameOf(old(fecDec.View()), Audio(stamp, plaintext));
              jitter.ring == if frame.Some? then old(jitter.ring).Push(frame.value) else old(jitter.ring)
    {
      if |plaintext| < 4 {
        return;
      }
      var audioSeq := Prefix(plaintext);
      var ok := fecDec.PushData(audioSeq, plaintext[4..]);
      var accepted := jitter.Push(Frame(audioSeq, stamp, plaintext[4..]));
    }

    method OnParity(plaintext: bytes)
      requires Valid()
      modifies fecDec, jitter, jitter.slots
      ensures Valid()
      ensures fecDec.View() == DecoderAfter(old(fecDec.View()), ParityPacket(plaintext))
      ensures var frame := FrameOf(old(fecDec.View()), ParityPacket(plaintext));
              jitter.ring == if frame.Some? then old(jitter.ring).Push(frame.value) else old(jitter.ring)
    {
      if |plaintext| < 5 {
        return;
      }
      var recovered := fecDec.PushParity(Parity(Prefix(plaintext), plaintext[4] as int, plaintext[5..]));
      if recovered.Some? {
        var accepted := jitter.Push(Frame(recovered.value.0, 0, recovered.value.1));
      }
    }

    /** Successive `recv_audio` pops with no deadline expiring, until nothing is ready. */
    method PopReady() returns (out: seq<Frame>)
      requires Valid()
      modifies jitter, jitter.slots
      ensures Valid() && fecDec.View() == old(fecDec.View())
      ensures out == Poppable(old(jitter.ring)) && jitter.ring == AfterPops(old(jitter.ring))
    {
      out := [];
      ghost var all := Poppable(jitter.ring);
      while true
        invariant jitter.Valid()
        invariant out + Poppable(jitter.ring) == all
        invariant AfterPops(jitter.ring) == AfterPops(old(jitter.ring))
        decreases |jitter.ring.frames|
      {
        ghost var before := jitter.ring;
        var frame := jitter.PopWithDeadline(0, 1);
        if frame.None? {
          break;
        }
        PopOne(before, out, all);
        out := out + [frame.value];
      }
    }
  }

  // ---- How many slots a session asks for ---------------------------------------

  /** `next_power_of_two`, looking upwards from the power of two `p`. */
  function PowerFrom(p: nat, n: nat): (r: nat)
    requires p > 0
    ensures r >= n && r >= p
    decreases n - p
  {
    if p >= n then p else PowerFrom(2 * p, n)
  }

  function Max(a: int, b: int): int {
    if a >= b then a else b
  }

  /** `jitter_slots`. */
  function JitterSlots(bufferMs: u16, frameMs: nat): nat {
    Max(PowerFrom(1, Max(bufferMs / Max(frameMs, 1), 1)), 16)
  }

  lemma {:induction false} PowerFromIsCapacity(p: nat, n: nat)
    requires IsCapacity(p) && n <= 2048
    ensures IsCapacity(PowerFrom(p, n))
    decreases n - p
  {
    if p < n {
      PowerFromIsCapacity(2 * p, n);
    }
  }

  /** The slots a session asks for are what the buffer accepts, exactly when the configured
      delay is at most 2048 frames; every such buffer can hold a whole FEC group. */
  lemma JitterSlotsAccepted(bufferMs: u16, frameMs: nat)
    ensures IsCapacity(JitterSlots(bufferMs, frameMs)) <==> bufferMs / Max(frameMs, 1) <= 2048
    ensures JitterSlots(bufferMs, frameMs) >= 16
  {
    var frames := Max(bufferMs / Max(frameMs, 1), 1);
    if frames <= 2048 {
      PowerFromIsCapacity(1, frames);
    }
  }

  /** A power of two. */
  predicate IsPower(p: nat) {
    p == 1 || (p > 1 && p % 2 == 0 && IsPower(p / 2))
  }

  lemma {:induction false} LeastPower(p: nat, n: nat, q: nat)
    requires p > 0 && IsPower(p) && IsPower(q)
    ensures IsPower(PowerFrom(p, n))
    ensures q >= n && q >= p ==> PowerFrom(p, n) <= q
    decreases n - p
  {
    if p < n {
      assert IsPower(2 * p);
      if q >= n {
        PowersDouble(p, q);
      }
      LeastPower(2 * p, n, q);
    }
  }

  /** Between two powers of two one after the other there is none. */
  lemma {:induction false} PowersDouble(p: nat, q: nat)
    requires IsPower(p) && IsPower(q) && q > p
    ensures q >= 2 * p
  {
    if p > 1 {
      PowersDouble(p / 2, q / 2);
    }
  }

  /** The slot count is the least power of two that is at least 16 and at least the frame count. */
  lemma JitterSlotsLeast(bufferMs: u16, frameMs: nat, q: nat)
    requires IsPower(q)
    ensures var r, frames := JitterSlots(bufferMs, frameMs), bufferMs / Max(frameMs, 1);
            && IsPower(r) && r >= 16 && r >= frames
            && (q >= 16 && q >= frames ==> r <= q)
  {
    var frames := Max(bufferMs / Max(frameMs, 1), 1);
    LeastPower(1, frames, q);
    Sixteen();
  }

  lemma Sixteen()
    ensures IsPower(16) && IsPower(1)
  {
    assert IsPower(2) && IsPower(4) && IsPower(8);
  }
}

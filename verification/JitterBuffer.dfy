/**
 The jitter buffer: a power-of-two ring of slots indexed by wrapping sequence numbers.

 `Ring` is the simple specification (a map over the window [next, next + capacity) modulo
 2^32); class `JitterBuffer` is the slot array that refines it.
 */
module Jitter {
  import opened Words

  datatype Frame = Frame(sequence: u32, timestamp: u64, payload: seq<byte>)

  /** Powers of two up to 2048, the capacities `JitterBuffer::new` accepts. */
  predicate IsCapacity(c: int) {
    || c == 1 || c == 2 || c == 4 || c == 8 || c == 16 || c == 32 || c == 64
    || c == 128 || c == 256 || c == 512 || c == 1024 || c == 2048
  }

  // ---- Slot arithmetic ---------------------------------------------------------

  /** `sequence & mask`, with mask = capacity - 1. */
  function SlotIndex(sequence: u32, capacity: int): (i: nat)
    requires capacity > 0
    ensures i < capacity
  {
    sequence % capacity
  }

  /** The sequence counter wraps at a multiple of every capacity. */
  lemma CapacityDividesWrap(c: int)
    requires IsCapacity(c)
    ensures 0x1_0000_0000 % c == 0
  {
  }

  lemma SlotOfOffset(next: u32, s: u32, c: int)
    requires c > 0 && 0x1_0000_0000 % c == 0
    ensures s % c == (next + WrapSub(s, next)) % c
  {
    WrapForward(s, next);
    ModOfMod(next + WrapSub(s, next), 0x1_0000_0000, c);
  }

  /** Two sequences of one window that share a slot are the same sequence. */
  lemma WindowSlotsDistinct(next: u32, s: u32, t: u32, c: int)
    requires c > 0 && 0x1_0000_0000 % c == 0
    requires WrapSub(s, next) < c && WrapSub(t, next) < c && s % c == t % c
    ensures s == t
  {
    SlotOfOffset(next, s, c);
    SlotOfOffset(next, t, c);
    CloseAndCongruent(next + WrapSub(s, next), next + WrapSub(t, next), c);
    WrapForward(s, next);
    WrapForward(t, next);
  }

  // ---- Specification: a map over the window ------------------------------------

  /** The frames at least `count` places past `next`. */
  function From(frames: map<u32, Frame>, next: u32, count: nat): map<u32, Frame> {
    map s | s in frames && WrapSub(s, next) >= count :: frames[s]
  }

  datatype Ring = Ring(capacity: int, primed: bool, next: u32, frames: map<u32, Frame>) {

    predicate InWindow(s: u32) {
      WrapSub(s, next) < capacity
    }

    ghost predicate WellFormed() {
      && IsCapacity(capacity)
      && (!primed ==> next == 0 && frames == map[])
      && forall s :: s in frames ==> frames[s].sequence == s && InWindow(s)
    }

    /** Accepted exactly when unprimed or inside the window; no slot ever stands in the way. */
    predicate Accepts(s: u32) {
      !primed || InWindow(s)
    }

    function Push(f: Frame): Ring {
      if !Accepts(f.sequence) then this
      else if !primed then Ring(capacity, true, f.sequence, map[f.sequence := f])
      else this.(frames := frames[f.sequence := f])
    }

    predicate Ready() {
      primed && next in frames
    }

    /** The frame a pop returns. */
    function Head(): Option<Frame> {
      if Ready() then Some(frames[next]) else None
    }

    function Pop(): Ring {
      if Ready() then this.(next := WrapAdd(next, 1), frames := frames - {next}) else this
    }

    /** Skipping forgets the frames it passes over and moves the window. */
    function Skip(count: u32): Ring {
      if !primed then this
      else this.(next := WrapAdd(next, count), frames := From(frames, next, count))
    }

    function PopWithDeadline(expired: bool): Ring {
      if !Ready() && expired then Skip(1) else Pop()
    }
  }

  function EmptyRing(capacity: int): Ring {
    Ring(capacity, false, 0, map[])
  }

  lemma WindowMoves(s: u32, next: u32, count: u32, c: int)
    requires IsCapacity(c) && count <= WrapSub(s, next) < c
    ensures WrapSub(s, WrapAdd(next, count)) == WrapSub(s, next) - count
  {
  }

  lemma OnlyNextAtZero(s: u32, next: u32)
    ensures WrapSub(s, next) == 0 <==> s == next
  {
  }

  lemma PushKeepsWindow(r: Ring, f: Frame)
    requires r.WellFormed()
    ensures r.Push(f).WellFormed()
  {
    OnlyNextAtZero(f.sequence, f.sequence);
  }

  /** How wide the window is: a frame `k` places past the cursor is stored if and only if `k` is
      below the capacity, and nothing else changes. */
  lemma PushFillsWindow(r: Ring, f: Frame, k: nat)
    requires r.WellFormed() && r.primed && k < 0x1_0000_0000 && f.sequence == (r.next + k) % 0x1_0000_0000
    ensures f.sequence in r.Push(f).frames <==> k < r.capacity
    ensures r.Push(f) == if k < r.capacity then r.(frames := r.frames[f.sequence := f]) else r
  {
    OffsetOf(r.next, k);
  }

  lemma OffsetOf(next: u32, k: nat)
    requires k < 0x1_0000_0000
    ensures WrapSub((next + k) % 0x1_0000_0000, next) == k
  {
  }

  /** An unprimed buffer takes any frame and starts its window there. */
  lemma PushPrimes(r: Ring, f: Frame)
    requires !r.primed
    ensures r.Push(f) == Ring(r.capacity, true, f.sequence, map[f.sequence := f])
  {
  }

  /** Skipping `count + 1` places is skipping `count` places and then the one at the cursor. */
  lemma SkipOneMore(r: Ring, count: u32)
    requires r.WellFormed() && r.primed && count < 0xFFFF_FFFF
    ensures var first := r.Skip(count);
            r.Skip(count + 1) == first.(next := WrapAdd(first.next, 1), frames := first.frames - {first.next})
    ensures r.Skip(0) == r
  {
    OneFurther(r.next, count);
    SkipFramesOneMore(r.frames, r.next, count, WrapAdd(r.next, count));
    NoneBelowZero(r.frames, r.next);
  }

  lemma OneFurther(next: u32, count: u32)
    requires count < 0xFFFF_FFFF
    ensures WrapAdd(next, count + 1) == WrapAdd(WrapAdd(next, count), 1) && WrapAdd(next, 0) == next
  {
  }

  lemma NoneBelowZero(frames: map<u32, Frame>, next: u32)
    ensures From(frames, next, 0) == frames
  {
  }

  lemma SkipFramesOneMore(frames: map<u32, Frame>, next: u32, count: u32, at: u32)
    requires at == WrapAdd(next, count)
    ensures From(frames, next, count + 1) == From(frames, next, count) - {at}
  {
    forall s | s in frames ensures WrapSub(s, next) == count <==> s == at {
      PastCount(s, next, count);
    }
  }

  lemma PastCount(s: u32, next: u32, count: u32)
    ensures WrapSub(s, next) == count <==> s == WrapAdd(next, count)
  {
  }

  lemma PopKeepsWindow(r: Ring)
    requires r.WellFormed()
    ensures r.Pop().WellFormed()
  {
    if r.Ready() {
      forall s | s in r.Pop().frames ensures r.Pop().InWindow(s) {
        OnlyNextAtZero(s, r.next);
        WindowMoves(s, r.next, 1, r.capacity);
      }
    }
  }

  lemma SkipKeepsWindow(r: Ring, count: u32)
    requires r.WellFormed()
    ensures r.Skip(count).WellFormed()
  {
    forall s | s in r.Skip(count).frames ensures r.Skip(count).InWindow(s) {
      if r.primed {
        WindowMoves(s, r.next, count, r.capacity);
      }
    }
  }

  /** Every operation keeps the window invariant, from any state, across wraparound. */
  lemma OperationsKeepWindow(r: Ring, f: Frame, count: u32, expired: bool)
    requires r.WellFormed()
    ensures r.Push(f).WellFormed()
    ensures r.Pop().WellFormed()
    ensures r.Skip(count).WellFormed()
    ensures r.PopWithDeadline(expired).WellFormed()
  {
    PushKeepsWindow(r, f);
    PopKeepsWindow(r);
    SkipKeepsWindow(r, count);
    SkipKeepsWindow(r, 1);
  }

  // ---- The slot array ----------------------------------------------------------

  datatype Slot = Slot(occupied: bool, sequence: u32, frame: Option<Frame>)

  /** The slots hold exactly the frames of the ring, each where its low bits say. */
  ghost predicate Represents(slots: seq<Slot>, r: Ring) {
    && r.WellFormed() && |slots| == r.capacity
    && (forall s :: s in r.frames ==> Holds(slots, r.frames[s]))
    && (forall i :: 0 <= i < |slots| && slots[i].occupied ==>
          && slots[i].sequence in r.frames
          && slots[i].frame == Some(r.frames[slots[i].sequence])
          && SlotIndex(slots[i].sequence, |slots|) == i)
  }

  ghost predicate Holds(slots: seq<Slot>, f: Frame)
    requires |slots| > 0
  {
    slots[SlotIndex(f.sequence, |slots|)] == Slot(true, f.sequence, Some(f))
  }

  /** The slot of an acceptable frame is free or already holds that very sequence. */
  lemma NoCollision(slots: seq<Slot>, r: Ring, s: u32)
    requires Represents(slots, r) && r.Accepts(s)
    ensures var slot := slots[SlotIndex(s, |slots|)]; slot.occupied ==> slot.sequence == s
  {
    var slot := slots[SlotIndex(s, |slots|)];
    if slot.occupied {
      CapacityDividesWrap(r.capacity);
      WindowSlotsDistinct(r.next, slot.sequence, s, r.capacity);
    }
  }

  lemma PushRepresents(slots: seq<Slot>, r: Ring, f: Frame)
    requires Represents(slots, r) && r.Accepts(f.sequence)
    ensures Represents(slots[SlotIndex(f.sequence, |slots|) := Slot(true, f.sequence, Some(f))], r.Push(f))
  {
    NoCollision(slots, r, f.sequence);
    PushKeepsWindow(r, f);
  }

  lemma ReadyIsStored(slots: seq<Slot>, r: Ring)
    requires Represents(slots, r)
    ensures var slot := slots[SlotIndex(r.next, |slots|)];
            r.Ready() <==> r.primed && slot.occupied && slot.sequence == r.next
  {
  }

  lemma PopRepresents(slots: seq<Slot>, r: Ring)
    requires Represents(slots, r) && r.Ready()
    ensures Represents(slots[SlotIndex(r.next, |slots|) := Slot(false, r.next, None)], r.Pop())
  {
    PopKeepsWindow(r);
    assert Holds(slots, r.frames[r.next]);
    forall s | s in r.frames && s != r.next ensures SlotIndex(s, |slots|) != SlotIndex(r.next, |slots|) {
      assert Holds(slots, r.frames[s]);
    }
  }

  /** The ring without the frames less than `i` past the cursor; the cursor has not moved yet. */
  function Cleared(r: Ring, i: nat): Ring {
    r.(frames := map s | s in r.frames && WrapSub(s, r.next) >= i :: r.frames[s])
  }

  /** Among window sequences at or past offset `i`, only offset `i` uses the slot of `next + i`. */
  lemma SlotHit(next: u32, s: u32, i: u32, c: int)
    requires c > 0 && 0x1_0000_0000 % c == 0 && i <= WrapSub(s, next) < c
    ensures s % c == WrapAdd(next, i) % c <==> WrapSub(s, next) == i
  {
    var offset := WrapSub(s, next);
    SlotOfOffset(next, s, c);
    ModOfMod(next + i, 0x1_0000_0000, c);
    if s % c == WrapAdd(next, i) % c {
      CloseAndCongruent(next + offset, next + i, c);
    }
  }

  lemma ClearRepresents(slots: seq<Slot>, r: Ring, i: u32, sequence: u32)
    requires Represents(slots, Cleared(r, i)) && r.WellFormed() && r.primed
    ensures Represents(slots[SlotIndex(WrapAdd(r.next, i), |slots|) := Slot(false, sequence, None)], Cleared(r, i + 1))
  {
    CapacityDividesWrap(r.capacity);
    forall s | s in Cleared(r, i).frames
      ensures SlotIndex(s, |slots|) == SlotIndex(WrapAdd(r.next, i), |slots|) <==> WrapSub(s, r.next) == i
    {
      SlotHit(r.next, s, i, r.capacity);
    }
  }

  class JitterBuffer {
    const slots: array<Slot>
    var nextSeq: u32
    var primed: bool
    ghost var ring: Ring

    ghost predicate Valid()
      reads this, slots
    {
      Represents(slots[..], ring) && ring.primed == primed && ring.next == nextSeq
    }

    /** `JitterBuffer::new`. */
    constructor (capacity: int)
      requires IsCapacity(capacity)
      ensures Valid() && fresh(slots)
      ensures ring == EmptyRing(capacity)
    {
      slots := new Slot[capacity](i => Slot(false, 0, None));
      nextSeq := 0;
      primed := false;
      ring := EmptyRing(capacity);
    }

    /** `push`. The collision test is the source's; the contract shows it never rejects. */
    method Push(frame: Frame) returns (accepted: bool)
      requires Valid()
      modifies this, slots
      ensures Valid()
      ensures accepted <==> !old(primed) || WrapSub(frame.sequence, old(nextSeq)) < slots.Length
      ensures ring == old(ring).Push(frame)
    {
      var capacity := slots.Length;
      if !primed {
        nextSeq := frame.sequence;
        primed := true;
      } else {
        if WrapSub(frame.sequence, nextSeq) > 0x8000_0000 {
          return false;
        }
        if WrapSub(frame.sequence, nextSeq) >= capacity {
          return false;
        }
      }
      NoCollision(slots[..], ring, frame.sequence);
      PushRepresents(slots[..], ring, frame);
      var idx := SlotIndex(frame.sequence, capacity);
      if slots[idx].occupied && slots[idx].sequence != frame.sequence {
        return false;
      }
      slots[idx] := Slot(true, frame.sequence, Some(frame));
      ring := ring.Push(frame);
      accepted := true;
    }

    /** `pop`. */
    method Pop() returns (frame: Option<Frame>)
      requires Valid()
      modifies this, slots
      ensures Valid()
      ensures frame == old(ring).Head()
      ensures ring == old(ring).Pop()
    {
      if !primed {
        return None;
      }
      ReadyIsStored(slots[..], ring);
      var idx := SlotIndex(nextSeq, slots.Length);
      if !slots[idx].occupied {
        return None;
      }
      if slots[idx].sequence != nextSeq {
        return None;
      }
      frame := slots[idx].frame;
      PopRepresents(slots[..], ring);
      slots[idx] := Slot(false, slots[idx].sequence, None);
      nextSeq := WrapAdd(nextSeq, 1);
      ring := ring.Pop();
    }

    /** `skip`. */
    method Skip(count: u32)
      requires Valid()
      modifies this, slots
      ensures Valid()
      ensures ring == old(ring).Skip(count)
    {
      if !primed {
        return;
      }
      assert Cleared(ring, 0) == ring;
      for i := 0 to count
        invariant unchanged(this)
        invariant Represents(slots[..], Cleared(ring, i))
      {
        var idx := SlotIndex(WrapAdd(nextSeq, i), slots.Length);
        ClearRepresents(slots[..], ring, i, slots[idx].sequence);
        slots[idx] := Slot(false, slots[idx].sequence, None);
      }
      SkipKeepsWindow(ring, count);
      nextSeq := WrapAdd(nextSeq, count);
      ring := ring.Skip(count);
    }

    /** `pop_with_deadline`. */
    method PopWithDeadline(nowUs: u64, deadlineUs: u64) returns (frame: Option<Frame>)
      requires Valid()
      modifies this, slots
      ensures Valid()
      ensures frame == old(ring).Head()
      ensures ring == old(ring).PopWithDeadline(nowUs >= deadlineUs)
    {
      frame := Pop();
      if frame.Some? {
        return;
      }
      if nowUs >= deadlineUs {
        Skip(1);
      }
    }
  }
}

/**
 The loss tracker: a 64-bit window behind the newest sequence number, and the set of numbers
 it stands for.

 Sequence numbers are unwrapped into ordinary integers: the newest one is `high`, and a packet
 stands for the integer nearest to it with the right low 32 bits. A forward jump of 64 or more
 asks for a shift by the full width of the word; the shift amount is then taken modulo 64, as
 an optimised build does, and the exact consequence is stated.
 */
module Loss {
  import opened Words
  import opened Bits

  const WINDOW: nat := 64

  datatype Tracker = Tracker(
    bitmap: bv64,
    high: u32,
    total: u32,
    reordered: u32,
    initialised: bool)

  const FRESH := Tracker(0, 0, 0, 0, false)

  /** `as i32` of a wrapping difference. */
  function Signed(d: u32): int {
    if d < 0x8000_0000 then d else d - 0x1_0000_0000
  }

  /** How far ahead of the newest number a packet is, negative for a late one. */
  function Jump(t: Tracker, sequence: u32): int {
    Signed(WrapSub(sequence, t.high))
  }

  /** `min(jump, 64)` as a shift amount, of which an optimised build keeps the low six bits. */
  function ShiftBy(jump: nat): nat {
    if jump < WINDOW then jump else 0
  }

  /** `bm <<= shift; bm |= 1`. */
  function Forward(bitmap: bv64, jump: nat): bv64 {
    Shl(bitmap, ShiftBy(jump)) | Mask(0)
  }

  /** `if bm & bit == 0 { bm |= bit }`, for a packet still inside the window. */
  function Late(bitmap: bv64, gap: nat): bv64 {
    if gap < WINDOW && !Bit(bitmap, gap) then bitmap | Mask(gap) else bitmap
  }

  function Recorded(t: Tracker, sequence: u32): Tracker {
    if !t.initialised then Tracker(1, sequence, 1, t.reordered, true)
    else
      var jump := Jump(t, sequence);
      var t' := t.(total := WrapAdd(t.total, 1));
      if jump > 0 then t'.(bitmap := Forward(t.bitmap, jump), high := sequence)
      else if jump < 0 then t'.(bitmap := Late(t.bitmap, -jump), reordered := WrapAdd(t.reordered, 1))
      else t'
  }

  /** `loss_percent`, with exact division. */
  function LossPercent(t: Tracker): real {
    if !t.initialised then 0.0
    else (WINDOW - Ones(t.bitmap, WINDOW)) as real / WINDOW as real * 100.0
  }

  class LossTracker {
    var bitmap: bv64
    var high: u32
    var total: u32
    var reordered: u32
    var initialised: bool

    function State(): Tracker
      reads this
    {
      Tracker(bitmap, high, total, reordered, initialised)
    }

    constructor ()
      ensures State() == FRESH
    {
      bitmap, high, total, reordered, initialised := 0, 0, 0, 0, false;
    }

    method Record(sequence: u32)
      modifies this
      ensures State() == Recorded(old(State()), sequence)
    {
      if !initialised {
        bitmap, high, total, initialised := 1, sequence, 1, true;
        return;
      }
      var diff := Signed(WrapSub(sequence, high));
      if diff > 0 {
        bitmap := Forward(bitmap, diff);
        high := sequence;
      } else if diff < 0 {
        bitmap := Late(bitmap, -diff);
        reordered := WrapAdd(reordered, 1);
      }
      total := WrapAdd(total, 1);
    }
  }

  // ---- What each update does to the bits ---------------------------------------

  lemma ForwardBits(bitmap: bv64, jump: nat, g: nat)
    requires 0 < jump && g < 64
    ensures var n := ShiftBy(jump);
            Bit(Forward(bitmap, jump), g) <==> g == 0 || (g >= n && Bit(bitmap, g - n))
  {
    var n := ShiftBy(jump);
    ShlBit(bitmap, n, g);
    OrBit(Shl(bitmap, n), 0, g);
  }

  lemma LateBits(bitmap: bv64, gap: nat, g: nat)
    requires g < 64
    ensures Bit(Late(bitmap, gap), g) <==> g == gap || Bit(bitmap, g)
  {
    if gap < 64 {
      OrBit(bitmap, gap, g);
    }
  }

  // ---- The set the window stands for -------------------------------------------

  datatype History = History(tracker: Tracker, high: int, received: set<int>, records: nat, late: nat)

  const START := History(FRESH, 0, {}, 0, 0)

  /** One packet: the tracker records it, and the set gains its unwrapped number. */
  function Step(h: History, sequence: u32): History {
    var t' := Recorded(h.tracker, sequence);
    if !h.tracker.initialised then History(t', sequence, {sequence as int}, 1, 0)
    else
      var jump := Jump(h.tracker, sequence);
      History(t', if jump > 0 then h.high + jump else h.high, h.received + {h.high + jump},
              h.records + 1, if jump < 0 then h.late + 1 else h.late)
  }

  function Run(sequences: seq<u32>): History {
    if sequences == [] then START
    else Step(Run(sequences[..|sequences| - 1]), sequences[|sequences| - 1])
  }

  /** Bit g is set exactly when number high - g was received. */
  ghost predicate WindowIs(bits: nat -> bool, high: int, received: set<int>) {
    forall g: nat :: g < 64 ==> (bits(g) <==> high - g in received)
  }

  function BitsOf(bitmap: bv64): nat -> bool {
    (g: nat) => g < 64 && Bit(bitmap, g)
  }

  ghost predicate Tallies(h: History) {
    && h.tracker.total == h.records % 0x1_0000_0000
    && h.tracker.reordered == h.late % 0x1_0000_0000
    && (h.tracker.initialised ==> h.tracker.high == h.high % 0x1_0000_0000 && h.high in h.received)
    && (h.tracker.initialised ==> forall u :: u in h.received ==> u <= h.high)
    && (!h.tracker.initialised ==> h == START)
  }

  ghost predicate Refines(h: History) {
    Tallies(h) && (h.tracker.initialised ==> WindowIs(BitsOf(h.tracker.bitmap), h.high, h.received))
  }

  /** Of the last 64 numbers only the newest has been received. */
  ghost predicate OnlyNewest(high: int, received: set<int>) {
    forall u :: u in received && u < high ==> u <= high - 64
  }

  lemma AdvanceWindow(bits: nat -> bool, bits': nat -> bool, high: int, received: set<int>, jump: nat)
    requires WindowIs(bits, high, received) && 0 < jump < 64 && forall u :: u in received ==> u <= high
    requires forall g: nat :: g < 64 ==> (bits'(g) <==> g == 0 || (g >= jump && bits(g - jump)))
    ensures WindowIs(bits', high + jump, received + {high + jump})
  {
    forall g: nat | g < 64 ensures bits'(g) <==> high + jump - g in received + {high + jump} {
      if g >= jump {
        assert bits(g - jump) <==> high - (g - jump) in received;
      }
    }
  }

  lemma OverrunWindow(bits: nat -> bool, bits': nat -> bool, high: int, received: set<int>, jump: nat)
    requires WindowIs(bits, high, received) && jump >= 64 && forall u :: u in received ==> u <= high
    requires forall g: nat :: g < 64 ==> (bits'(g) <==> g == 0 || (g >= 0 && bits(g - 0)))
    ensures WindowIs(bits', high + jump, received + {high + jump}) <==> OnlyNewest(high, received)
  {
    if OnlyNewest(high, received) {
      forall g: nat | g < 64 ensures bits'(g) <==> high + jump - g in received + {high + jump} {
        assert bits(g) <==> high - g in received;
      }
    } else {
      var u :| u in received && high - 64 < u < high;
      var g := high - u;
      assert bits(g) <==> high - g in received;
      assert bits'(g);
      assert high + jump - g !in received + {high + jump};
    }
  }

  lemma LateWindow(bits: nat -> bool, bits': nat -> bool, high: int, received: set<int>, gap: nat)
    requires WindowIs(bits, high, received)
    requires forall g: nat :: g < 64 ==> (bits'(g) <==> g == gap || bits(g))
    ensures WindowIs(bits', high, received + {high - gap})
  {
    forall g: nat | g < 64 ensures bits'(g) <==> high - g in received + {high - gap} {
      assert bits(g) <==> high - g in received;
    }
  }

  lemma JumpUnwraps(high: int, sequence: u32)
    ensures (high + Signed(WrapSub(sequence, high % 0x1_0000_0000))) % 0x1_0000_0000 == sequence
  {
  }

  /** A packet stands for the number nearest to the newest one with the right low 32 bits. */
  lemma JumpIsNearest(t: Tracker, sequence: u32, j: int)
    requires -0x8000_0000 <= j < 0x8000_0000 && (t.high + j) % 0x1_0000_0000 == sequence
    ensures Jump(t, sequence) == j
  {
  }

  lemma OneMore(n: nat)
    ensures WrapAdd(n % 0x1_0000_0000, 1) == (n + 1) % 0x1_0000_0000
  {
  }

  lemma StepTallies(h: History, sequence: u32)
    requires Tallies(h)
    ensures Tallies(Step(h, sequence))
  {
    if h.tracker.initialised {
      JumpUnwraps(h.high, sequence);
      OneMore(h.records);
      OneMore(h.late);
    }
  }

  lemma FirstWindow(sequence: int)
    ensures WindowIs(BitsOf(1), sequence, {sequence})
  {
    forall g: nat | g < 64 ensures Bit(1, g) <==> g == 0 {
      OneBit(g);
    }
  }

  lemma ForwardWindow(bitmap: bv64, high: int, received: set<int>, jump: nat)
    requires WindowIs(BitsOf(bitmap), high, received) && jump > 0 && forall u :: u in received ==> u <= high
    ensures WindowIs(BitsOf(Forward(bitmap, jump)), high + jump, received + {high + jump})
            <==> jump < 64 || OnlyNewest(high, received)
  {
    ForwardBitsOf(bitmap, jump);
    if jump < 64 {
      AdvanceWindow(BitsOf(bitmap), BitsOf(Forward(bitmap, jump)), high, received, jump);
    } else {
      OverrunWindow(BitsOf(bitmap), BitsOf(Forward(bitmap, jump)), high, received, jump);
    }
  }

  lemma ForwardBitsOf(bitmap: bv64, jump: nat)
    requires jump > 0
    ensures var bits, bits', n := BitsOf(bitmap), BitsOf(Forward(bitmap, jump)), ShiftBy(jump);
            forall g: nat :: g < 64 ==> (bits'(g) <==> g == 0 || (g >= n && bits(g - n)))
  {
    var bits, bits', n := BitsOf(bitmap), BitsOf(Forward(bitmap, jump)), ShiftBy(jump);
    forall g: nat | g < 64 ensures bits'(g) <==> g == 0 || (g >= n && bits(g - n)) {
      ForwardBits(bitmap, jump, g);
    }
  }

  lemma BackwardWindow(bitmap: bv64, high: int, received: set<int>, gap: nat)
    requires WindowIs(BitsOf(bitmap), high, received)
    ensures WindowIs(BitsOf(Late(bitmap, gap)), high, received + {high - gap})
  {
    var bits, bits' := BitsOf(bitmap), BitsOf(Late(bitmap, gap));
    forall g: nat | g < 64 ensures bits'(g) <==> g == gap || bits(g) {
      LateBits(bitmap, gap, g);
    }
    LateWindow(bits, bits', high, received, gap);
  }

  /** A packet keeps the window exact if and only if it does not jump 64 or more ahead, or the
      window held nothing but the newest number anyway. */
  lemma RecordKeepsIff(h: History, sequence: u32)
    requires Refines(h)
    ensures Refines(Step(h, sequence))
            <==> !h.tracker.initialised || Jump(h.tracker, sequence) < 64 || OnlyNewest(h.high, h.received)
  {
    StepTallies(h, sequence);
    var t := h.tracker;
    if !t.initialised {
      FirstWindow(sequence);
    } else {
      var jump := Jump(t, sequence);
      if jump > 0 {
        ForwardWindow(t.bitmap, h.high, h.received, jump);
      } else if jump < 0 {
        BackwardWindow(t.bitmap, h.high, h.received, -jump);
      } else {
        assert h.received + {h.high} == h.received;
      }
    }
  }

  /** Every forward jump of the run is below 64. */
  ghost predicate SmallJumps(sequences: seq<u32>) {
    forall i :: 0 < i < |sequences| ==> Jump(Run(sequences[..i]).tracker, sequences[i]) < 64
  }

  /** Over every run with small jumps, whatever arrives late or twice and however often the
      32-bit counter wraps, the bitmap is the set of received numbers among the last 64. */
  lemma {:induction false} RunRefines(sequences: seq<u32>)
    requires SmallJumps(sequences)
    ensures Refines(Run(sequences))
    ensures Run(sequences).tracker.initialised <==> sequences != []
  {
    if sequences != [] {
      var n := |sequences| - 1;
      var before := sequences[..n];
      assert SmallJumps(before) by {
        forall i | 0 < i < n ensures Jump(Run(before[..i]).tracker, before[i]) < 64 {
          assert before[..i] == sequences[..i];
        }
      }
      RunRefines(before);
      RecordKeepsIff(Run(before), sequences[n]);
    }
  }

  // ---- The percentage ----------------------------------------------------------

  /** The received numbers among the newest `n`. */
  function Recent(high: int, received: set<int>, n: nat): set<int> {
    set u | u in received && high - n < u <= high
  }

  lemma {:induction false} OnesCountRecent(bitmap: bv64, high: int, received: set<int>, n: nat)
    requires WindowIs(BitsOf(bitmap), high, received) && n <= 64
    ensures Ones(bitmap, n) == |Recent(high, received, n)|
  {
    if n == 0 {
      assert Recent(high, received, 0) == {};
    } else {
      OnesCountRecent(bitmap, high, received, n - 1);
      var last := high - (n - 1);
      assert BitsOf(bitmap)(n - 1) <==> last in received;
      assert Recent(high, received, n) == Recent(high, received, n - 1) + (if last in received then {last} else {});
    }
  }

  /** The reported loss is the share of the last 64 numbers that were not received, and nothing before
      the first packet. */
  lemma LossPercentCounts(sequences: seq<u32>)
    requires SmallJumps(sequences)
    ensures var h := Run(sequences);
            LossPercent(h.tracker) == if sequences == [] then 0.0
                                      else 100.0 * (64 - |Recent(h.high, h.received, 64)|) as real / 64.0
  {
    RunRefines(sequences);
    var h := Run(sequences);
    if sequences != [] {
      OnesCountRecent(h.tracker.bitmap, h.high, h.received, 64);
    }
  }

  lemma BigJump(h: History)
    requires Refines(h) && h.tracker.initialised && h.high == 1 && h.received == {0, 1}
    ensures var h' := Step(h, 65);
            h'.high - 1 !in h'.received && Bit(h'.tracker.bitmap, 1)
  {
    assert BitsOf(h.tracker.bitmap)(1);
    ForwardBits(h.tracker.bitmap, 64, 1);
  }

  lemma TwoReceived()
    ensures var h := Run([0, 1]);
            Refines(h) && h.tracker.initialised && h.high == 1 && h.received == {0, 1}
  {
    var two: seq<u32> := [0, 1];
    assert two[..1] == [0] && two[..1][..0] == [];
    assert Run(two[..1][..0]) == START;
    var h := Run(two[..1]);
    assert h == Step(START, 0);
    assert Jump(h.tracker, 1) == 1;
    RunRefines(two);
  }

  /** The condition is needed: after 0 and 1, number 65 makes the window claim 64 as well. */
  lemma BigJumpMisreports()
    ensures var h := Step(Run([0, 1]), 65);
            h.high - 1 !in h.received && Bit(h.tracker.bitmap, 1)
  {
    TwoReceived();
    BigJump(Run([0, 1]));
  }
}

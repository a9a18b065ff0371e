/**
 The consumer side of the jitter buffer when frames arrive roughly in order and the consumer
 drains after each one, with no deadline expiring: everything comes out once, in order.
 */
module Playout {
  import opened Words
  import opened Folds
  import opened Jitter
  import opened JitterRuns

  /** The consumer pops until nothing is ready. */
  function Drain(h: History): History
    decreases |h.ring.frames|
  {
    if h.ring.Ready() then
      assert |h.ring.frames - {h.ring.next}| < |h.ring.frames| by { DropShrinks(h.ring.frames, h.ring.next); }
      Drain(Step(h, Poll(false)))
    else h
  }

  lemma DropShrinks(m: map<u32, Frame>, s: u32)
    requires s in m
    ensures |m - {s}| < |m|
  {
    assert (m - {s}).Keys == m.Keys - {s};
  }

  /** A frame arrives and the consumer drains. */
  function Take(h: History, f: Frame): History {
    Drain(Step(h, Arrive(f)))
  }

  // ---- What the consumer has ---------------------------------------------------

  /** Exactly the frames `have` were accepted, with the payloads `want` says, and the cursor
      has passed no gap. */
  ghost predicate Has(h: History, have: set<nat>, want: nat -> seq<byte>) {
    && h.accepted.Keys == have
    && (forall u :: u in have ==> h.accepted[u].payload == want(u))
    && (forall u: nat :: u < h.pos ==> u in have)
  }

  /** ... and the cursor stands at the first frame not had. */
  ghost predicate Settled(h: History, have: set<nat>, want: nat -> seq<byte>) {
    Has(h, have, want) && 4 <= h.ring.capacity && if h.ring.primed then h.pos !in have else have == {} && h.pos == 0
  }

  lemma ReadyIffAccepted(h: History)
    requires Conserved(h) && h.ring.primed
    ensures h.ring.Ready() <==> h.pos in h.accepted
  {
    assert h.ring.Ready() <==> h.pos in Unwrap(h.ring, h.pos);
  }

  lemma PollKeeps(h: History, have: set<nat>, want: nat -> seq<byte>)
    requires Has(h, have, want) && h.ring.Ready() && h.pos in h.accepted
    ensures var h' := Step(h, Poll(false));
            Has(h', have, want) && h'.ring.primed && h'.ring.capacity == h.ring.capacity
  {
  }

  lemma {:induction false} DrainSettles(h: History, have: set<nat>, want: nat -> seq<byte>)
    requires Conserved(h) && Has(h, have, want) && h.ring.primed && 4 <= h.ring.capacity
    ensures Settled(Drain(h), have, want) && Drain(h).ring.primed
    decreases |h.ring.frames|
  {
    ReadyIffAccepted(h);
    if h.ring.Ready() {
      DropShrinks(h.ring.frames, h.ring.next);
      PollKeeps(h, have, want);
      StepConserves(h, Poll(false));
      DrainSettles(Step(h, Poll(false)), have, want);
    }
  }

  lemma {:induction false} DrainConserves(h: History)
    requires Conserved(h)
    ensures Conserved(Drain(h))
    decreases |h.ring.frames|
  {
    if h.ring.Ready() {
      DropShrinks(h.ring.frames, h.ring.next);
      StepConserves(h, Poll(false));
      DrainConserves(Step(h, Poll(false)));
    }
  }

  // ---- One arrival -------------------------------------------------------------

  lemma AheadOffset(pos: nat, u: nat)
    requires pos <= u < pos + 0x1_0000_0000
    ensures WrapSub(Wrap(u), Wrap(pos)) == u - pos
  {
  }

  lemma BehindOffset(pos: nat, u: nat)
    requires u < pos <= u + 0x8000_0000
    ensures WrapSub(Wrap(u), Wrap(pos)) >= 0x8000_0000
  {
  }

  /** The cursor and capacity agree with the ring. */
  ghost predicate Aligned(h: History) {
    && 4 <= h.ring.capacity <= 2048
    && (h.ring.primed ==> h.ring.next == Wrap(h.pos))
    && (!h.ring.primed ==> h.accepted == map[])
  }

  lemma ConservedIsAligned(h: History)
    requires Conserved(h) && 4 <= h.ring.capacity
    ensures Aligned(h)
  {
  }

  /** What an arrival near the cursor does: accepted at its own number, or already accepted. */
  lemma ArriveEffect(h: History, u: nat, f: Frame)
    requires Aligned(h) && (h.ring.primed || u == 0) && f.sequence == Wrap(u)
    requires u < h.pos + 4 && h.pos <= u + 0x8000_0000
    ensures var h' := Step(h, Arrive(f));
            && h'.ring.primed && h'.ring.capacity == h.ring.capacity
            && h'.pos == (if h.ring.primed then h.pos else 0)
            && h'.accepted == if h.ring.primed && u < h.pos then h.accepted else h.accepted[u := f]
  {
    if h.ring.primed {
      if u < h.pos {
        BehindOffset(h.pos, u);
      } else {
        AheadOffset(h.pos, u);
      }
    }
  }

  /** Everything before `first` is had, nothing from `first + 4` on, and `u` is in between. */
  ghost predicate Near(have: set<nat>, u: nat, first: nat) {
    && first <= u < first + 4
    && (forall v: nat :: v < first ==> v in have)
    && (forall v :: v in have ==> v < first + 4)
  }

  lemma ArriveAdds(h: History, have: set<nat>, want: nat -> seq<byte>, u: nat, first: nat, f: Frame)
    requires Aligned(h) && Settled(h, have, want) && Near(have, u, first) && (have == {} ==> u == 0)
    requires f.sequence == Wrap(u) && f.payload == want(u)
    ensures var h' := Step(h, Arrive(f));
            Has(h', have + {u}, want) && h'.ring.primed && h'.ring.capacity == h.ring.capacity
  {
    assert h.pos <= first + 4 by {
      assert first + 4 !in have;
    }
    ArriveEffect(h, u, f);
  }

  lemma TakeAdds(h: History, have: set<nat>, want: nat -> seq<byte>, u: nat, first: nat, f: Frame)
    requires Conserved(h) && Settled(h, have, want) && Near(have, u, first) && (have == {} ==> u == 0)
    requires f.sequence == Wrap(u) && f.payload == want(u)
    ensures Settled(Take(h, f), have + {u}, want)
  {
    ConservedIsAligned(h);
    ArriveAdds(h, have, want, u, first, f);
    StepConserves(h, Arrive(f));
    DrainSettles(Step(h, Arrive(f)), have + {u}, want);
  }

  lemma TakeConserves(h: History, f: Frame)
    requires Conserved(h)
    ensures Conserved(Take(h, f))
  {
    StepConserves(h, Arrive(f));
    DrainConserves(Step(h, Arrive(f)));
  }

  // ---- A whole stream ----------------------------------------------------------

  function Elements(us: seq<nat>): set<nat> {
    if us == [] then {} else Elements(us[..|us| - 1]) + {us[|us| - 1]}
  }

  lemma {:induction false} ElementsOf(us: seq<nat>)
    ensures forall u: nat :: u in Elements(us) <==> u in us
  {
    if us != [] {
      ElementsOf(us[..|us| - 1]);
      assert us == us[..|us| - 1] + [us[|us| - 1]];
    }
  }

  /** The first number of the group of four that holds `u`. */
  function GroupStart(u: nat): nat {
    u - u % 4
  }

  /** Arrival order of frame numbers: starting with 0, group by group (groups of four), any
      order and any repetitions inside a group. */
  ghost predicate Paced(us: seq<nat>) {
    && (us != [] ==> us[0] == 0)
    && forall j :: 0 <= j < |us| ==> Near(Elements(us[..j]), us[j], GroupStart(us[j]))
  }

  /** The frames carry these numbers and these payloads. */
  ghost predicate Carry(fs: seq<Frame>, us: seq<nat>, want: nat -> seq<byte>) {
    |fs| == |us| && forall j :: 0 <= j < |us| ==> fs[j].sequence == Wrap(us[j]) && fs[j].payload == want(us[j])
  }

  lemma ElementsNext(us: seq<nat>, j: nat)
    requires j < |us|
    ensures Elements(us[..j + 1]) == Elements(us[..j]) + {us[j]}
    ensures j > 0 ==> us[j - 1] in Elements(us[..j])
  {
    assert us[..j + 1][..j] == us[..j];
  }

  lemma StartSettled(capacity: int, us: seq<nat>, want: nat -> seq<byte>)
    requires IsCapacity(capacity) && 4 <= capacity
    ensures Conserved(Start(capacity)) && Settled(Start(capacity), Elements(us[..0]), want)
  {
    assert Elements(us[..0]) == {};
  }

  lemma TakeStep(h: History, have: set<nat>, more: set<nat>, want: nat -> seq<byte>, u: nat, first: nat, f: Frame)
    requires Conserved(h) && Settled(h, have, want) && Near(have, u, first) && (have == {} ==> u == 0)
    requires f.sequence == Wrap(u) && f.payload == want(u) && more == have + {u}
    ensures Conserved(Take(h, f)) && Settled(Take(h, f), more, want)
  {
    TakeConserves(h, f);
    TakeAdds(h, have, want, u, first, f);
  }

  lemma TakeAll(capacity: int, fs: seq<Frame>, us: seq<nat>, want: nat -> seq<byte>)
    requires IsCapacity(capacity) && 4 <= capacity
    requires Paced(us) && Carry(fs, us, want)
    ensures var h := Fold(Take, Start(capacity), fs);
            Conserved(h) && Settled(h, Elements(us), want)
  {
    var inv := (h: History, j: nat) => j <= |us| && Conserved(h) && Settled(h, Elements(us[..j]), want);
    forall h: History, j: nat | j < |fs| && inv(h, j) ensures inv(Take(h, fs[j]), j + 1) {
      ElementsNext(us, j);
      TakeStep(h, Elements(us[..j]), Elements(us[..j + 1]), want, us[j], GroupStart(us[j]), fs[j]);
    }
    StartSettled(capacity, us, want);
    FoldInvariant(Take, Start(capacity), fs, inv);
    assert us[..|us|] == us;
  }

  /** A settled consumer that has exactly the frames below `n` has delivered just those. */
  lemma SettledDelivers(h: History, have: set<nat>, want: nat -> seq<byte>, n: nat)
    requires Conserved(h) && Settled(h, have, want) && forall u: nat :: u in have <==> u < n
    ensures |h.delivered| == n
    ensures forall i :: 0 <= i < n ==>
              h.delivered[i].frame.sequence == Wrap(i) && h.delivered[i].frame.payload == want(i)
  {
    if h.ring.primed {
      assert n !in have;
      assert h.pos == n;
    } else {
      assert n == 0 by { assert 0 !in have; }
    }
    DeliveredCounts(h.accepted, n, h.delivered);
  }

  /** Every frame below `n` and no other arrives at least once: the consumer gets frames 0 to
      n - 1, each exactly once, in order, with the wanted payloads. */
  lemma PlaysEverything(capacity: int, fs: seq<Frame>, us: seq<nat>, want: nat -> seq<byte>, n: nat)
    requires IsCapacity(capacity) && 4 <= capacity
    requires Paced(us) && Carry(fs, us, want)
    requires forall u: nat :: u in us <==> u < n
    ensures var out := Fold(Take, Start(capacity), fs).delivered;
            |out| == n && forall i :: 0 <= i < n ==>
              out[i].frame.sequence == Wrap(i) && out[i].frame.payload == want(i)
  {
    TakeAll(capacity, fs, us, want);
    ElementsOf(us);
    SettledDelivers(Fold(Take, Start(capacity), fs), Elements(us), want, n);
  }

  lemma {:induction false} PosAtLeast(accepted: map<nat, Frame>, n: nat, delivered: seq<Delivery>, i: nat)
    requires InOrder(accepted, n, delivered) && i < |delivered|
    ensures delivered[i].pos >= i
  {
    if i > 0 {
      PosAtLeast(accepted, n, delivered, i - 1);
    }
  }

  lemma {:induction false} IndexOf(accepted: map<nat, Frame>, n: nat, delivered: seq<Delivery>, u: nat) returns (j: nat)
    requires InOrder(accepted, n, delivered) && u < n && forall v: nat :: v < n ==> v in accepted
    ensures u <= j < |delivered| && delivered[j].pos == u
  {
    assert WasDelivered(delivered, u);
    j :| 0 <= j < |delivered| && delivered[j].pos == u;
    if u > 0 {
      var k := IndexOf(accepted, n, delivered, u - 1);
      assert delivered[k].pos < delivered[j].pos;
    }
  }

  /** Strictly increasing deliveries that cover 0 to n - 1 are 0, 1, ..., n - 1. */
  lemma DeliveredCounts(accepted: map<nat, Frame>, n: nat, delivered: seq<Delivery>)
    requires InOrder(accepted, n, delivered) && forall u: nat :: u < n ==> u in accepted
    ensures |delivered| == n && forall i :: 0 <= i < n ==> delivered[i].pos == i
  {
    if n > 0 {
      var last := IndexOf(accepted, n, delivered, n - 1);
    }
    if |delivered| > 0 {
      PosAtLeast(accepted, n, delivered, |delivered| - 1);
    }
    forall i | 0 <= i < n ensures delivered[i].pos == i {
      PosAtLeast(accepted, n, delivered, i);
      var j := IndexOf(accepted, n, delivered, i);
    }
  }
}

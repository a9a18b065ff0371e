/**
 Whole runs of the jitter buffer when the consumer uses only `pop_with_deadline`.

 Sequence numbers are unwrapped: `pos` is the cursor as an ordinary number, and an accepted
 frame gets the number of the window place it was accepted into. Nothing accepted is lost,
 everything is delivered at most once and in increasing order, and each expired deadline
 moves the cursor, which bounds the wait of every buffered frame.
 */
module JitterRuns {
  import opened Words
  import opened Jitter

  datatype Op =
    | Arrive(frame: Frame)
    | Poll(expired: bool)

  datatype Delivery = Delivery(pos: nat, frame: Frame)

  datatype History = History(
    ring: Ring,
    pos: nat,
    accepted: map<nat, Frame>,
    delivered: seq<Delivery>)

  /** The wrapped counter value of an unwrapped number. */
  function Wrap(u: nat): u32 {
    u % 0x1_0000_0000
  }

  function Start(capacity: int): History {
    History(EmptyRing(capacity), 0, map[], [])
  }

  /** The unwrapped number of the window place that sequence `s` falls into. */
  function Place(h: History, s: u32): nat {
    if h.ring.primed then h.pos + WrapSub(s, h.ring.next) else s
  }

  function Step(h: History, op: Op): History {
    match op
    case Arrive(f) =>
      if !h.ring.Accepts(f.sequence) then h
      else h.(ring := h.ring.Push(f),
              pos := if h.ring.primed then h.pos else f.sequence,
              accepted := h.accepted[Place(h, f.sequence) := f])
    case Poll(expired) =>
      var moved := h.ring.Ready() || (h.ring.primed && expired);
      h.(ring := h.ring.PopWithDeadline(expired),
         pos := if moved then h.pos + 1 else h.pos,
         delivered := if h.ring.Ready() then h.delivered + [Delivery(h.pos, h.ring.frames[h.ring.next])]
                      else h.delivered)
  }

  function Run(h: History, ops: seq<Op>): History {
    if ops == [] then h else Step(Run(h, ops[..|ops| - 1]), ops[|ops| - 1])
  }

  // ---- The ring under unwrapped numbers ----------------------------------------

  /** The buffered frames, keyed by unwrapped number. */
  ghost function Unwrap(r: Ring, pos: nat): map<nat, Frame> {
    map u: nat | pos <= u < pos + r.capacity && Wrap(u) in r.frames :: r.frames[Wrap(u)]
  }

  lemma PlaceWraps(pos: nat, s: u32)
    ensures Wrap(pos + WrapSub(s, Wrap(pos))) == s
  {
  }

  lemma WrapPlaces(pos: nat, u: nat)
    requires pos <= u < pos + 0x1_0000_0000
    ensures pos + WrapSub(Wrap(u), Wrap(pos)) == u
  {
  }

  lemma NextWraps(pos: nat)
    ensures Wrap(pos + 1) == WrapAdd(Wrap(pos), 1)
  {
  }

  lemma FirstPlace(s: u32, u: nat)
    requires s <= u < s + 0x1_0000_0000
    ensures Wrap(u) == s <==> u == s
  {
  }

  lemma UnwrapFirst(r: Ring, f: Frame)
    requires 0 < r.capacity <= 2048 && r.frames == map[f.sequence := f]
    ensures Unwrap(r, f.sequence) == map[f.sequence as nat := f]
  {
    forall u: nat | f.sequence <= u < f.sequence + r.capacity ensures Wrap(u) in r.frames <==> u == f.sequence {
      FirstPlace(f.sequence, u);
    }
  }

  /** Accepting a frame adds it at its window place. */
  lemma UnwrapPush(r: Ring, pos: nat, f: Frame, p: nat)
    requires r.WellFormed() && r.primed && r.next == Wrap(pos) && r.InWindow(f.sequence)
    requires p == pos + WrapSub(f.sequence, r.next)
    ensures Unwrap(r.Push(f), pos) == Unwrap(r, pos)[p := f]
  {
    PlaceWraps(pos, f.sequence);
    forall u: nat | pos <= u < pos + r.capacity ensures Wrap(u) == f.sequence <==> u == p {
      WrapPlaces(pos, u);
    }
  }

  /** Moving the cursor removes the frame at the cursor and no other. */
  lemma UnwrapPoll(r: Ring, pos: nat, expired: bool)
    requires r.WellFormed() && r.primed && r.next == Wrap(pos) && (r.Ready() || expired)
    ensures var r' := r.PopWithDeadline(expired);
            r'.primed && r'.next == Wrap(pos + 1) && Unwrap(r', pos + 1) == Unwrap(r, pos) - {pos}
  {
    PollDropsNext(r, expired);
    NextWraps(pos);
    UnwrapDrop(r, r.PopWithDeadline(expired), pos);
  }

  lemma UnwrapDrop(r: Ring, r': Ring, pos: nat)
    requires 0 < r.capacity <= 2048 && r.next == Wrap(pos)
    requires forall s :: s in r.frames ==> r.InWindow(s)
    requires r'.capacity == r.capacity && r'.frames == r.frames - {r.next}
    ensures Unwrap(r', pos + 1) == Unwrap(r, pos) - {pos}
  {
    forall u: nat | pos <= u <= pos + r.capacity
      ensures (Wrap(u) == r.next <==> u == pos) && (Wrap(u) in r.frames ==> u < pos + r.capacity)
    {
      WrapPlaces(pos, u);
    }
  }

  lemma PollDropsNext(r: Ring, expired: bool)
    requires r.WellFormed() && r.primed && (r.Ready() || expired)
    ensures var r' := r.PopWithDeadline(expired);
            r' == r.(next := WrapAdd(r.next, 1), frames := r.frames - {r.next})
  {
    forall s | s in r.frames ensures WrapSub(s, r.next) >= 1 <==> s != r.next {
      OnlyNextAtZero(s, r.next);
    }
  }

  // ---- The invariant -----------------------------------------------------------

  ghost predicate Tracks(h: History) {
    && h.ring.WellFormed()
    && (h.ring.primed ==> h.ring.next == Wrap(h.pos))
    && (!h.ring.primed ==> h.accepted == map[] && h.delivered == [])
  }

  /** What is accepted and not yet passed by the cursor is exactly what the ring holds. */
  ghost predicate Buffered(accepted: map<nat, Frame>, pos: nat, held: map<nat, Frame>) {
    && (forall u :: u in held ==> u in accepted && accepted[u] == held[u])
    && (forall u :: u in accepted && pos <= u ==> u in held)
  }

  ghost predicate WasDelivered(d: seq<Delivery>, u: nat) {
    exists i :: 0 <= i < |d| && d[i].pos == u
  }

  /** Deliveries are the accepted frames behind the cursor, once each, in increasing order. */
  ghost predicate InOrder(accepted: map<nat, Frame>, pos: nat, delivered: seq<Delivery>) {
    && (forall i :: 0 <= i < |delivered| ==>
          && delivered[i].pos < pos
          && delivered[i].pos in accepted
          && delivered[i].frame == accepted[delivered[i].pos])
    && (forall i, j :: 0 <= i < j < |delivered| ==> delivered[i].pos < delivered[j].pos)
    && (forall u :: u in accepted && u < pos ==> WasDelivered(delivered, u))
  }

  /** An accepted frame carries the wrapped form of its number. */
  ghost predicate Numbered(accepted: map<nat, Frame>) {
    forall u :: u in accepted ==> accepted[u].sequence == Wrap(u)
  }

  ghost predicate Conserved(h: History) {
    && Tracks(h)
    && Numbered(h.accepted)
    && Buffered(h.accepted, h.pos, Unwrap(h.ring, h.pos))
    && InOrder(h.accepted, h.pos, h.delivered)
  }

  // ---- Every step keeps it -----------------------------------------------------

  lemma AcceptKeepsOrder(accepted: map<nat, Frame>, pos: nat, delivered: seq<Delivery>, p: nat, f: Frame)
    requires InOrder(accepted, pos, delivered) && p >= pos
    ensures InOrder(accepted[p := f], pos, delivered)
  {
  }

  lemma AcceptKeepsBuffered(accepted: map<nat, Frame>, pos: nat, held: map<nat, Frame>, p: nat, f: Frame)
    requires Buffered(accepted, pos, held) && Numbered(accepted) && f.sequence == Wrap(p)
    ensures Buffered(accepted[p := f], pos, held[p := f]) && Numbered(accepted[p := f])
  {
  }

  lemma FirstConserves(h: History, f: Frame)
    requires Conserved(h) && !h.ring.primed
    ensures Conserved(Step(h, Arrive(f)))
  {
    PushKeepsWindow(h.ring, f);
    UnwrapFirst(h.ring.Push(f), f);
  }

  /** What an accepted frame does to the history, in unwrapped terms. */
  lemma AcceptEffect(h: History, f: Frame, p: nat)
    requires Tracks(h) && h.ring.primed && h.ring.Accepts(f.sequence) && p == Place(h, f.sequence)
    ensures p >= h.pos && f.sequence == Wrap(p)
    ensures var h' := Step(h, Arrive(f));
            && Tracks(h') && h'.pos == h.pos && h'.accepted == h.accepted[p := f] && h'.delivered == h.delivered
            && Unwrap(h'.ring, h'.pos) == Unwrap(h.ring, h.pos)[p := f]
  {
    PushKeepsWindow(h.ring, f);
    PlaceWraps(h.pos, f.sequence);
    UnwrapPush(h.ring, h.pos, f, p);
  }

  lemma AcceptConserves(h: History, f: Frame)
    requires Conserved(h) && h.ring.primed && h.ring.Accepts(f.sequence)
    ensures Conserved(Step(h, Arrive(f)))
  {
    var p := Place(h, f.sequence);
    AcceptEffect(h, f, p);
    AcceptKeepsBuffered(h.accepted, h.pos, Unwrap(h.ring, h.pos), p, f);
    AcceptKeepsOrder(h.accepted, h.pos, h.delivered, p, f);
  }

  lemma DeliveryKeepsOrder(accepted: map<nat, Frame>, pos: nat, delivered: seq<Delivery>)
    requires InOrder(accepted, pos, delivered)
    ensures pos in accepted ==> InOrder(accepted, pos + 1, delivered + [Delivery(pos, accepted[pos])])
    ensures pos !in accepted ==> InOrder(accepted, pos + 1, delivered)
  {
    if pos in accepted {
      var after := delivered + [Delivery(pos, accepted[pos])];
      forall u | u in accepted && u < pos + 1 ensures WasDelivered(after, u) {
        if u < pos {
          var i :| 0 <= i < |delivered| && delivered[i].pos == u;
          assert after[i].pos == u;
        } else {
          assert after[|delivered|].pos == u;
        }
      }
    }
  }

  lemma PollKeepsBuffered(accepted: map<nat, Frame>, pos: nat, held: map<nat, Frame>)
    requires Buffered(accepted, pos, held) && forall u :: u in held ==> pos <= u
    ensures Buffered(accepted, pos + 1, held - {pos})
    ensures pos in held <==> pos in accepted
    ensures pos in held ==> held[pos] == accepted[pos]
  {
  }

  /** What a poll that moves the cursor does to the history, in unwrapped terms. */
  lemma PollEffect(h: History, expired: bool)
    requires Tracks(h) && h.ring.primed && (h.ring.Ready() || expired)
    ensures var h', held := Step(h, Poll(expired)), Unwrap(h.ring, h.pos);
            && Tracks(h') && h'.pos == h.pos + 1 && h'.accepted == h.accepted
            && Unwrap(h'.ring, h'.pos) == held - {h.pos}
            && h'.delivered == if h.pos in held then h.delivered + [Delivery(h.pos, held[h.pos])] else h.delivered
  {
    PopKeepsWindow(h.ring);
    SkipKeepsWindow(h.ring, 1);
    UnwrapPoll(h.ring, h.pos, expired);
  }

  lemma PollConserves(h: History, expired: bool)
    requires Conserved(h) && h.ring.primed && (h.ring.Ready() || expired)
    ensures Conserved(Step(h, Poll(expired)))
  {
    PollEffect(h, expired);
    PollKeepsBuffered(h.accepted, h.pos, Unwrap(h.ring, h.pos));
    DeliveryKeepsOrder(h.accepted, h.pos, h.delivered);
  }

  lemma StepConserves(h: History, op: Op)
    requires Conserved(h)
    ensures Conserved(Step(h, op))
  {
    match op
    case Arrive(f) =>
      if !h.ring.primed {
        FirstConserves(h, f);
      } else if h.ring.Accepts(f.sequence) {
        AcceptConserves(h, f);
      }
    case Poll(expired) =>
      if h.ring.Ready() || (h.ring.primed && expired) {
        PollConserves(h, expired);
      } else {
        assert h.ring.PopWithDeadline(expired) == h.ring;
        assert Step(h, op) == h;
      }
  }

  // ---- Progress ----------------------------------------------------------------

  function ExpiredPolls(ops: seq<Op>): nat {
    if ops == [] then 0
    else ExpiredPolls(ops[..|ops| - 1]) + if ops[|ops| - 1] == Poll(true) then 1 else 0
  }

  lemma StepAdvances(h: History, op: Op)
    requires h.ring.primed
    ensures var h' := Step(h, op);
            && h'.ring.primed
            && h'.pos >= h.pos + (if op == Poll(true) then 1 else 0)
            && h.accepted.Keys <= h'.accepted.Keys
  {
  }

  lemma {:induction false} CursorAdvances(h: History, ops: seq<Op>)
    requires h.ring.primed
    ensures var h' := Run(h, ops);
            && h'.ring.primed
            && h'.pos >= h.pos + ExpiredPolls(ops)
            && h.accepted.Keys <= h'.accepted.Keys
  {
    if ops != [] {
      var k := |ops| - 1;
      CursorAdvances(h, ops[..k]);
      StepAdvances(Run(h, ops[..k]), ops[k]);
    }
  }

  lemma {:induction false} ContinuationConserves(h: History, ops: seq<Op>)
    requires Conserved(h)
    ensures Conserved(Run(h, ops))
  {
    if ops != [] {
      var k := |ops| - 1;
      ContinuationConserves(h, ops[..k]);
      StepConserves(Run(h, ops[..k]), ops[k]);
    }
  }

  /** A frame buffered `k` past the cursor is delivered in any continuation that contains
      `k + 1` expired polls, whatever else arrives or is polled in between. */
  lemma DeliveredWithinDeadlines(h: History, ops: seq<Op>, k: nat)
    requires Conserved(h) && h.ring.primed && h.pos + k in h.accepted
    requires ExpiredPolls(ops) >= k + 1
    ensures WasDelivered(Run(h, ops).delivered, h.pos + k)
  {
    CursorAdvances(h, ops);
    ContinuationConserves(h, ops);
  }

  /** Every frame that arrives for a number from the cursor up to the capacity beyond it is kept: in
      any continuation that number is delivered, or still held. */
  lemma ArrivalInWindowKept(h: History, u: nat, f: Frame, ops: seq<Op>)
    requires Conserved(h) && h.ring.primed && h.pos <= u < h.pos + h.ring.capacity && f.sequence == Wrap(u)
    ensures var h1 := Step(h, Arrive(f));
            u in h1.accepted && h1.accepted[u] == f
    ensures var h' := Run(Step(h, Arrive(f)), ops);
            WasDelivered(h'.delivered, u) || u in Unwrap(h'.ring, h'.pos)
  {
    AcceptedAt(h, u, f);
    StepConserves(h, Arrive(f));
    AcceptedIsKept(Step(h, Arrive(f)), u, ops);
  }

  lemma AcceptedAt(h: History, u: nat, f: Frame)
    requires Tracks(h) && h.ring.primed && h.pos <= u < h.pos + h.ring.capacity && f.sequence == Wrap(u)
    ensures var h' := Step(h, Arrive(f));
            h'.ring.primed && u in h'.accepted && h'.accepted[u] == f
  {
    WrapPlaces(h.pos, u);
  }

  lemma AcceptedIsKept(h: History, u: nat, ops: seq<Op>)
    requires Conserved(h) && h.ring.primed && u in h.accepted
    ensures var h' := Run(h, ops);
            WasDelivered(h'.delivered, u) || u in Unwrap(h'.ring, h'.pos)
  {
    ContinuationConserves(h, ops);
    CursorAdvances(h, ops);
  }

  /** Conservation over every run: no accepted frame is discarded, each is delivered exactly
      once with the frame last accepted for it, and deliveries advance strictly. */
  lemma RunConserves(capacity: int, ops: seq<Op>)
    requires IsCapacity(capacity)
    ensures var h := Run(Start(capacity), ops);
            && Conserved(h)
            && (forall u :: u in h.accepted ==> WasDelivered(h.delivered, u) || u in Unwrap(h.ring, h.pos))
  {
    ContinuationConserves(Start(capacity), ops);
  }

  // ---- Counting skips ----------------------------------------------------------

  /** For each delivery, how many polls before it and since the previous one expired with nothing
      to return; `open` counts those since the last delivery. */
  datatype Log = Log(gaps: seq<nat>, open: nat)

  function LogStep(log: Log, h: History, op: Op): Log {
    match op
    case Arrive(_) => log
    case Poll(expired) =>
      if h.ring.Ready() then Log(log.gaps + [log.open], 0)
      else if h.ring.primed && expired then log.(open := log.open + 1)
      else log
  }

  function LogOf(h: History, ops: seq<Op>): Log {
    if ops == [] then Log([], 0)
    else
      var n := |ops| - 1;
      LogStep(LogOf(h, ops[..n]), Run(h, ops[..n]), ops[n])
  }

  /** The numbers a delivery skips are the polls that expired before it. */
  ghost predicate GapsAreSkips(log: Log, pos: nat, ds: seq<Delivery>) {
    && |log.gaps| == |ds|
    && (forall i :: 0 < i < |ds| ==> ds[i].pos == ds[i - 1].pos + 1 + log.gaps[i])
    && (ds != [] ==> pos == ds[|ds| - 1].pos + 1 + log.open)
  }

  lemma StepLogs(log: Log, h: History, op: Op)
    requires Tracks(h) && GapsAreSkips(log, h.pos, h.delivered)
    ensures var h' := Step(h, op); GapsAreSkips(LogStep(log, h, op), h'.pos, h'.delivered)
  {
  }

  lemma {:induction false} RunLogs(capacity: int, ops: seq<Op>)
    requires IsCapacity(capacity)
    ensures var h := Run(Start(capacity), ops);
            GapsAreSkips(LogOf(Start(capacity), ops), h.pos, h.delivered)
  {
    if ops != [] {
      var n := |ops| - 1;
      RunLogs(capacity, ops[..n]);
      RunConserves(capacity, ops[..n]);
      StepLogs(LogOf(Start(capacity), ops[..n]), Run(Start(capacity), ops[..n]), ops[n]);
    }
  }

  // ---- Nothing comes from nowhere ----------------------------------------------

  ghost predicate AllArrived(frames: map<nat, Frame>, ops: seq<Op>) {
    forall u :: u in frames ==> Arrive(frames[u]) in ops
  }

  lemma {:induction false} AcceptedArrived(h: History, ops: seq<Op>)
    requires h.accepted == map[]
    ensures AllArrived(Run(h, ops).accepted, ops)
  {
    if ops != [] {
      var n := |ops| - 1;
      AcceptedArrived(h, ops[..n]);
      assert ops == ops[..n] + [ops[n]];
    }
  }

  /** Over every run, each delivered frame is one that arrived. */
  lemma DeliveredArrived(capacity: int, ops: seq<Op>, i: nat)
    requires IsCapacity(capacity) && i < |Run(Start(capacity), ops).delivered|
    ensures Arrive(Run(Start(capacity), ops).delivered[i].frame) in ops
  {
    RunConserves(capacity, ops);
    AcceptedArrived(Start(capacity), ops);
  }
}

/**
 Packet-loss concealment: `recv_samples` turns the delivered frames into a gapless stream of
 sample blocks by putting silence where sequence numbers are missing.

 The decoder is foreign code, so an arrival carries what the decoder makes of it: a block of
 samples, or a refusal. `Rendered` says what the whole stream is for a list of arrivals, and
 `Ideal` says what it ought to be when frames carry their unwrapped numbers.
 */
module Concealment {
  import opened Words
  import opened JitterRuns

  type Block = seq<int>

  /** What the session hands over: a frame with the decoder's verdict, or a transport error. */
  datatype Arrival =
    | Received(sequence: u32, decoded: Option<Block>)
    | Broken

  datatype Error = TransportFailed | DecodeFailed

  type Item = Result<Block, Error>

  /** `u32::MAX` in `last_rx_seq` stands for "nothing received yet". */
  const NONE_YET: u32 := 0xFFFF_FFFF

  const MAX_SILENCE: int := 4

  function Silence(samples: nat): Block {
    seq(samples, _ => 0)
  }

  function Copies(b: Block, n: nat): (s: seq<Block>)
    ensures |s| == n
  {
    if n == 0 then [] else Copies(b, n - 1) + [b]
  }

  function Min(a: int, b: int): int {
    if a <= b then a else b
  }

  /** The gap the receiver computes: `wrapping_sub` then `saturating_sub(1)`. */
  function Gap(last: u32, sequence: u32): nat {
    if last == NONE_YET then 0
    else if WrapSub(sequence, last) == 0 then 0
    else WrapSub(sequence, last) - 1
  }

  function Oks(blocks: seq<Block>): (r: seq<Item>)
    ensures |r| == |blocks|
    ensures forall i :: 0 <= i < |r| ==> r[i] == Item.Ok(blocks[i])
  {
    seq(|blocks|, i requires 0 <= i < |blocks| => Result.Ok(blocks[i]))
  }

  // ---- The stream the caller sees ----------------------------------------------

  /** `last_rx_seq` once these arrivals have been taken. */
  function LastSequence(net: seq<Arrival>): u32 {
    if net == [] then NONE_YET
    else match net[|net| - 1]
         case Received(s, _) => s
         case Broken => LastSequence(net[..|net| - 1])
  }

  /** What one arrival adds to the stream. */
  function Piece(samples: nat, last: u32, a: Arrival): seq<Item> {
    match a
    case Broken => [Result.Err(TransportFailed)]
    case Received(_, None) => [Result.Err(DecodeFailed)]
    case Received(s, Some(pcm)) => Oks(Copies(Silence(samples), Min(Gap(last, s), MAX_SILENCE)) + [pcm])
  }

  function Rendered(samples: nat, net: seq<Arrival>): seq<Item> {
    if net == [] then []
    else
      var before := net[..|net| - 1];
      Rendered(samples, before) + Piece(samples, LastSequence(before), net[|net| - 1])
  }

  lemma {:induction false} CopiesAre(b: Block, n: nat)
    ensures forall i :: 0 <= i < n ==> Copies(b, n)[i] == b
  {
    if n > 0 {
      CopiesAre(b, n - 1);
    }
  }

  /** After frame `last`, unless it is numbered u32::MAX, a decodable frame that skips `d` numbers adds
      itself behind min(d, 4) blocks of zeros of the configured length. */
  lemma GapFillsWithZeros(samples: nat, last: u32, d: nat, pcm: Block)
    requires last != 0xFFFF_FFFF && d < 0xFFFF_FFFF
    ensures var piece := Piece(samples, last, Received((last + 1 + d) % 0x1_0000_0000, Some(pcm)));
            && |piece| == (if d < 4 then d else 4) + 1
            && (forall i :: 0 <= i < |piece| - 1 ==>
                  piece[i].Ok? && |piece[i].value| == samples && forall k :: 0 <= k < samples ==> piece[i].value[k] == 0)
            && piece[|piece| - 1] == Item.Ok(pcm)
  {
    GapOf(last, d);
    CopiesAre(Silence(samples), if d < 4 then d else 4);
  }

  lemma GapOf(last: u32, d: nat)
    requires last != 0xFFFF_FFFF && d < 0xFFFF_FFFF
    ensures Gap(last, (last + 1 + d) % 0x1_0000_0000) == d
  {
  }

  // ---- recv_samples ------------------------------------------------------------

  /** What one call leaves behind and returns. */
  datatype Turn = Turn(lastSequence: u32, queue: seq<Block>, result: Item)

  /** The network is asked only when the queue is empty; `net` is what it answers then. */
  function Recv(samples: nat, last: u32, queue: seq<Block>, net: Arrival): Turn {
    if queue != [] then Turn(last, queue[1..], Result.Ok(queue[0]))
    else match net
         case Broken => Turn(last, [], Result.Err(TransportFailed))
         case Received(s, None) => Turn(s, [], Result.Err(DecodeFailed))
         case Received(s, Some(pcm)) =>
           var blocks := Copies(Silence(samples), Min(Gap(last, s), MAX_SILENCE)) + [pcm];
           Turn(s, blocks[1..], Result.Ok(blocks[0]))
  }

  class CodecReceiver {
    const samples: nat
    var lastSequence: u32
    var queue: seq<Block>

    constructor (samples: nat)
      ensures this.samples == samples && lastSequence == NONE_YET && queue == []
    {
      this.samples := samples;
      lastSequence := NONE_YET;
      queue := [];
    }

    method RecvSamples(net: Arrival) returns (r: Item)
      modifies this
      ensures Turn(lastSequence, queue, r) == Recv(samples, old(lastSequence), old(queue), net)
    {
      if queue != [] {
        var pcm := queue[0];
        queue := queue[1..];
        return Result.Ok(pcm);
      }
      if net.Broken? {
        return Result.Err(TransportFailed);
      }
      var gap := Gap(lastSequence, net.sequence);
      lastSequence := net.sequence;
      if net.decoded.None? {
        return Result.Err(DecodeFailed);
      }
      var pcm := net.decoded.value;
      if gap == 0 {
        return Result.Ok(pcm);
      }
      var silenceCount := Min(gap, MAX_SILENCE);
      for i := 0 to silenceCount
        invariant queue == Copies(Silence(samples), i)
        invariant lastSequence == net.sequence
      {
        queue := queue + [Silence(samples)];
      }
      queue := queue + [pcm];
      r := Result.Ok(queue[0]);
      queue := queue[1..];
    }
  }

  // ---- Any number of calls -----------------------------------------------------

  /** A receiver part-way through a list of arrivals, with everything it returned so far. */
  datatype Progress = Progress(lastSequence: u32, queue: seq<Block>, taken: nat, out: seq<Item>)

  /** One call. With an empty queue and no arrival left the call is still waiting. */
  function Call(samples: nat, net: seq<Arrival>, p: Progress): Progress {
    if p.queue == [] && p.taken >= |net| then p
    else
      var t := Recv(samples, p.lastSequence, p.queue, if p.queue == [] then net[p.taken] else Broken);
      Progress(t.lastSequence, t.queue, if p.queue == [] then p.taken + 1 else p.taken, p.out + [t.result])
  }

  function Calls(samples: nat, net: seq<Arrival>, n: nat): Progress {
    if n == 0 then Progress(NONE_YET, [], 0, []) else Call(samples, net, Calls(samples, net, n - 1))
  }

  predicate OnTrack(samples: nat, net: seq<Arrival>, p: Progress, n: nat) {
    && p.taken <= |net|
    && p.lastSequence == LastSequence(net[..p.taken])
    && |p.queue| <= MAX_SILENCE
    && p.out + Oks(p.queue) == Rendered(samples, net[..p.taken])
    && (|p.out| == n || (|p.out| < n && p.queue == [] && p.taken == |net|))
  }

  lemma OksSplit(blocks: seq<Block>)
    requires blocks != []
    ensures Oks(blocks) == [Item.Ok(blocks[0])] + Oks(blocks[1..])
  {
  }

  lemma TakeOne(samples: nat, net: seq<Arrival>, k: nat)
    requires k < |net|
    ensures Rendered(samples, net[..k + 1])
            == Rendered(samples, net[..k]) + Piece(samples, LastSequence(net[..k]), net[k])
    ensures LastSequence(net[..k + 1]) == if net[k].Received? then net[k].sequence else LastSequence(net[..k])
  {
    assert net[..k + 1][..k] == net[..k];
  }

  /** A call hands out the front of what is queued, or the front of what the arrival adds, and
      keeps the rest. */
  lemma RecvSplits(samples: nat, last: u32, queue: seq<Block>, net: Arrival)
    ensures var t := Recv(samples, last, queue, net);
            && [t.result] + Oks(t.queue) == (if queue != [] then Oks(queue) else Piece(samples, last, net))
            && (|queue| <= MAX_SILENCE ==> |t.queue| <= MAX_SILENCE)
            && t.lastSequence == (if queue == [] && net.Received? then net.sequence else last)
  {
    if queue != [] {
      OksSplit(queue);
    } else if net.Received? && net.decoded.Some? {
      OksSplit(Copies(Silence(samples), Min(Gap(last, net.sequence), MAX_SILENCE)) + [net.decoded.value]);
    }
  }

  lemma MoveOne<T>(out: seq<T>, front: T, rest: seq<T>, piece: seq<T>)
    requires [front] + rest == piece
    ensures (out + [front]) + rest == out + piece
  {
  }

  lemma PopStaysOnTrack(samples: nat, net: seq<Arrival>, p: Progress, n: nat)
    requires OnTrack(samples, net, p, n) && p.queue != []
    ensures OnTrack(samples, net, Call(samples, net, p), n + 1)
  {
    var t := Recv(samples, p.lastSequence, p.queue, Broken);
    RecvSplits(samples, p.lastSequence, p.queue, Broken);
    MoveOne(p.out, t.result, Oks(t.queue), Oks(p.queue));
  }

  lemma TakeStaysOnTrack(samples: nat, net: seq<Arrival>, p: Progress, n: nat)
    requires OnTrack(samples, net, p, n) && p.queue == [] && p.taken < |net|
    ensures OnTrack(samples, net, Call(samples, net, p), n + 1)
  {
    var t := Recv(samples, p.lastSequence, p.queue, net[p.taken]);
    assert p.out + Oks(p.queue) == p.out;
    RecvSplits(samples, p.lastSequence, p.queue, net[p.taken]);
    TakeOne(samples, net, p.taken);
    MoveOne(p.out, t.result, Oks(t.queue), Piece(samples, p.lastSequence, net[p.taken]));
  }

  lemma CallStaysOnTrack(samples: nat, net: seq<Arrival>, p: Progress, n: nat)
    requires OnTrack(samples, net, p, n)
    ensures OnTrack(samples, net, Call(samples, net, p), n + 1)
  {
    if p.queue != [] {
      PopStaysOnTrack(samples, net, p, n);
    } else if p.taken < |net| {
      TakeStaysOnTrack(samples, net, p, n);
    }
  }

  lemma {:induction false} CallsStayOnTrack(samples: nat, net: seq<Arrival>, n: nat)
    ensures OnTrack(samples, net, Calls(samples, net, n), n)
  {
    if n > 0 {
      CallsStayOnTrack(samples, net, n - 1);
      CallStaysOnTrack(samples, net, Calls(samples, net, n - 1), n - 1);
    }
  }

  lemma {:induction false} RenderedPrefix(samples: nat, net: seq<Arrival>, k: nat)
    requires k <= |net|
    ensures Rendered(samples, net[..k]) <= Rendered(samples, net)
  {
    if k == |net| {
      assert net[..k] == net;
    } else {
      var n := |net| - 1;
      RenderedPrefix(samples, net[..n], k);
      assert net[..n][..k] == net[..k];
    }
  }

  /** The first `n` results are the first `n` items of the stream, for every list of arrivals
      and every `n`, and never more than four blocks wait in the queue. */
  lemma CallsReturnTheStream(samples: nat, net: seq<Arrival>, n: nat)
    ensures var p, stream := Calls(samples, net, n), Rendered(samples, net);
            && p.out == stream[..if n <= |stream| then n else |stream|]
            && |p.queue| <= MAX_SILENCE
  {
    CallsStayOnTrack(samples, net, n);
    var p := Calls(samples, net, n);
    RenderedPrefix(samples, net, p.taken);
    if p.taken == |net| && p.queue == [] {
      assert net[..p.taken] == net;
      assert p.out + Oks(p.queue) == p.out;
    }
  }

  // ---- What the stream ought to be ---------------------------------------------

  /** A frame with its unwrapped number and what the decoder makes of it. */
  datatype NumberedFrame = NumberedFrame(u: nat, decoded: Option<Block>)

  /** Numbers increase, each by less than one whole turn of the 32-bit counter. */
  predicate Increasing(fs: seq<NumberedFrame>) {
    forall i :: 0 <= i < |fs| - 1 ==> fs[i].u < fs[i + 1].u < fs[i].u + 0x1_0000_0000
  }

  function Arriving(fs: seq<NumberedFrame>): (net: seq<Arrival>)
    ensures |net| == |fs|
    ensures forall i :: 0 <= i < |fs| ==> net[i] == Received(Wrap(fs[i].u), fs[i].decoded)
  {
    seq(|fs|, i requires 0 <= i < |fs| => Received(Wrap(fs[i].u), fs[i].decoded))
  }

  /** Numbers skipped just before frame `i`. */
  function SkippedBefore(fs: seq<NumberedFrame>, i: nat): nat
    requires Increasing(fs) && 0 < i < |fs|
  {
    fs[i].u - fs[i - 1].u - 1
  }

  /** Numbers skipped just before the last frame. */
  function Missing(fs: seq<NumberedFrame>): nat
    requires Increasing(fs) && fs != []
  {
    if |fs| == 1 then 0 else SkippedBefore(fs, |fs| - 1)
  }

  function IdealPiece(samples: nat, fs: seq<NumberedFrame>): seq<Item>
    requires Increasing(fs) && fs != []
  {
    match fs[|fs| - 1].decoded
    case None => [Result.Err(DecodeFailed)]
    case Some(pcm) => Oks(Copies(Silence(samples), Min(Missing(fs), MAX_SILENCE)) + [pcm])
  }

  /** Each frame in turn, after one silent block per number skipped before it, up to four. */
  function Ideal(samples: nat, fs: seq<NumberedFrame>): seq<Item>
    requires Increasing(fs)
  {
    if fs == [] then [] else Ideal(samples, fs[..|fs| - 1]) + IdealPiece(samples, fs)
  }

  /** Frame `i` is decodable and follows a gap that starts right after number u32::MAX. */
  predicate HiddenGap(fs: seq<NumberedFrame>, i: int)
    requires 0 < i < |fs|
  {
    Wrap(fs[i - 1].u) == NONE_YET && fs[i].u != fs[i - 1].u + 1 && fs[i].decoded.Some?
  }

  predicate NoHiddenGap(fs: seq<NumberedFrame>) {
    forall i :: 0 < i < |fs| ==> !HiddenGap(fs, i)
  }

  lemma GapIsMissing(a: nat, b: nat)
    requires a < b < a + 0x1_0000_0000
    ensures Gap(Wrap(a), Wrap(b)) == if Wrap(a) == NONE_YET then 0 else b - a - 1
  {
    WrapPlaces(a, b);
  }

  lemma LastArriving(fs: seq<NumberedFrame>)
    ensures LastSequence(Arriving(fs)) == if fs == [] then NONE_YET else Wrap(fs[|fs| - 1].u)
    ensures fs != [] ==> Arriving(fs)[..|fs| - 1] == Arriving(fs[..|fs| - 1])
  {
  }

  lemma HiddenEarlier(fs: seq<NumberedFrame>)
    requires |fs| >= 1
    ensures NoHiddenGap(fs) <==> NoHiddenGap(fs[..|fs| - 1]) && (|fs| >= 2 ==> !HiddenGap(fs, |fs| - 1))
  {
    var n := |fs| - 1;
    var before := fs[..n];
    forall i | 0 < i < n ensures HiddenGap(fs, i) == HiddenGap(before, i) {
    }
  }

  lemma LastRendered(samples: nat, fs: seq<NumberedFrame>)
    requires fs != []
    ensures var n := |fs| - 1;
            Rendered(samples, Arriving(fs))
            == Rendered(samples, Arriving(fs[..n]))
               + Piece(samples, LastSequence(Arriving(fs[..n])), Received(Wrap(fs[n].u), fs[n].decoded))
  {
    LastArriving(fs);
  }

  lemma LastGap(fs: seq<NumberedFrame>)
    requires Increasing(fs) && fs != []
    ensures var n := |fs| - 1;
            var gap := Gap(LastSequence(Arriving(fs[..n])), Wrap(fs[n].u));
            && gap <= Missing(fs)
            && (fs[n].decoded.Some? ==> (gap == Missing(fs) <==> n == 0 || !HiddenGap(fs, n)))
            && (gap != Missing(fs) ==> gap == 0)
            && (fs[n].decoded.None? ==> n == 0 || !HiddenGap(fs, n))
  {
    var n := |fs| - 1;
    LastArriving(fs[..n]);
    if n > 0 {
      GapIsMissing(fs[n - 1].u, fs[n].u);
    }
  }

  /** The piece of the last frame is never longer than it ought to be, and is as it ought to
      be exactly when its gap is not hidden. */
  lemma LastPiece(samples: nat, fs: seq<NumberedFrame>)
    requires Increasing(fs) && fs != []
    ensures var n := |fs| - 1;
            var last := LastSequence(Arriving(fs[..n]));
            var piece := Piece(samples, last, Received(Wrap(fs[n].u), fs[n].decoded));
            if n > 0 && HiddenGap(fs, n) then |piece| < |IdealPiece(samples, fs)|
            else piece == IdealPiece(samples, fs)
  {
    LastGap(fs);
  }

  lemma {:induction false} StreamLength(samples: nat, fs: seq<NumberedFrame>)
    requires Increasing(fs)
    ensures |Rendered(samples, Arriving(fs))| <= |Ideal(samples, fs)|
    ensures !NoHiddenGap(fs) ==> |Rendered(samples, Arriving(fs))| < |Ideal(samples, fs)|
    ensures NoHiddenGap(fs) ==> Rendered(samples, Arriving(fs)) == Ideal(samples, fs)
  {
    if fs != [] {
      StreamLength(samples, fs[..|fs| - 1]);
      HiddenEarlier(fs);
      LastRendered(samples, fs);
      LastPiece(samples, fs);
    }
  }

  /** The stream is what it ought to be, for every increasing list of frames, if and only if no
      gap follows the frame whose number is the sentinel. */
  lemma StreamIsIdealIff(samples: nat, fs: seq<NumberedFrame>)
    requires Increasing(fs)
    ensures Rendered(samples, Arriving(fs)) == Ideal(samples, fs) <==> NoHiddenGap(fs)
  {
    StreamLength(samples, fs);
  }

  /** Frames u32::MAX and u32::MAX + 2: the lost frame in between leaves no silence. */
  lemma SentinelHidesGap(samples: nat, pcm: Block)
    ensures var fs := [NumberedFrame(0xFFFF_FFFF, Some(pcm)), NumberedFrame(0x1_0000_0001, Some(pcm))];
            Increasing(fs) && Rendered(samples, Arriving(fs)) != Ideal(samples, fs)
  {
    var fs := [NumberedFrame(0xFFFF_FFFF, Some(pcm)), NumberedFrame(0x1_0000_0001, Some(pcm))];
    assert HiddenGap(fs, 1);
    StreamIsIdealIff(samples, fs);
  }

  // ---- Fed by the jitter buffer ------------------------------------------------

  /** The jitter buffer's deliveries, with the decoder's verdict on each. */
  function FromDeliveries(ds: seq<Delivery>, verdicts: seq<Option<Block>>): (fs: seq<NumberedFrame>)
    requires |ds| == |verdicts|
    ensures |fs| == |ds|
    ensures forall i :: 0 <= i < |fs| ==> fs[i] == NumberedFrame(ds[i].pos, verdicts[i])
  {
    seq(|ds|, i requires 0 <= i < |ds| => NumberedFrame(ds[i].pos, verdicts[i]))
  }

  /** No two successive deliveries are a whole turn of the counter apart. */
  predicate Close(ds: seq<Delivery>) {
    forall i :: 0 <= i < |ds| - 1 ==> ds[i + 1].pos < ds[i].pos + 0x1_0000_0000
  }

  /** The stream made of these deliveries: ideal but for the sentinel case, carrying the frames' own
      sequence numbers, with a gap of exactly the polls that expired in between, and every number
      a gap skips belongs to no accepted frame. */
  ghost predicate Concealed(
    accepted: map<nat, Jitter.Frame>, ds: seq<Delivery>, log: Log, verdicts: seq<Option<Block>>, samples: nat)
    requires |ds| == |verdicts| == |log.gaps|
  {
    var fs := FromDeliveries(ds, verdicts);
    && Increasing(fs)
    && (NoHiddenGap(fs) <==> Rendered(samples, Arriving(fs)) == Ideal(samples, fs))
    && (forall i :: 0 <= i < |fs| ==> Arriving(fs)[i].sequence == ds[i].frame.sequence)
    && (forall i :: 0 < i < |fs| ==> SkippedBefore(fs, i) == log.gaps[i])
    && (forall i, u :: 0 < i < |fs| && fs[i - 1].u < u < fs[i].u ==> u !in accepted)
  }

  /** In every run of the jitter buffer polled with deadlines the deliveries are concealed. */
  lemma DeliveriesAreConcealed(capacity: int, ops: seq<Op>, verdicts: seq<Option<Block>>, samples: nat)
    requires Jitter.IsCapacity(capacity)
    requires var ds := Run(Start(capacity), ops).delivered; |ds| == |verdicts| && Close(ds)
    ensures var h, log := Run(Start(capacity), ops), LogOf(Start(capacity), ops);
            |log.gaps| == |h.delivered| && Concealed(h.accepted, h.delivered, log, verdicts, samples)
  {
    RunConserves(capacity, ops);
    RunLogs(capacity, ops);
    var h := Run(Start(capacity), ops);
    ConcealsDeliveries(h.accepted, h.pos, h.delivered, LogOf(Start(capacity), ops), verdicts, samples);
  }

  lemma ConcealsDeliveries(
    accepted: map<nat, Jitter.Frame>, pos: nat, ds: seq<Delivery>, log: Log, verdicts: seq<Option<Block>>, samples: nat)
    requires Numbered(accepted) && InOrder(accepted, pos, ds) && GapsAreSkips(log, pos, ds)
    requires |ds| == |verdicts| && Close(ds)
    ensures Concealed(accepted, ds, log, verdicts, samples)
  {
    DeliveriesIncrease(accepted, pos, ds, verdicts);
    SkippedUnaccepted(accepted, pos, ds, verdicts);
    StreamIsIdealIff(samples, FromDeliveries(ds, verdicts));
    MissingIsSkips(pos, ds, log, verdicts);
  }

  lemma MissingIsSkips(pos: nat, ds: seq<Delivery>, log: Log, verdicts: seq<Option<Block>>)
    requires |ds| == |verdicts| && GapsAreSkips(log, pos, ds) && Increasing(FromDeliveries(ds, verdicts))
    ensures var fs := FromDeliveries(ds, verdicts);
            forall i :: 0 < i < |fs| ==> SkippedBefore(fs, i) == log.gaps[i]
  {
  }

  lemma SkippedUnaccepted(
    accepted: map<nat, Jitter.Frame>, pos: nat, ds: seq<Delivery>, verdicts: seq<Option<Block>>)
    requires InOrder(accepted, pos, ds) && |ds| == |verdicts|
    ensures var fs := FromDeliveries(ds, verdicts);
            forall i, u :: 0 < i < |fs| && fs[i - 1].u < u < fs[i].u ==> u !in accepted
  {
    var fs := FromDeliveries(ds, verdicts);
    forall i, u | 0 < i < |fs| && fs[i - 1].u < u < fs[i].u ensures u !in accepted {
      BetweenDeliveries(accepted, pos, ds, i, u);
    }
  }

  lemma DeliveriesIncrease(
    accepted: map<nat, Jitter.Frame>, pos: nat, ds: seq<Delivery>, verdicts: seq<Option<Block>>)
    requires Numbered(accepted) && InOrder(accepted, pos, ds) && |ds| == |verdicts| && Close(ds)
    ensures var fs := FromDeliveries(ds, verdicts);
            && Increasing(fs)
            && (forall i :: 0 <= i < |fs| ==> Arriving(fs)[i].sequence == ds[i].frame.sequence)
  {
  }

  lemma BetweenDeliveries(accepted: map<nat, Jitter.Frame>, pos: nat, ds: seq<Delivery>, i: nat, u: nat)
    requires InOrder(accepted, pos, ds) && 0 < i < |ds| && ds[i - 1].pos < u < ds[i].pos
    ensures u !in accepted
  {
    forall j | 0 <= j < |ds| ensures ds[j].pos != u {
      if j < i - 1 {
        assert ds[j].pos < ds[i - 1].pos;
      } else if j > i {
        assert ds[i].pos < ds[j].pos;
      }
    }
    assert !WasDelivered(ds, u);
  }
}

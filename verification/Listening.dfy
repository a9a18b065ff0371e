/**
 From microphone to loudspeaker: sender, network, FEC, jitter buffer and concealment together.

 The decoder keeps state between frames, so it is any function of the payloads decoded so far.
 */
module Listening {
  import opened Words
  import opened JitterRuns
  import opened Fec
  import opened Sending
  import opened Pipeline
  import opened Concealment

  type Decode = seq<bytes> -> Option<Block>

  function PayloadsOf(ds: seq<Delivery>): (ps: seq<bytes>)
    ensures |ps| == |ds| && forall i :: 0 <= i < |ds| ==> ps[i] == ds[i].frame.payload
  {
    seq(|ds|, i requires 0 <= i < |ds| => ds[i].frame.payload)
  }

  function Originals(items: seq<Captured>): (ps: seq<bytes>)
    ensures |ps| == |items| && forall i :: 0 <= i < |items| ==> ps[i] == items[i].payload
  {
    seq(|items|, i requires 0 <= i < |items| => items[i].payload)
  }

  /** What `recv_samples` is handed when the deliveries `ds` are decoded in turn. */
  function Incoming(decode: Decode, ds: seq<Delivery>): (net: seq<Concealment.Arrival>)
    ensures |net| == |ds|
    ensures forall i :: 0 <= i < |ds| ==> net[i] == Received(ds[i].frame.sequence, decode(PayloadsOf(ds)[..i + 1]))
  {
    seq(|ds|, i requires 0 <= i < |ds| => Received(ds[i].frame.sequence, decode(PayloadsOf(ds)[..i + 1])))
  }

  function Heard(verdict: Option<Block>): Item {
    match verdict
    case None => Result.Err(DecodeFailed)
    case Some(pcm) => Result.Ok(pcm)
  }

  /** The decoder's output for each payload in turn, and nothing else. */
  function Straight(decode: Decode, payloads: seq<bytes>, n: nat): (s: seq<Item>)
    requires n <= |payloads|
    ensures |s| == n && forall i :: 0 <= i < n ==> s[i] == Heard(decode(payloads[..i + 1]))
  {
    seq(n, i requires 0 <= i < n => Heard(decode(payloads[..i + 1])))
  }

  /** Consecutive numbers leave no gap, not even across the sentinel or the wraparound. */
  lemma NoGap(n: nat)
    requires n > 0
    ensures Gap(Wrap(n - 1), Wrap(n)) == 0
  {
    GapIsMissing(n - 1, n);
  }

  lemma PlainPiece(samples: nat, last: u32, sequence: u32, verdict: Option<Block>)
    requires Gap(last, sequence) == 0
    ensures Piece(samples, last, Received(sequence, verdict)) == [Heard(verdict)]
  {
    assert Copies(Silence(samples), 0) == [];
  }

  ghost predicate Consecutive(decode: Decode, payloads: seq<bytes>, net: seq<Concealment.Arrival>) {
    && |net| == |payloads|
    && forall i :: 0 <= i < |net| ==> net[i] == Received(Wrap(i), decode(payloads[..i + 1]))
  }

  lemma LastNumber(decode: Decode, payloads: seq<bytes>, net: seq<Concealment.Arrival>, n: nat)
    requires Consecutive(decode, payloads, net) && n <= |net|
    ensures LastSequence(net[..n]) == if n == 0 then NONE_YET else Wrap(n - 1)
  {
  }

  lemma ConsecutivePiece(samples: nat, decode: Decode, payloads: seq<bytes>, net: seq<Concealment.Arrival>, n: nat)
    requires Consecutive(decode, payloads, net) && n < |net|
    ensures Piece(samples, LastSequence(net[..n]), net[n]) == [Heard(decode(payloads[..n + 1]))]
  {
    LastNumber(decode, payloads, net, n);
    if n > 0 {
      NoGap(n);
    }
    PlainPiece(samples, LastSequence(net[..n]), Wrap(n), decode(payloads[..n + 1]));
  }

  lemma StraightMore(decode: Decode, payloads: seq<bytes>, n: nat)
    requires n < |payloads|
    ensures Straight(decode, payloads, n + 1) == Straight(decode, payloads, n) + [Heard(decode(payloads[..n + 1]))]
  {
  }

  /** A stream numbered 0, 1, 2, ... is rendered without silence. */
  lemma {:induction false} ConsecutiveIsStraight(
    samples: nat, decode: Decode, payloads: seq<bytes>, net: seq<Concealment.Arrival>, n: nat)
    requires Consecutive(decode, payloads, net) && n <= |net|
    ensures Rendered(samples, net[..n]) == Straight(decode, payloads, n)
  {
    if n > 0 {
      ConsecutiveIsStraight(samples, decode, payloads, net, n - 1);
      TakeOne(samples, net, n - 1);
      ConsecutivePiece(samples, decode, payloads, net, n - 1);
      StraightMore(decode, payloads, n - 1);
    }
  }

  /** If no send fails, each group of four equally long frames loses at most one of its five
      packets and the last few frames arrive, the listener hears exactly what the decoder makes
      of the original frames: each once, in order, with no silence in between. */
  lemma ListenerHearsEverything(
    capacity: int, items: seq<Captured>, arrivals: seq<Pipeline.Arrival>, tail: seq<nat>, decode: Decode, samples: nat)
    requires Jitter.IsCapacity(capacity) && 4 <= capacity && Delivers(items, arrivals, tail)
    requires forall g: nat :: g < |arrivals| ==> EqualLengths(Frames(items, g))
    ensures var ds := ReceiveStream(capacity, items, arrivals, tail).h.delivered;
            Rendered(samples, Incoming(decode, ds)) == Straight(decode, Originals(items), |items|)
  {
    EndToEndEqualLengths(capacity, items, arrivals, tail);
    var ds := ReceiveStream(capacity, items, arrivals, tail).h.delivered;
    StraightFrom(samples, decode, Originals(items), ds);
  }

  lemma StraightFrom(samples: nat, decode: Decode, payloads: seq<bytes>, ds: seq<Delivery>)
    requires |ds| == |payloads|
    requires forall i :: 0 <= i < |ds| ==> ds[i].frame.sequence == Wrap(i) && ds[i].frame.payload == payloads[i]
    ensures Rendered(samples, Incoming(decode, ds)) == Straight(decode, payloads, |payloads|)
  {
    var net := Incoming(decode, ds);
    assert PayloadsOf(ds) == payloads;
    ConsecutiveIsStraight(samples, decode, payloads, net, |net|);
    assert net[..|net|] == net;
  }
}

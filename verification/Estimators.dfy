/**
 The integer estimators: round-trip time with weight 1/8 and inter-arrival jitter with weight
 1/16 (section A.8 of RFC 3550). Both move by a truncated fraction of the distance to the new
 sample, so they share one step, one bound and one settling law.
 */
module Estimators {
  import opened Words

  const U32_MAX: u32 := 0xFFFF_FFFF

  function Min(a: int, b: int): int {
    if a <= b then a else b
  }

  function Distance(a: nat, b: nat): nat {
    if a <= b then b - a else a - b
  }

  /** One truncated step from `e` towards `x`. */
  function Towards(e: nat, x: nat, weight: nat): (r: nat)
    requires weight >= 2
    ensures e <= x ==> e <= r <= x
    ensures x <= e ==> x <= r <= e
  {
    FractionBelow(Distance(e, x), weight);
    if x > e then e + (x - e) / weight else e - (e - x) / weight
  }

  lemma FractionBelow(d: nat, weight: nat)
    requires weight >= 2
    ensures 0 <= d / weight <= d
    ensures d / weight == 0 <==> d < weight
  {
    var q := d / weight;
    assert d == q * weight + d % weight;
    if d < weight {
      DivUnique(d, weight, 0, d);
    } else {
      ScaleUp(q, weight);
    }
  }

  lemma ScaleUp(q: nat, weight: nat)
    requires weight >= 1
    ensures q <= q * weight
  {
  }

  // ---- Constant input ----------------------------------------------------------

  function Settling(e: nat, x: nat, weight: nat, n: nat): nat
    requires weight >= 2
  {
    if n == 0 then e else Towards(Settling(e, x, weight, n - 1), x, weight)
  }

  /** A step never crosses the input, and shortens the distance exactly while it is at least
      the weight, without ever going below weight - 1. */
  lemma StepShortens(e: nat, x: nat, weight: nat)
    requires weight >= 2
    ensures var r := Towards(e, x, weight);
            && (e <= x ==> e <= r <= x) && (x <= e ==> x <= r <= e)
            && (Distance(e, x) < weight ==> r == e)
            && (Distance(e, x) >= weight ==> weight - 1 <= Distance(r, x) < Distance(e, x))
  {
    var d := Distance(e, x);
    FractionBelow(d, weight);
    if d >= weight {
      RemainsFar(d, weight);
    }
  }

  lemma RemainsFar(d: nat, weight: nat)
    requires 2 <= weight <= d
    ensures weight - 1 <= d - d / weight
  {
    var q := d / weight;
    assert d == q * weight + d % weight;
    assert q * weight - q == q * (weight - 1);
    MulAtLeast(q, weight - 1);
    FractionBelow(d, weight);
  }

  /** Under constant input the estimate stays on its side and settles: after as many steps as
      the first distance, it is exactly as far from the input as it started or weight - 1,
      whichever is less. */
  lemma {:induction false} Settles(e: nat, x: nat, weight: nat, n: nat)
    requires weight >= 2
    ensures var r := Settling(e, x, weight, n);
            && (e <= x ==> e <= r <= x) && (x <= e ==> x <= r <= e)
            && Distance(r, x) >= Min(Distance(e, x), weight - 1)
            && (Distance(r, x) < weight || Distance(r, x) + n <= Distance(e, x))
    ensures n >= Distance(e, x) ==> Distance(Settling(e, x, weight, n), x) == Min(Distance(e, x), weight - 1)
  {
    if n > 0 {
      Settles(e, x, weight, n - 1);
      StepShortens(Settling(e, x, weight, n - 1), x, weight);
    }
  }

  /** Each further step moves the estimate closer or leaves it. */
  lemma SettlesMonotonically(e: nat, x: nat, weight: nat, n: nat)
    requires weight >= 2
    ensures var r, r' := Settling(e, x, weight, n), Settling(e, x, weight, n + 1);
            (e <= x ==> r <= r' <= x) && (x <= e ==> x <= r' <= r)
  {
    Settles(e, x, weight, n);
    StepShortens(Settling(e, x, weight, n), x, weight);
  }

  // ---- Round-trip time ---------------------------------------------------------

  const RTT_WEIGHT: nat := 8

  /** `u32::MAX` stands for "no sample yet". */
  function RttAfter(rtt: u32, sample: u32): u32 {
    if rtt == U32_MAX then sample else Min(Towards(rtt, sample, RTT_WEIGHT), U32_MAX)
  }

  function Rtt(samples: seq<u32>): u32 {
    if samples == [] then U32_MAX else RttAfter(Rtt(samples[..|samples| - 1]), samples[|samples| - 1])
  }

  class RttEstimator {
    var rttUs: u32

    constructor ()
      ensures rttUs == U32_MAX
    {
      rttUs := U32_MAX;
    }

    method Record(sampleUs: u32)
      modifies this
      ensures rttUs == RttAfter(old(rttUs), sampleUs)
    {
      if rttUs == U32_MAX {
        rttUs := sampleUs;
        return;
      }
      var prev: int, sample: int := rttUs, sampleUs;
      FractionBelow(Distance(prev, sample), RTT_WEIGHT);
      var next: int;
      if sample > prev {
        next := prev + (sample - prev) * 1 / 8;
      } else {
        var d := (prev - sample) * 1 / 8;
        next := if d <= prev then prev - d else 0;
      }
      rttUs := Min(next, U32_MAX);
    }
  }

  /** Over every history the estimate stays between the smallest and the largest sample, and
      there is no estimate exactly when every sample was the sentinel. */
  lemma {:induction false} RttWithinSamples(samples: seq<u32>, lo: u32, hi: u32)
    requires samples != [] && forall i :: 0 <= i < |samples| ==> lo <= samples[i] <= hi
    ensures lo <= Rtt(samples) <= hi
    ensures Rtt(samples) == U32_MAX <==> forall i :: 0 <= i < |samples| ==> samples[i] == U32_MAX
  {
    var n := |samples| - 1;
    var before := samples[..n];
    if n > 0 {
      RttWithinSamples(before, lo, hi);
      if Rtt(before) == U32_MAX {
        assert forall i :: 0 <= i < n ==> before[i] == samples[i];
      } else {
        var k :| 0 <= k < n && before[k] != U32_MAX;
        assert samples[k] != U32_MAX;
        StepShortens(Rtt(before), samples[n], RTT_WEIGHT);
        StaysBelow(Rtt(before), samples[n]);
      }
    }
  }

  lemma StaysBelow(rtt: u32, sample: u32)
    requires rtt != U32_MAX
    ensures Towards(rtt, sample, RTT_WEIGHT) < U32_MAX
  {
    StepShortens(rtt, sample, RTT_WEIGHT);
  }

  function Repeated(x: u32, n: nat): (s: seq<u32>)
    ensures |s| == n
  {
    if n == 0 then [] else Repeated(x, n - 1) + [x]
  }

  lemma RttOneMore(samples: seq<u32>, x: u32, weight: nat)
    requires Rtt(samples) != U32_MAX && weight == RTT_WEIGHT
    ensures Rtt(samples + [x]) == Towards(Rtt(samples), x, weight) && Rtt(samples + [x]) != U32_MAX
  {
    assert (samples + [x])[..|samples + [x]| - 1] == samples;
    StaysBelow(Rtt(samples), x);
  }

  lemma {:induction false} RttFollows(samples: seq<u32>, x: u32, n: nat, weight: nat)
    requires Rtt(samples) != U32_MAX && weight == RTT_WEIGHT
    ensures var r := Rtt(samples + Repeated(x, n));
            r == Settling(Rtt(samples), x, weight, n) && r != U32_MAX
  {
    if n == 0 {
      assert samples + Repeated(x, 0) == samples;
    } else {
      RttFollows(samples, x, n - 1, weight);
      RttOneMore(samples + Repeated(x, n - 1), x, weight);
      assert samples + Repeated(x, n) == samples + Repeated(x, n - 1) + [x];
    }
  }

  /** After any history with an estimate, `n` equal samples move it without overshoot, and to
      within 7 microseconds once `n` reaches the first distance. */
  lemma RttSettles(samples: seq<u32>, x: u32, n: nat)
    requires Rtt(samples) != U32_MAX
    ensures var e, r := Rtt(samples), Rtt(samples + Repeated(x, n));
            && (e <= x ==> e <= r <= x) && (x <= e ==> x <= r <= e)
            && (n >= Distance(e, x) ==> Distance(r, x) == Min(Distance(e, x), 7))
  {
    RttFollows(samples, x, n, RTT_WEIGHT);
    Settles(Rtt(samples), x, RTT_WEIGHT, n);
  }

  // ---- Jitter ------------------------------------------------------------------

  const JITTER_WEIGHT: nat := 16

  /** `i64::MIN` stands for "no sample yet". */
  const NO_SAMPLE: i64 := -0x8000_0000_0000_0000

  /** Any two microsecond timestamps: the sender's is read off the wire. */
  datatype Sample = Sample(sent: u64, received: u64)

  datatype Jitter = Jitter(us: u32, previous: i64)

  const I64_SPAN: int := 0x1_0000_0000_0000_0000

  type i64 = n: int | -0x8000_0000_0000_0000 <= n < 0x8000_0000_0000_0000

  /** A cast to i64, or a wrapping i64 difference: at most one turn away from the result. */
  function I64(n: int): i64
    requires -0x1_0000_0000_0000_0000 <= n <= 0x1_0000_0000_0000_0000
  {
    if n >= 0x8000_0000_0000_0000 then n - I64_SPAN
    else if n < -0x8000_0000_0000_0000 then n + I64_SPAN
    else n
  }

  /** Of all numbers a whole number of turns apart, an i64 is nearest to zero. */
  lemma NearestToZero(n: int, r: i64, turns: int)
    requires r == n + turns * I64_SPAN
    ensures Abs(r) <= Abs(n)
  {
  }

  lemma OneTurn(n: int) returns (turns: int)
    requires -0x1_0000_0000_0000_0000 <= n <= 0x1_0000_0000_0000_0000
    ensures I64(n) == n + turns * I64_SPAN
  {
    turns := if n >= 0x8000_0000_0000_0000 then -1 else if n < -0x8000_0000_0000_0000 then 1 else 0;
  }

  /** `recv_ts_us as i64 - send_ts_us as i64`. */
  function Transit(s: Sample): i64 {
    I64(I64(s.received) as int - I64(s.sent) as int)
  }

  function Abs(n: int): nat {
    if n >= 0 then n else -n
  }

  /** `(current_diff - prev).unsigned_abs()`. */
  function Measured(transit: i64, previous: i64): nat {
    Abs(I64(transit as int - previous as int))
  }

  function JitterAfter(j: Jitter, s: Sample): Jitter {
    if j.previous == NO_SAMPLE then j.(previous := Transit(s))
    else Jitter(Min(Towards(j.us, Measured(Transit(s), j.previous), JITTER_WEIGHT), U32_MAX), Transit(s))
  }

  function JitterOf(samples: seq<Sample>): Jitter {
    if samples == [] then Jitter(0, NO_SAMPLE)
    else JitterAfter(JitterOf(samples[..|samples| - 1]), samples[|samples| - 1])
  }

  class JitterEstimator {
    var jitterUs: u32
    var prevDiffUs: i64

    function State(): Jitter
      reads this
    {
      Jitter(jitterUs, prevDiffUs)
    }

    constructor ()
      ensures State() == Jitter(0, NO_SAMPLE)
    {
      jitterUs, prevDiffUs := 0, NO_SAMPLE;
    }

    method Record(s: Sample)
      modifies this
      ensures State() == JitterAfter(old(State()), s)
    {
      var currentDiff := Transit(s);
      if prevDiffUs == NO_SAMPLE {
        prevDiffUs := currentDiff;
        return;
      }
      var d: int, j: int := Measured(currentDiff, prevDiffUs), jitterUs;
      FractionBelow(Distance(j, d), JITTER_WEIGHT);
      var next := if d > j then j + (d - j) / 16 else j - (j - d) / 16;
      jitterUs := Min(next, U32_MAX);
      prevDiffUs := currentDiff;
    }
  }

  /** The true change in transit time at sample `k`. */
  function Change(samples: seq<Sample>, k: nat): nat
    requires 0 < k < |samples|
  {
    Abs((samples[k].received - samples[k].sent) - (samples[k - 1].received - samples[k - 1].sent))
  }

  /** What the estimator measures of it, after 64-bit wrapping. */
  function MeasuredChange(samples: seq<Sample>, k: nat): nat
    requires 0 < k < |samples|
  {
    Measured(Transit(samples[k]), Transit(samples[k - 1]))
  }

  /** Wrapping never makes a change look larger. */
  lemma MeasuredAtMost(samples: seq<Sample>, k: nat)
    requires 0 < k < |samples|
    ensures MeasuredChange(samples, k) <= Change(samples, k)
  {
    var s, p := samples[k], samples[k - 1];
    var here := TransitTurns(s);
    var there := TransitTurns(p);
    WrappedChange(s.received - s.sent, p.received - p.sent, Transit(s), Transit(p), here, there);
  }

  lemma TransitTurns(s: Sample) returns (turns: int)
    ensures Transit(s) == s.received - s.sent + turns * I64_SPAN
  {
    var a := OneTurn(s.received);
    var b := OneTurn(s.sent);
    var c := OneTurn(I64(s.received) as int - I64(s.sent) as int);
    turns := a - b + c;
  }

  lemma WrappedChange(a: int, b: int, wa: i64, wb: i64, ta: int, tb: int)
    requires wa == a + ta * I64_SPAN && wb == b + tb * I64_SPAN
    ensures Measured(wa, wb) <= Abs(a - b)
  {
    var d := wa as int - wb as int;
    var c := OneTurn(d);
    NearestToZero(a - b, I64(d), ta - tb + c);
  }

  /** Over every history of 64-bit timestamps the jitter estimate never exceeds the largest change
      in transit time. */
  lemma {:induction false} JitterWithinChanges(samples: seq<Sample>, bound: nat)
    requires forall k :: 0 < k < |samples| ==> Change(samples, k) <= bound
    ensures JitterOf(samples).us <= bound
  {
    if samples != [] {
      var n := |samples| - 1;
      var before := samples[..n];
      forall k | 0 < k < n ensures Change(before, k) <= bound {
        assert Change(before, k) == Change(samples, k);
      }
      JitterWithinChanges(before, bound);
      LastTransit(before);
      if n > 0 {
        assert Change(samples, n) <= bound;
        MeasuredAtMost(samples, n);
        JitterStepBound(JitterOf(before), samples[n], bound);
      }
    }
  }

  lemma JitterStepBound(j: Jitter, s: Sample, bound: nat)
    requires j.us <= bound && Measured(Transit(s), j.previous) <= bound
    ensures JitterAfter(j, s).us <= bound
  {
  }

  /** From sample `from` on, every measured change is `x` and no transit time is the sentinel. */
  predicate SteadyFrom(samples: seq<Sample>, from: nat, x: nat) {
    forall k :: from <= k < |samples| && 0 < k ==> SteadyAt(samples, k, x)
  }

  predicate SteadyAt(samples: seq<Sample>, k: nat, x: nat)
    requires 0 < k < |samples|
  {
    MeasuredChange(samples, k) == x && Transit(samples[k - 1]) != NO_SAMPLE
  }

  lemma JitterOneMore(samples: seq<Sample>, weight: nat)
    requires |samples| >= 2 && weight == JITTER_WEIGHT
    requires var n := |samples| - 1;
             JitterOf(samples[..n]).previous == Transit(samples[n - 1]) != NO_SAMPLE
    ensures var n := |samples| - 1;
            JitterOf(samples)
            == Jitter(Min(Towards(JitterOf(samples[..n]).us, MeasuredChange(samples, n), weight), U32_MAX),
                      Transit(samples[n]))
  {
  }

  lemma SteadyBefore(samples: seq<Sample>, from: nat, x: nat)
    requires 0 < from < |samples| && SteadyFrom(samples, from, x)
    ensures SteadyFrom(samples[..|samples| - 1], from, x)
    ensures SteadyAt(samples, |samples| - 1, x)
  {
    var before := samples[..|samples| - 1];
    forall k | from <= k < |before| && 0 < k ensures SteadyAt(before, k, x) {
      assert SteadyAt(samples, k, x);
    }
  }

  lemma {:induction false} LastTransit(samples: seq<Sample>)
    ensures JitterOf(samples).previous == if samples == [] then NO_SAMPLE else Transit(samples[|samples| - 1])
  {
  }

  lemma {:induction false} JitterFollows(samples: seq<Sample>, from: nat, x: nat, weight: nat)
    requires 0 < from <= |samples| && SteadyFrom(samples, from, x) && weight == JITTER_WEIGHT
    ensures JitterOf(samples).us
            == Min(Settling(JitterOf(samples[..from]).us, x, weight, |samples| - from), U32_MAX)
    decreases |samples|
  {
    if from == |samples| {
      assert samples[..from] == samples;
    } else {
      var n := |samples| - 1;
      SteadyBefore(samples, from, x);
      JitterFollows(samples[..n], from, x, weight);
      assert samples[..n][..from] == samples[..from];
      LastTransit(samples[..n]);
      JitterOneMore(samples, weight);
      ClampedStep(JitterOf(samples[..from]).us, x, n - from, weight);
    }
  }

  /** Clamping to 32 bits after every step is the same as clamping once. */
  lemma ClampedStep(e: u32, x: nat, n: nat, weight: nat)
    requires weight >= 2
    ensures Min(Towards(Min(Settling(e, x, weight, n), U32_MAX), x, weight), U32_MAX)
            == Min(Settling(e, x, weight, n + 1), U32_MAX)
  {
    Settles(e, x, weight, n);
    StepShortens(Settling(e, x, weight, n), x, weight);
  }

  /** Where `n` steps of constant input `x` take a 32-bit estimate `e`: no overshoot, and after
      enough steps as far from `x` as it started or weight - 1, whichever is less. */
  predicate SettledTo(e: u32, x: nat, n: nat, weight: nat, r: int) {
    && (e <= x ==> e <= r <= x) && (x <= e ==> x <= r <= e)
    && (n >= Distance(e, x) ==>
          r == Min(if e <= x then x - Min(x - e, weight - 1) else x + Min(e - x, weight - 1), U32_MAX))
  }

  lemma SettledClamped(e: u32, x: nat, n: nat, weight: nat)
    requires weight >= 2
    ensures SettledTo(e, x, n, weight, Min(Settling(e, x, weight, n), U32_MAX))
  {
    Settles(e, x, weight, n);
  }

  /** When every measured change from some sample on is `x`, the estimate settles without overshoot to
      within 15 microseconds of `x`, or at u32::MAX if that is nearer. */
  lemma JitterSettles(samples: seq<Sample>, from: nat, x: nat)
    requires 0 < from <= |samples| && SteadyFrom(samples, from, x)
    ensures SettledTo(JitterOf(samples[..from]).us, x, |samples| - from, JITTER_WEIGHT, JitterOf(samples).us)
  {
    JitterSettlesBy(samples, from, x, JITTER_WEIGHT);
  }

  /** The same, with the distance written out. */
  lemma JitterWithinFifteen(samples: seq<Sample>, from: nat, x: u32)
    requires 0 < from <= |samples| && SteadyFrom(samples, from, x)
    requires |samples| - from >= Distance(JitterOf(samples[..from]).us, x)
    ensures var e, r := JitterOf(samples[..from]).us, JitterOf(samples).us;
            && Distance(r, x) == Min(Distance(e, x), 15)
            && (e <= x ==> e <= r <= x) && (x <= e ==> x <= r <= e)
  {
    JitterSettles(samples, from, x);
  }

  lemma JitterSettlesBy(samples: seq<Sample>, from: nat, x: nat, weight: nat)
    requires 0 < from <= |samples| && SteadyFrom(samples, from, x) && weight == JITTER_WEIGHT
    ensures SettledTo(JitterOf(samples[..from]).us, x, |samples| - from, weight, JitterOf(samples).us)
  {
    var e, n := JitterOf(samples[..from]).us, |samples| - from;
    JitterFollows(samples, from, x, weight);
    SettledClamped(e, x, n, weight);
  }
}

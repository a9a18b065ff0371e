/**
 XOR forward error correction: one parity packet per group of `window` frames; the decoder
 rebuilds a group's single missing frame.
 */
module Fec {
  import opened Words

  type bytes = seq<byte>

  // ---- Byte-wise XOR of a group ------------------------------------------------

  /** Byte `i` of a frame, zero past its end. */
  function At(f: bytes, i: nat): byte {
    if i < |f| then f[i] else 0
  }

  function MaxLen(group: seq<bytes>): nat {
    if group == [] then 0
    else
      var last, rest := |group[|group| - 1]|, MaxLen(group[..|group| - 1]);
      if last > rest then last else rest
  }

  function XorAt(group: seq<bytes>, i: nat): byte {
    if group == [] then 0 else XorAt(group[..|group| - 1], i) ^ At(group[|group| - 1], i)
  }

  /** The parity of a group: byte-wise XOR, as long as the longest frame. */
  function ParityOf(group: seq<bytes>): bytes {
    seq(MaxLen(group), i requires 0 <= i => XorAt(group, i))
  }

  /** A frame zero-padded to `n` bytes. */
  function Pad(f: bytes, n: nat): bytes {
    seq(n, i requires 0 <= i => At(f, i))
  }

  function Xored(acc: bytes, data: bytes): bytes {
    seq(|acc|, i requires 0 <= i < |acc| => acc[i] ^ At(data, i))
  }

  /** `xor_into`: up to the shorter of the two. */
  method XorInto(acc: bytes, data: bytes) returns (r: bytes)
    ensures r == Xored(acc, data)
  {
    r := acc;
    var len := if |acc| < |data| then |acc| else |data|;
    for i := 0 to len
      invariant |r| == |acc|
      invariant forall k :: 0 <= k < i ==> r[k] == acc[k] ^ data[k]
      invariant forall k :: i <= k < |acc| ==> r[k] == acc[k]
    {
      r := r[i := r[i] ^ data[i]];
    }
    forall k | 0 <= k < |acc| ensures r[k] == acc[k] ^ At(data, k) {
      XorWithZero(acc[k]);
    }
  }

  lemma XorWithZero(b: byte)
    ensures b ^ 0 == b
  {
  }

  lemma {:induction false} XorAtPastEnd(group: seq<bytes>, i: nat)
    requires i >= MaxLen(group)
    ensures XorAt(group, i) == 0
  {
    if group != [] {
      XorAtPastEnd(group[..|group| - 1], i);
      XorWithZero(0);
    }
  }

  // ---- Encoder -----------------------------------------------------------------

  datatype Parity = Parity(seqBase: u32, window: nat, payload: bytes)

  predicate IsWindow(window: nat) {
    2 <= window <= 255
  }

  /** The encoder's group so far: the sequence of its first frame and its payloads. */
  datatype Encoder = Encoder(window: nat, base: u32, group: seq<bytes>) {

    ghost predicate WellFormed() {
      IsWindow(window) && |group| < window
    }

    function BaseWith(sequence: u32): u32 {
      if group == [] then sequence else base
    }

    function Push(sequence: u32, payload: bytes): Encoder {
      Encoder(window, BaseWith(sequence), if |group| + 1 >= window then [] else group + [payload])
    }

    /** The parity emitted when the frame completes the group. */
    function Emitted(sequence: u32, payload: bytes): Option<Parity> {
      if |group| + 1 >= window then Some(Parity(BaseWith(sequence), window, ParityOf(group + [payload]))) else None
    }
  }

  /** Growing the accumulator with zeros and adding a frame gives the parity of the longer group. */
  lemma ParityGrows(group: seq<bytes>, payload: bytes)
    ensures var more := group + [payload];
            Xored(Pad(ParityOf(group), MaxLen(more)), payload) == ParityOf(more)
  {
    var more := group + [payload];
    assert more[..|more| - 1] == group;
    var grown := Pad(ParityOf(group), MaxLen(more));
    forall i | 0 <= i < MaxLen(more) ensures Xored(grown, payload)[i] == ParityOf(more)[i] {
      if i >= MaxLen(group) {
        XorAtPastEnd(group, i);
      }
    }
  }

  lemma ZeroIsPadding(n: nat)
    ensures seq(n, i => 0) == Pad(ParityOf([]), n)
  {
  }

  lemma PaddingNone(f: bytes)
    ensures f == Pad(f, |f|)
  {
  }

  lemma PaddingMore(f: bytes, n: nat, m: nat)
    requires |f| <= n <= m
    ensures Pad(f, n) + seq(m - n, i => 0) == Pad(f, m)
  {
  }

  /** Start the accumulator with the first frame of a group, extend it if a frame is longer, and
      add the frame. */
  method Accumulate(first: bool, ghost group: seq<bytes>, acc: bytes, payload: bytes) returns (r: bytes)
    requires first <==> group == []
    requires !first ==> acc == ParityOf(group)
    ensures r == ParityOf(group + [payload])
  {
    assert (group + [payload])[..|group|] == group;
    PaddingNone(ParityOf(group));
    r := acc;
    if first {
      r := seq(|payload|, i => 0);
      ZeroIsPadding(|payload|);
    }
    if |payload| > |r| {
      PaddingMore(ParityOf(group), |r|, |payload|);
      r := r + seq(|payload| - |r|, i => 0);
    }
    ParityGrows(group, payload);
    r := XorInto(r, payload);
  }

  class FecEncoder {
    var window: nat
    var parityBuf: bytes
    var count: nat
    var seqBase: u32
    ghost var state: Encoder

    ghost predicate Valid()
      reads this
    {
      && state.WellFormed() && window == state.window && count == |state.group|
      && (count > 0 ==> seqBase == state.base && parityBuf == ParityOf(state.group))
    }

    constructor (window: nat)
      requires window <= 255
      ensures Valid() && state == Encoder(if window < 2 then 2 else window, 0, [])
    {
      this.window := if window < 2 then 2 else window;
      parityBuf := [];
      count := 0;
      seqBase := 0;
      state := Encoder(if window < 2 then 2 else window, 0, []);
    }

    method Push(sequence: u32, payload: bytes) returns (parity: Option<Parity>)
      requires Valid()
      modifies this
      ensures Valid()
      ensures parity == old(state).Emitted(sequence, payload)
      ensures state == old(state).Push(sequence, payload)
    {
      if count == 0 {
        seqBase := sequence;
      }
      parityBuf := Accumulate(count == 0, state.group, parityBuf, payload);
      count := count + 1;
      ghost var more := state.group + [payload];
      assert count == |more| && parityBuf == ParityOf(more);
      if count >= window {
        parity := Some(Parity(seqBase, window, parityBuf));
        state := Encoder(window, seqBase, []);
        count := 0;
        parityBuf := [];
      } else {
        parity := None;
        state := Encoder(window, seqBase, more);
      }
    }
  }

  // ---- Decoder -----------------------------------------------------------------

  /** XOR of byte `i` over the frames present. */
  function XorPresent(received: seq<Option<bytes>>, i: nat): byte {
    if received == [] then 0
    else
      var rest, last := XorPresent(received[..|received| - 1], i), received[|received| - 1];
      if last.Some? then rest ^ At(last.value, i) else rest
  }

  /** Indices of the frames not received, in increasing order. */
  function Missing(received: seq<Option<bytes>>): seq<nat> {
    if received == [] then []
    else
      var k := |received| - 1;
      Missing(received[..k]) + if received[k].None? then [k] else []
  }

  /** The parity with every present frame XORed out. */
  function Residue(parity: bytes, received: seq<Option<bytes>>): bytes {
    seq(|parity|, i requires 0 <= i < |parity| => parity[i] ^ XorPresent(received, i))
  }

  /** `sequence % window`, by repeated subtraction (see `OffsetIsRemainder`). */
  function OffsetIn(sequence: nat, window: nat): (r: nat)
    requires window > 0
    ensures r < window && r <= sequence
  {
    if sequence < window then sequence else OffsetIn(sequence - window, window)
  }

  lemma {:induction false} OffsetIsRemainder(sequence: nat, window: nat)
    requires window > 0
    ensures OffsetIn(sequence, window) == sequence % window
  {
    if sequence >= window {
      OffsetIsRemainder(sequence - window, window);
      var q, r := (sequence - window) / window, (sequence - window) % window;
      assert sequence == (q + 1) * window + r;
      DivUnique(sequence, window, q + 1, r);
    } else {
      DivUnique(sequence, window, 0, sequence);
    }
  }

  /** The sequence of the frame at offset `k` of a group. */
  function SequenceAt(base: u32, k: nat): u32 {
    (base + k) % 0x1_0000_0000
  }

  datatype Decoder = Decoder(
    window: nat,
    active: bool,
    base: u32,
    received: seq<Option<bytes>>,
    parity: Option<bytes>)
  {
    ghost predicate WellFormed() {
      IsWindow(window) && (active ==> |received| == window)
    }

    /** The first sequence of the aligned group that holds `sequence`. */
    function GroupBase(sequence: u32): u32
      requires window > 0
    {
      sequence - OffsetIn(sequence, window)
    }

    function StartGroup(groupBase: u32): Decoder {
      Decoder(window, true, groupBase, seq(window, i => None), None)
    }

    function Join(groupBase: u32): Decoder {
      if !active || base != groupBase then StartGroup(groupBase) else this
    }

    function PushData(sequence: u32, payload: bytes): Decoder
      requires WellFormed()
    {
      var d := Join(GroupBase(sequence));
      d.(received := d.received[OffsetIn(sequence, window) := Some(payload)])
    }

    function PushParity(p: Parity): Decoder {
      Join(p.seqBase).(parity := Some(p.payload))
    }

    /** The one missing frame, rebuilt, when exactly one is missing. */
    function Recovered(): Option<(u32, bytes)> {
      if parity.None? || |Missing(received)| != 1 then None
      else Some((SequenceAt(base, Missing(received)[0]), Residue(parity.value, received)))
    }
  }

  /** Every frame goes to its place in the aligned group of its sequence, replacing what was there; a
      frame of another group makes the decoder forget the old one, parity included. */
  lemma PushDataStores(d: Decoder, sequence: u32, payload: bytes)
    requires d.WellFormed()
    ensures var r, k := d.PushData(sequence, payload), sequence % d.window;
            && r.window == d.window && r.active && r.base == sequence - k && |r.received| == d.window
            && (forall j :: 0 <= j < d.window ==>
                  r.received[j] == if j == k then Some(payload)
                                   else if d.active && d.base == r.base then d.received[j] else None)
            && r.parity == if d.active && d.base == r.base then d.parity else None
  {
    OffsetIsRemainder(sequence, d.window);
  }

  /** A parity is kept with the frames of its own group only. */
  lemma PushParityStores(d: Decoder, p: Parity)
    requires d.WellFormed()
    ensures var r := d.PushParity(p);
            && r.window == d.window && r.active && r.base == p.seqBase && |r.received| == d.window
            && (forall j :: 0 <= j < d.window ==>
                  r.received[j] == if d.active && d.base == p.seqBase then d.received[j] else None)
            && r.parity == Some(p.payload)
  {
  }

  type GoodDecoder = d: Decoder | d.WellFormed() witness Decoder(2, false, 0, [], None)

  lemma {:induction false} MissingIndices(received: seq<Option<bytes>>, i: int)
    ensures i in Missing(received) <==> 0 <= i < |received| && received[i].None?
  {
    if received != [] {
      MissingIndices(received[..|received| - 1], i);
    }
  }

  class FecDecoder {
    const window: nat
    var seqBase: u32
    var received: seq<Option<bytes>>
    var parity: Option<bytes>
    var active: bool

    ghost function View(): Decoder
      reads this
    {
      Decoder(window, active, seqBase, received, parity)
    }

    ghost predicate Valid()
      reads this
    {
      View().WellFormed()
    }

    constructor (window: nat)
      requires window <= 255
      ensures Valid() && View() == Decoder(if window < 2 then 2 else window, false, 0, [], None)
    {
      this.window := if window < 2 then 2 else window;
      seqBase := 0;
      received := [];
      parity := None;
      active := false;
    }

    method StartGroup(base: u32)
      modifies this
      ensures View() == old(View()).StartGroup(base)
    {
      seqBase := base;
      received := seq(window, i => None);
      parity := None;
      active := true;
    }

    /** `push_data`. Its `false` result cannot occur: the offset is always inside the window. */
    method PushData(sequence: u32, payload: bytes) returns (ok: bool)
      requires Valid()
      modifies this
      ensures Valid() && ok
      ensures View() == old(View()).PushData(sequence, payload)
    {
      OffsetIsRemainder(sequence, window);
      var groupBase := sequence - sequence % window;
      if !active || seqBase != groupBase {
        StartGroup(groupBase);
      }
      var offset := sequence - seqBase;
      if offset < window {
        received := received[offset := Some(payload)];
        ok := true;
      } else {
        ok := false;
      }
    }

    /** `push_parity`. */
    method PushParity(p: Parity) returns (r: Option<(u32, bytes)>)
      requires Valid()
      modifies this
      ensures Valid()
      ensures View() == old(View()).PushParity(p)
      ensures r == View().Recovered()
    {
      if !active || seqBase != p.seqBase {
        StartGroup(p.seqBase);
      }
      parity := Some(p.payload);
      r := TryRecover();
    }

    /** `try_recover`: collect the gaps, then XOR the present frames out of the parity. */
    method TryRecover() returns (r: Option<(u32, bytes)>)
      requires Valid()
      ensures r == View().Recovered()
    {
      if parity.None? {
        return None;
      }
      var missing := FindMissing(received);
      if |missing| != 1 {
        return None;
      }
      var recovered := XorOutPresent(parity.value, received, missing[0]);
      r := Some((SequenceAt(seqBase, missing[0]), recovered));
    }
  }

  /** The indices of the gaps. */
  method FindMissing(received: seq<Option<bytes>>) returns (missing: seq<nat>)
    ensures missing == Missing(received)
  {
    missing := [];
    for i := 0 to |received|
      invariant missing == Missing(received[..i])
    {
      assert received[..i + 1][..i] == received[..i];
      if received[i].None? {
        missing := missing + [i];
      }
    }
    assert received[..|received|] == received;
  }

  /** The present frames XORed out of the parity; the lost one is passed over. */
  method XorOutPresent(parity: bytes, received: seq<Option<bytes>>, lost: nat) returns (recovered: bytes)
    requires lost in Missing(received)
    ensures recovered == Residue(parity, received)
  {
    MissingIndices(received, lost);
    recovered := parity;
    ResidueOfNone(parity, received);
    for i := 0 to |received|
      invariant recovered == Residue(parity, received[..i])
    {
      ResidueStep(parity, received, i);
      if i == lost {
        continue;
      }
      if received[i].Some? {
        recovered := XorInto(recovered, received[i].value);
      }
    }
    assert received[..|received|] == received;
  }

  lemma ResidueOfNone(parity: bytes, received: seq<Option<bytes>>)
    ensures Residue(parity, received[..0]) == parity
  {
    forall i | 0 <= i < |parity| ensures parity[i] == parity[i] ^ 0 {
      XorWithZero(parity[i]);
    }
  }

  lemma XorAssociative(a: byte, b: byte, c: byte)
    ensures (a ^ b) ^ c == a ^ (b ^ c)
  {
  }

  lemma ResidueStep(parity: bytes, received: seq<Option<bytes>>, i: nat)
    requires i < |received|
    ensures var r := Residue(parity, received[..i]);
            Residue(parity, received[..i + 1]) == if received[i].Some? then Xored(r, received[i].value) else r
  {
    assert received[..i + 1][..i] == received[..i];
    if received[i].Some? {
      forall k | 0 <= k < |parity|
        ensures Residue(parity, received[..i + 1])[k] == Xored(Residue(parity, received[..i]), received[i].value)[k]
      {
        XorAssociative(parity[k], XorPresent(received[..i], k), At(received[i].value, k));
      }
    }
  }

  // ---- Recovery ----------------------------------------------------------------

  /** Encoder and decoder agree on the group: an aligned base and one frame per place. */
  ghost predicate IsGroup(window: nat, base: u32, frames: seq<bytes>) {
    IsWindow(window) && |frames| == window && base % window == 0
  }

  /** The group ends before the sequence counter wraps. */
  predicate BeforeWrap(base: u32, window: nat) {
    base + window <= 0x1_0000_0000
  }

  ghost predicate Offsets(order: seq<nat>, n: nat) {
    forall j :: 0 <= j < |order| ==> order[j] < n
  }

  /** The decoder after receiving the frames at the given group offsets, in that order. */
  ghost function Receive(d: Decoder, base: u32, frames: seq<bytes>, order: seq<nat>): (r: Decoder)
    requires d.WellFormed() && Offsets(order, |frames|)
    ensures r.WellFormed() && r.window == d.window
  {
    if order == [] then d
    else
      var k := order[|order| - 1];
      Receive(d, base, frames, order[..|order| - 1]).PushData(SequenceAt(base, k), frames[k])
  }

  /** What has been received of the group. */
  function Seen(frames: seq<bytes>, order: seq<nat>): seq<Option<bytes>> {
    seq(|frames|, i requires 0 <= i < |frames| => if i in order then Some(frames[i]) else None)
  }

  lemma OffsetInGroup(window: nat, base: u32, k: nat)
    requires window > 0 && base % window == 0 && k < window
    ensures OffsetIn(base + k, window) == k
  {
    OffsetIsRemainder(base + k, window);
    assert base == (base / window) * window;
    DivUnique(base + k, window, base / window, k);
  }

  /** One more frame of the group, when the decoder is on it or starts it. */
  lemma PushInGroup(d: Decoder, base: u32, k: nat, payload: bytes)
    requires d.WellFormed() && base % d.window == 0 && k < d.window && base + k < 0x1_0000_0000
    ensures d.PushData(SequenceAt(base, k), payload)
            == d.Join(base).(received := d.Join(base).received[k := Some(payload)])
  {
    InsideCounter(base, k);
    OffsetInGroup(d.window, base, k);
  }

  lemma InsideCounter(base: u32, k: nat)
    requires base + k < 0x1_0000_0000
    ensures SequenceAt(base, k) == base + k
  {
  }

  lemma SeenMore(frames: seq<bytes>, order: seq<nat>, k: nat)
    requires k < |frames|
    ensures Seen(frames, order + [k]) == Seen(frames, order)[k := Some(frames[k])]
  {
  }

  lemma {:induction false} CollectsInside(d: Decoder, base: u32, frames: seq<bytes>, order: seq<nat>)
    requires d.WellFormed() && IsGroup(d.window, base, frames) && BeforeWrap(base, d.window) && order != []
    requires Offsets(order, |frames|)
    requires !(d.active && d.base == base)
    ensures var r := Receive(d, base, frames, order);
            r.active && r.base == base && r.received == Seen(frames, order)
  {
    var n := |order| - 1;
    var before, k := order[..n], order[n];
    PushInGroup(Receive(d, base, frames, before), base, k, frames[k]);
    SeenMore(frames, before, k);
    assert order == before + [k];
    if n > 0 {
      CollectsInside(d, base, frames, before);
    } else {
      assert Seen(frames, before) == seq(d.window, i => None);
    }
  }

  /** Over any prefix, the parity byte is the present frames plus the lost one if it is inside. */
  lemma {:induction false} XorSplits(frames: seq<bytes>, received: seq<Option<bytes>>, lost: nat, i: nat)
    requires |received| == |frames|
    requires forall k :: 0 <= k < |frames| ==> received[k] == if k == lost then None else Some(frames[k])
    ensures XorAt(frames, i) == XorPresent(received, i) ^ (if lost < |frames| then At(frames[lost], i) else 0)
  {
    if frames == [] {
      XorWithZero(0);
    } else {
      var k := |frames| - 1;
      var rest := XorPresent(received[..k], i);
      XorSplits(frames[..k], received[..k], lost, i);
      XorWithZero(rest);
      if lost < k {
        XorSwap(rest, At(frames[lost], i), At(frames[k], i));
      } else {
        XorWithZero(XorPresent(received, i));
      }
    }
  }

  lemma XorSwap(a: byte, b: byte, c: byte)
    ensures (a ^ b) ^ c == (a ^ c) ^ b
  {
  }

  lemma XorOut(a: byte, b: byte)
    ensures (a ^ b) ^ a == b
  {
  }

  /** With one frame missing, the residue of the parity is that frame, zero-padded. */
  lemma ResidueIsLostFrame(frames: seq<bytes>, received: seq<Option<bytes>>, lost: nat)
    requires |received| == |frames| && lost < |frames|
    requires forall k :: 0 <= k < |frames| ==> received[k] == if k == lost then None else Some(frames[k])
    ensures Residue(ParityOf(frames), received) == Pad(frames[lost], MaxLen(frames))
  {
    forall i | 0 <= i < MaxLen(frames)
      ensures ParityOf(frames)[i] ^ XorPresent(received, i) == At(frames[lost], i)
    {
      XorSplits(frames, received, lost, i);
      XorOut(XorPresent(received, i), At(frames[lost], i));
    }
  }

  lemma {:induction false} NoneMissing(received: seq<Option<bytes>>)
    requires forall k :: 0 <= k < |received| ==> received[k].Some?
    ensures Missing(received) == []
  {
    if received != [] {
      NoneMissing(received[..|received| - 1]);
    }
  }

  /** `lost` is the only index not received. */
  ghost predicate OnlyLost(received: seq<Option<bytes>>, lost: nat) {
    lost < |received| && forall k :: 0 <= k < |received| ==> (received[k].None? <==> k == lost)
  }

  lemma {:induction false} MissingOne(received: seq<Option<bytes>>, lost: nat)
    requires OnlyLost(received, lost)
    ensures Missing(received) == [lost]
  {
    var k := |received| - 1;
    if lost == k {
      NoneMissing(received[..k]);
    } else {
      MissingOne(received[..k], lost);
    }
  }

  lemma OneMissing(received: seq<Option<bytes>>)
    requires |Missing(received)| == 1
    ensures OnlyLost(received, Missing(received)[0])
  {
    var m := Missing(received);
    forall k | 0 <= k < |received| ensures received[k].None? <==> k == m[0] {
      MissingIndices(received, k);
    }
    MissingIndices(received, m[0]);
  }

  /** Offsets of the group that never arrived. */
  function Lost(window: nat, order: seq<nat>): set<nat> {
    set i: nat | i < window && i !in order
  }

  /** The decoder after parity has arrived on top of the frames at `order`. */
  ghost function ReceiveAll(d: Decoder, base: u32, frames: seq<bytes>, order: seq<nat>): Decoder
    requires d.WellFormed() && Offsets(order, |frames|)
  {
    Receive(d, base, frames, order).PushParity(Parity(base, |frames|, ParityOf(frames)))
  }

  lemma ReceiveAllState(d: Decoder, base: u32, frames: seq<bytes>, order: seq<nat>)
    requires d.WellFormed() && IsGroup(d.window, base, frames) && BeforeWrap(base, d.window)
    requires Offsets(order, |frames|)
    requires !(d.active && d.base == base)
    ensures var r := ReceiveAll(d, base, frames, order);
            r.base == base && r.parity == Some(ParityOf(frames)) && r.received == Seen(frames, order)
  {
    if order == [] {
      assert Seen(frames, order) == seq(d.window, i => None);
    } else {
      CollectsInside(d, base, frames, order);
    }
  }

  lemma LostIsOnlyLost(frames: seq<bytes>, order: seq<nat>, lost: nat)
    ensures Lost(|frames|, order) == {lost} <==> OnlyLost(Seen(frames, order), lost)
  {
    var seen := Seen(frames, order);
    assert forall k: nat :: k < |frames| ==> (seen[k].None? <==> k in Lost(|frames|, order));
    if Lost(|frames|, order) == {lost} {
      assert lost in Lost(|frames|, order);
    }
    if OnlyLost(seen, lost) {
      assert Lost(|frames|, order) == {lost};
    }
  }

  lemma RecoveredFrame(r: Decoder, base: u32, frames: seq<bytes>, lost: nat)
    requires r.base == base
    requires r.parity == Some(ParityOf(frames)) && |r.received| == |frames| && OnlyLost(r.received, lost)
    requires forall k :: 0 <= k < |frames| && k != lost ==> r.received[k] == Some(frames[k])
    ensures r.Recovered() == Some((SequenceAt(base, lost), Pad(frames[lost], MaxLen(frames))))
  {
    MissingOne(r.received, lost);
    ResidueIsLostFrame(frames, r.received, lost);
  }

  // ---- Groups that cross the wrap ----------------------------------------------

  /** 2^32 + 1 is 641 times a prime, so no window divides it; the solver tries each. */
  lemma NoWindowDivides(window: nat)
    requires IsWindow(window)
    ensures 0x1_0000_0001 % window != 0
  {
  }

  /** An aligned group that crosses the wrap has at least two frames behind it: 2^32 + 1 has no
      divisor that fits a window. */
  lemma TwoBehindWrap(window: nat, base: u32)
    requires IsWindow(window) && base % window == 0 && !BeforeWrap(base, window)
    ensures base + window >= 0x1_0000_0002
  {
    NoWindowDivides(window);
    var q := base / window;
    assert base == q * window;
    if base + window == 0x1_0000_0001 {
      DivUnique(0x1_0000_0001, window, q + 1, 0);
    }
  }

  /** While the decoder is on the group, it holds no frame from behind the wrap. */
  ghost predicate NoneBehindWrap(d: Decoder, base: u32) {
    d.active && d.base == base ==>
      forall k :: 0 <= k < |d.received| && base + k >= 0x1_0000_0000 ==> d.received[k].None?
  }

  lemma FrameBehindWrap(d: Decoder, base: u32, k: nat, payload: bytes)
    requires d.WellFormed() && k < d.window && base + k >= 0x1_0000_0000
    ensures d.PushData(SequenceAt(base, k), payload).base == 0 != base
  {
  }

  lemma {:induction false} NeverBehindWrap(d: Decoder, base: u32, frames: seq<bytes>, order: seq<nat>)
    requires d.WellFormed() && IsGroup(d.window, base, frames) && Offsets(order, |frames|)
    requires !(d.active && d.base == base)
    ensures NoneBehindWrap(Receive(d, base, frames, order), base)
  {
    if order != [] {
      var n := |order| - 1;
      var k := order[n];
      NeverBehindWrap(d, base, frames, order[..n]);
      if base + k >= 0x1_0000_0000 {
        FrameBehindWrap(Receive(d, base, frames, order[..n]), base, k, frames[k]);
      } else {
        PushInGroup(Receive(d, base, frames, order[..n]), base, k, frames[k]);
      }
    }
  }

  /** After any arrivals, repetitions included: a group that ends before the wrap holds exactly
      the frames that came, and one that crosses it never holds a frame from behind it. */
  lemma ReceiveCollects(d: Decoder, base: u32, frames: seq<bytes>, order: seq<nat>)
    requires d.WellFormed() && IsGroup(d.window, base, frames) && Offsets(order, |frames|)
    requires !(d.active && d.base == base)
    ensures var r := Receive(d, base, frames, order);
            && (BeforeWrap(base, d.window) && order != [] ==>
                  r.active && r.base == base && r.received == Seen(frames, order))
            && NoneBehindWrap(r, base)
  {
    NeverBehindWrap(d, base, frames, order);
    if BeforeWrap(base, d.window) && order != [] {
      CollectsInside(d, base, frames, order);
    }
  }

  /** A group that crosses the wrap is never repaired, whatever is lost. */
  lemma CrossingGroupRecoversNothing(d: Decoder, base: u32, frames: seq<bytes>, order: seq<nat>)
    requires d.WellFormed() && IsGroup(d.window, base, frames) && Offsets(order, |frames|)
    requires !(d.active && d.base == base) && !BeforeWrap(base, d.window)
    ensures ReceiveAll(d, base, frames, order).Recovered() == None
  {
    var r := ReceiveAll(d, base, frames, order);
    NeverBehindWrap(d, base, frames, order);
    TwoBehindWrap(d.window, base);
    var w := d.window;
    assert |r.received| == w && r.received[w - 1].None? && r.received[w - 2].None?;
    if |Missing(r.received)| == 1 {
      OneMissing(r.received);
    }
  }

  // ---- What parity recovers ----------------------------------------------------

  /** For every window, aligned base, frame lengths and arrival order (repetitions included):
      when exactly one frame is missing as parity arrives, the decoder returns its sequence and
      its bytes, zero-padded to the longest frame of the group, if and only if the group ends
      before the counter wraps; otherwise it returns nothing. */
  lemma RecoversSingleLoss(d: Decoder, base: u32, frames: seq<bytes>, order: seq<nat>, lost: nat)
    requires d.WellFormed() && IsGroup(d.window, base, frames)
    requires Offsets(order, |frames|)
    requires !(d.active && d.base == base)
    requires Lost(|frames|, order) == {lost}
    ensures lost < |frames|
    ensures ReceiveAll(d, base, frames, order).Recovered()
            == if BeforeWrap(base, d.window) then Some((SequenceAt(base, lost), Pad(frames[lost], MaxLen(frames))))
               else None
  {
    LostIsOnlyLost(frames, order, lost);
    if BeforeWrap(base, d.window) {
      RecoversInside(d, base, frames, order, lost);
    } else {
      CrossingGroupRecoversNothing(d, base, frames, order);
    }
  }

  lemma RecoversInside(d: Decoder, base: u32, frames: seq<bytes>, order: seq<nat>, lost: nat)
    requires d.WellFormed() && IsGroup(d.window, base, frames) && BeforeWrap(base, d.window)
    requires Offsets(order, |frames|)
    requires !(d.active && d.base == base)
    requires OnlyLost(Seen(frames, order), lost)
    ensures ReceiveAll(d, base, frames, order).Recovered()
            == Some((SequenceAt(base, lost), Pad(frames[lost], MaxLen(frames))))
  {
    ReceiveAllState(d, base, frames, order);
    RecoveredFrame(ReceiveAll(d, base, frames, order), base, frames, lost);
  }

  /** ... and with no frame missing, or several, it returns nothing. */
  lemma RecoversNothingElse(d: Decoder, base: u32, frames: seq<bytes>, order: seq<nat>)
    requires d.WellFormed() && IsGroup(d.window, base, frames)
    requires Offsets(order, |frames|)
    requires !(d.active && d.base == base)
    requires |Lost(|frames|, order)| != 1
    ensures ReceiveAll(d, base, frames, order).Recovered() == None
  {
    if BeforeWrap(base, d.window) {
      ReceiveAllState(d, base, frames, order);
      var seen := Seen(frames, order);
      if |Missing(seen)| == 1 {
        OneMissing(seen);
        LostIsOnlyLost(frames, order, Missing(seen)[0]);
      }
    } else {
      CrossingGroupRecoversNothing(d, base, frames, order);
    }
  }

  /** Window 3, base 2^32 - 1, only the first frame lost: the two that arrived are numbered 0
      and 1, land in another group, and nothing is recovered. */
  lemma CrossingGroupLosesFrame(frames: seq<bytes>)
    requires |frames| == 3
    ensures var d := Decoder(3, false, 0, [], None);
            && IsGroup(3, 0xFFFF_FFFF, frames) && Lost(3, [1, 2]) == {0}
            && ReceiveAll(d, 0xFFFF_FFFF, frames, [1, 2]).Recovered() == None
  {
    var d := Decoder(3, false, 0, [], None);
    CrossingGroupRecoversNothing(d, 0xFFFF_FFFF, frames, [1, 2]);
  }

  /** When the window divides 2^32, as the protocol's window of 4 does, no aligned group crosses. */
  lemma DividingWindowNeverCrosses(window: nat, base: u32)
    requires IsWindow(window) && base % window == 0 && 0x1_0000_0000 % window == 0
    ensures BeforeWrap(base, window)
  {
    var q, m := base / window, 0x1_0000_0000 / window;
    assert base == q * window && 0x1_0000_0000 == m * window;
    assert (m - q) * window == 0x1_0000_0000 - base;
    MulAtLeast(m - q, window);
  }

  lemma PadNothing(f: bytes, n: nat)
    requires |f| == n
    ensures Pad(f, n) == f
  {
  }
}

/** Fragment reassembly: slots filled in any order, concatenated once all are there. */
module Fragment {
  import opened Words

  const MAX_FRAGMENTS: u16 := 16
  const SUBHEADER_SIZE: nat := 4

  datatype Error =
    | BufferTooSmall
    | MalformedPayload
    | TooManyFragments
    | FragmentOutOfRange
    | DuplicateFragment
    | IncompleteReassembly

  // ---- The sub-header ----------------------------------------------------------

  datatype FragmentHeader = FragmentHeader(index: u16, total: u16)

  predicate Proper(h: FragmentHeader) {
    h.index < h.total <= MAX_FRAGMENTS
  }

  function HeaderBytes(h: FragmentHeader): (s: seq<byte>)
    ensures |s| == SUBHEADER_SIZE
  {
    BigEndian(h.index, 2) + BigEndian(h.total, 2)
  }

  method EncodeHeader(h: FragmentHeader, buf: array<byte>) returns (r: Result<(), Error>)
    modifies buf
    ensures r == if buf.Length < SUBHEADER_SIZE then Err(BufferTooSmall) else Ok(())
    ensures r.Ok? ==> buf[..] == HeaderBytes(h) + old(buf[SUBHEADER_SIZE..])
    ensures r.Err? ==> buf[..] == old(buf[..])
  {
    if buf.Length < SUBHEADER_SIZE {
      return Err(BufferTooSmall);
    }
    CopyInto(buf, 0, BigEndian(h.index, 2));
    CopyInto(buf, 2, BigEndian(h.total, 2));
    assert buf[..] == buf[..SUBHEADER_SIZE] + buf[SUBHEADER_SIZE..];
    return Ok(());
  }

  function DecodeHeader(buf: seq<byte>): Result<FragmentHeader, Error> {
    if |buf| < SUBHEADER_SIZE then Err(MalformedPayload)
    else
      Pow256Values();
      FromBigEndianBound(buf[0..2]);
      FromBigEndianBound(buf[2..4]);
      var index, total := FromBigEndian(buf[0..2]), FromBigEndian(buf[2..4]);
      if total == 0 || total > MAX_FRAGMENTS then Err(TooManyFragments)
      else if index >= total then Err(FragmentOutOfRange)
      else Ok(FragmentHeader(index, total))
  }

  /** A printed header reads back exactly when it is proper, whatever follows it. */
  lemma HeaderRoundTrip(h: FragmentHeader, rest: seq<byte>)
    ensures DecodeHeader(HeaderBytes(h) + rest) == Ok(h) <==> Proper(h)
  {
    var s := HeaderBytes(h) + rest;
    assert s[0..2] == BigEndian(h.index, 2) && s[2..4] == BigEndian(h.total, 2);
    Pow256Values();
    DecodeBigEndian(h.index, 2);
    DecodeBigEndian(h.total, 2);
  }

  /** Index first, then total, most significant byte first; 1 to 16 fragments; what follows is ignored. */
  lemma HeaderLayout(hiIndex: byte, loIndex: byte, hiTotal: byte, loTotal: byte, rest: seq<byte>)
    ensures var index, total := hiIndex as int * 256 + loIndex as int, hiTotal as int * 256 + loTotal as int;
            DecodeHeader([hiIndex, loIndex, hiTotal, loTotal] + rest) ==
            if total == 0 || total > 16 then Err(TooManyFragments)
            else if index >= total then Err(FragmentOutOfRange)
            else Ok(FragmentHeader(index, total))
  {
    var s := [hiIndex, loIndex, hiTotal, loTotal] + rest;
    assert s[0..2] == [hiIndex, loIndex] && s[2..4] == [hiTotal, loTotal];
    TwoByteField(hiIndex, loIndex);
    TwoByteField(hiTotal, loTotal);
  }

  lemma TwoByteField(hi: byte, lo: byte)
    ensures FromBigEndian([hi, lo]) == hi as int * 256 + lo as int
  {
    assert [hi, lo][..1] == [hi] && [hi][..0] == [];
    assert FromBigEndian([hi]) == FromBigEndian([]) * 256 + hi as int;
  }

  /** Whatever decodes is the print of what it decodes to. */
  lemma HeaderReprint(buf: seq<byte>)
    requires DecodeHeader(buf).Ok?
    ensures Proper(DecodeHeader(buf).value)
    ensures buf[..SUBHEADER_SIZE] == HeaderBytes(DecodeHeader(buf).value)
  {
    EncodeBigEndian(buf[0..2]);
    EncodeBigEndian(buf[2..4]);
    assert buf[..SUBHEADER_SIZE] == buf[0..2] + buf[2..4];
  }

  // ---- Slots -------------------------------------------------------------------

  type Slots = seq<Option<seq<byte>>>

  function Filled(slots: Slots): (n: nat)
    ensures n <= |slots|
  {
    if slots == [] then 0
    else Filled(slots[..|slots| - 1]) + if slots[|slots| - 1].Some? then 1 else 0
  }

  /** The contents of the filled slots, in index order. */
  function Joined(slots: Slots): seq<byte> {
    if slots == [] then []
    else Joined(slots[..|slots| - 1]) + match slots[|slots| - 1]
                                        case None => []
                                        case Some(p) => p
  }

  predicate Complete(slots: Slots) {
    forall i :: 0 <= i < |slots| ==> slots[i].Some?
  }

  function EmptySlots(total: nat): (s: Slots)
    ensures |s| == total
    ensures forall i :: 0 <= i < total ==> s[i] == None
  {
    seq(total, _ => None)
  }

  lemma {:induction false} FilledAll(slots: Slots)
    ensures Filled(slots) == |slots| <==> Complete(slots)
  {
    if slots != [] {
      FilledAll(slots[..|slots| - 1]);
      assert slots == slots[..|slots| - 1] + [slots[|slots| - 1]];
    }
  }

  lemma {:induction false} FilledNone(slots: Slots)
    requires forall i :: 0 <= i < |slots| ==> slots[i] == None
    ensures Filled(slots) == 0
  {
    if slots != [] {
      FilledNone(slots[..|slots| - 1]);
    }
  }

  lemma {:induction false} FillOne(slots: Slots, i: nat, p: seq<byte>)
    requires i < |slots| && slots[i] == None
    ensures Filled(slots[i := Some(p)]) == Filled(slots) + 1
  {
    var n := |slots| - 1;
    if i < n {
      FillOne(slots[..n], i, p);
      assert slots[i := Some(p)][..n] == slots[..n][i := Some(p)];
    } else {
      assert slots[i := Some(p)][..n] == slots[..n];
    }
  }

  // ---- The reassembler ---------------------------------------------------------

  class FragmentReassembler {
    const expectedTotal: u16
    var buffers: Slots
    var received: u16

    /** The counter is the number of filled slots. */
    ghost predicate Valid()
      reads this
    {
      && 0 < expectedTotal <= MAX_FRAGMENTS
      && |buffers| == expectedTotal
      && received == Filled(buffers)
    }

    constructor (total: u16)
      requires 0 < total <= MAX_FRAGMENTS
      ensures Valid() && expectedTotal == total && buffers == EmptySlots(total)
    {
      expectedTotal := total;
      buffers := EmptySlots(total);
      received := 0;
      FilledNone(EmptySlots(total));
    }

    method Insert(index: u16, payload: seq<byte>) returns (r: Result<(), Error>)
      requires Valid()
      modifies this
      ensures Valid() && buffers == Inserted(old(buffers), index, payload)
      ensures r == if index >= expectedTotal then Err(FragmentOutOfRange)
                   else if old(buffers)[index].Some? then Err(DuplicateFragment)
                   else Ok(())
      ensures r.Err? ==> buffers == old(buffers) && received == old(received)
    {
      if index >= expectedTotal {
        return Err(FragmentOutOfRange);
      }
      if buffers[index].Some? {
        return Err(DuplicateFragment);
      }
      FillOne(buffers, index, payload);
      buffers := buffers[index := Some(payload)];
      received := received + 1;
      return Ok(());
    }

    method IsComplete() returns (b: bool)
      requires Valid()
      ensures b <==> Complete(buffers)
    {
      FilledAll(buffers);
      return received == expectedTotal;
    }

    method Finish() returns (r: Result<seq<byte>, Error>)
      requires Valid()
      ensures r == Finished(buffers)
    {
      var complete := IsComplete();
      if !complete {
        return Err(IncompleteReassembly);
      }
      var out := [];
      for i := 0 to |buffers|
        invariant out == Joined(buffers[..i])
      {
        assert buffers[..i + 1][..i] == buffers[..i];
        if buffers[i].Some? {
          out := out + buffers[i].value;
        }
      }
      assert buffers[..|buffers|] == buffers;
      return Ok(out);
    }
  }

  /** `FragmentReassembler::new`. */
  method NewReassembler(total: u16) returns (r: Result<FragmentReassembler, Error>)
    ensures r.Ok? <==> 0 < total <= 16
    ensures r.Err? ==> r.error == TooManyFragments
    ensures r.Ok? ==> fresh(r.value) && r.value.Valid() && r.value.expectedTotal == total
                      && r.value.buffers == EmptySlots(total)
  {
    if total == 0 || total > MAX_FRAGMENTS {
      return Err(TooManyFragments);
    }
    var f := new FragmentReassembler(total);
    return Ok(f);
  }

  // ---- Any order of arrival ----------------------------------------------------

  datatype Arrival = Arrival(index: u16, payload: seq<byte>)

  /** A rejected insert changes nothing. */
  function Inserted(slots: Slots, index: u16, payload: seq<byte>): (s: Slots)
    ensures |s| == |slots|
  {
    if index >= |slots| || slots[index].Some? then slots else slots[index := Some(payload)]
  }

  function Finished(slots: Slots): Result<seq<byte>, Error> {
    if Complete(slots) then Ok(Joined(slots)) else Err(IncompleteReassembly)
  }

  function After(total: nat, arrivals: seq<Arrival>): (s: Slots)
    ensures |s| == total
  {
    if arrivals == [] then EmptySlots(total)
    else
      var n := |arrivals| - 1;
      Inserted(After(total, arrivals[..n]), arrivals[n].index, arrivals[n].payload)
  }

  predicate IsFirst(arrivals: seq<Arrival>, k: nat) {
    && k < |arrivals|
    && (forall j :: 0 <= j < k ==> arrivals[j].index != arrivals[k].index)
  }

  predicate Arrived(arrivals: seq<Arrival>, i: nat) {
    exists k :: 0 <= k < |arrivals| && arrivals[k].index == i
  }

  /** A slot holds the first payload that arrived for it, and nothing when none did. */
  lemma {:induction false} SlotHoldsFirst(total: nat, arrivals: seq<Arrival>, i: nat)
    requires i < total
    ensures After(total, arrivals)[i].Some? <==> Arrived(arrivals, i)
    ensures forall k: nat :: IsFirst(arrivals, k) && arrivals[k].index == i ==>
              After(total, arrivals)[i] == Some(arrivals[k].payload)
  {
    if arrivals != [] {
      var n := |arrivals| - 1;
      var before := arrivals[..n];
      SlotHoldsFirst(total, before, i);
      assert arrivals[n].index == i ==> Arrived(arrivals, i);
      if Arrived(before, i) {
        var k :| 0 <= k < n && before[k].index == i;
        assert arrivals[k].index == i;
      }
      forall k: nat | IsFirst(arrivals, k) && arrivals[k].index == i
        ensures After(total, arrivals)[i] == Some(arrivals[k].payload)
      {
        if k < n {
          assert IsFirst(before, k);
          assert before[k].index == i;
          assert Arrived(before, i);
        } else {
          assert !Arrived(before, i);
        }
      }
    }
  }

  /** Every arrival for a slot of the frame carries that slot's piece. */
  predicate PiecesOf(pieces: seq<seq<byte>>, arrivals: seq<Arrival>) {
    forall k :: 0 <= k < |arrivals| && arrivals[k].index < |pieces| ==> arrivals[k].payload == pieces[arrivals[k].index]
  }

  function Whole(pieces: seq<seq<byte>>): seq<byte> {
    if pieces == [] then [] else Whole(pieces[..|pieces| - 1]) + pieces[|pieces| - 1]
  }

  lemma {:induction false} SlotIsPiece(pieces: seq<seq<byte>>, arrivals: seq<Arrival>, i: nat)
    requires i < |pieces| && PiecesOf(pieces, arrivals)
    ensures After(|pieces|, arrivals)[i] == if Arrived(arrivals, i) then Some(pieces[i]) else None
  {
    SlotHoldsFirst(|pieces|, arrivals, i);
    if Arrived(arrivals, i) {
      var k := FirstFor(arrivals, i);
    }
  }

  lemma {:induction false} FirstFor(arrivals: seq<Arrival>, i: nat) returns (k: nat)
    requires Arrived(arrivals, i)
    ensures IsFirst(arrivals, k) && arrivals[k].index == i
  {
    var n := |arrivals| - 1;
    if Arrived(arrivals[..n], i) {
      k := FirstFor(arrivals[..n], i);
    } else {
      k := n;
      assert forall j :: 0 <= j < n ==> arrivals[..n][j].index != i;
    }
  }

  lemma {:induction false} JoinedIsWhole(slots: Slots, pieces: seq<seq<byte>>)
    requires |slots| == |pieces| && forall i :: 0 <= i < |slots| ==> slots[i] == Some(pieces[i])
    ensures Joined(slots) == Whole(pieces)
  {
    if slots != [] {
      JoinedIsWhole(slots[..|slots| - 1], pieces[..|pieces| - 1]);
    }
  }

  /** Whatever the order, the repetitions and the stray indices, finishing gives the whole frame
      exactly when every fragment arrived, and reports an incomplete frame otherwise. */
  lemma ReassemblyIsOrderFree(pieces: seq<seq<byte>>, arrivals: seq<Arrival>)
    requires PiecesOf(pieces, arrivals)
    ensures Finished(After(|pieces|, arrivals))
            == if forall i :: 0 <= i < |pieces| ==> Arrived(arrivals, i) then Ok(Whole(pieces))
               else Err(IncompleteReassembly)
  {
    var slots := After(|pieces|, arrivals);
    forall i | 0 <= i < |pieces| ensures slots[i] == if Arrived(arrivals, i) then Some(pieces[i]) else None {
      SlotIsPiece(pieces, arrivals, i);
    }
    if Complete(slots) {
      assert forall i :: 0 <= i < |pieces| ==> Arrived(arrivals, i);
      JoinedIsWhole(slots, pieces);
    }
  }

  /** Two arrival orders of the same fragments leave the same slots. */
  lemma SameFragmentsSameSlots(pieces: seq<seq<byte>>, a: seq<Arrival>, b: seq<Arrival>)
    requires PiecesOf(pieces, a) && PiecesOf(pieces, b)
    requires forall i :: 0 <= i < |pieces| ==> (Arrived(a, i) <==> Arrived(b, i))
    ensures After(|pieces|, a) == After(|pieces|, b)
  {
    forall i | 0 <= i < |pieces| ensures After(|pieces|, a)[i] == After(|pieces|, b)[i] {
      SlotIsPiece(pieces, a, i);
      SlotIsPiece(pieces, b, i);
    }
  }
}

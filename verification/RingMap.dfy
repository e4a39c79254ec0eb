/** The ring against an unbounded map from positions to samples: when the two agree, and what goes wrong when they
    do not. One channel at a time; positions are unbounded, and the ring sees them modulo 2^64. */
module RingMap {
  import opened Machine
  import opened Slots
  import opened Ring
  import opened RingRefinement

  datatype TimedOp =
    | Put(readPos: int, index: int, packet: Packet)
    | Take(readPos: int, frames: nat)

  function OnRing(t: TimedOp): Op {
    match t
    case Put(readPos, _, p) => Write(WrapU64(readPos), p)
    case Take(readPos, frames) => Read(WrapU64(readPos), frames)
  }

  type Pending = map<int, Sample>

  function Get(pending: Pending, q: int): Option<Sample> { if q in pending then Some(pending[q]) else None }

  /** The first n frames of a packet go to their positions if these are inside the ring's reach. */
  function MapPut(pending: Pending, readPos: int, len: nat, index: int, p: Packet, ch: nat, n: nat): Pending
    requires n <= Frames(p)
  {
    if n == 0 then pending
    else
      var prev := MapPut(pending, readPos, len, index, p, ch, n - 1);
      var q, s := index + n - 1, SampleOf(p, ch, n - 1);
      if readPos <= q < readPos + len && s.Some? then prev[q := s.value] else prev
  }

  function MapTake(pending: Pending, readPos: int, n: nat): Pending {
    map q | q in pending && !(readPos <= q < readPos + n) :: pending[q]
  }

  function MapStep(pending: Pending, len: nat, t: TimedOp, ch: nat): Pending
  {
    match t
    case Put(readPos, index, p) => MapPut(pending, readPos, len, index, p, ch, Frames(p))
    case Take(readPos, frames) => MapTake(pending, readPos, frames)
  }

  /** A read gets, frame by frame, the last sample stored for its position, or a gap. */
  function MapRead(pending: Pending, readPos: int, n: nat): seq<Option<Sample>> {
    seq(n, f => Get(pending, readPos + f))
  }

  function MapOutcome(pending: Pending, t: TimedOp): seq<Option<Sample>> {
    if t.Take? then MapRead(pending, t.readPos, t.frames) else []
  }

  // ---- what the ring holds ----

  /** The slot of an unbounded position. */
  function SlotFor(q: int, len: nat): (slot: nat)
    requires len > 0
    ensures slot < len
  {
    q % len
  }

  /** No two pending positions share a slot. */
  ghost predicate Apart(pending: Pending, len: nat)
    requires len > 0
  {
    forall q, x :: q in pending && x in pending && SlotFor(q, len) == SlotFor(x, len) ==> q == x
  }

  /** Some pending position has the slot. */
  ghost predicate Owned(pending: Pending, len: nat, slot: nat)
    requires len > 0
  {
    exists q :: q in pending && SlotFor(q, len) == slot
  }

  /** The channel holds exactly the pending samples, each in its slot. */
  ghost predicate Holds(lane: Lane, pending: Pending) {
    && |lane| > 0 && PowerOfTwo(|lane|) && |lane| <= TWO_63
    && Apart(pending, |lane|)
    && (forall q :: q in pending ==> lane[SlotFor(q, |lane|)] == Some(pending[q]))
    && (forall s: nat :: s < |lane| && lane[s].Some? ==> Owned(pending, |lane|, s))
  }

  lemma FreshHoldsNothing(lane: Lane)
    requires |lane| > 0 && PowerOfTwo(|lane|) && |lane| <= TWO_63 && forall s :: 0 <= s < |lane| ==> lane[s] == None
    ensures Holds(lane, map[])
  {
  }

  // ---- slots of a range ----

  /** Positions less than one ring apart have different slots. */
  lemma NearSlots(p: int, q: int, len: nat)
    requires len > 0 && SlotFor(p, len) == SlotFor(q, len) && Abs(p - q) < len
    ensures p == q
  {
    SlotsDiffer(p, q, len);
  }

  /** A slot that frame f of a read visits was first visited less than one ring after its start. */
  lemma FirstVisit(r: int, f: nat, len: nat) returns (first: nat)
    requires len > 0
    ensures first <= f && first < len && SlotFor(r + first, len) == SlotFor(r + f, len)
  {
    first := f % len;
    var turns := f / len;
    assert f == turns * len + first;
    assert r + f == (r + first) + turns * len;
    SameSlot(r + first, turns, len);
    assert first <= f by {
      MulMonotone(0, turns, len);
    }
  }

  /** Whole turns of the ring do not change the slot. */
  lemma SameSlot(p: int, turns: int, len: nat)
    requires len > 0
    ensures SlotFor(p + turns * len, len) == SlotFor(p, len)
  {
    var d := p / len;
    assert p == d * len + p % len;
    assert p + turns * len == (d + turns) * len + p % len;
    RemainderIs(p + turns * len, len, d + turns, p % len);
  }

  /** The slot that frame f of a read from r visits. */
  function VisitSlot(r: int, f: nat, len: nat): (slot: nat)
    requires len > 0
    ensures slot < len
  {
    SlotFor(r + f, len)
  }

  /** A read of n frames from r visits the slot of position q. */
  ghost predicate Visited(q: int, r: int, n: nat, len: nat)
    requires len > 0
  {
    exists f: nat :: f < n && VisitSlot(r, f, len) == SlotFor(q, len)
  }

  /** What such a read leaves in the ring. */
  ghost function Unvisited(pending: Pending, r: int, n: nat, len: nat): Pending
    requires len > 0
  {
    map q | q in pending && !Visited(q, r, n, len) :: pending[q]
  }

  // ---- one read ----

  lemma ReadSlotIs(lane: Lane, r: int, f: nat)
    requires |lane| > 0 && PowerOfTwo(|lane|) && |lane| <= TWO_63
    ensures ReadSlot(lane, WrapU64(r), f) == VisitSlot(r, f, |lane|)
  {
    WrappingIsModular(WrapU64(r), WrapU64(f));
    WrapSum(r, f);
    WrapKeepsSlot(r + f, |lane|);
  }

  lemma WrapSum(x: int, y: int)
    ensures WrapU64(WrapU64(x) + WrapU64(y)) == WrapU64(x + y)
  {
  }

  lemma {:induction false} ClearSlot(lane: Lane, pending: Pending, slot: nat, left: Pending)
    requires Holds(lane, pending) && slot < |lane|
    requires left == map q | q in pending && SlotFor(q, |lane|) != slot :: pending[q]
    ensures Holds(lane[slot := None], left)
  {
    hide PowerOfTwo, SlotFor;
    var after := lane[slot := None];
    forall s: nat | s < |after| && after[s].Some?
      ensures Owned(left, |after|, s)
    {
      assert Owned(pending, |lane|, s);
      var q :| q in pending && SlotFor(q, |lane|) == s;
      assert q in left;
    }
  }

  lemma {:induction false} OneMoreVisit(pending: Pending, r: int, n: nat, len: nat)
    requires len > 0
    ensures var left := Unvisited(pending, r, n, len);
      Unvisited(pending, r, n + 1, len) == map q | q in left && SlotFor(q, len) != VisitSlot(r, n, len) :: left[q]
  {
    hide SlotFor, VisitSlot;
    forall q | q in pending
      ensures Visited(q, r, n + 1, len) <==> Visited(q, r, n, len) || SlotFor(q, len) == VisitSlot(r, n, len)
    {
    }
  }

  lemma ConsumedStep(lane: Lane, r: int, n: nat)
    requires |lane| > 0 && PowerOfTwo(|lane|) && |lane| <= TWO_63 && n > 0
    ensures Consumed(lane, WrapU64(r), n)
      == Consumed(lane, WrapU64(r), n - 1)[VisitSlot(r, n - 1, |lane|) := None]
  {
    ReadSlotIs(lane, r, n - 1);
    hide ReadSlot, PowerOfTwo, VisitSlot, WrapU64;
  }

  /** Nothing is visited by a read of no frames. */
  lemma NoVisit(pending: Pending, r: int, len: nat)
    requires len > 0
    ensures Unvisited(pending, r, 0, len) == pending
  {
  }

  /** Whatever the read position, a read takes out exactly the samples whose slots it visits. */
  lemma {:induction false} TakeHolds(lane: Lane, pending: Pending, r: int, n: nat)
    requires Holds(lane, pending)
    ensures Holds(Consumed(lane, WrapU64(r), n), Unvisited(pending, r, n, |lane|))
    decreases n
  {
    assert |lane| > 0 && PowerOfTwo(|lane|) && |lane| <= TWO_63;
    hide Holds, Unvisited, PowerOfTwo, SlotFor, VisitSlot, WrapU64;
    if n == 0 {
      NoVisit(pending, r, |lane|);
    } else {
      hide Consumed;
      TakeHolds(lane, pending, r, n - 1);
      ConsumedStep(lane, r, n);
      OneMoreVisit(pending, r, n - 1, |lane|);
      ClearSlot(Consumed(lane, WrapU64(r), n - 1), Unvisited(pending, r, n - 1, |lane|), VisitSlot(r, n - 1, |lane|),
                Unvisited(pending, r, n, |lane|));
    }
  }

  /** A frame finds the pending sample of its slot, if the read has not taken it before. */
  lemma {:induction false} FoundIs(lane: Lane, pending: Pending, r: int, f: nat, q: int)
    requires Holds(lane, pending) && q in pending
    requires VisitSlot(r, f, |lane|) == SlotFor(q, |lane|) && !Visited(q, r, f, |lane|)
    ensures Found(lane, WrapU64(r), f) == Some(pending[q])
  {
    hide PowerOfTwo, SlotFor, VisitSlot, WrapU64, Visited;
    TakeHolds(lane, pending, r, f);
    ReadSlotIs(lane, r, f);
    assert q in Unvisited(pending, r, f, |lane|);
  }

  /** It finds nothing if no pending sample has its slot, or the read has taken it before. */
  lemma {:induction false} FoundNothing(lane: Lane, pending: Pending, r: int, f: nat)
    requires Holds(lane, pending)
    requires forall q :: q in pending && VisitSlot(r, f, |lane|) == SlotFor(q, |lane|) ==> Visited(q, r, f, |lane|)
    ensures Found(lane, WrapU64(r), f) == None
  {
    hide PowerOfTwo, SlotFor, VisitSlot, WrapU64, Visited;
    TakeHolds(lane, pending, r, f);
    ReadSlotIs(lane, r, f);
    var left := Unvisited(pending, r, f, |lane|);
    assert Found(lane, WrapU64(r), f).Some? ==> Owned(left, |lane|, VisitSlot(r, f, |lane|));
  }

  lemma {:induction false} DeliveredAt(lane: Lane, pos: u64, n: nat, f: nat)
    requires |lane| > 0 && f < n
    ensures Delivered(lane, pos, n)[f] == Found(lane, pos, f)
    decreases n
  {
    hide Found;
    if f < n - 1 {
      DeliveredAt(lane, pos, n - 1, f);
    }
  }

  /** Every pending sample whose slot the read visits lies within one ring of its start. */
  ghost predicate Aligned(pending: Pending, len: nat, r: int, n: nat)
    requires len > 0
  {
    forall q, f: nat :: q in pending && f < n && VisitSlot(r, f, len) == SlotFor(q, len) ==> r <= q < r + len
  }

  /** A frame of an aligned read finds what the map has for its position. */
  lemma {:induction false} AlignedFrame(lane: Lane, pending: Pending, r: int, n: nat, f: nat)
    requires Holds(lane, pending) && Aligned(pending, |lane|, r, n) && f < n
    ensures Found(lane, WrapU64(r), f) == Get(pending, r + f)
  {
    var len, p := |lane|, r + f;
    hide PowerOfTwo, WrapU64, Found;
    if p in pending {
      forall e: nat | e < f
        ensures VisitSlot(r, e, len) != SlotFor(p, len)
      {
        if VisitSlot(r, e, len) == SlotFor(p, len) {
          NearSlots(r + e, p, len);
        }
      }
      FoundIs(lane, pending, r, f, p);
    } else {
      forall q | q in pending && VisitSlot(r, f, len) == SlotFor(q, len)
        ensures Visited(q, r, f, len)
      {
        if q > p {
          NearSlots(p, q, len);
        }
        assert VisitSlot(r, q - r, len) == SlotFor(q, len);
      }
      FoundNothing(lane, pending, r, f);
    }
  }

  /** A visited sample that is not within one ring of the start is delivered where the map has a gap. */
  lemma {:induction false} MisalignedFrame(lane: Lane, pending: Pending, r: int, n: nat, q: int, f: nat)
      returns (first: nat)
    requires Holds(lane, pending) && q in pending && f < n
    requires VisitSlot(r, f, |lane|) == SlotFor(q, |lane|) && !(r <= q < r + |lane|)
    ensures first < n && Found(lane, WrapU64(r), first) == Some(pending[q]) && Get(pending, r + first) == None
  {
    var len := |lane|;
    first := FirstVisit(r, f, len);
    hide PowerOfTwo, WrapU64, Found;
    forall e: nat | e < first
      ensures VisitSlot(r, e, len) != SlotFor(q, len)
    {
      if VisitSlot(r, e, len) == SlotFor(q, len) {
        NearSlots(r + e, r + first, len);
      }
    }
    FoundIs(lane, pending, r, first, q);
  }

  /** Exactly when a read agrees with the map, whatever its read position and length. */
  lemma {:induction false} ReadAgreesIffAligned(lane: Lane, pending: Pending, r: int, n: nat)
    requires Holds(lane, pending)
    ensures Delivered(lane, WrapU64(r), n) == MapRead(pending, r, n) <==> Aligned(pending, |lane|, r, n)
  {
    var got, want := Delivered(lane, WrapU64(r), n), MapRead(pending, r, n);
    hide PowerOfTwo, WrapU64, Found, Delivered, Holds, VisitSlot, SlotFor;
    forall f: nat | f < n
      ensures got[f] == Found(lane, WrapU64(r), f)
    {
      DeliveredAt(lane, WrapU64(r), n, f);
    }
    if Aligned(pending, |lane|, r, n) {
      forall f: nat | f < n
        ensures got[f] == want[f]
      {
        AlignedFrame(lane, pending, r, n, f);
      }
    } else {
      var q, f: nat :| q in pending && f < n && VisitSlot(r, f, |lane|) == SlotFor(q, |lane|) && !(r <= q < r + |lane|);
      var first := MisalignedFrame(lane, pending, r, n, q, f);
      assert got[first] != want[first];
    }
  }

  /** An aligned read takes from the ring exactly what it takes from the map. */
  lemma {:induction false} AlignedTakes(pending: Pending, len: nat, r: int, n: nat)
    requires len > 0 && Aligned(pending, len, r, n)
    ensures Unvisited(pending, r, n, len) == MapTake(pending, r, n)
  {
    forall q | q in pending
      ensures Visited(q, r, n, len) <==> r <= q < r + n
    {
      if r <= q < r + n {
        assert VisitSlot(r, q - r, len) == SlotFor(q, len);
      }
      if Visited(q, r, n, len) {
        var f: nat :| f < n && VisitSlot(r, f, len) == SlotFor(q, len);
        var first := FirstVisit(r, f, len);
        NearSlots(r + first, q, len);
      }
    }
  }

  /** A reader that passes a sample without taking it finds it again, a whole number of rings away, in either
      direction, where the map has a gap. */
  lemma {:induction false} PassedSampleComesBack(lane: Lane, pending: Pending, q: int, turns: int)
    requires Holds(lane, pending) && q in pending && turns != 0
    ensures Delivered(lane, WrapU64(q + turns * |lane|), 1) == [Some(pending[q])]
    ensures MapRead(pending, q + turns * |lane|, 1) == [None]
  {
    var len, r := |lane|, q + turns * |lane|;
    SameSlot(q, turns, len);
    NoTurn(turns, len);
    hide PowerOfTwo, WrapU64, Found;
    assert VisitSlot(r, 0, len) == SlotFor(q, len);
    FoundIs(lane, pending, r, 0, q);
    DeliveredAt(lane, WrapU64(r), 1, 0);
    assert Get(pending, r) == None;
  }

  // ---- the caller's buffer ----

  /** Every pending sample other than silence whose slot the read visits lies within one ring of its start. */
  ghost predicate AlignedSound(pending: Pending, len: nat, r: int, n: nat)
    requires len > 0
  {
    forall q, f: nat :: q in pending && f < n && VisitSlot(r, f, len) == SlotFor(q, len) && pending[q] != 0 ==>
      r <= q < r + len
  }

  /** Channel ch of the buffer holds, frame by frame, the last sample stored for its position, or silence. */
  ghost predicate BufferIsMap(buf: seq<Sample>, width: nat, ch: nat, pending: Pending, r: int, n: nat) {
    forall f: nat :: f < n ==> PlaysAt(buf, f * width + ch, Get(pending, r + f))
  }

  /** What a frame finds sounds like what the map has, if the misplaced samples are silence. */
  lemma {:induction false} FrameSoundsRight(lane: Lane, pending: Pending, r: int, n: nat, f: nat)
    requires Holds(lane, pending) && AlignedSound(pending, |lane|, r, n) && f < n
    ensures Found(lane, WrapU64(r), f) == Get(pending, r + f)
      || (Found(lane, WrapU64(r), f) in {None, Some(0)} && Get(pending, r + f) in {None, Some(0)})
  {
    var len, p := |lane|, r + f;
    hide PowerOfTwo, WrapU64, Found;
    if q :| q in pending && VisitSlot(r, f, len) == SlotFor(q, len) {
      if Visited(q, r, f, len) {
        SlotIsTaken(lane, pending, r, f, q);
        VisitedIsNotDue(pending, len, r, n, f, q);
      } else {
        FoundIs(lane, pending, r, f, q);
        FirstFindIsDue(pending, len, r, n, f, q);
      }
    } else {
      FoundNothing(lane, pending, r, f);
      if p in pending {
        assert false;
      }
    }
  }

  lemma {:induction false} SlotIsTaken(lane: Lane, pending: Pending, r: int, f: nat, q: int)
    requires Holds(lane, pending) && q in pending && VisitSlot(r, f, |lane|) == SlotFor(q, |lane|)
    requires Visited(q, r, f, |lane|)
    ensures Found(lane, WrapU64(r), f) == None
  {
    hide PowerOfTwo, WrapU64, Found, Visited, SlotFor, VisitSlot;
    FoundNothing(lane, pending, r, f);
  }

  /** A position whose slot an earlier frame visited is a ring or more ahead, so it holds nothing or silence. */
  lemma {:induction false} VisitedIsNotDue(pending: Pending, len: nat, r: int, n: nat, f: nat, q: int)
    requires len > 0 && AlignedSound(pending, len, r, n) && f < n && Visited(q, r, f, len)
    requires VisitSlot(r, f, len) == SlotFor(q, len)
    ensures Get(pending, r + f) in {None, Some(0)}
  {
    var e: nat :| e < f && VisitSlot(r, e, len) == SlotFor(q, len);
    if f < len {
      NearSlots(r + e, r + f, len);
    }
    assert r + f in pending ==> VisitSlot(r, f, len) == SlotFor(r + f, len);
  }

  /** The first frame to visit the slot of a sample is the one that is due for it, if that is within one ring. */
  lemma {:induction false} FirstFindIsDue(pending: Pending, len: nat, r: int, n: nat, f: nat, q: int)
    requires len > 0 && AlignedSound(pending, len, r, n) && f < n && q in pending && !Visited(q, r, f, len)
    requires VisitSlot(r, f, len) == SlotFor(q, len) && Apart(pending, len)
    ensures q == r + f || (pending[q] == 0 && r + f !in pending)
  {
    if r <= q < r + len && q != r + f {
      assert VisitSlot(r, q - r, len) == SlotFor(q, len);
      NearSlots(r + f, q, len);
    }
    assert r + f in pending ==> SlotFor(r + f, len) == SlotFor(q, len);
  }

  /** Exactly when the buffer a read fills is what the map says, whatever the read position and length: silence is the
      one sample that may be misplaced, because a gap is played as silence too. */
  lemma {:induction false} BufferIsMapIff(buf: seq<Sample>, lanes: seq<Lane>, pending: Pending, r: int, width: nat,
      n: nat, ch: nat)
    requires ch < width <= |lanes| && (forall c :: 0 <= c < width ==> |lanes[c]| > 0) && Holds(lanes[ch], pending)
    requires Plays(buf, lanes, WrapU64(r), width, n)
    ensures BufferIsMap(buf, width, ch, pending, r, n) <==> AlignedSound(pending, |lanes[ch]|, r, n)
  {
    var lane := lanes[ch];
    hide PowerOfTwo, WrapU64, Found, Holds, VisitSlot, SlotFor;
    forall f: nat | f < n
      ensures PlaysAt(buf, f * width + ch, Found(lane, WrapU64(r), f))
    {
    }
    if AlignedSound(pending, |lane|, r, n) {
      forall f: nat | f < n
        ensures PlaysAt(buf, f * width + ch, Get(pending, r + f))
      {
        FrameSoundsRight(lane, pending, r, n, f);
      }
    } else {
      var q, f: nat :| q in pending && f < n && VisitSlot(r, f, |lane|) == SlotFor(q, |lane|)
                       && pending[q] != 0 && !(r <= q < r + |lane|);
      var first := MisalignedFrame(lane, pending, r, n, q, f);
      assert !PlaysAt(buf, first * width + ch, Get(pending, r + first));
    }
  }

  // ---- one packet ----

  /** The gates accept exactly the positions in [readPos, readPos + len). */
  lemma GateExact(readPos: int, q: int, len: nat)
    requires -TWO_63 <= q - readPos < TWO_63 && len <= TWO_63
    ensures Accepted(WrapU64(readPos), WrapU64(q), len) <==> readPos <= q < readPos + len
  {
    var d := q - readPos;
    var a, b := WrapU64(readPos), WrapU64(q);
    assert b == a + d || b == a + d - TWO_64 || b == a + d + TWO_64 by {
      WordsApart(readPos, q);
    }
  }

  lemma WordsApart(x: int, y: int)
    requires -TWO_63 <= y - x < TWO_63
    ensures var a, b, d := WrapU64(x), WrapU64(y), y - x;
            b == a + d || b == a + d - TWO_64 || b == a + d + TWO_64
  {
  }

  lemma PositionWraps(p: Packet, index: int, k: nat)
    requires p.index == WrapU64(index)
    ensures PositionOf(p, k) == WrapU64(index + k)
  {
    WrappingIsModular(p.index, WrapU64(k));
    WrapSum(index, k);
  }

  /** The packet's index is the given position, and all its frames are within half the u64 range of the read
      position: further away a u64 cannot tell ahead from behind. */
  ghost predicate InRange(r: int, index: int, p: Packet) {
    p.index == WrapU64(index) && -TWO_63 <= index - r && index - r + Frames(p) <= TWO_63
  }

  /** The frame carries a sample that passes the gates. */
  predicate Stores(r: int, len: nat, index: int, p: Packet, ch: nat, j: nat)
    requires j < Frames(p)
  {
    r <= index + j < r + len && SampleOf(p, ch, j).Some?
  }

  /** None of the first n frames is stored on the slot of another pending position. */
  ghost predicate NoClash(pending: Pending, len: nat, r: int, index: int, p: Packet, ch: nat, n: nat)
    requires len > 0 && n <= Frames(p)
  {
    forall j: nat, x | j < n && x in pending && VisitSlot(index, j, len) == SlotFor(x, len) ::
      Stores(r, len, index, p, ch, j) ==> x == index + j
  }

  lemma {:induction false} StoreHolds(lane: Lane, pending: Pending, q: int, v: Sample)
    requires Holds(lane, pending)
    requires forall x :: x in pending && SlotFor(q, |lane|) == SlotFor(x, |lane|) ==> x == q
    ensures Holds(lane[SlotFor(q, |lane|) := Some(v)], pending[q := v])
  {
    hide PowerOfTwo, SlotFor;
    var len, lane', pending' := |lane|, lane[SlotFor(q, |lane|) := Some(v)], pending[q := v];
    forall s: nat | s < len && lane'[s].Some?
      ensures Owned(pending', len, s)
    {
      if s == SlotFor(q, len) {
        assert q in pending';
      } else {
        assert Owned(pending, len, s);
        var x :| x in pending && SlotFor(x, len) == s;
        assert x in pending';
      }
    }
  }

  /** One frame goes through the gates on the ring just when it goes to the map. */
  lemma {:induction false} FrameHolds(lane: Lane, pending: Pending, r: int, q: int, pos: u64, s: Option<Sample>)
    requires Holds(lane, pending) && pos == WrapU64(q) && -TWO_63 <= q - r < TWO_63
    requires r <= q < r + |lane| && s.Some? ==>
      forall x :: x in pending && SlotFor(q, |lane|) == SlotFor(x, |lane|) ==> x == q
    ensures Holds(if Accepted(WrapU64(r), pos, |lane|) && s.Some? then lane[pos % |lane| := s] else lane,
                  if r <= q < r + |lane| && s.Some? then pending[q := s.value] else pending)
  {
    GateExact(r, q, |lane|);
    WrapKeepsSlot(q, |lane|);
    assert pos % |lane| == SlotFor(q, |lane|);
    hide Holds, WrapU64, Accepted, PowerOfTwo, SlotFor;
    if r <= q < r + |lane| && s.Some? {
      StoreHolds(lane, pending, q, s.value);
    }
  }

  /** The map after n frames has the old positions and those of the stored frames. */
  lemma {:induction false} MapPutKeys(pending: Pending, r: int, len: nat, index: int, p: Packet, ch: nat, n: nat)
    requires n <= Frames(p)
    ensures var after := MapPut(pending, r, len, index, p, ch, n);
      && (forall x :: x in pending ==> x in after)
      && (forall x :: x in after ==> x in pending || (index <= x < index + n && r <= x < r + len))
      && (forall j: nat :: j < n && Stores(r, len, index, p, ch, j) ==> index + j in after)
    decreases n
  {
    hide SampleOf;
    if n > 0 {
      MapPutKeys(pending, r, len, index, p, ch, n - 1);
    }
  }

  lemma {:induction false} FewerClashes(pending: Pending, len: nat, r: int, index: int, p: Packet, ch: nat, n: nat)
    requires len > 0 && 0 < n <= Frames(p)
    requires NoClash(pending, len, r, index, p, ch, n)
    ensures NoClash(pending, len, r, index, p, ch, n - 1)
  {
    hide Stores, SlotFor, VisitSlot;
  }

  lemma {:induction false} PutHolds(lane: Lane, pending: Pending, r: int, index: int, p: Packet, ch: nat, n: nat)
    requires Holds(lane, pending) && n <= Frames(p) && InRange(r, index, p)
    requires NoClash(pending, |lane|, r, index, p, ch, n)
    ensures Holds(Written(lane, WrapU64(r), p, ch, n), MapPut(pending, r, |lane|, index, p, ch, n))
    decreases n
  {
    assert |lane| > 0;
    hide Holds, WrapU64, SampleOf, PositionOf, SlotFor, NoClash, Accepted, PowerOfTwo;
    if n > 0 {
      var before, q := MapPut(pending, r, |lane|, index, p, ch, n - 1), index + n - 1;
      FewerClashes(pending, |lane|, r, index, p, ch, n);
      PutHolds(lane, pending, r, index, p, ch, n - 1);
      PositionWraps(p, index, n - 1);
      StoredSlotIsFree(pending, |lane|, r, index, p, ch, n);
      FrameHolds(Written(lane, WrapU64(r), p, ch, n - 1), before, r, q, PositionOf(p, n - 1),
                 SampleOf(p, ch, n - 1));
    }
  }

  /** Frames of one packet never clash with each other: they are less than one ring apart. */
  lemma {:induction false} StoredSlotIsFree(pending: Pending, len: nat, r: int, index: int, p: Packet, ch: nat, n: nat)
    requires len > 0 && 0 < n <= Frames(p)
    requires NoClash(pending, len, r, index, p, ch, n)
    ensures Stores(r, len, index, p, ch, n - 1) ==> (
      var before := MapPut(pending, r, len, index, p, ch, n - 1);
      forall x | x in before && SlotFor(index + n - 1, len) == SlotFor(x, len) :: x == index + n - 1)
  {
    MapPutKeys(pending, r, len, index, p, ch, n - 1);
    var before := MapPut(pending, r, len, index, p, ch, n - 1);
    hide SampleOf, MapPut;
    forall x | x in before && SlotFor(index + n - 1, len) == SlotFor(x, len)
               && Stores(r, len, index, p, ch, n - 1)
      ensures x == index + n - 1
    {
      if x in pending {
        assert VisitSlot(index, n - 1, len) == SlotFor(x, len);
      } else {
        NearSlots(x, index + n - 1, len);
      }
    }
  }

  /** Exactly when writing a packet keeps ring and map together. */
  lemma {:induction false} PutHoldsIffNoClash(lane: Lane, pending: Pending, r: int, index: int, p: Packet, ch: nat)
    requires Holds(lane, pending) && InRange(r, index, p)
    ensures Holds(Written(lane, WrapU64(r), p, ch, Frames(p)),
                  MapPut(pending, r, |lane|, index, p, ch, Frames(p)))
      <==> NoClash(pending, |lane|, r, index, p, ch, Frames(p))
  {
    var len, n := |lane|, Frames(p);
    hide SampleOf, MapPut, Written, WrapU64, PowerOfTwo, SlotFor;
    if NoClash(pending, len, r, index, p, ch, n) {
      PutHolds(lane, pending, r, index, p, ch, n);
    } else {
      var j: nat, x :| j < n && Stores(r, len, index, p, ch, j) && x in pending
                       && VisitSlot(index, j, len) == SlotFor(x, len) && x != index + j;
      MapPutKeys(pending, r, len, index, p, ch, n);
      var after := MapPut(pending, r, len, index, p, ch, n);
      assert x in after && index + j in after && !Apart(after, len);
    }
  }

  // ---- runs ----

  /** A packet that clashes with nothing, or a read that is aligned. */
  ghost predicate ClashFree(pending: Pending, len: nat, t: TimedOp, ch: nat)
    requires len > 0
  {
   
    && match t
       case Put(r, index, p) => InRange(r, index, p) && NoClash(pending, len, r, index, p, ch, Frames(p))
       case Take(r, n) => Aligned(pending, len, r, n)
  }

  lemma {:induction false} StepHolds(lane: Lane, pending: Pending, t: TimedOp, ch: nat)
    requires Holds(lane, pending) && ClashFree(pending, |lane|, t, ch)
    ensures Holds(Step(lane, OnRing(t), ch), MapStep(pending, |lane|, t, ch))
    ensures Outcome(lane, OnRing(t)) == MapOutcome(pending, t)
  {
    assert |lane| > 0;
    hide Holds, NoClash, Aligned, Written, Consumed, MapPut, MapTake, Delivered, MapRead, WrapU64;
    match t
    case Put(r, index, p) => PutHolds(lane, pending, r, index, p, ch, Frames(p));
    case Take(r, n) =>
      TakeHolds(lane, pending, r, n);
      AlignedTakes(pending, |lane|, r, n);
      ReadAgreesIffAligned(lane, pending, r, n);
  }

  /** Every operation of the run is clash-free when its turn comes. */
  ghost predicate ClashFreeRun(pending: Pending, len: nat, ts: seq<TimedOp>, ch: nat)
    requires len > 0
    decreases |ts|
  {
    ts == [] || (&& ClashFree(pending, len, ts[0], ch)
                 && ClashFreeRun(MapStep(pending, len, ts[0], ch), len, ts[1..], ch))
  }

  function RingOutput(lane: Lane, ts: seq<TimedOp>, ch: nat): seq<seq<Option<Sample>>>
    requires |lane| > 0
    decreases |ts|
  {
    if ts == [] then []
    else [Outcome(lane, OnRing(ts[0]))] + RingOutput(Step(lane, OnRing(ts[0]), ch), ts[1..], ch)
  }

  function MapOutput(pending: Pending, len: nat, ts: seq<TimedOp>, ch: nat): seq<seq<Option<Sample>>>
    decreases |ts|
  {
    if ts == [] then []
    else [MapOutcome(pending, ts[0])] + MapOutput(MapStep(pending, len, ts[0], ch), len, ts[1..], ch)
  }

  /** Channel ch of the ring, and the map, after a run. */
  function RingAfter(lane: Lane, ts: seq<TimedOp>, ch: nat): (r: Lane)
    requires |lane| > 0
    ensures |r| == |lane|
    decreases |ts|
  {
    if ts == [] then lane else RingAfter(Step(lane, OnRing(ts[0]), ch), ts[1..], ch)
  }

  function MapAfter(pending: Pending, len: nat, ts: seq<TimedOp>, ch: nat): Pending
    decreases |ts|
  {
    if ts == [] then pending else MapAfter(MapStep(pending, len, ts[0], ch), len, ts[1..], ch)
  }

  /** On every clash-free run, with read positions moving either way, the ring returns exactly what the unbounded
      map returns: for each position the last sample stored for it, once, and gaps elsewhere. */
  lemma {:induction false} RingRefinesMap(lane: Lane, pending: Pending, ts: seq<TimedOp>, ch: nat)
    requires Holds(lane, pending)
    requires ClashFreeRun(pending, |lane|, ts, ch)
    ensures RingOutput(lane, ts, ch) == MapOutput(pending, |lane|, ts, ch)
    ensures Holds(RingAfter(lane, ts, ch), MapAfter(pending, |lane|, ts, ch))
    decreases |ts|
  {
    assert |lane| > 0;
    hide Holds, Step, MapStep, Outcome, MapOutcome, ClashFree, OnRing;
    if ts != [] {
      StepHolds(lane, pending, ts[0], ch);
      RingRefinesMap(Step(lane, OnRing(ts[0]), ch), MapStep(pending, |lane|, ts[0], ch), ts[1..], ch);
    }
  }

  /** The ring agrees with the map throughout the run: every outcome is the map's, and after every step the channel
      holds exactly what is pending. */
  ghost predicate InStep(lane: Lane, pending: Pending, ts: seq<TimedOp>, ch: nat)
    requires |lane| > 0
    decreases |ts|
  {
    ts == [] || (var lane', pending' := Step(lane, OnRing(ts[0]), ch), MapStep(pending, |lane|, ts[0], ch);
                 && Outcome(lane, OnRing(ts[0])) == MapOutcome(pending, ts[0])
                 && Holds(lane', pending') && InStep(lane', pending', ts[1..], ch))
  }

  /** All packets of the run are near enough for a u64 to tell ahead from behind. */
  ghost predicate RunInRange(ts: seq<TimedOp>) {
    forall t :: t in ts && t.Put? ==> InRange(t.readPos, t.index, t.packet)
  }

  lemma {:induction false} StepAgreesIffClashFree(lane: Lane, pending: Pending, t: TimedOp, ch: nat)
    requires Holds(lane, pending) && (t.Put? ==> InRange(t.readPos, t.index, t.packet))
    ensures (Outcome(lane, OnRing(t)) == MapOutcome(pending, t)
             && Holds(Step(lane, OnRing(t), ch), MapStep(pending, |lane|, t, ch)))
      <==> ClashFree(pending, |lane|, t, ch)
  {
    assert |lane| > 0;
    if ClashFree(pending, |lane|, t, ch) {
      StepHolds(lane, pending, t, ch);
    }
    hide Holds, InRange, NoClash, Aligned, Written, Consumed, MapPut, MapTake, Delivered, MapRead, WrapU64;
    match t
    case Put(r, index, p) => PutHoldsIffNoClash(lane, pending, r, index, p, ch);
    case Take(r, n) => ReadAgreesIffAligned(lane, pending, r, n);
  }

  /** Exactly which runs the ring gets right: those without a clash. */
  lemma {:induction false} RunAgreesIffClashFree(lane: Lane, pending: Pending, ts: seq<TimedOp>, ch: nat)
    requires Holds(lane, pending) && RunInRange(ts)
    ensures InStep(lane, pending, ts, ch) <==> ClashFreeRun(pending, |lane|, ts, ch)
    decreases |ts|
  {
    assert |lane| > 0;
    hide Holds, Step, MapStep, Outcome, MapOutcome, ClashFree, OnRing, InRange;
    if ts != [] {
      StepAgreesIffClashFree(lane, pending, ts[0], ch);
      if ClashFree(pending, |lane|, ts[0], ch) {
        RunAgreesIffClashFree(Step(lane, OnRing(ts[0]), ch), MapStep(pending, |lane|, ts[0], ch), ts[1..], ch);
      }
    }
  }

  /** A new ring is, to any clash-free run, the unbounded map that starts empty. */
  lemma {:induction false} FreshRingIsAMap(lane: Lane, ts: seq<TimedOp>, ch: nat)
    requires |lane| > 0 && PowerOfTwo(|lane|) && |lane| <= TWO_63 && forall s :: 0 <= s < |lane| ==> lane[s] == None
    requires ClashFreeRun(map[], |lane|, ts, ch)
    ensures RingOutput(lane, ts, ch) == MapOutput(map[], |lane|, ts, ch)
  {
    hide Holds, ClashFreeRun, RingOutput, MapOutput;
    FreshHoldsNothing(lane);
    RingRefinesMap(lane, map[], ts, ch);
  }

  // ---- runs that never clash ----

  /** All pending positions lie in one window of ring length. */
  ghost predicate Within(pending: Pending, base: int, len: nat) {
    forall q :: q in pending ==> base <= q < base + len
  }

  /** The operation stays inside the window from base on: a read may start anywhere in it, also before an earlier
      read, and a read from its very start may even be longer than the ring. */
  ghost predicate Inside(base: int, len: nat, t: TimedOp) {
    && base <= t.readPos
    && match t
       case Put(r, index, p) => InRange(r, index, p) && (r == base || index + Frames(p) <= base + len)
       case Take(r, n) => r == base || r + n <= base + len
  }

  lemma {:induction false} InsideIsClashFree(pending: Pending, base: int, len: nat, t: TimedOp, ch: nat)
    requires len > 0 && Within(pending, base, len) && Inside(base, len, t)
    ensures ClashFree(pending, len, t, ch) && Within(MapStep(pending, len, t, ch), base, len)
  {
    hide SampleOf, MapPut;
    match t
    case Put(r, index, p) =>
      MapPutKeys(pending, r, len, index, p, ch, Frames(p));
      var after := MapPut(pending, r, len, index, p, ch, Frames(p));
      assert MapStep(pending, len, t, ch) == after;
      forall x | x in after
        ensures base <= x < base + len
      {
        assert x in pending || (index <= x < index + Frames(p) && r <= x < r + len);
        assert r == base || index + Frames(p) <= base + len;
        assert x in pending ==> base <= x < base + len;
      }
      forall j: nat, x | j < Frames(p) && x in pending && VisitSlot(index, j, len) == SlotFor(x, len)
                         && Stores(r, len, index, p, ch, j)
        ensures x == index + j
      {
        NearSlots(x, index + j, len);
      }
    case Take(r, n) =>
      forall q, f: nat | q in pending && f < n && VisitSlot(r, f, len) == SlotFor(q, len)
        ensures r <= q < r + len
      {
        if q < r {
          NearSlots(q, r + f, len);
        }
      }
  }

  /** The usual run: a window that only moves forward, past delivered samples, with every operation inside it. The
      read positions themselves may move back in it. */
  ghost predicate WindowedRun(pending: Pending, len: nat, bases: seq<int>, ts: seq<TimedOp>, ch: nat)
    requires |bases| == |ts|
    decreases |ts|
  {
    ts == [] || (&& Within(pending, bases[0], len) && Inside(bases[0], len, ts[0])
                 && WindowedRun(MapStep(pending, len, ts[0], ch), len, bases[1..], ts[1..], ch))
  }

  lemma {:induction false} WindowedIsClashFree(pending: Pending, len: nat, bases: seq<int>, ts: seq<TimedOp>, ch: nat)
    requires len > 0 && |bases| == |ts| && WindowedRun(pending, len, bases, ts, ch)
    ensures ClashFreeRun(pending, len, ts, ch)
    decreases |ts|
  {
    hide Within, MapStep, ClashFree;
    if ts != [] {
      InsideIsClashFree(pending, bases[0], len, ts[0], ch);
      WindowedIsClashFree(MapStep(pending, len, ts[0], ch), len, bases[1..], ts[1..], ch);
    }
  }

  // ---- one sample, from its packet to the read that is due for it ----

  /** The operation leaves the stored sample v at position q alone: no read covers q, and no packet brings another
      sample there. */
  ghost predicate LeavesOne(t: TimedOp, q: int, v: Sample, ch: nat)
  {
    match t
    case Take(readPos, frames) => !(readPos <= q < readPos + frames)
    case Put(_, index, p) =>
      forall j: nat :: j < Frames(p) && index + j == q ==>
        SampleOf(p, ch, j) == None || SampleOf(p, ch, j) == Some(v)
  }

  ghost predicate Leaves(ts: seq<TimedOp>, q: int, v: Sample, ch: nat)
  {
    forall t :: t in ts ==> LeavesOne(t, q, v, ch)
  }

  lemma {:induction false} PutLeaves(pending: Pending, len: nat, t: TimedOp, q: int, v: Sample, ch: nat, n: nat)
    requires t.Put? && n <= Frames(t.packet)
    requires LeavesOne(t, q, v, ch) && Get(pending, q) == Some(v)
    ensures Get(MapPut(pending, t.readPos, len, t.index, t.packet, ch, n), q) == Some(v)
    decreases n
  {
    hide SampleOf;
    if n > 0 {
      PutLeaves(pending, len, t, q, v, ch, n - 1);
    }
  }

  lemma {:induction false} RunLeaves(pending: Pending, len: nat, ts: seq<TimedOp>, q: int, v: Sample, ch: nat)
    requires Leaves(ts, q, v, ch) && Get(pending, q) == Some(v)
    ensures Get(MapAfter(pending, len, ts, ch), q) == Some(v)
    decreases |ts|
  {
    if ts != [] {
      var t := ts[0];
      assert LeavesOne(t, q, v, ch);
      if t.Put? {
        PutLeaves(pending, len, t, q, v, ch, Frames(t.packet));
      }
      assert Get(MapStep(pending, len, t, ch), q) == Some(v);
      hide MapStep, LeavesOne, Get;
      RunLeaves(MapStep(pending, len, t, ch), len, ts[1..], q, v, ch);
    }
  }

  /** A frame inside the reach of the ring is in the map after its packet was put. */
  lemma {:induction false} PutKeepsFrame(pending: Pending, r: int, len: nat, index: int, p: Packet,
      ch: nat, n: nat, k: nat)
    requires k < n <= Frames(p) && Stores(r, len, index, p, ch, k)
    ensures Get(MapPut(pending, r, len, index, p, ch, n), index + k) == SampleOf(p, ch, k)
    decreases n
  {
    hide SampleOf;
    if k < n - 1 {
      PutKeepsFrame(pending, r, len, index, p, ch, n - 1, k);
    }
  }

  /** An aligned read delivers what is pending at each position it covers. */
  lemma {:induction false} TakeFinds(lane: Lane, pending: Pending, r: int, n: nat, q: int)
    requires Holds(lane, pending) && Aligned(pending, |lane|, r, n) && q in pending && r <= q < r + n
    ensures Delivered(lane, WrapU64(r), n)[q - r] == Some(pending[q])
  {
    hide Holds, Aligned, Delivered, WrapU64;
    ReadAgreesIffAligned(lane, pending, r, n);
    assert MapRead(pending, r, n)[q - r] == Get(pending, r + (q - r));
  }

  /** What may happen between the arrival of a packet at read position r and a read of n frames from r': any
      clash-free run that leaves the packet's frame k alone, before an aligned read that covers it. */
  ghost predicate Undisturbed(pending: Pending, len: nat, r: int, index: int, p: Packet, ts: seq<TimedOp>,
                              r': int, n: nat, ch: nat, k: nat)
    requires len > 0
    requires k < Frames(p) && SampleOf(p, ch, k).Some?
  {
    var after := MapPut(pending, r, len, index, p, ch, Frames(p));
    && ClashFreeRun(after, len, ts, ch)
    && Leaves(ts, index + k, SampleOf(p, ch, k).value, ch)
    && Aligned(MapAfter(after, len, ts, ch), len, r', n)
    && r' <= index + k < r' + n
  }

  /** After a clash-free packet was put, whatever undisturbed run follows, the read that covers its frame k delivers
      the frame's sample. */
  lemma {:induction false} PutIsDelivered(lane: Lane, pending: Pending, r: int, index: int, p: Packet,
      ts: seq<TimedOp>, r': int, n: nat, ch: nat, k: nat)
    requires Holds(lane, pending)
    requires ClashFree(pending, |lane|, Put(r, index, p), ch)
    requires k < Frames(p) && Stores(r, |lane|, index, p, ch, k)
    requires Undisturbed(pending, |lane|, r, index, p, ts, r', n, ch, k)
    ensures var written := Written(lane, WrapU64(r), p, ch, Frames(p));
      Delivered(RingAfter(written, ts, ch), WrapU64(r'), n)[index + k - r'] == SampleOf(p, ch, k)
  {
    assert |lane| > 0;
    hide Written, MapPut, Holds, ClashFree, ClashFreeRun, RingAfter, MapAfter, Leaves, SampleOf, Delivered;
    hide Aligned, WrapU64;
    var written := Written(lane, WrapU64(r), p, ch, Frames(p));
    var after := MapPut(pending, r, |lane|, index, p, ch, Frames(p));
    StepHolds(lane, pending, Put(r, index, p), ch);
    PutKeepsFrame(pending, r, |lane|, index, p, ch, Frames(p), k);
    RingRefinesMap(written, after, ts, ch);
    RunLeaves(after, |lane|, ts, index + k, SampleOf(p, ch, k).value, ch);
    TakeFinds(RingAfter(written, ts, ch), MapAfter(after, |lane|, ts, ch), r', n, index + k);
  }
}

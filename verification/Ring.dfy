/** The planar timestamped ring: masked slots, the late and overrun gates, and the consuming read. */
module Ring {
  import opened Machine
  import opened Slots

  /** One channel of the ring: per slot the stored sample, if any. */
  type Lane = seq<Option<Sample>>

  /** The arguments of `write_packet` that describe the packet. */
  datatype Packet = Packet(index: u64, flow: seq<Option<nat>>, samples: seq<Sample>, nchan: nat)

  const STALL_NS: int := 60_000_000
  const MIN_LEN: int := 2048

  /** Ring length for a latency in samples. */
  function RingLength(latency: u64): nat {
    Max(NextPowerOfTwo(Max(Min(latency * 4, TWO_64 - 1), MIN_LEN)), 2)
  }

  function Frames(p: Packet): nat { if p.nchan == 0 then 0 else |p.samples| / p.nchan }

  predicate Late(readPos: u64, pos: u64) { DiffI64(pos, readPos) < 0 }

  predicate Overrun(readPos: u64, pos: u64, len: nat) { SubU64(pos, readPos) >= len }

  predicate Accepted(readPos: u64, pos: u64, len: nat) { !Late(readPos, pos) && !Overrun(readPos, pos, len) }

  /** The u64 position of frame k. */
  function PositionOf(p: Packet, k: nat): u64 { AddU64(p.index, WrapU64(k)) }

  /** The last flow slot that maps to device channel ch. */
  function LastSlot(flow: seq<Option<nat>>, ch: nat): (r: Option<nat>)
    ensures r.Some? ==> r.value < |flow| && flow[r.value] == Some(ch)
    ensures r.None? ==> Some(ch) !in flow
  {
    if flow == [] then None
    else if flow[|flow| - 1] == Some(ch) then Some(|flow| - 1)
    else LastSlot(flow[..|flow| - 1], ch)
  }

  /** Of two slots that map to one channel the later one counts. */
  lemma {:induction false} LastSlotIsLast(flow: seq<Option<nat>>, ch: nat, j: nat)
    requires j < |flow| && flow[j] == Some(ch)
    ensures LastSlot(flow, ch).Some? && j <= LastSlot(flow, ch).value
  {
    if j < |flow| - 1 {
      LastSlotIsLast(flow[..|flow| - 1], ch, j);
    }
  }

  predicate HasSample(p: Packet, k: nat, i: nat) { k * p.nchan + i < |p.samples| }

  /** Indexing the samples of frame k is in range for every flow slot that maps to a channel of the device. */
  predicate FrameFits(p: Packet, channels: nat, k: nat) {
    forall i: nat :: i < |p.flow| && p.flow[i].Some? && p.flow[i].value < channels ==> HasSample(p, k, i)
  }

  /** The code indexes the samples of the frames that pass the gates, and of no other. */
  predicate Fits(p: Packet, channels: nat, readPos: u64, len: nat) {
    forall k: nat :: k < Frames(p) && Accepted(readPos, PositionOf(p, k), len) ==> FrameFits(p, channels, k)
  }

  /** A flow that maps no more slots than it has channels never runs out of samples. */
  lemma MapFits(p: Packet, channels: nat, k: nat)
    requires |p.flow| <= p.nchan && k < Frames(p)
    ensures FrameFits(p, channels, k)
  {
    MulMonotone(k, Frames(p) - 1, p.nchan);
    assert Frames(p) * p.nchan <= |p.samples|;
    assert (Frames(p) - 1) * p.nchan == Frames(p) * p.nchan - p.nchan;
  }

  /** The sample frame k carries for channel ch, if the packet is long enough to have it. */
  function SampleOf(p: Packet, ch: nat, k: nat): Option<Sample>
    requires k < Frames(p)
  {
    var i := LastSlot(p.flow, ch);
    if i.Some? && HasSample(p, k, i.value) then Some(p.samples[k * p.nchan + i.value]) else None
  }

  /** Frame k carries v for a channel: v stands behind the last of the slots that map to it. */
  lemma {:induction false} SampleMeans(p: Packet, ch: nat, k: nat, v: Sample)
    requires k < Frames(p)
    ensures SampleOf(p, ch, k) == Some(v)
      <==> exists i: nat ::
             && i < |p.flow| && p.flow[i] == Some(ch) && (forall j :: i < j < |p.flow| ==> p.flow[j] != Some(ch))
             && HasSample(p, k, i) && p.samples[k * p.nchan + i] == v
  {
    var last := LastSlot(p.flow, ch);
    forall j: nat | j < |p.flow| && p.flow[j] == Some(ch)
      ensures last.Some? && j <= last.value
    {
      LastSlotIsLast(p.flow, ch, j);
    }
  }

  /** Channel ch after the first n frames of a packet. */
  function Written(lane: Lane, readPos: u64, p: Packet, ch: nat, n: nat): (r: Lane)
    requires n <= Frames(p) && |lane| > 0
    ensures |r| == |lane|
  {
    if n == 0 then lane
    else
      var prev := Written(lane, readPos, p, ch, n - 1);
      var pos := PositionOf(p, n - 1);
      var s := SampleOf(p, ch, n - 1);
      if Accepted(readPos, pos, |lane|) && s.Some? then prev[pos % |lane| := s] else prev
  }

  function ReadSlot(lane: Lane, readPos: u64, f: nat): nat
    requires |lane| > 0
  {
    AddU64(readPos, WrapU64(f)) % |lane|
  }

  /** Channel ch after n frames were read: every visited slot is empty. */
  function Consumed(lane: Lane, readPos: u64, n: nat): (r: Lane)
    requires |lane| > 0
    ensures |r| == |lane|
  {
    if n == 0 then lane else Consumed(lane, readPos, n - 1)[ReadSlot(lane, readPos, n - 1) := None]
  }

  /** What frame f of a read finds in the channel. */
  function Found(lane: Lane, readPos: u64, f: nat): Option<Sample>
    requires |lane| > 0
  {
    Consumed(lane, readPos, f)[ReadSlot(lane, readPos, f)]
  }

  /** Channel ch after the first n flow slots of frame k went to `slot`. */
  ghost function Stored(lane: Lane, p: Packet, k: nat, ch: nat, slot: nat, n: nat): Lane
    requires k < Frames(p) && slot < |lane| && n <= |p.flow|
  {
    var i := LastSlot(p.flow[..n], ch);
    if i.Some? && HasSample(p, k, i.value) then lane[slot := Some(p.samples[k * p.nchan + i.value])]
    else lane
  }

  /** A mapped flow slot overwrites its channel and leaves the others alone. */
  lemma StoredStep(lane: Lane, p: Packet, k: nat, ch: nat, slot: nat, i: nat, x: Option<Sample>)
    requires k < Frames(p) && slot < |lane| && i < |p.flow|
    requires p.flow[i].Some? && HasSample(p, k, i)
    requires x == Some(p.samples[k * p.nchan + i])
    ensures Stored(lane, p, k, ch, slot, i + 1)
         == if p.flow[i] == Some(ch) then Stored(lane, p, k, ch, slot, i)[slot := x]
            else Stored(lane, p, k, ch, slot, i)
  {
    assert p.flow[..i + 1][..i] == p.flow[..i];
  }

  lemma StoredSkip(lane: Lane, p: Packet, k: nat, ch: nat, slot: nat, i: nat)
    requires k < Frames(p) && slot < |lane| && i < |p.flow|
    requires p.flow[i] != Some(ch)
    ensures Stored(lane, p, k, ch, slot, i + 1) == Stored(lane, p, k, ch, slot, i)
  {
    assert p.flow[..i + 1][..i] == p.flow[..i];
  }

  function OrSilence(s: Option<Sample>): Sample { if s.Some? then s.value else 0 }

  /** Frame f of the first n channels, a gap read as 0. */
  ghost function Row(lanes: seq<Lane>, readPos: u64, n: nat, f: nat): seq<Sample>
    requires n <= |lanes| && forall ch :: 0 <= ch < n ==> |lanes[ch]| > 0
  {
    seq(n, ch requires 0 <= ch < n => OrSilence(Found(lanes[ch], readPos, f)))
  }

  /** f * n, the flat index at which frame f starts. */
  function Flat(n: nat, f: nat): nat { if f == 0 then 0 else Flat(n, f - 1) + n }

  lemma {:induction false} FlatIsProduct(n: nat, f: nat)
    ensures Flat(n, f) == f * n
  {
    if f > 0 {
      FlatIsProduct(n, f - 1);
      assert f * n == (f - 1) * n + n;
    }
  }

  lemma {:induction false} FlatMonotone(n: nat, f: nat, g: nat)
    requires f < g
    ensures Flat(n, f) + n <= Flat(n, g)
  {
    if f < g - 1 {
      FlatMonotone(n, f, g - 1);
    }
  }

  /** The interleaved block of the first `frames` frames. */
  ghost function Interleaved(lanes: seq<Lane>, readPos: u64, n: nat, frames: nat): (r: seq<Sample>)
    requires n <= |lanes| && forall ch :: 0 <= ch < n ==> |lanes[ch]| > 0
    ensures |r| == Flat(n, frames)
  {
    if frames == 0 then []
    else
      Interleaved(lanes, readPos, n, frames - 1) + Row(lanes, readPos, n, frames - 1)
  }

  /** Sample ch of frame f sits at f * n + ch. */
  lemma {:induction false} InterleavedAt(lanes: seq<Lane>, readPos: u64, n: nat, frames: nat, f: nat, ch: nat)
    requires n <= |lanes| && forall c :: 0 <= c < n ==> |lanes[c]| > 0
    requires f < frames && ch < n
    ensures PlaysAt(Interleaved(lanes, readPos, n, frames), f * n + ch, Found(lanes[ch], readPos, f))
  {
    FlatIsProduct(n, f);
    FlatMonotone(n, f, frames);
    if f < frames - 1 {
      FlatMonotone(n, f, frames - 1);
      InterleavedAt(lanes, readPos, n, frames - 1, f, ch);
    }
  }

  // ---- how long a stream without packets stays live ----

  /** The code's rule for the time since the last packet. */
  predicate StillLive(elapsed: int) { elapsed <= STALL_NS }

  /** The design document's rule: pause after rx_latency + 50 ms. */
  predicate DocumentedLive(elapsed: int, latencyNs: nat) { elapsed <= latencyNs + 50_000_000 }

  /** The code follows the documented rule for every elapsed time at one latency only, 10 ms. */
  lemma PauseIsDocumentedIff10Ms(latencyNs: nat)
    ensures (forall elapsed: int :: StillLive(elapsed) <==> DocumentedLive(elapsed, latencyNs))
      <==> latencyNs == 10_000_000
  {
    assert StillLive(STALL_NS) && !StillLive(STALL_NS + 1);
    assert latencyNs < 10_000_000 ==> !DocumentedLive(STALL_NS, latencyNs);
    assert latencyNs > 10_000_000 ==> DocumentedLive(STALL_NS + 1, latencyNs);
  }

  lemma {:induction false} NextFrame(lanes: seq<Lane>, readPos: u64, n: nat, f: nat)
    requires n <= |lanes| && forall ch :: 0 <= ch < n ==> |lanes[ch]| > 0
    ensures Flat(n, f + 1) == Flat(n, f) + n
    ensures Interleaved(lanes, readPos, n, f + 1) == Interleaved(lanes, readPos, n, f) + Row(lanes, readPos, n, f)
  {
    hide Row;
  }

  /** Place i of the buffer holds what was found, or silence. */
  ghost predicate PlaysAt(buf: seq<Sample>, i: int, found: Option<Sample>) {
    && 0 <= i < |buf|
    && match found
       case Some(v) => buf[i] == v
       case None => buf[i] == 0
  }

  /** Frame f of channel ch stands at f * n + ch. */
  ghost predicate Plays(buf: seq<Sample>, lanes: seq<Lane>, readPos: u64, n: nat, frames: nat)
    requires n <= |lanes| && forall ch :: 0 <= ch < n ==> |lanes[ch]| > 0
  {
    forall f: nat, ch: nat :: f < frames && ch < n ==> PlaysAt(buf, f * n + ch, Found(lanes[ch], readPos, f))
  }

  lemma {:induction false} InterleavedPlays(buf: seq<Sample>, lanes: seq<Lane>, readPos: u64, n: nat, frames: nat)
    requires n <= |lanes| && forall ch :: 0 <= ch < n ==> |lanes[ch]| > 0
    requires Flat(n, frames) <= |buf| && buf[..Flat(n, frames)] == Interleaved(lanes, readPos, n, frames)
    ensures Plays(buf, lanes, readPos, n, frames)
  {
    hide Found, Interleaved, Flat;
    forall f: nat, ch: nat | f < frames && ch < n
      ensures PlaysAt(buf, f * n + ch, Found(lanes[ch], readPos, f))
    {
      InterleavedAt(lanes, readPos, n, frames, f, ch);
      assert buf[..Flat(n, frames)][f * n + ch] == buf[f * n + ch];
    }
  }

  /** As many frames of this width as are asked for and fit. */
  ghost predicate MostThatFit(frames: nat, most: nat, width: nat, room: nat) {
    frames <= most && frames * width <= room && (frames < most ==> (frames + 1) * width > room)
  }

  /** The ring. Times are nanoseconds; `lastPacket` is when the last packet came. */
  class PlanarRing {
    const nchan: nat
    const len: nat
    const mask: nat
    const lanes: array2<Sample>
    const filled: array2<bool>
    const patched: array<bool>
    var lastPacket: Option<int>

    ghost predicate Valid() {
      && PowerOfTwo(len) && len <= TWO_63 && mask == len - 1
      && lanes.Length0 == filled.Length0 == patched.Length == nchan
      && lanes.Length1 == filled.Length1 == len
    }

    function Cell(ch: nat, slot: nat): Option<Sample>
      requires lanes.Length0 == filled.Length0 && lanes.Length1 == filled.Length1
      requires ch < lanes.Length0 && slot < lanes.Length1
      reads lanes, filled
    {
      if filled[ch, slot] then Some(lanes[ch, slot]) else None
    }

    ghost function LaneOf(ch: nat): (r: Lane)
      requires Valid() && ch < nchan
      reads lanes, filled
      ensures |r| == len && forall s :: 0 <= s < len ==> r[s] == Cell(ch, s)
    {
      seq(len, s requires 0 <= s < len reads lanes, filled => Cell(ch, s))
    }

    ghost function Lanes(): (r: seq<Lane>)
      requires Valid()
      reads lanes, filled
      ensures |r| == nchan && forall ch :: 0 <= ch < nchan ==> r[ch] == LaneOf(ch)
    {
      seq(nchan, ch requires 0 <= ch < nchan reads lanes, filled => LaneOf(ch))
    }

    /** `(pos as usize) & self.mask`. */
    function SlotOf(pos: u64): (slot: nat)
      requires Valid()
      ensures slot == pos % len
    {
      MaskIsRemainder(pos, len);
      BitAnd(pos, mask)
    }

    constructor (channels: nat, length: nat)
      requires PowerOfTwo(length) && length <= TWO_63
      ensures Valid() && fresh(lanes) && fresh(filled) && fresh(patched)
      ensures nchan == channels && len == length
      ensures forall ch, s :: 0 <= ch < nchan && 0 <= s < len ==> Cell(ch, s) == None
      ensures forall ch :: 0 <= ch < nchan ==> !patched[ch]
      ensures lastPacket == None
    {
      nchan := channels;
      len := length;
      mask := length - 1;
      lanes := new Sample[channels, length]((_, _) => 0);
      filled := new bool[channels, length]((_, _) => false);
      patched := new bool[channels](_ => false);
      lastPacket := None;
    }

    method SetPatched(ch: nat, on: bool)
      requires Valid()
      modifies patched
      ensures forall i :: 0 <= i < patched.Length ==> patched[i] == if i == ch then on else old(patched[i])
    {
      if ch < patched.Length {
        patched[ch] := on;
      }
    }

    method WritePacket(readPos: u64, p: Packet, now: int)
      requires Valid() && Fits(p, nchan, readPos, len)
      modifies this`lastPacket, lanes, filled
      ensures p.nchan == 0 ==> lastPacket == old(lastPacket)
      ensures p.nchan > 0 ==> lastPacket == Some(now)
      ensures forall ch :: 0 <= ch < nchan ==>
                LaneOf(ch) == Written(old(LaneOf(ch)), readPos, p, ch, Frames(p))
    {
      ghost var before := Lanes();
      assert forall ch :: 0 <= ch < nchan ==> before[ch] == old(LaneOf(ch));
      if p.nchan == 0 {
        return;
      }
      var frames := |p.samples| / p.nchan;
      lastPacket := Some(now);
      for k := 0 to frames
        invariant lastPacket == Some(now)
        invariant forall ch :: 0 <= ch < nchan ==> LaneOf(ch) == Written(before[ch], readPos, p, ch, k)
      {
        var pos := AddU64(p.index, WrapU64(k));
        var ahead := SubU64(pos, readPos);
        if DiffI64(pos, readPos) < 0 {
          continue;
        }
        if ahead >= len {
          continue;
        }
        var slot := SlotOf(pos);
        StoreFrame(p, k, slot);
      }
    }

    /** The inner loop of `write_packet`: scatter one frame over the mapped channels. */
    method StoreFrame(p: Packet, k: nat, slot: nat)
      requires Valid() && k < Frames(p) && FrameFits(p, nchan, k) && slot < len
      modifies lanes, filled
      ensures forall ch :: 0 <= ch < nchan ==>
                LaneOf(ch) == (var s := SampleOf(p, ch, k);
                               if s.Some? then old(LaneOf(ch))[slot := s] else old(LaneOf(ch)))
    {
      ghost var before := Lanes();
      hide PowerOfTwo;
      for i := 0 to |p.flow|
        invariant forall ch :: 0 <= ch < nchan ==> LaneOf(ch) == Stored(before[ch], p, k, ch, slot, i)
      {
        var target := p.flow[i];
        if target.None? || target.value >= nchan {
          forall ch | 0 <= ch < nchan
            ensures LaneOf(ch) == Stored(before[ch], p, k, ch, slot, i + 1)
          {
            StoredSkip(before[ch], p, k, ch, slot, i);
          }
          continue;
        }
        var s := p.samples[k * p.nchan + i];
        ghost var here := Lanes();
        StoreSample(target.value, slot, s);
        forall ch | 0 <= ch < nchan
          ensures LaneOf(ch) == Stored(before[ch], p, k, ch, slot, i + 1)
        {
          StoredStep(before[ch], p, k, ch, slot, i, Some(s));
          assert here[ch] == Stored(before[ch], p, k, ch, slot, i);
        }
      }
      assert p.flow[..|p.flow|] == p.flow;
    }

    method StoreSample(dev: nat, slot: nat, s: Sample)
      requires Valid() && dev < nchan && slot < len
      modifies lanes, filled
      ensures forall ch :: 0 <= ch < nchan ==>
                LaneOf(ch) == if ch == dev then old(LaneOf(ch))[slot := Some(s)] else old(LaneOf(ch))
    {
      lanes[dev, slot] := s;
      filled[dev, slot] := true;
    }

    /** Copy interleaved frames, as many as are asked for and fit, if some channel is patched and a packet came within
        60 ms. Frame f of channel ch goes to dst[f * n + ch], n being the number of channels copied: what the read found
        there, or silence. The rest of dst stays, and so do channels beyond those copied. */
    method Read(readPos: u64, channels: nat, maxFrames: nat, dst: array<Sample>, now: int)
        returns (frames: nat, first: u64)
      requires Valid()
      modifies filled, dst
      ensures first == readPos
      ensures var live := && (exists i :: 0 <= i < patched.Length && patched[i])
                          && lastPacket.Some? && now - lastPacket.value <= 60_000_000;
              var width := if channels == 0 || nchan == 0 then 1 else if channels < nchan then channels else nchan;
              if live then MostThatFit(frames, maxFrames, width, dst.Length) else frames == 0
      ensures forall ch :: 0 <= ch < nchan ==>
                LaneOf(ch) == if ch < channels then Consumed(old(LaneOf(ch)), readPos, frames) else old(LaneOf(ch))
      ensures var n := if channels < nchan then channels else nchan;
              && 0 <= frames * n <= dst.Length
              && Plays(dst[..], old(Lanes()), readPos, n, frames)
              && dst[frames * n..] == old(dst[frames * n..])
    {
      ghost var before := Lanes();
      first := readPos;
      frames := 0;
      if !(exists i :: 0 <= i < patched.Length && patched[i]) {
        return;
      }
      if lastPacket.None? {
        return;
      }
      if now - lastPacket.value > 54_000_000 {
        if now - lastPacket.value > STALL_NS {
          return;
        }
      }
      var n := Min(channels, nchan);
      frames := Min(maxFrames, dst.Length / Max(n, 1));
      RoomForFrames(n, frames, maxFrames, dst.Length);
      FlatIsProduct(n, frames);
      hide Plays, MostThatFit, Flat, Interleaved, PowerOfTwo, Consumed;
      CopyFrames(readPos, n, frames, dst);
      assert dst[..][..Flat(n, frames)] == dst[..Flat(n, frames)];
      InterleavedPlays(dst[..], before, readPos, n, frames);
    }

    /** The first n channels have given up their first f frames since they were `before`. */
    ghost predicate ReadUpTo(before: seq<Lane>, readPos: u64, n: nat, f: nat)
      requires Valid() && |before| == nchan && forall ch :: 0 <= ch < nchan ==> |before[ch]| == len
      reads lanes, filled
    {
      forall ch :: 0 <= ch < nchan ==>
        LaneOf(ch) == if ch < n then Consumed(before[ch], readPos, f) else before[ch]
    }

    /** The outer loop of `read`. */
    method CopyFrames(readPos: u64, n: nat, frames: nat, dst: array<Sample>)
      requires Valid() && n <= nchan && Flat(n, frames) <= dst.Length
      modifies filled, dst
      ensures ReadUpTo(old(Lanes()), readPos, n, frames)
      ensures dst[..Flat(n, frames)] == Interleaved(old(Lanes()), readPos, n, frames)
      ensures dst[Flat(n, frames)..] == old(dst[Flat(n, frames)..])
    {
      ghost var before := Lanes();
      var base := 0;
      for f := 0 to frames
        invariant base == Flat(n, f) <= Flat(n, frames)
        invariant ReadUpTo(before, readPos, n, f)
        invariant dst[..base] == Interleaved(before, readPos, n, f)
        invariant dst[Flat(n, frames)..] == old(dst[Flat(n, frames)..])
      {
        FlatMonotone(n, f, frames);
        NextFrame(before, readPos, n, f);
        hide ReadUpTo, Row, PowerOfTwo, Interleaved, Flat, Found, Consumed, Lanes;
        ghost var end := dst[base + n..];
        CopyFrame(before, readPos, f, n, base, dst);
        assert dst[Flat(n, frames)..] == end[Flat(n, frames) - (base + n)..];
        base := base + n;
      }
    }

    method CopyFrame(ghost before: seq<Lane>, readPos: u64, f: nat, n: nat, base: nat, dst: array<Sample>)
      requires Valid() && n <= nchan && base + n <= dst.Length
      requires |before| == nchan && forall ch :: 0 <= ch < nchan ==> |before[ch]| == len
      requires ReadUpTo(before, readPos, n, f)
      modifies filled, dst
      ensures ReadUpTo(before, readPos, n, f + 1)
      ensures dst[..base + n] == old(dst[..base]) + Row(before, readPos, n, f)
      ensures dst[base + n..] == old(dst[base + n..])
    {
      var slot := SlotOf(AddU64(readPos, WrapU64(f)));
      ReadFrame(slot, base, n, dst);
    }

    /** The inner loop of `read`: take one slot of the first n channels into dst[base..]. */
    method ReadFrame(slot: nat, base: nat, n: nat, dst: array<Sample>)
      requires Valid() && slot < len && n <= nchan && base + n <= dst.Length
      modifies filled, dst
      ensures forall ch :: 0 <= ch < nchan ==>
                LaneOf(ch) == if ch < n then old(LaneOf(ch))[slot := None] else old(LaneOf(ch))
      ensures forall i :: 0 <= i < dst.Length ==>
                dst[i] == if base <= i < base + n then OrSilence(old(LaneOf(i - base))[slot]) else old(dst[i])
    {
      ghost var before := Lanes();
      for ch := 0 to n
        invariant forall c :: 0 <= c < nchan ==> LaneOf(c) == if c < ch then before[c][slot := None] else before[c]
        invariant forall i :: 0 <= i < dst.Length ==>
                    dst[i] == if base <= i < base + ch then OrSilence(before[i - base][slot]) else old(dst[i])
      {
        var s := TakeSample(ch, slot);
        dst[base + ch] := s;
      }
    }

    method TakeSample(ch: nat, slot: nat) returns (s: Sample)
      requires Valid() && ch < nchan && slot < len
      modifies filled
      ensures s == OrSilence(old(LaneOf(ch))[slot])
      ensures forall c :: 0 <= c < nchan ==>
                LaneOf(c) == if c == ch then old(LaneOf(c))[slot := None] else old(LaneOf(c))
    {
      s := 0;
      if filled[ch, slot] {
        filled[ch, slot] := false;
        s := lanes[ch, slot];
      }
    }
  }

  /** `Ring::new`. */
  method NewRing(channels: nat, latency: u64) returns (ring: PlanarRing)
    requires latency * 4 <= TWO_63
    ensures fresh(ring) && ring.Valid() && ring.nchan == channels && ring.len == RingLength(latency)
    ensures forall ch :: 0 <= ch < channels ==> forall s :: 0 <= s < ring.len ==> ring.LaneOf(ch)[s] == None
    ensures ring.lastPacket == None && ring.patched.Length == channels
    ensures forall ch :: 0 <= ch < channels ==> !ring.patched[ch]
  {
    LengthIsPower(latency);
    ring := new PlanarRing(channels, RingLength(latency));
  }

  lemma RoomForFrames(n: nat, frames: nat, most: nat, room: nat)
    requires frames == Min(most, room / Max(n, 1))
    ensures Flat(n, frames) <= room && MostThatFit(frames, most, if n == 0 then 1 else n, room)
  {
    var width := Max(n, 1);
    FlatIsProduct(n, frames);
    QuotientFits(room, width);
    MulMonotone(frames, room / width, width);
  }

  lemma QuotientFits(room: nat, width: nat)
    requires width > 0
    ensures 0 <= room / width * width <= room < (room / width + 1) * width
  {
    assert room == room / width * width + room % width;
  }

  lemma PowerBelow(need: nat)
    requires MIN_LEN <= need <= TWO_63
    ensures NextPowerOfTwo(need) <= TWO_63
  {
    var p := NextPowerOfTwo(need);
    if p > TWO_63 {
      WordIsPower();
      PowersDivide(TWO_63, p);
    }
  }

  /** Two powers of two less than a factor of two apart are equal. */
  lemma TwoPowers(p: nat, q: nat)
    requires PowerOfTwo(p) && PowerOfTwo(q) && q <= p < 2 * q
    ensures p == q
  {
    PowersDivide(q, p);
    assert p == p / q * q + p % q;
  }

  lemma LengthIsPower(latency: u64)
    requires latency * 4 <= TWO_63
    ensures PowerOfTwo(RingLength(latency)) && RingLength(latency) <= TWO_63
    ensures RingLength(latency) >= 2048 && RingLength(latency) >= latency * 4
  {
    PowerBelow(Max(latency * 4, MIN_LEN));
  }

  /** And the smallest such power. */
  lemma {:induction false} LengthIsSmallest(latency: u64)
    requires latency * 4 <= TWO_63
    ensures RingLength(latency) > 2048 ==> RingLength(latency) < 2 * (latency * 4)
  {
    assert PowerOfTwo(2048);
    TwoPowers(NextPowerOfTwo(2048), 2048);
    hide NextPowerOfTwo, PowerOfTwo;
  }
}

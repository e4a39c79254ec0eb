/** A media datagram from the transmitter's samples to the listener's: wire format, clock, ring and read. */
module MediaPath {
  import opened Machine
  import opened Bytes
  import opened Buf
  import opened MediaTime
  import opened Ring
  import Overlay
  import Pcm
  import RingMap
  import RingRefinement
  import ServoMeans

  const MEDIA_HEADER: nat := 9
  const RECEIVE_BUFFER: nat := 2048

  /** A receiving flow: which device channel each of its slots feeds, and its sample format. */
  datatype Flow = Flow(slots: seq<Option<nat>>, nchan: nat, width: nat, rate: u32)

  function MediaBytes(h: MediaHeader, pcm: Bytes): Bytes { [0x02] + Be32(h.seconds) + Be32(h.index) + pcm }

  /** Header and samples; the first byte is not looked at. */
  function MediaOf(p: Bytes): Option<(MediaHeader, Bytes)> {
    if |p| < MEDIA_HEADER then None else Some((MediaHeader(U32At(p, 1), U32At(p, 5)), p[MEDIA_HEADER..]))
  }

  predicate Keepalive(p: Bytes) { p == [0x13, 0x37] }

  /** What the ring is given for a datagram of the flow. */
  function PacketOf(flow: Flow, h: MediaHeader, pcm: Bytes): Packet {
    Packet(SampleIndex(h, flow.rate), flow.slots, Pcm.Promoted(pcm, flow.nchan, flow.width), flow.nchan)
  }

  method DecodeMedia(p: Bytes) returns (r: Option<(MediaHeader, Bytes)>)
    ensures r == MediaOf(p)
  {
    if |p| < MEDIA_HEADER {
      return None;
    }
    var s := new BeSlice(p);
    var first := s.TakeU8();
    var seconds := s.TakeU32();
    var index := s.TakeU32();
    r := Some((MediaHeader(seconds.value, index.value), p[MEDIA_HEADER..]));
  }

  /** Two, seconds, sample index within the second, samples. */
  lemma {:induction false} MediaLayout(h: MediaHeader, pcm: Bytes)
    ensures var p := MediaBytes(h, pcm);
      |p| == 9 + |pcm| && p[0] == 2 && WordAt(p, 1) == h.seconds && WordAt(p, 5) == h.index && p[9..] == pcm
  {
  }

  /** What is taken from a datagram: nothing from a short one, else the numbers at 1 and 5 and everything from 9 on. */
  lemma {:induction false} MediaMeans(p: Bytes)
    ensures MediaOf(p).Some? <==> |p| >= 9
    ensures |p| >= 9 ==>
      var (h, pcm) := MediaOf(p).value;
      h.seconds == WordAt(p, 1) && h.index == WordAt(p, 5) && pcm == p[9..]
  {
  }

  lemma {:induction false} MediaRoundTrip(h: MediaHeader, pcm: Bytes)
    ensures MediaOf(MediaBytes(h, pcm)) == Some((h, pcm))
  {
    var p := MediaBytes(h, pcm);
    assert p[MEDIA_HEADER..] == pcm;
    hide At, U32At;
    AtWhole(p);
    AtConcat(p, 0, [0x02] + Be32(h.seconds) + Be32(h.index), pcm);
    AtConcat(p, 0, [0x02] + Be32(h.seconds), Be32(h.index));
    AtConcat(p, 0, [0x02], Be32(h.seconds));
    AtBe32(p, 1, h.seconds);
    AtBe32(p, 5, h.index);
  }

  /** The overlay time at a local time. */
  function OverlayNow(c: Overlay.Clock, local: u64): u64 {
    if c.initialized then Overlay.OverlayAt(local, c.lastSync, c.shift, c.freq) else local
  }

  /** Local time until the first observation; after that a reading of the snapshot. */
  lemma {:induction false} NowMeans(c: Overlay.Clock, local: u64, elapsed: int, correction: int)
    requires -0.0005 <= c.freq <= 0.0005 && ServoMeans.Difference(elapsed, local, c.lastSync)
    requires ServoMeans.TowardZero(correction, ServoMeans.Gain(elapsed, c.freq))
    ensures !c.initialized ==> OverlayNow(c, local) == local
    ensures c.initialized ==> (OverlayNow(c, local) - (local + c.shift + correction)) % 0x1_0000_0000_0000_0000 == 0
  {
    hide Overlay.OverlayAt, ServoMeans.Difference, ServoMeans.TowardZero;
    ServoMeans.ReadingMeans(c, local, Overlay.OverlayAt(local, c.lastSync, c.shift, c.freq), elapsed, correction);
  }

  /** The read position the media thread takes after it has shown the packet to the clock. */
  function ReadPositionAfter(c: Overlay.Clock, flow: Flow, h: MediaHeader, rate: u32, latencyNs: u64, local0: u64,
      local1: u64): u64
    requires flow.rate > 0
  {
    ReadPosition(OverlayNow(Overlay.Observed(c, T1Ns(h, flow.rate), local0, Overlay.Media), local1), latencyNs, rate)
  }

  /** The media thread's handling of one datagram; `local0` and `local1` are its two readings of the clock. */
  method ReceiveDatagram(ring: PlanarRing, overlay: Overlay.OverlayClock, flow: Flow, rate: u32, latencyNs: u64,
      datagram: Bytes, local0: u64, local1: u64, now: int) returns (decoded: bool)
    requires ring.Valid() && Overlay.Valid(overlay.State())
    requires flow.rate > 0
    requires !Keepalive(datagram) && MediaOf(datagram).Some? ==>
      (var (h, pcm) := MediaOf(datagram).value;
       var readPos := ReadPositionAfter(overlay.State(), flow, h, rate, latencyNs, local0, local1);
       Fits(PacketOf(flow, h, pcm), ring.nchan, readPos, ring.len))
    modifies ring`lastPacket, ring.lanes, ring.filled, overlay
    ensures decoded <==> !Keepalive(datagram) && MediaOf(datagram).Some?
    ensures !decoded ==> overlay.State() == old(overlay.State()) && ring.Lanes() == old(ring.Lanes())
    ensures decoded ==>
      overlay.State()
        == Overlay.Observed(old(overlay.State()), T1Ns(MediaOf(datagram).value.0, flow.rate), local0, Overlay.Media)
    ensures decoded ==>
      (var p := PacketOf(flow, MediaOf(datagram).value.0, MediaOf(datagram).value.1);
       var readPos := ReadPosition(OverlayNow(overlay.State(), local1), latencyNs, rate);
       forall ch :: 0 <= ch < ring.nchan ==>
            ring.LaneOf(ch) == Written(old(ring.LaneOf(ch)), readPos, p, ch, Frames(p)))
    ensures Overlay.Valid(overlay.State())
  {
    hide Overlay.Valid, Overlay.Observed, Overlay.OverlayAt, Written, T1Ns, SampleIndex, ReadPosition;
    decoded := false;
    if |datagram| == 2 && datagram[0] == 0x13 && datagram[1] == 0x37 {
      return;
    }
    var m := DecodeMedia(datagram);
    if m.None? {
      return;
    }
    var h, pcm := m.value.0, m.value.1;
    overlay.Observe(T1Ns(h, flow.rate), local0, Overlay.Media);
    var overlayNow := overlay.NowNs(local1);
    var readPos := ReadPosition(overlayNow, latencyNs, rate);
    var samples := Pcm.PromoteInterleaved(pcm, flow.nchan, flow.width);
    var p := Packet(SampleIndex(h, flow.rate), flow.slots, samples, flow.nchan);
    ring.WritePacket(readPos, p, now);
    decoded := true;
  }

  /** `try_read`: what is due now, in whole frames of `channels` samples, with the position and time of its first
      sample; None once the device is stopped. */
  method TryRead(ring: PlanarRing, overlay: Overlay.OverlayClock, stopped: bool, rate: u32, latencyNs: u64,
      channels: nat, local: u64, now: int, dst: array<Sample>) returns (frames: Option<nat>, stamp: Option<(u64, u64)>)
    requires ring.Valid() && Overlay.Valid(overlay.State()) && channels > 0 && rate > 0
    modifies ring.filled, dst
    ensures frames == None <==> stopped
    ensures stamp == None ==> ring.Lanes() == old(ring.Lanes()) && dst[..] == old(dst[..]) && frames in {None, Some(0)}
    ensures var due := DuePosition(OverlayNow(overlay.State(), local), latencyNs, rate);
      && (stamp.Some? <==> !stopped && due.Some? && channels <= dst.Length)
      && (stamp.Some? ==>
            var n := if channels < ring.nchan then channels else ring.nchan;
            && frames.Some? && stamp == Some((due.value, SamplesToNs(due.value, rate)))
            && Plays(dst[..], old(ring.Lanes()), due.value, n, frames.value)
            && 0 <= frames.value * n <= dst.Length && dst[frames.value * n..] == old(dst[frames.value * n..])
            && forall ch :: 0 <= ch < ring.nchan ==>
                 ring.LaneOf(ch) == if ch < channels then Consumed(old(ring.LaneOf(ch)), due.value, frames.value)
                                    else old(ring.LaneOf(ch)))
    ensures stamp.Some? ==>
      if (exists i :: 0 <= i < ring.patched.Length && ring.patched[i])
         && ring.lastPacket.Some? && now - ring.lastPacket.value <= 60_000_000
      then frames.value * channels <= dst.Length < (frames.value + 1) * channels
      else frames.value == 0
  {
    hide Overlay.Valid, Overlay.OverlayAt, Plays, Consumed;
    frames, stamp := None, None;
    if stopped {
      return;
    }
    frames := Some(0);
    var overlayNow := overlay.NowNs(local);
    var due := NsToSamples(overlayNow, rate);
    if due < LatencySamples(latencyNs, rate) {
      return;
    }
    var readPos := SubU64(due, LatencySamples(latencyNs, rate));
    var maxFrames := dst.Length / channels;
    QuotientFits(dst.Length, channels);
    if maxFrames == 0 {
      return;
    }
    MulMonotone(1, maxFrames, channels);
    var count, first := ring.Read(readPos, channels, maxFrames, dst, now);
    WholeBuffer(count, maxFrames, if ring.nchan == 0 then 1 else Min(channels, ring.nchan), channels, dst.Length);
    frames := Some(count);
    stamp := Some((first, SamplesToNs(first, rate)));
  }

  /** Narrower frames fit at least as often. */
  lemma WholeBuffer(count: nat, most: nat, width: nat, channels: nat, room: nat)
    requires 0 < width <= channels && most == room / channels
    ensures MostThatFit(count, most, width, room) ==> count * channels <= room < (count + 1) * channels
  {
    QuotientFits(room, channels);
    if count < most {
      MulMonotone(width, channels, count + 1);
      MulMonotone(count + 1, most, channels);
    }
  }

  // ---- from the transmitter to the listener ----

  /** What a transmitter sends in one datagram: `frames` frames, the first one at this sample index. */
  datatype Block = Block(index: u64, samples: seq<Sample>, frames: nat)

  /** Whole frames in a carried format, a timestamp that fits, and a datagram that fits the buffer. */
  predicate Sendable(b: Block, flow: Flow) {
    && AllowedRate(flow.rate) && b.index < 0x1_0000_0000 * flow.rate
    && Pcm.Carried(flow.width) && flow.nchan > 0 && |flow.slots| <= flow.nchan
    && |b.samples| == b.frames * flow.nchan
    && b.frames * flow.nchan * flow.width <= RECEIVE_BUFFER - MEDIA_HEADER
  }

  function Sent(b: Block, flow: Flow): Bytes
    requires flow.rate > 0
  {
    MediaBytes(SplitTimestamp(b.index, flow.rate), Pcm.Encoded(b.samples, flow.nchan, flow.width))
  }

  function ClearedAll(samples: seq<Sample>, width: nat): seq<Sample> {
    seq(|samples|, i requires 0 <= i < |samples| => Pcm.Cleared(samples[i], width))
  }

  lemma {:induction false} SentSamples(samples: seq<Sample>, nchan: nat, width: nat, frames: nat)
    requires Pcm.Carried(width) && nchan > 0 && |samples| == frames * nchan
    ensures |Pcm.Encoded(samples, nchan, width)| == frames * nchan * width
    ensures Pcm.Promoted(Pcm.Encoded(samples, nchan, width), nchan, width) == ClearedAll(samples, width)
  {
    Pcm.WholeTwice(frames, nchan);
    Pcm.PromoteEncoded(samples, nchan, width);
    Pcm.SamplesPacked(samples, width);
    assert samples[..|samples|] == samples;
  }

  /** A sent block is received with its index, its frames, and its samples up to the bits that do not fit. */
  lemma {:induction false} BlockArrives(b: Block, flow: Flow)
    requires Sendable(b, flow)
    ensures MediaOf(Sent(b, flow)).Some? && |Sent(b, flow)| <= RECEIVE_BUFFER
    ensures MediaOf(Sent(b, flow)).value.0 == SplitTimestamp(b.index, flow.rate)
    ensures var p := PacketOf(flow, MediaOf(Sent(b, flow)).value.0, MediaOf(Sent(b, flow)).value.1);
      p.index == b.index && Frames(p) == b.frames && p.samples == ClearedAll(b.samples, flow.width)
  {
    HeaderIsNine(SplitTimestamp(b.index, flow.rate), Pcm.Encoded(b.samples, flow.nchan, flow.width));
    hide MediaOf, MediaBytes, SplitTimestamp, SampleIndex, Pcm.Encoded, Pcm.Promoted, Pcm.Cleared;
    MediaRoundTrip(SplitTimestamp(b.index, flow.rate), Pcm.Encoded(b.samples, flow.nchan, flow.width));
    SplitRoundTrip(b.index, flow.rate);
    SentSamples(b.samples, flow.nchan, flow.width, b.frames);
    Pcm.DivMul(b.frames, flow.nchan);
  }

  lemma HeaderIsNine(h: MediaHeader, pcm: Bytes)
    ensures |MediaBytes(h, pcm)| == MEDIA_HEADER + |pcm|
  {
  }

  lemma {:induction false} FramesFitBuffer(frames: nat, nchan: nat, width: nat)
    requires Pcm.Carried(width) && nchan > 0 && frames * nchan * width <= RECEIVE_BUFFER - MEDIA_HEADER
    ensures frames <= MAX_FRAMES
  {
    Pcm.Assoc(frames, nchan, width);
    FramesInBuffer(frames * nchan * width, nchan, width);
    Pcm.DivMul(frames, nchan * width);
  }

  /** The packet the ring is given for a sent block. */
  function Arrived(b: Block, flow: Flow): (p: Packet)
    requires Sendable(b, flow)
    ensures p.index == b.index && Frames(p) == b.frames && p.flow == flow.slots && p.nchan == flow.nchan
    ensures p.samples == ClearedAll(b.samples, flow.width) && b.frames <= MAX_FRAMES
  {
    BlockArrives(b, flow);
    FramesFitBuffer(b.frames, flow.nchan, flow.width);
    var m := MediaOf(Sent(b, flow)).value;
    PacketOf(flow, m.0, m.1)
  }

  /** The sample sent for device channel ch in frame k, as far as the wire format carries it. */
  function SampleSent(b: Block, flow: Flow, ch: nat, k: nat): Option<Sample>
    requires Sendable(b, flow) && k < b.frames
  {
    var i := LastSlot(flow.slots, ch);
    if i.None? then None
    else
      Pcm.FrameFits(k, b.frames, flow.nchan, 1, |b.samples|);
      Some(Pcm.Cleared(b.samples[k * flow.nchan + i.value], flow.width))
  }

  lemma {:induction false} ArrivedSample(b: Block, flow: Flow, ch: nat, k: nat)
    requires Sendable(b, flow) && k < b.frames
    ensures SampleOf(Arrived(b, flow), ch, k) == SampleSent(b, flow, ch, k)
  {
    hide PacketOf, MediaOf, Sent, Pcm.Cleared, LastSlot;
    var p := Arrived(b, flow);
    if LastSlot(flow.slots, ch).Some? {
      MapFits(p, ch + 1, k);
    }
  }

  /** The block arrives at `now`, within plus or minus rx_latency of its own time, and none of its frames falls on the
      slot of another pending sample. */
  ghost predicate ArrivesAt(b: Block, flow: Flow, pending: RingMap.Pending, len: nat, latencyNs: u64, now: u64, ch: nat)
    requires Sendable(b, flow) && len > 0
  {
    && latencyNs * flow.rate < TWO_64
    && OnTime(SplitTimestamp(b.index, flow.rate), flow.rate, now, latencyNs)
    && RingMap.NoClash(pending, len, Due(now, latencyNs, flow.rate), b.index, Arrived(b, flow), ch, b.frames)
  }

  /** The read that covers the position of frame k delivers exactly the sample that was sent there, whatever
      undisturbed run of packets and reads came in between. */
  lemma {:induction false} SentSampleIsHeard(
      b: Block, flow: Flow, lane: Lane, pending: RingMap.Pending, ts: seq<RingMap.TimedOp>, latencyNs: u64, now: u64,
      later: u64, ch: nat, n: nat, k: nat)
    requires Sendable(b, flow) && k < b.frames && SampleOf(Arrived(b, flow), ch, k).Some?
    requires |lane| == RingLength(LatencySamples(latencyNs, flow.rate)) && RingMap.Holds(lane, pending)
    requires ArrivesAt(b, flow, pending, |lane|, latencyNs, now, ch)
    requires
      RingMap.Undisturbed(pending, |lane|, Due(now, latencyNs, flow.rate), b.index, Arrived(b, flow), ts,
                          Due(later, latencyNs, flow.rate), n, ch, k)
    ensures var readPos := ReadPosition(now, latencyNs, flow.rate);
      var written := Written(lane, readPos, Arrived(b, flow), ch, b.frames);
      var f := b.index + k - Due(later, latencyNs, flow.rate);
      && 0 <= f < n
      && RingRefinement.Delivered(RingMap.RingAfter(written, ts, ch),
                                  ReadPosition(later, latencyNs, flow.rate), n)[f] == SampleSent(b, flow, ch, k)
  {
    hide Arrived, OnTime, Due, ReadPosition, Written, SampleIndex, SampleOf, SampleSent, LatencySamples, RingLength;
    hide RingMap.Holds, RingMap.RingAfter, RingRefinement.Delivered, RingMap.Undisturbed, RingMap.NoClash;
    ArrivedSample(b, flow, ch, k);
    SplitRoundTrip(b.index, flow.rate);
    PacketIsPlayed(lane, pending, SplitTimestamp(b.index, flow.rate), Arrived(b, flow), ts, flow.rate, latencyNs,
                   now, later, ch, n, k);
  }

  /** This place of the listener's buffer has the sample of slot i in frame k, without the bits the format drops. */
  ghost predicate Reaches(b: Block, flow: Flow, k: nat, i: nat, buf: seq<Sample>, place: int) {
    && 0 <= place < |buf| && 0 <= k * flow.nchan + i < |b.samples|
    && Pcm.Kept(b.samples[k * flow.nchan + i], buf[place], flow.width)
  }

  /** Slot i is the last one that maps to the channel. */
  ghost predicate Feeds(flow: Flow, i: nat, ch: nat) {
    && i < |flow.slots| && flow.slots[i] == Some(ch)
    && forall j :: i < j < |flow.slots| ==> flow.slots[j] != Some(ch)
  }

  lemma {:induction false} FeedsIsLast(flow: Flow, i: nat, ch: nat)
    requires Feeds(flow, i, ch)
    ensures LastSlot(flow.slots, ch) == Some(i)
  {
    LastSlotIsLast(flow.slots, ch, i);
  }

  /** What the read delivers for the channel stands in the buffer. */
  lemma {:induction false} DeliveredIsPlayed(b: Block, flow: Flow, ch: nat, k: nat, i: nat, lanes: seq<Lane>, pos: u64,
      width: nat, n: nat, f: nat, buf: seq<Sample>)
    requires Sendable(b, flow) && k < b.frames && Feeds(flow, i, ch) && f < n
    requires ch < width <= |lanes| && (forall c :: 0 <= c < width ==> |lanes[c]| > 0)
    requires Plays(buf, lanes, pos, width, n)
    requires RingRefinement.Delivered(lanes[ch], pos, n)[f] == SampleSent(b, flow, ch, k)
    ensures Reaches(b, flow, k, i, buf, f * width + ch)
  {
    FeedsIsLast(flow, i, ch);
    RingMap.DeliveredAt(lanes[ch], pos, n, f);
    hide Found, RingRefinement.Delivered, LastSlot, Pcm.Cleared, Pcm.Kept;
    Pcm.FrameFits(k, b.frames, flow.nchan, 1, |b.samples|);
    assert PlaysAt(buf, f * width + ch, Found(lanes[ch], pos, f));
    Pcm.ClearedIsKept(b.samples[k * flow.nchan + i], flow.width);
  }

  /** And so the listener's buffer holds it, at the frame and channel where it is due. */
  lemma {:induction false} SentSampleIsPlayed(
      b: Block, flow: Flow, lane: Lane, pending: RingMap.Pending, ts: seq<RingMap.TimedOp>, latencyNs: u64, now: u64,
      later: u64, ch: nat, n: nat, k: nat, lanes: seq<Lane>, width: nat, buf: seq<Sample>, i: nat)
    requires Sendable(b, flow) && k < b.frames && Feeds(flow, i, ch) && SampleOf(Arrived(b, flow), ch, k).Some?
    requires |lane| == RingLength(LatencySamples(latencyNs, flow.rate)) && RingMap.Holds(lane, pending)
    requires ArrivesAt(b, flow, pending, |lane|, latencyNs, now, ch)
    requires
      RingMap.Undisturbed(pending, |lane|, Due(now, latencyNs, flow.rate), b.index, Arrived(b, flow), ts,
                          Due(later, latencyNs, flow.rate), n, ch, k)
    requires ch < width <= |lanes| && (forall c :: 0 <= c < width ==> |lanes[c]| > 0)
    requires lanes[ch]
      == RingMap.RingAfter(Written(lane, ReadPosition(now, latencyNs, flow.rate), Arrived(b, flow), ch, b.frames),
                           ts, ch)
    requires Plays(buf, lanes, ReadPosition(later, latencyNs, flow.rate), width, n)
    ensures var f := b.index + k - Due(later, latencyNs, flow.rate);
      0 <= f < n && Reaches(b, flow, k, i, buf, f * width + ch)
  {
    hide Arrived, OnTime, Due, ReadPosition, Written, SampleIndex, SampleOf, LatencySamples, RingLength, Plays;
    hide RingMap.Holds, RingMap.RingAfter, RingMap.Undisturbed, RingMap.NoClash, SampleSent, Reaches, Feeds;
    hide RingRefinement.Delivered, Sendable;
    SentSampleIsHeard(b, flow, lane, pending, ts, latencyNs, now, later, ch, n, k);
    DeliveredIsPlayed(b, flow, ch, k, i, lanes, ReadPosition(later, latencyNs, flow.rate), width, n,
                      b.index + k - Due(later, latencyNs, flow.rate), buf);
  }
}

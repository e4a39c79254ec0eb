/** Packet timestamps, sample positions and the arrival window. */
module MediaTime {
  import opened Machine
  import opened Slots
  import opened Ring
  import RingMap
  import RingRefinement

  const NS: int := 1_000_000_000

  datatype MediaHeader = MediaHeader(seconds: u32, index: u32)

  predicate AllowedRate(rate: u32) { rate == 44_100 || rate == 48_000 || rate == 88_200 || rate == 96_000 }

  function SampleIndex(h: MediaHeader, rate: u32): u64 {
    WrapU64(WrapU64(h.seconds * rate) + h.index)
  }

  function T1Ns(h: MediaHeader, rate: u32): u64
    requires rate > 0
  {
    WrapU64(WrapU64(h.seconds * NS) + WrapU64(h.index * NS / rate))
  }

  function SplitTimestamp(sampleIndex: u64, rate: u32): MediaHeader
    requires rate > 0
  {
    MediaHeader(sampleIndex / rate % 0x1_0000_0000, sampleIndex % rate)
  }

  function LatencySamples(latencyNs: u64, rate: u32): u64 { Min(latencyNs * rate, TWO_64 - 1) / NS }

  function NsToSamples(ns: u64, rate: u32): u64 { WrapU64(ns * rate / NS) }

  function SamplesToNs(s: u64, rate: u32): u64
    requires rate > 0
  {
    WrapU64(s * NS / rate)
  }

  /** The read position both the media thread and `try_read` derive from the overlay time. */
  function ReadPosition(nowNs: u64, latencyNs: u64, rate: u32): u64 {
    SubU64(NsToSamples(nowNs, rate), LatencySamples(latencyNs, rate))
  }

  /** The block `try_read` asks the ring for; nothing is due before the first latency has passed. */
  function DuePosition(nowNs: u64, latencyNs: u64, rate: u32): Option<u64> {
    if NsToSamples(nowNs, rate) < LatencySamples(latencyNs, rate) then None
    else Some(ReadPosition(nowNs, latencyNs, rate))
  }

  /** The same read position on the unbounded timeline. */
  function Due(nowNs: u64, latencyNs: u64, rate: u32): int { nowNs * rate / NS - latencyNs * rate / NS }

  /** No timestamp of an allowed rate wraps. */
  lemma TimestampsAreExact(h: MediaHeader, rate: u32)
    requires AllowedRate(rate)
    ensures SampleIndex(h, rate) == h.seconds * rate + h.index
    ensures T1Ns(h, rate) == h.seconds * 1_000_000_000 + h.index * 1_000_000_000 / rate
  {
    TimestampsAreSmall(h, rate);
    SmallWord(h.seconds * rate);
    SmallWord(h.seconds * rate + h.index);
    SmallWord(h.seconds * NS);
    SmallWord(h.index * NS / rate);
    SmallWord(h.seconds * NS + h.index * NS / rate);
  }

  lemma TimestampsAreSmall(h: MediaHeader, rate: u32)
    requires AllowedRate(rate)
    ensures 0 <= h.seconds * rate && h.seconds * rate + h.index < TWO_64
    ensures 0 <= h.index * NS / rate && h.seconds * NS + h.index * NS / rate < TWO_64
  {
    MulMonotone(rate, 96_000, h.seconds);
    QuotientAtMost(h.index * NS, rate);
  }

  lemma QuotientAtMost(x: nat, n: nat)
    requires n > 0
    ensures 0 <= x / n <= x
  {
    assert x == x / n * n + x % n;
    MulMonotone(1, n, x / n);
  }

  /** Whole multiples come out of a division. */
  lemma DivideSum(q: nat, n: nat, x: nat)
    requires n > 0
    ensures 0 <= q * n && (q * n + x) / n == q + x / n
  {
    assert x == x / n * n + x % n;
    assert (q + x / n) * n == q * n + x / n * n;
    RemainderIs(q * n + x, n, q + x / n, x % n);
  }

  /** The packet time is the time of the packet's first sample. */
  lemma PacketTimeIsSampleTime(h: MediaHeader, rate: u32)
    requires AllowedRate(rate)
    ensures T1Ns(h, rate) == SamplesToNs(SampleIndex(h, rate), rate)
  {
    TimestampsAreExact(h, rate);
    TimestampsAreSmall(h, rate);
    DivideSum(h.seconds * NS, rate, h.index * NS);
    Scale(h.seconds, rate, h.index);
    SmallWord(h.seconds * NS + h.index * NS / rate);
  }

  lemma Scale(seconds: nat, rate: nat, index: nat)
    ensures (seconds * rate + index) * NS == seconds * NS * rate + index * NS
  {
  }

  /** Splitting a sample index and putting it together again: exact while the seconds fit u32. */
  lemma SplitRoundTrip(i: u64, rate: u32)
    requires AllowedRate(rate)
    ensures SampleIndex(SplitTimestamp(i, rate), rate) == i <==> i < 0x1_0000_0000 * rate
  {
    TimestampsAreExact(SplitTimestamp(i, rate), rate);
    if rate == 44_100 {
    } else if rate == 48_000 {
    } else if rate == 88_200 {
    }
  }

  /** Whole seconds, and the samples that are left. */
  lemma SplitMeans(i: u64, rate: u32, q: nat, r: nat)
    requires r < rate && i == q * rate + r
    ensures SplitTimestamp(i, rate) == MediaHeader(q % 0x1_0000_0000, r)
  {
    RemainderIs(i, rate, q, r);
  }

  /** A latency whose product with the rate does not fit 64 bits is cut to the largest that does. */
  lemma LongLatency(latencyNs: u64, rate: u32)
    requires latencyNs * rate >= 0x1_0000_0000_0000_0000
    ensures LatencySamples(latencyNs, rate) == 18_446_744_073
  {
  }

  /** A reading that is at most `back` ns below another one is due at most back * rate / 10^9, rounded up, samples
      before it; a reading that is not below it is not due before it. */
  lemma {:induction false} DueStepsBack(now: u64, later: u64, latencyNs: u64, rate: u32, back: nat)
    requires AllowedRate(rate) && now - back <= later
    ensures Due(later, latencyNs, rate) >= Due(now, latencyNs, rate) - (back * rate + NS - 1) / NS
  {
    MulMonotone(now, later + back, rate);
    DropsBy(now * rate, later * rate, back * rate);
  }

  lemma DropsBy(x: nat, y: nat, b: nat)
    requires x <= y + b
    ensures y / NS >= x / NS - (b + NS - 1) / NS
  {
  }

  /** The u64 read position stands for the unbounded one. */
  lemma ReadPositionIsDue(nowNs: u64, latencyNs: u64, rate: u32)
    requires AllowedRate(rate) && latencyNs * rate < TWO_64
    ensures ReadPosition(nowNs, latencyNs, rate) == WrapU64(Due(nowNs, latencyNs, rate))
    ensures DuePosition(nowNs, latencyNs, rate).Some? <==> Due(nowNs, latencyNs, rate) >= 0
  {
    RateAtMost(nowNs, rate);
    RateAtMost(latencyNs, rate);
    SmallWord(nowNs * rate / NS);
  }

  /** In plain arithmetic: q samples have passed at this time, and l make up the latency. The read position is q - l in
      64 bits, and something is due just when q has reached l. */
  lemma {:induction false} ReadPositionMeans(nowNs: u64, latencyNs: u64, rate: u32, q: nat, l: nat)
    requires rate <= 1_000_000_000 && latencyNs * rate < 0x1_0000_0000_0000_0000
    requires 0 <= q * 1_000_000_000 <= nowNs * rate < q * 1_000_000_000 + 1_000_000_000
    requires 0 <= l * 1_000_000_000 <= latencyNs * rate < l * 1_000_000_000 + 1_000_000_000
    ensures (ReadPosition(nowNs, latencyNs, rate) - (q - l)) % 0x1_0000_0000_0000_0000 == 0
    ensures Due(nowNs, latencyNs, rate) == q - l
    ensures DuePosition(nowNs, latencyNs, rate) == if q < l then None else Some(ReadPosition(nowNs, latencyNs, rate))
  {
    RemainderIs(nowNs * rate, NS, q, nowNs * rate - q * NS);
    RemainderIs(latencyNs * rate, NS, l, latencyNs * rate - l * NS);
    RateAtMost(nowNs, rate);
    SmallWord(q);
    hide Due;
    PositionOfQuotients(nowNs, latencyNs, rate, q, l);
  }

  lemma PositionOfQuotients(nowNs: u64, latencyNs: u64, rate: u32, q: nat, l: nat)
    requires latencyNs * rate < TWO_64 && 0 <= nowNs * rate && 0 <= latencyNs * rate
    requires q == nowNs * rate / NS && l == latencyNs * rate / NS && q == WrapU64(q)
    ensures (ReadPosition(nowNs, latencyNs, rate) - (q - l)) % TWO_64 == 0
    ensures NsToSamples(nowNs, rate) == q && LatencySamples(latencyNs, rate) == l
  {
  }

  lemma RateAtMost(ns: nat, rate: nat)
    requires rate <= NS
    ensures 0 <= ns * rate && ns * rate / NS <= ns
  {
    MulMonotone(rate, NS, ns);
  }

  /** Most frames a packet in the 2048-byte receive buffer can hold: two-byte samples, one channel. */
  const MAX_FRAMES: int := 1019

  lemma FramesInBuffer(bytes: nat, nchan: nat, bytesPerSample: nat)
    requires bytes <= 2048 - 9 && nchan >= 1 && 2 <= bytesPerSample <= 4
    ensures nchan * bytesPerSample >= 2
    ensures bytes / (nchan * bytesPerSample) <= MAX_FRAMES
  {
    MulMonotone(1, nchan, bytesPerSample);
    HalfAtMost(bytes, nchan * bytesPerSample);
  }

  lemma HalfAtMost(bytes: nat, stride: nat)
    requires stride >= 2
    ensures 2 * (bytes / stride) <= bytes
  {
    var f := bytes / stride;
    assert bytes == stride * f + bytes % stride;
    MulMonotone(2, stride, f);
  }

  predicate OnTime(h: MediaHeader, rate: u32, nowNs: u64, latencyNs: u64)
    requires rate > 0
  {
    T1Ns(h, rate) - latencyNs <= nowNs <= T1Ns(h, rate) + latencyNs
  }

  /** On the unbounded timeline, a frame of a packet that is on time lies less than one ring ahead of the read
      position. */
  lemma FrameInReach(h: MediaHeader, rate: u32, nowNs: u64, latencyNs: u64, k: nat)
    requires AllowedRate(rate) && latencyNs * rate < TWO_64
    requires OnTime(h, rate, nowNs, latencyNs) && k < MAX_FRAMES
    ensures var d := SampleIndex(h, rate) + k - Due(nowNs, latencyNs, rate);
            0 <= d < RingLength(LatencySamples(latencyNs, rate)) <= TWO_63
  {
    TimestampsAreExact(h, rate);
    WindowArithmetic(h, rate, nowNs, latencyNs);
    LengthIsPower(LatencySamples(latencyNs, rate));
  }

  /** Within plus or minus rx_latency of its own time, every frame of a packet passes both gates of the ring
      for that latency: none is late, none overruns. */
  lemma {:induction false} ArrivalWindow(
      h: MediaHeader, p: Packet, rate: u32, nowNs: u64, latencyNs: u64, k: nat)
    requires AllowedRate(rate) && latencyNs * rate < TWO_64 && p.index == SampleIndex(h, rate)
    requires OnTime(h, rate, nowNs, latencyNs) && k < MAX_FRAMES
    ensures var readPos, len := ReadPosition(nowNs, latencyNs, rate), RingLength(LatencySamples(latencyNs, rate));
      !Late(readPos, PositionOf(p, k)) && !Overrun(readPos, PositionOf(p, k), len)
  {
    hide SampleIndex, Due, ReadPosition, RingLength, OnTime, PositionOf, Late, Overrun, LatencySamples, WrapU64;
    FrameInReach(h, rate, nowNs, latencyNs, k);
    ReadPositionIsDue(nowNs, latencyNs, rate);
    SmallWord(p.index);
    RingMap.PositionWraps(p, p.index, k);
    RingMap.GateExact(Due(nowNs, latencyNs, rate), p.index + k, RingLength(LatencySamples(latencyNs, rate)));
  }

  /** With x and y the nanosecond products of the time of sample s and of now: between them lies at
      most the latency's product l, and rounding costs less than one sample each. */
  lemma WindowCore(s: nat, x: nat, y: nat, l: nat, rate: nat)
    requires rate <= NS && s * NS - rate < x <= s * NS
    requires x - l <= y <= x + l
    ensures 0 <= s - (y / NS - l / NS) <= 2 * (l / NS) + 2
  {
  }

  lemma WindowArithmetic(h: MediaHeader, rate: u32, nowNs: u64, latencyNs: u64)
    requires AllowedRate(rate) && latencyNs * rate < TWO_64
    requires OnTime(h, rate, nowNs, latencyNs)
    ensures var d := SampleIndex(h, rate) - Due(nowNs, latencyNs, rate);
            0 <= d <= 2 * LatencySamples(latencyNs, rate) + 2
  {
    var s, t := SampleIndex(h, rate), T1Ns(h, rate);
    TimestampsAreSmall(h, rate);
    TimestampsAreExact(h, rate);
    Scale(h.seconds, rate, h.index);
    DivideSum(h.seconds * NS, rate, h.index * NS);
    assert s * NS - rate < t * rate <= s * NS;
    ScaledBetween(t, nowNs, latencyNs, rate);
    WindowCore(s, t * rate, nowNs * rate, latencyNs * rate, rate);
  }

  lemma ScaledBetween(t: nat, now: nat, latency: nat, rate: nat)
    requires t - latency <= now <= t + latency
    ensures t * rate - latency * rate <= now * rate <= t * rate + latency * rate
    ensures t * rate >= 0 && now * rate >= 0 && latency * rate >= 0
  {
    MulMonotone(now, t + latency, rate);
    MulMonotone(t, now + latency, rate);
  }

  // ---- from the packet to the listener ----

  /** A packet that is on time lies within the range in which the ring can tell ahead from behind, and frame k is
      stored if it carries a sample for the channel. */
  lemma {:induction false} ArrivalIsInRange(h: MediaHeader, p: Packet, rate: u32, latencyNs: u64, now: u64,
      ch: nat, k: nat)
    requires AllowedRate(rate) && latencyNs * rate < TWO_64 && OnTime(h, rate, now, latencyNs)
    requires p.index == SampleIndex(h, rate) && k < Frames(p) <= MAX_FRAMES
    ensures var r := Due(now, latencyNs, rate);
      && RingMap.InRange(r, p.index, p)
      && (SampleOf(p, ch, k).Some? ==>
            RingMap.Stores(r, RingLength(LatencySamples(latencyNs, rate)), p.index, p, ch, k))
  {
    hide SampleIndex, Due, RingLength, OnTime, Frames, LatencySamples, SampleOf;
    FrameInReach(h, rate, now, latencyNs, 0);
    FrameInReach(h, rate, now, latencyNs, k);
    FrameInReach(h, rate, now, latencyNs, Frames(p) - 1);
    SmallWord(p.index);
  }

  /** A packet that arrives within plus or minus rx_latency of its own time, on the slot of no other pending sample,
      is played: whatever undisturbed run comes in between, the read that covers frame k delivers its sample. */
  lemma {:induction false} PacketIsPlayed(lane: Lane, pending: RingMap.Pending, h: MediaHeader, p: Packet,
      ts: seq<RingMap.TimedOp>, rate: u32, latencyNs: u64, now: u64, later: u64, ch: nat, n: nat, k: nat)
    requires AllowedRate(rate) && latencyNs * rate < TWO_64
    requires |lane| == RingLength(LatencySamples(latencyNs, rate)) && RingMap.Holds(lane, pending)
    requires p.index == SampleIndex(h, rate) && OnTime(h, rate, now, latencyNs)
    requires k < Frames(p) <= MAX_FRAMES && SampleOf(p, ch, k).Some?
    requires var r, r' := Due(now, latencyNs, rate), Due(later, latencyNs, rate);
      && RingMap.NoClash(pending, |lane|, r, p.index, p, ch, Frames(p))
      && RingMap.Undisturbed(pending, |lane|, r, p.index, p, ts, r', n, ch, k)
    ensures var written := Written(lane, ReadPosition(now, latencyNs, rate), p, ch, Frames(p));
      var f := p.index + k - Due(later, latencyNs, rate);
      && 0 <= f < n
      && RingRefinement.Delivered(RingMap.RingAfter(written, ts, ch), ReadPosition(later, latencyNs, rate), n)[f]
           == SampleOf(p, ch, k)
  {
    hide SampleIndex, Due, ReadPosition, RingLength, OnTime, Written, SampleOf, LatencySamples, WrapU64;
    hide RingMap.Holds, RingMap.NoClash, RingMap.ClashFreeRun, RingMap.Leaves, RingMap.Aligned, RingMap.InRange;
    hide RingMap.MapPut, RingMap.MapAfter, RingMap.RingAfter, RingRefinement.Delivered;
    var r, r' := Due(now, latencyNs, rate), Due(later, latencyNs, rate);
    ArrivalIsInRange(h, p, rate, latencyNs, now, ch, k);
    ReadPositionIsDue(now, latencyNs, rate);
    ReadPositionIsDue(later, latencyNs, rate);
    RingMap.PutIsDelivered(lane, pending, r, p.index, p, ts, r', n, ch, k);
  }
}

/** What the ring guarantees over packets and reads, without any assumption on them: conservation of samples and
    independence of packet order. One channel at a time. */
module RingRefinement {
  import opened Machine
  import opened Slots
  import opened Ring

  // ---- conservation: no stored sample is delivered twice ----

  datatype Op =
    | Write(readPos: u64, packet: Packet)
    | Read(readPos: u64, frames: nat)

  function Step(lane: Lane, op: Op, ch: nat): (r: Lane)
    requires |lane| > 0
    ensures |r| == |lane|
  {
    match op
    case Write(readPos, p) => Written(lane, readPos, p, ch, Frames(p))
    case Read(readPos, frames) => Consumed(lane, readPos, frames)
  }

  /** What a read finds, frame by frame. */
  function Delivered(lane: Lane, readPos: u64, frames: nat): (r: seq<Option<Sample>>)
    requires |lane| > 0
    ensures |r| == frames
  {
    if frames == 0 then [] else Delivered(lane, readPos, frames - 1) + [Found(lane, readPos, frames - 1)]
  }

  function Outcome(lane: Lane, op: Op): seq<Option<Sample>>
    requires |lane| > 0
  {
    if op.Read? then Delivered(lane, op.readPos, op.frames) else []
  }

  /** The samples the first n frames of a packet carry for channel ch. */
  function Offered(p: Packet, ch: nat, n: nat): seq<Option<Sample>>
    requires n <= Frames(p)
  {
    if n == 0 then [] else Offered(p, ch, n - 1) + [SampleOf(p, ch, n - 1)]
  }

  function Supply(op: Op, ch: nat): seq<Option<Sample>>
  {
    if op.Write? then Offered(op.packet, ch, Frames(op.packet)) else []
  }

  /** How often sample v occurs in a sequence of slots. */
  function Count(s: seq<Option<Sample>>, v: Sample): nat {
    if s == [] then 0 else Count(s[..|s| - 1], v) + (if s[|s| - 1] == Some(v) then 1 else 0)
  }

  function One(x: Option<Sample>, v: Sample): nat { if x == Some(v) then 1 else 0 }

  lemma CountSnoc(s: seq<Option<Sample>>, x: Option<Sample>, v: Sample)
    ensures Count(s + [x], v) == Count(s, v) + One(x, v)
  {
    assert (s + [x])[..|s|] == s;
  }

  lemma {:induction false} CountAppend(s: seq<Option<Sample>>, t: seq<Option<Sample>>, v: Sample)
    ensures Count(s + t, v) == Count(s, v) + Count(t, v)
  {
    if t == [] {
      assert s + t == s;
    } else {
      var t' := t[..|t| - 1];
      CountAppend(s, t', v);
      assert s + t == (s + t') + [t[|t| - 1]];
      CountSnoc(s + t', t[|t| - 1], v);
    }
  }

  lemma {:induction false} CountUpdate(s: seq<Option<Sample>>, i: nat, x: Option<Sample>, v: Sample)
    requires i < |s|
    ensures Count(s[i := x], v) + One(s[i], v) == Count(s, v) + One(x, v)
  {
    var n := |s| - 1;
    var s' := s[..n];
    if i == n {
      assert s[i := x] == s' + [x];
      assert s == s' + [s[n]];
      CountSnoc(s', x, v);
      CountSnoc(s', s[n], v);
    } else {
      CountUpdate(s', i, x, v);
      assert s[i := x] == s'[i := x] + [s[n]];
      CountSnoc(s'[i := x], s[n], v);
    }
  }

  /** A read moves samples out of the channel, one for one. */
  lemma {:induction false} ReadConserves(lane: Lane, readPos: u64, n: nat, v: Sample)
    requires |lane| > 0
    ensures Count(Delivered(lane, readPos, n), v) + Count(Consumed(lane, readPos, n), v) == Count(lane, v)
  {
    if n > 0 {
      ReadConserves(lane, readPos, n - 1, v);
      CountSnoc(Delivered(lane, readPos, n - 1), Found(lane, readPos, n - 1), v);
      CountUpdate(Consumed(lane, readPos, n - 1), ReadSlot(lane, readPos, n - 1), None, v);
    }
  }

  /** A write adds at most the samples the packet carries. */
  lemma {:induction false} WriteAddsAtMost(lane: Lane, readPos: u64, p: Packet, ch: nat, n: nat, v: Sample)
    requires n <= Frames(p) && |lane| > 0
    ensures Count(Written(lane, readPos, p, ch, n), v) <= Count(lane, v) + Count(Offered(p, ch, n), v)
  {
    if n > 0 {
      WriteAddsAtMost(lane, readPos, p, ch, n - 1, v);
      var prev := Written(lane, readPos, p, ch, n - 1);
      var s := SampleOf(p, ch, n - 1);
      CountSnoc(Offered(p, ch, n - 1), s, v);
      CountUpdate(prev, PositionOf(p, n - 1) % |lane|, s, v);
    }
  }

  function Run(lane: Lane, ops: seq<Op>, ch: nat): (r: Lane)
    requires |lane| > 0
    ensures |r| == |lane|
    decreases |ops|
  {
    if ops == [] then lane else Run(Step(lane, ops[0], ch), ops[1..], ch)
  }

  /** Everything read over a run. */
  function Output(lane: Lane, ops: seq<Op>, ch: nat): seq<Option<Sample>>
    requires |lane| > 0
    decreases |ops|
  {
    if ops == [] then [] else Outcome(lane, ops[0]) + Output(Step(lane, ops[0], ch), ops[1..], ch)
  }

  /** Everything written over a run. */
  function Input(ops: seq<Op>, ch: nat): seq<Option<Sample>>
    decreases |ops|
  {
    if ops == [] then [] else Supply(ops[0], ch) + Input(ops[1..], ch)
  }

  /** Over any run of packets and reads, with any positions whatsoever: a sample is read and still
      stored, together, no more often than it was there or was written. */
  lemma {:induction false} NothingDeliveredTwice(lane: Lane, ops: seq<Op>, ch: nat, v: Sample)
    requires |lane| > 0
    ensures Count(Output(lane, ops, ch), v) + Count(Run(lane, ops, ch), v)
         <= Count(lane, v) + Count(Input(ops, ch), v)
    decreases |ops|
  {
    if ops != [] {
      var op, next := ops[0], Step(lane, ops[0], ch);
      NothingDeliveredTwice(next, ops[1..], ch, v);
      CountAppend(Outcome(lane, op), Output(next, ops[1..], ch), v);
      CountAppend(Supply(op, ch), Input(ops[1..], ch), v);
      StepConserves(lane, op, ch, v);
    }
  }

  lemma StepConserves(lane: Lane, op: Op, ch: nat, v: Sample)
    requires |lane| > 0
    ensures Count(Outcome(lane, op), v) + Count(Step(lane, op, ch), v)
         <= Count(lane, v) + Count(Supply(op, ch), v)
  {
    match op
    case Write(readPos, p) => WriteAddsAtMost(lane, readPos, p, ch, Frames(p), v);
    case Read(readPos, frames) => ReadConserves(lane, readPos, frames, v);
  }

  // ---- order and repetition of packets do not matter ----

  /** Frame k of p is stored in slot s of channel ch. */
  predicate Hits(p: Packet, k: nat, readPos: u64, len: nat, ch: nat, s: nat)
    requires len > 0
  {
    && k < Frames(p)
    && Accepted(readPos, PositionOf(p, k), len)
    && PositionOf(p, k) % len == s
    && SampleOf(p, ch, k).Some?
  }

  /** A written slot holds a sample of a frame that hits it; a slot no frame hits is unchanged. */
  lemma {:induction false} WrittenAt(lane: Lane, readPos: u64, p: Packet, ch: nat, n: nat, s: nat)
      returns (k: Option<nat>)
    requires n <= Frames(p) && s < |lane|
    ensures k.Some? ==> && k.value < n && Hits(p, k.value, readPos, |lane|, ch, s)
                        && Written(lane, readPos, p, ch, n)[s] == SampleOf(p, ch, k.value)
    ensures k.None? ==> && Written(lane, readPos, p, ch, n)[s] == lane[s]
                        && forall j :: 0 <= j < n ==> !Hits(p, j, readPos, |lane|, ch, s)
  {
    if n == 0 {
      k := None;
    } else if Hits(p, n - 1, readPos, |lane|, ch, s) {
      k := Some(n - 1);
    } else {
      k := WrittenAt(lane, readPos, p, ch, n - 1, s);
    }
  }

  /** The channel after a list of packets, all written for one read position. */
  function WriteAll(lane: Lane, readPos: u64, ps: seq<Packet>, ch: nat): (r: Lane)
    requires |lane| > 0
    ensures |r| == |lane|
  {
    if ps == [] then lane
    else
      var p := ps[|ps| - 1];
      Written(WriteAll(lane, readPos, ps[..|ps| - 1], ch), readPos, p, ch, Frames(p))
  }

  lemma {:induction false} WriteAllAt(lane: Lane, readPos: u64, ps: seq<Packet>, ch: nat, s: nat)
      returns (hit: Option<(Packet, nat)>)
    requires s < |lane|
    ensures hit.Some? ==>
              var (p, k) := hit.value;
              && p in ps && Hits(p, k, readPos, |lane|, ch, s)
              && WriteAll(lane, readPos, ps, ch)[s] == SampleOf(p, ch, k)
    ensures hit.None? ==>
              && WriteAll(lane, readPos, ps, ch)[s] == lane[s]
              && forall p, k :: p in ps ==> !Hits(p, k, readPos, |lane|, ch, s)
  {
    if ps == [] {
      hit := None;
    } else {
      var rest, p := ps[..|ps| - 1], ps[|ps| - 1];
      assert ps == rest + [p];
      var k := WrittenAt(WriteAll(lane, readPos, rest, ch), readPos, p, ch, Frames(p), s);
      if k.Some? {
        hit := Some((p, k.value));
      } else {
        hit := WriteAllAt(lane, readPos, rest, ch, s);
      }
    }
  }

  /** Two packets carry the same sample wherever both carry one for the same position. */
  ghost predicate Agree(p: Packet, q: Packet, ch: nat)
  {
    forall j, k :: 0 <= j < Frames(p) && 0 <= k < Frames(q)
                   && PositionOf(p, j) == PositionOf(q, k)
                   && SampleOf(p, ch, j).Some? && SampleOf(q, ch, k).Some?
                   ==> SampleOf(p, ch, j) == SampleOf(q, ch, k)
  }

  /** Inside the window of a ring, a slot belongs to one position only. */
  lemma SlotOfPosition(readPos: u64, pos: u64, pos': u64, len: nat)
    requires PowerOfTwo(len) && len <= TWO_63
    requires Accepted(readPos, pos, len) && Accepted(readPos, pos', len) && pos % len == pos' % len
    ensures pos == pos'
  {
    AheadOf(readPos, pos, len);
    AheadOf(readPos, pos', len);
    SlotsDiffer(readPos + SubU64(pos, readPos), readPos + SubU64(pos', readPos), len);
  }

  lemma AheadOf(readPos: u64, pos: u64, len: nat)
    requires PowerOfTwo(len) && len <= TWO_63
    ensures pos == WrapU64(readPos + SubU64(pos, readPos))
    ensures pos % len == (readPos + SubU64(pos, readPos)) % len
  {
    WrapKeepsSlot(readPos + SubU64(pos, readPos), len);
  }

  /** Packets that agree leave the same samples in any order and with any repetition. */
  lemma OrderDoesNotMatter(lane: Lane, readPos: u64, ps: seq<Packet>, qs: seq<Packet>, ch: nat)
    requires PowerOfTwo(|lane|) && |lane| <= TWO_63
    requires forall p :: p in ps <==> p in qs
    requires forall p, q :: p in ps && q in ps ==> Agree(p, q, ch)
    ensures WriteAll(lane, readPos, ps, ch) == WriteAll(lane, readPos, qs, ch)
  {
    forall s | 0 <= s < |lane|
      ensures WriteAll(lane, readPos, ps, ch)[s] == WriteAll(lane, readPos, qs, ch)[s]
    {
      SlotIsDetermined(lane, readPos, ps, qs, ch, s);
    }
  }

  lemma SlotIsDetermined(lane: Lane, readPos: u64, ps: seq<Packet>, qs: seq<Packet>, ch: nat, s: nat)
    requires PowerOfTwo(|lane|) && |lane| <= TWO_63 && s < |lane|
    requires forall p :: p in ps <==> p in qs
    requires forall p, q :: p in ps && q in ps ==> Agree(p, q, ch)
    ensures WriteAll(lane, readPos, ps, ch)[s] == WriteAll(lane, readPos, qs, ch)[s]
  {
    var hp := WriteAllAt(lane, readPos, ps, ch, s);
    var hq := WriteAllAt(lane, readPos, qs, ch, s);
    assert hp.Some? ==> hp.value.0 in qs;
    assert hq.Some? ==> hq.value.0 in ps;
    if hp.Some? && hq.Some? {
      HitsAgree(hp.value.0, hp.value.1, hq.value.0, hq.value.1, readPos, |lane|, ch, s);
    }
  }

  lemma HitsAgree(p: Packet, j: nat, q: Packet, k: nat, readPos: u64, len: nat, ch: nat, s: nat)
    requires PowerOfTwo(len) && len <= TWO_63
    requires Agree(p, q, ch)
    requires Hits(p, j, readPos, len, ch, s) && Hits(q, k, readPos, len, ch, s)
    ensures SampleOf(p, ch, j) == SampleOf(q, ch, k)
  {
    SlotOfPosition(readPos, PositionOf(p, j), PositionOf(q, k), len);
  }
}

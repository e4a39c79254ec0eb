/** The PTP listener: which Sync and Follow_Up packets become observations of the overlay clock. */
module Ptp {
  import opened Machine
  import opened Bytes
  import opened Overlay

  const HEADER_LEN: nat := 40
  const CONTROL_SYNC: u8 := 0
  const CONTROL_FOLLOW_UP: u8 := 2

  datatype Header = Header(subdomain: Bytes, uuid: Bytes, sequence: u16, control: u8)

  datatype Timestamp = Timestamp(seconds: u32, nanoseconds: i32)

  datatype PendingSync = PendingSync(uuid: Bytes, sequence: u16, t2: u64)

  datatype Observation = Observation(t1: u64, t2: u64)

  /** A datagram on the event port, with the local time read on receipt, or on the general port. */
  datatype Packet = Event(bytes: Bytes, t2: u64) | General(bytes: Bytes)

  // ---- wire format (IEEE 1588-2002) ----

  function DecodeHeader(p: Bytes): Option<Header> {
    if |p| < HEADER_LEN || U16At(p, 0) != 1 then None
    else Some(Header(p[4..20], p[22..28], U16At(p, 30), p[32]))
  }

  function I32At(p: Bytes, i: nat): i32
    requires i + 4 <= |p|
  {
    var v := U32At(p, i);
    if v < 0x8000_0000 then v else v - 0x1_0000_0000
  }

  function OriginTimestamp(p: Bytes): Option<Timestamp> {
    if |p| < HEADER_LEN + 8 then None else Some(Timestamp(U32At(p, 40), I32At(p, 44)))
  }

  function FollowUp(p: Bytes): Option<(u16, Timestamp)> {
    if |p| < HEADER_LEN + 12 then None else Some((U16At(p, 40), Timestamp(U32At(p, 44), I32At(p, 48))))
  }

  /** Nanoseconds are read as unsigned; neither the product nor the sum can wrap. */
  function AsNs(ts: Timestamp): u64 {
    ts.seconds * 1_000_000_000
    + if ts.nanoseconds >= 0 then ts.nanoseconds else ts.nanoseconds + 0x1_0000_0000
  }

  predicate IsZero(ts: Timestamp) { ts.seconds == 0 && ts.nanoseconds == 0 }

  // ---- one packet ----

  function HandledEvent(pending: Option<PendingSync>, sub: Bytes, p: Bytes, t2: u64):
      (Option<PendingSync>, Option<Observation>)
  {
    match DecodeHeader(p)
    case None => (pending, None)
    case Some(h) =>
      if h.subdomain != sub || h.control != CONTROL_SYNC then (pending, None)
      else
        var ts := OriginTimestamp(p);
        if ts.Some? && !IsZero(ts.value) then (None, Some(Observation(AsNs(ts.value), t2)))
        else (Some(PendingSync(h.uuid, h.sequence, t2)), None)
  }

  function HandledGeneral(pending: Option<PendingSync>, sub: Bytes, p: Bytes):
      (Option<PendingSync>, Option<Observation>)
  {
    match DecodeHeader(p)
    case None => (pending, None)
    case Some(h) =>
      if h.subdomain != sub || h.control != CONTROL_FOLLOW_UP || pending.None? then (pending, None)
      else
        match FollowUp(p)
        case None => (pending, None)
        case Some(f) =>
          if pending.value.uuid != h.uuid || pending.value.sequence != f.0 then (pending, None)
          else (None, Some(Observation(AsNs(f.1), pending.value.t2)))
  }

  function Handled(pending: Option<PendingSync>, sub: Bytes, p: Packet):
      (Option<PendingSync>, Option<Observation>)
  {
    match p
    case Event(bytes, t2) => HandledEvent(pending, sub, bytes, t2)
    case General(bytes) => HandledGeneral(pending, sub, bytes)
  }

  function Fed(c: Clock, o: Option<Observation>): Clock {
    if o.None? then c else Observed(c, o.value.t1, o.value.t2, Source.Ptp)
  }

  // ---- a sequence of packets ----

  /** The Sync waiting after the first n packets. */
  function PendingAfter(sub: Bytes, packets: seq<Packet>, n: nat): Option<PendingSync>
    requires n <= |packets|
  {
    if n == 0 then None else Handled(PendingAfter(sub, packets, n - 1), sub, packets[n - 1]).0
  }

  /** What packet n makes the clock observe. */
  function ObservationAt(sub: Bytes, packets: seq<Packet>, n: nat): Option<Observation>
    requires n < |packets|
  {
    Handled(PendingAfter(sub, packets, n), sub, packets[n]).1
  }

  function ClockAfter(c: Clock, sub: Bytes, packets: seq<Packet>, n: nat): Clock
    requires n <= |packets|
  {
    if n == 0 then c else Fed(ClockAfter(c, sub, packets, n - 1), ObservationAt(sub, packets, n - 1))
  }

  // ---- the listener ----

  class Listener {
    const overlay: OverlayClock
    const subdomain: Bytes
    var pending: Option<PendingSync>

    constructor (overlay: OverlayClock, subdomain: Bytes)
      ensures this.overlay == overlay && this.subdomain == subdomain && pending == None
    {
      this.overlay, this.subdomain, pending := overlay, subdomain, None;
    }

    method HandleEvent(pkt: Bytes, t2: u64)
      requires Valid(overlay.State())
      modifies this, overlay
      ensures pending == HandledEvent(old(pending), subdomain, pkt, t2).0
      ensures overlay.State() == Fed(old(overlay.State()), HandledEvent(old(pending), subdomain, pkt, t2).1)
      ensures Valid(overlay.State())
    {
      hide Valid, Observed;
      var h := DecodeHeader(pkt);
      if h.None? {
        return;
      }
      if h.value.subdomain != subdomain {
        return;
      }
      if h.value.control != CONTROL_SYNC {
        return;
      }
      var ts := OriginTimestamp(pkt);
      if ts.Some? && !IsZero(ts.value) {
        overlay.Observe(AsNs(ts.value), t2, Source.Ptp);
        pending := None;
        return;
      }
      pending := Some(PendingSync(h.value.uuid, h.value.sequence, t2));
    }

    method HandleGeneral(pkt: Bytes)
      requires Valid(overlay.State())
      modifies this, overlay
      ensures pending == HandledGeneral(old(pending), subdomain, pkt).0
      ensures overlay.State() == Fed(old(overlay.State()), HandledGeneral(old(pending), subdomain, pkt).1)
      ensures Valid(overlay.State())
    {
      hide Valid, Observed;
      var h := DecodeHeader(pkt);
      if h.None? {
        return;
      }
      if h.value.subdomain != subdomain {
        return;
      }
      if h.value.control != CONTROL_FOLLOW_UP {
        return;
      }
      var f := FollowUp(pkt);
      if f.None? {
        return;
      }
      var p := pending;
      pending := None;
      if p.None? {
        return;
      }
      if p.value.uuid != h.value.uuid || p.value.sequence != f.value.0 {
        pending := p;
        return;
      }
      overlay.Observe(AsNs(f.value.1), p.value.t2, Source.Ptp);
    }

    /** The packets of the thread's life, in the order its two sockets deliver them. */
    method Listen(packets: seq<Packet>)
      requires Valid(overlay.State()) && pending == None
      modifies this, overlay
      ensures pending == PendingAfter(subdomain, packets, |packets|)
      ensures overlay.State() == ClockAfter(old(overlay.State()), subdomain, packets, |packets|)
      ensures Valid(overlay.State())
    {
      hide Valid, Observed, HandledEvent, HandledGeneral, Fed;
      for i := 0 to |packets|
        invariant pending == PendingAfter(subdomain, packets, i)
        invariant overlay.State() == ClockAfter(old(overlay.State()), subdomain, packets, i)
        invariant Valid(overlay.State())
      {
        match packets[i] {
          case Event(bytes, t2) => HandleEvent(bytes, t2);
          case General(bytes) => HandleGeneral(bytes);
        }
      }
    }
  }

  /** Every observation is shown to the clock as one of PTP, in order, and nothing else is. */
  lemma {:induction false} ObservationsArePtp(c: Clock, sub: Bytes, packets: seq<Packet>, n: nat)
    requires n < |packets|
    ensures ClockAfter(c, sub, packets, 0) == c
    ensures ClockAfter(c, sub, packets, n + 1)
      == match ObservationAt(sub, packets, n)
         case None => ClockAfter(c, sub, packets, n)
         case Some(o) => Observed(ClockAfter(c, sub, packets, n), o.t1, o.t2, Source.Ptp)
  {
    hide Observed;
  }

  // ---- the pairing the standard asks for, by the positions of the bytes ----

  /** The nanoseconds since the epoch that a timestamp of 8 bytes stands for. */
  ghost function StampAt(b: Bytes, i: nat): nat
    requires i + 8 <= |b|
  {
    WordAt(b, i) * 1_000_000_000 + WordAt(b, i + 4)
  }

  /** A version-1 packet of the subdomain with this control byte. */
  ghost predicate Headed(b: Bytes, sub: Bytes, control: u8) {
    |b| >= 40 && b[0] == 0 && b[1] == 1 && b[4..20] == sub && b[32] == control
  }

  /** A Sync of our subdomain. */
  ghost predicate IsSync(sub: Bytes, p: Packet) { p.Event? && Headed(p.bytes, sub, 0) }

  /** A Sync that carries its own time of departure: some byte of it is not 0. */
  ghost predicate IsOneStep(sub: Bytes, p: Packet) {
    IsSync(sub, p) && |p.bytes| >= 48 && p.bytes[40..48] != [0, 0, 0, 0, 0, 0, 0, 0]
  }

  ghost predicate IsFollowUp(sub: Bytes, p: Packet) { p.General? && Headed(p.bytes, sub, 2) && |p.bytes| >= 52 }

  /** The Follow_Up names the Sync's sender and sequence number. */
  ghost predicate Answers(sub: Bytes, sync: Packet, f: Packet) {
    && IsSync(sub, sync) && IsFollowUp(sub, f)
    && sync.bytes[22..28] == f.bytes[22..28]
    && HalfAt(sync.bytes, 30) == HalfAt(f.bytes, 40)
  }

  /** After n packets, Sync i still waits: it is two-step, the last Sync, and not answered yet. */
  ghost predicate Waits(sub: Bytes, packets: seq<Packet>, i: nat, n: nat)
    requires n <= |packets|
  {
    && i < n && IsSync(sub, packets[i]) && !IsOneStep(sub, packets[i])
    && forall k :: i < k < n ==> !IsSync(sub, packets[k]) && !Answers(sub, packets[i], packets[k])
  }

  /** What is remembered of a Sync. */
  ghost function Remembered(sub: Bytes, p: Packet): PendingSync
    requires IsSync(sub, p)
  {
    PendingSync(p.bytes[22..28], HalfAt(p.bytes, 30), p.t2)
  }

  lemma {:induction false} HeaderMeans(b: Bytes, sub: Bytes, control: u8)
    ensures DecodeHeader(b).Some? && DecodeHeader(b).value.subdomain == sub && DecodeHeader(b).value.control == control
      <==> Headed(b, sub, control)
    ensures DecodeHeader(b).Some? ==>
      DecodeHeader(b).value.uuid == b[22..28] && DecodeHeader(b).value.sequence == HalfAt(b, 30)
  {
  }

  lemma {:induction false} StampMeans(b: Bytes, i: nat)
    requires i + 8 <= |b|
    ensures AsNs(Timestamp(U32At(b, i), I32At(b, i + 4))) == StampAt(b, i)
    ensures IsZero(Timestamp(U32At(b, i), I32At(b, i + 4))) <==> b[i..i + 8] == [0, 0, 0, 0, 0, 0, 0, 0]
  {
    U32IsWord(b, i);
    U32IsWord(b, i + 4);
    ZeroWord(b, i);
    ZeroWord(b, i + 4);
    assert b[i..i + 8] == b[i..i + 4] + b[i + 4..i + 8];
    assert [0, 0, 0, 0, 0, 0, 0, 0] == [0, 0, 0, 0] + [0, 0, 0, 0];
    hide U32At, WordAt;
  }

  lemma {:induction false} ZeroWord(b: Bytes, i: nat)
    requires i + 4 <= |b|
    ensures WordAt(b, i) == 0 <==> b[i..i + 4] == [0, 0, 0, 0]
  {
    assert b[i..i + 4] == [b[i], b[i + 1], b[i + 2], b[i + 3]];
  }

  lemma {:induction false} OriginMeans(b: Bytes)
    ensures OriginTimestamp(b).Some? <==> |b| >= 48
    ensures |b| >= 48 ==> AsNs(OriginTimestamp(b).value) == StampAt(b, 40)
    ensures |b| >= 48 ==> (IsZero(OriginTimestamp(b).value) <==> b[40..48] == [0, 0, 0, 0, 0, 0, 0, 0])
  {
    hide StampAt, AsNs, IsZero, I32At, U32At;
    if |b| >= 48 {
      StampMeans(b, 40);
    }
  }

  lemma {:induction false} FollowUpFields(b: Bytes)
    ensures FollowUp(b).Some? <==> |b| >= 52
    ensures |b| >= 52 ==> FollowUp(b).value.0 == HalfAt(b, 40) && AsNs(FollowUp(b).value.1) == StampAt(b, 44)
  {
    hide StampAt, AsNs, IsZero, I32At, U32At;
    if |b| >= 52 {
      StampMeans(b, 44);
    }
  }

  lemma {:induction false} EventMeans(pending: Option<PendingSync>, sub: Bytes, p: Packet)
    requires p.Event?
    ensures Handled(pending, sub, p)
      == if !IsSync(sub, p) then (pending, None)
         else if IsOneStep(sub, p) then (None, Some(Observation(StampAt(p.bytes, 40), p.t2)))
         else (Some(Remembered(sub, p)), None)
  {
    HeaderMeans(p.bytes, sub, 0);
    OriginMeans(p.bytes);
    hide DecodeHeader, OriginTimestamp, StampAt, Headed, AsNs, IsZero, HalfAt;
  }

  lemma {:induction false} GeneralMeans(pending: Option<PendingSync>, sub: Bytes, p: Packet)
    requires p.General?
    ensures Handled(pending, sub, p)
      == if IsFollowUp(sub, p) && pending.Some? && pending.value.uuid == p.bytes[22..28]
            && pending.value.sequence == HalfAt(p.bytes, 40)
         then (None, Some(Observation(StampAt(p.bytes, 44), pending.value.t2)))
         else (pending, None)
  {
    HeaderMeans(p.bytes, sub, 2);
    FollowUpFields(p.bytes);
    hide DecodeHeader, FollowUp, StampAt, Headed, AsNs, HalfAt;
  }

  lemma {:induction false} HandledMeans(pending: Option<PendingSync>, sub: Bytes, p: Packet)
    ensures IsSync(sub, p) ==>
      Handled(pending, sub, p).0 == if IsOneStep(sub, p) then None else Some(Remembered(sub, p))
    ensures !IsSync(sub, p) ==>
      Handled(pending, sub, p).0 == if Handled(pending, sub, p).1.Some? then None else pending
  {
    hide Handled, Headed, StampAt, HalfAt;
    if p.Event? {
      EventMeans(pending, sub, p);
    } else {
      GeneralMeans(pending, sub, p);
    }
  }

  lemma {:induction false} FollowUpMeans(pending: Option<PendingSync>, sub: Bytes, sync: Packet, p: Packet)
    requires !IsSync(sub, p) && IsSync(sub, sync) && pending == Some(Remembered(sub, sync))
    ensures Handled(pending, sub, p).1
      == if Answers(sub, sync, p) then Some(Observation(StampAt(p.bytes, 44), sync.t2)) else None
  {
    hide Handled, Headed, StampAt, HalfAt;
    if p.Event? {
      EventMeans(pending, sub, p);
    } else {
      GeneralMeans(pending, sub, p);
    }
  }

  lemma {:induction false} NothingPending(sub: Bytes, p: Packet)
    requires !IsSync(sub, p)
    ensures Handled(None, sub, p) == (None, None)
  {
    hide Handled, Headed, StampAt, HalfAt;
    if p.Event? {
      EventMeans(None, sub, p);
    } else {
      GeneralMeans(None, sub, p);
    }
  }

  /** The pending Sync is the one that waits. */
  lemma {:induction false} PendingWaits(sub: Bytes, packets: seq<Packet>, n: nat) returns (i: nat)
    requires n <= |packets| && PendingAfter(sub, packets, n).Some?
    ensures Waits(sub, packets, i, n) && PendingAfter(sub, packets, n) == Some(Remembered(sub, packets[i]))
    decreases n
  {
    var p, before := packets[n - 1], PendingAfter(sub, packets, n - 1);
    HandledMeans(before, sub, p);
    hide IsSync, IsOneStep, Answers, Handled, Remembered;
    if IsSync(sub, p) {
      i := n - 1;
    } else {
      i := PendingWaits(sub, packets, n - 1);
      FollowUpMeans(before, sub, packets[i], p);
    }
  }

  lemma {:induction false} WaitingIsPending(sub: Bytes, packets: seq<Packet>, i: nat, n: nat)
    requires n <= |packets| && Waits(sub, packets, i, n)
    ensures PendingAfter(sub, packets, n) == Some(Remembered(sub, packets[i]))
    decreases n
  {
    var p, before := packets[n - 1], PendingAfter(sub, packets, n - 1);
    HandledMeans(before, sub, p);
    hide IsSync, IsOneStep, Answers, Handled, Remembered;
    if i < n - 1 {
      WaitingIsPending(sub, packets, i, n - 1);
      FollowUpMeans(before, sub, packets[i], p);
    }
  }

  /** A Follow_Up is observed exactly when it answers the Sync that waits, with that Sync's arrival time. */
  lemma {:induction false} FollowUpPairs(sub: Bytes, packets: seq<Packet>, n: nat, o: Observation)
    requires n < |packets| && packets[n].General?
    ensures ObservationAt(sub, packets, n) == Some(o)
      <==> exists i :: 0 <= i < n && Waits(sub, packets, i, n) && Answers(sub, packets[i], packets[n])
                       && o == Observation(StampAt(packets[n].bytes, 44), packets[i].t2)
  {
    var p, pending := packets[n], PendingAfter(sub, packets, n);
    hide Handled, Headed, StampAt, HalfAt;
    assert !IsSync(sub, p);
    if ObservationAt(sub, packets, n) == Some(o) {
      if pending.None? {
        NothingPending(sub, p);
      } else {
        var i := PendingWaits(sub, packets, n);
        FollowUpMeans(pending, sub, packets[i], p);
      }
    }
    forall i | 0 <= i < n && Waits(sub, packets, i, n) && Answers(sub, packets[i], packets[n])
      ensures ObservationAt(sub, packets, n) == Some(Observation(StampAt(p.bytes, 44), packets[i].t2))
    {
      WaitingIsPending(sub, packets, i, n);
      FollowUpMeans(pending, sub, packets[i], p);
    }
  }

  /** On the event port exactly the one-step Syncs are observed, at once. */
  lemma {:induction false} OneStepObserves(sub: Bytes, packets: seq<Packet>, n: nat, o: Observation)
    requires n < |packets| && packets[n].Event?
    ensures ObservationAt(sub, packets, n) == Some(o)
      <==> IsOneStep(sub, packets[n])
           && o == Observation(StampAt(packets[n].bytes, 40), packets[n].t2)
  {
    hide Handled, Headed, StampAt, HalfAt;
    EventMeans(PendingAfter(sub, packets, n), sub, packets[n]);
  }

  /** Sync i is used by packet j: its own time of departure, or the Follow_Up that pairs with it. */
  ghost predicate Uses(sub: Bytes, packets: seq<Packet>, i: nat, j: nat)
    requires i < |packets| && j < |packets|
  {
    && ObservationAt(sub, packets, j).Some?
    && ((i == j && IsSync(sub, packets[i]))
        || (packets[j].General? && Waits(sub, packets, i, j) && Answers(sub, packets[i], packets[j])))
  }

  /** Each Sync is used for at most one observation. */
  lemma {:induction false} SyncsAreUsedOnce(sub: Bytes, packets: seq<Packet>, i: nat, j: nat, k: nat)
    requires i < |packets| && j < |packets| && k < |packets|
    requires Uses(sub, packets, i, j) && Uses(sub, packets, i, k)
    ensures j == k
  {
    if packets[i].Event? && (i == j || i == k) {
      var o := ObservationAt(sub, packets, i);
      if o.Some? {
        OneStepObserves(sub, packets, i, o.value);
      }
    }
    hide ObservationAt, IsOneStep, Headed, HalfAt;
  }

  /** Every observation uses a Sync, and takes its arrival time. */
  lemma {:induction false} ObservationsUseASync(sub: Bytes, packets: seq<Packet>, j: nat) returns (i: nat)
    requires j < |packets| && ObservationAt(sub, packets, j).Some?
    ensures i < |packets| && Uses(sub, packets, i, j)
    ensures ObservationAt(sub, packets, j).value.t2 == packets[i].t2
  {
    var o := ObservationAt(sub, packets, j).value;
    hide Handled, Headed, StampAt, HalfAt;
    if packets[j].Event? {
      OneStepObserves(sub, packets, j, o);
      i := j;
    } else {
      FollowUpPairs(sub, packets, j, o);
      i :| 0 <= i < j && Waits(sub, packets, i, j) && Answers(sub, packets[i], packets[j])
           && o == Observation(StampAt(packets[j].bytes, 44), packets[i].t2);
    }
  }

  /** And it uses no other one. */
  lemma {:induction false} ObservationsUseOneSync(sub: Bytes, packets: seq<Packet>, h: nat, i: nat, j: nat)
    requires h < |packets| && i < |packets| && j < |packets|
    requires Uses(sub, packets, h, j) && Uses(sub, packets, i, j)
    ensures h == i
  {
    hide ObservationAt, IsOneStep, Headed, HalfAt;
  }
}

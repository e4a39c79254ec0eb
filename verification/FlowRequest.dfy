/** The flow request packet: offsets computed ahead or patched afterwards, and an aligned socket descriptor. */
module FlowRequest {
  import opened Machine
  import opened Bytes
  import opened Buf
  import opened ReqResp

  const START_CODE: u16 := 0x1102
  const OP_REQUEST: u16 := 0x0100

  datatype Request = Request(
    rate: u32, bits: u32, fpp: u16, ids: seq<u16>, hostname: Text, flowName: Text, port: u16, ip: Ipv4)

  function IdBytes(ids: seq<u16>): (b: Bytes)
    ensures |b| == 2 * |ids|
  {
    if ids == [] then [] else Be16(ids[0]) + IdBytes(ids[1..])
  }

  /** The first multiple of 8 from n on. */
  function AlignUp(n: nat): (m: nat)
    ensures m % 8 == 0 && n <= m < n + 8
  {
    n + (8 - n % 8) % 8
  }

  /** Packet offsets of the strings and of the socket descriptor. */
  function HostOffset(q: Request): nat { 48 + 2 * |q.ids| }

  function NameOffset(q: Request): nat { HostOffset(q) + |q.hostname| + 1 }

  function StringsEnd(q: Request): nat { NameOffset(q) + |q.flowName| + 1 }

  function SocketOffset(q: Request): nat { AlignUp(StringsEnd(q)) }

  /** Fields up to the socket offset, up to the flow name offset, and the rest before the strings. */
  function Lead(q: Request): Bytes {
    Be16(Low16(HostOffset(q))) + Be32(q.rate) + Be32(q.bits) + Be16(1) + Be16(Low16(|q.ids|))
  }

  function Extra(q: Request): Bytes {
    IdBytes(q.ids) + Be16(Low16(0x1C + 2 * |q.ids|)) + Be16(0x0A00) + Be16(0x0002) + Be16(q.fpp)
  }

  function Strings(q: Request): Bytes { q.hostname + [0] + q.flowName + [0] }

  function Socket(q: Request): Bytes { Be16(0x0802) + Be16(q.port) + q.ip }

  function Trail(q: Request): Bytes {
    Zeros(12) + Strings(q) + Zeros(SocketOffset(q) - StringsEnd(q)) + Socket(q)
  }

  function Body(q: Request, socket: u16, name: u16): Bytes {
    Lead(q) + Be16(socket) + Extra(q) + Be16(name) + Trail(q)
  }

  function RequestPacket(seqnum: u16, q: Request): Bytes {
    Packet(START_CODE, seqnum, OP_REQUEST, 0, Body(q, Low16(SocketOffset(q)), Low16(NameOffset(q))))
  }

  lemma {:induction false} PartSizes(q: Request)
    ensures |Lead(q)| == 14 && |Extra(q)| == 8 + 2 * |q.ids|
    ensures 12 + |Strings(q)| == 12 + StringsEnd(q) - HostOffset(q)
  {
  }

  method PutIds(body: BeWriter, ids: seq<u16>)
    modifies body
    ensures body.inner == old(body.inner) + IdBytes(ids)
  {
    var i := 0;
    while i < |ids|
      invariant i <= |ids|
      invariant body.inner + IdBytes(ids[i..]) == old(body.inner) + IdBytes(ids)
    {
      assert ids[i..][1..] == ids[i + 1..];
      body.PutU16(ids[i]);
      i := i + 1;
    }
  }

  lemma ZerosMore(n: nat)
    ensures Zeros(n) + [0] == Zeros(n + 1)
  {
  }

  /** Zero bytes up to the next packet offset that is a multiple of 8. */
  method PadToEight(body: BeWriter)
    modifies body
    ensures body.inner
      == old(body.inner) + Zeros(AlignUp(HEADER_RR + |old(body.inner)|) - HEADER_RR - |old(body.inner)|)
  {
    ghost var n, pad := |body.inner|, 0;
    assert body.inner + Zeros(0) == body.inner;
    while (HEADER_RR + body.Len()) % 8 != 0
      invariant body.inner == old(body.inner) + Zeros(pad)
      invariant pad <= AlignUp(HEADER_RR + n) - HEADER_RR - n
      decreases AlignUp(HEADER_RR + n) - pad
    {
      ZerosMore(pad);
      body.PutU8(0);
      pad := pad + 1;
    }
  }

  method PutLead(body: BeWriter, q: Request)
    modifies body
    ensures body.inner == old(body.inner) + Lead(q)
  {
    body.PutU16(Low16(48 + 2 * |q.ids|));
    body.PutU32(q.rate);
    body.PutU32(q.bits);
    body.PutU16(1);
    body.PutU16(Low16(|q.ids|));
  }

  method PutExtra(body: BeWriter, q: Request)
    modifies body
    ensures body.inner == old(body.inner) + Extra(q)
  {
    PutIds(body, q.ids);
    body.PutU16(Low16(0x1C + 2 * |q.ids|));
    body.PutU16(0x0A00);
    body.PutU16(0x0002);
    body.PutU16(q.fpp);
  }

  method PutSocket(body: BeWriter, q: Request)
    modifies body
    ensures body.inner == old(body.inner) + Socket(q)
  {
    body.PutU16(0x0802);
    body.PutU16(q.port);
    body.PutBytes(q.ip);
  }

  /** The strings and the socket descriptor behind the fixed fields, and where the last two of them are. */
  method PutTrail(body: BeWriter, q: Request) returns (flowNameOff: nat, sockOff: nat)
    requires |body.inner| == 26 + 2 * |q.ids|
    modifies body
    ensures body.inner == old(body.inner) + Trail(q)
    ensures flowNameOff == NameOffset(q) && sockOff == SocketOffset(q)
  {
    ghost var start := body.inner;
    PartSizes(q);
    body.PutZeros(12);
    body.PutCStr(q.hostname);
    flowNameOff := HEADER_RR + body.Len();
    body.PutCStr(q.flowName);
    assert body.inner == start + (Zeros(12) + Strings(q));
    PadToEight(body);
    sockOff := HEADER_RR + body.Len();
    hide AlignUp, Strings;
    PutSocket(body, q);
    assert body.inner == start + Trail(q);
  }

  method EncodeRequestFlow(seqnum: u16, q: Request) returns (packet: Bytes)
    ensures packet == RequestPacket(seqnum, q)
  {
    hide Lead, Extra, Trail;
    PartSizes(q);
    var body := new BeWriter();
    PutLead(body, q);
    var sockSlot := body.Len();
    body.PutU16(0);
    PutExtra(body, q);
    var nameSlot := body.Len();
    body.PutU16(0);
    var flowNameOff, sockOff := PutTrail(body, q);
    assert body.inner == Lead(q) + Be16(0) + (Extra(q) + Be16(0) + Trail(q));
    PatchSlot(Lead(q), Extra(q) + Be16(0) + Trail(q), Low16(sockOff));
    body.PatchU16(sockSlot, Low16(sockOff));
    ghost var front := Lead(q) + Be16(Low16(sockOff)) + Extra(q);
    assert body.inner == front + Be16(0) + Trail(q);
    PatchSlot(front, Trail(q), Low16(flowNameOff));
    body.PatchU16(nameSlot, Low16(flowNameOff));
    packet := Encode(START_CODE, seqnum, OP_REQUEST, 0, body.inner);
  }

  // ---- the transmitter's reading ----

  function ReadIds(packet: Bytes, at: nat, n: nat): seq<u16>
    requires at + 2 * n <= |packet|
    decreases n
  {
    if n == 0 then [] else [U16At(packet, at)] + ReadIds(packet, at + 2, n - 1)
  }

  function ReadSocket(packet: Bytes, at: nat): Option<(u16, Ipv4)> {
    if at + 8 > |packet| || U16At(packet, at) != 0x0802 then None
    else Some((U16At(packet, at + 2), packet[at + 4..at + 8]))
  }

  /** Everything found by following the offsets in the packet, and nothing else. */
  function ReadRequest(packet: Bytes): Option<Request> {
    if Parsed(packet).None? || |packet| < 26 || |packet| < 28 + 2 * U16At(packet, 22) then None
    else
      var n := U16At(packet, 22);
      var extra := U16At(packet, 26 + 2 * n);
      if extra + 8 > |packet| || U16At(packet, extra) != 0x0A00 then None
      else
        match (CStrAt(packet, U16At(packet, 10)), CStrAt(packet, U16At(packet, extra + 6)),
               ReadSocket(packet, U16At(packet, 24)))
        case (Some(host), Some(name), Some(socket)) =>
          Some(Request(U32At(packet, 12), U32At(packet, 16), U16At(packet, extra + 4), ReadIds(packet, 26, n),
                       host, name, socket.0, socket.1))
        case _ => None
  }

  /** Names without NUL bytes, and a packet that fits its 16-bit length field. */
  ghost predicate Sendable(q: Request) {
    NulFree(q.hostname) && NulFree(q.flowName) && SocketOffset(q) + 8 < 0x1_0000
  }

  lemma {:induction false} BodySize(q: Request, socket: u16, name: u16)
    ensures HEADER_RR + |Body(q, socket, name)| == SocketOffset(q) + 8
  {
    PartSizes(q);
  }

  lemma {:induction false} PartsStand(packet: Bytes, q: Request, socket: u16, name: u16)
    requires At(packet, HEADER_RR, Body(q, socket, name))
    ensures At(packet, 10, Lead(q)) && At(packet, 24, Be16(socket)) && At(packet, 26, Extra(q))
    ensures At(packet, 34 + 2 * |q.ids|, Be16(name)) && At(packet, 36 + 2 * |q.ids|, Trail(q))
  {
    PartSizes(q);
    hide At, Lead, Extra, Trail;
    var lead, extra, trail := Lead(q), Extra(q), Trail(q);
    AtConcat(packet, 10, lead + Be16(socket) + extra + Be16(name), trail);
    AtConcat(packet, 10, lead + Be16(socket) + extra, Be16(name));
    AtConcat(packet, 10, lead + Be16(socket), extra);
    AtConcat(packet, 10, lead, Be16(socket));
  }

  lemma {:induction false} BodyAt(seqnum: u16, body: Bytes)
    ensures At(Packet(START_CODE, seqnum, OP_REQUEST, 0, body), 10, body)
  {
    hide At, HeaderBytes, HeaderFor;
    var header := HeaderBytes(HeaderFor(START_CODE, seqnum, OP_REQUEST, 0, body));
    AtWhole(header + body);
    AtConcat(header + body, 0, header, body);
  }

  lemma {:induction false} LeadReads(packet: Bytes, q: Request)
    requires At(packet, 10, Lead(q)) && HostOffset(q) < 0x1_0000
    ensures |packet| >= 24 && U16At(packet, 10) == HostOffset(q)
    ensures U32At(packet, 12) == q.rate && U32At(packet, 16) == q.bits && U16At(packet, 22) == |q.ids|
  {
    hide At, U16At, U32At;
    var a, n: u16 := HostOffset(q), |q.ids|;
    AtConcat(packet, 10, Be16(a) + Be32(q.rate) + Be32(q.bits) + Be16(1), Be16(n));
    AtConcat(packet, 10, Be16(a) + Be32(q.rate) + Be32(q.bits), Be16(1));
    AtConcat(packet, 10, Be16(a) + Be32(q.rate), Be32(q.bits));
    AtConcat(packet, 10, Be16(a), Be32(q.rate));
    AtBe16(packet, 10, a);
    AtBe32(packet, 12, q.rate);
    AtBe32(packet, 16, q.bits);
    AtBe16(packet, 22, n);
  }

  lemma {:induction false} IdsRead(packet: Bytes, at: nat, ids: seq<u16>)
    requires At(packet, at, IdBytes(ids))
    ensures at + 2 * |ids| <= |packet| && ReadIds(packet, at, |ids|) == ids
    decreases |ids|
  {
    hide At, U16At;
    if ids == [] {
      AtInside(packet, at, []);
    } else {
      AtConcat(packet, at, Be16(ids[0]), IdBytes(ids[1..]));
      AtBe16(packet, at, ids[0]);
      IdsRead(packet, at + 2, ids[1..]);
      assert ids == [ids[0]] + ids[1..];
    }
  }

  lemma {:induction false} ExtraReads(packet: Bytes, q: Request)
    requires At(packet, 26, Extra(q)) && HostOffset(q) < 0x1_0000
    ensures var n, extra := |q.ids|, 28 + 2 * |q.ids|;
      && extra + 6 <= |packet|
      && ReadIds(packet, 26, n) == q.ids
      && U16At(packet, 26 + 2 * n) == extra
      && U16At(packet, extra) == 0x0A00
      && U16At(packet, extra + 4) == q.fpp
  {
    hide At, U16At, IdBytes, ReadIds;
    var ids, at, x := IdBytes(q.ids), 26 + 2 * |q.ids|, Be16(28 + 2 * |q.ids|);
    AtConcat(packet, 26, ids + x + Be16(0x0A00) + Be16(0x0002), Be16(q.fpp));
    AtConcat(packet, 26, ids + x + Be16(0x0A00), Be16(0x0002));
    AtConcat(packet, 26, ids + x, Be16(0x0A00));
    AtConcat(packet, 26, ids, x);
    IdsRead(packet, 26, q.ids);
    AtBe16(packet, at, 28 + 2 * |q.ids|);
    AtBe16(packet, at + 2, 0x0A00);
    AtBe16(packet, at + 6, q.fpp);
  }

  lemma {:induction false} StringsRead(packet: Bytes, q: Request)
    requires At(packet, HostOffset(q), Strings(q)) && Sendable(q)
    ensures CStrAt(packet, HostOffset(q)) == Some(q.hostname)
    ensures CStrAt(packet, NameOffset(q)) == Some(q.flowName)
  {
    hide At, CStrAt, NulFree;
    var at, h, f := HostOffset(q), q.hostname + [0], q.flowName + [0];
    assert Strings(q) == h + f;
    AtConcat(packet, at, h, f);
    CStrReads(packet, at, q.hostname);
    CStrReads(packet, at + |h|, q.flowName);
  }

  lemma {:induction false} SocketReads(packet: Bytes, at: nat, q: Request)
    requires At(packet, at, Socket(q))
    ensures ReadSocket(packet, at) == Some((q.port, q.ip))
  {
    AtConcat(packet, at, Be16(0x0802) + Be16(q.port), q.ip);
    AtConcat(packet, at, Be16(0x0802), Be16(q.port));
    AtBe16(packet, at, 0x0802);
    AtBe16(packet, at + 2, q.port);
  }

  lemma {:induction false} TrailReads(packet: Bytes, q: Request)
    requires At(packet, 36 + 2 * |q.ids|, Trail(q)) && Sendable(q)
    ensures CStrAt(packet, HostOffset(q)) == Some(q.hostname)
    ensures CStrAt(packet, NameOffset(q)) == Some(q.flowName)
    ensures ReadSocket(packet, SocketOffset(q)) == Some((q.port, q.ip))
  {
    PartSizes(q);
    var at, strings, pad := 36 + 2 * |q.ids|, Strings(q), Zeros(SocketOffset(q) - StringsEnd(q));
    hide At, Strings, Socket, AlignUp, CStrAt, ReadSocket, NulFree;
    AtConcat(packet, at, Zeros(12) + strings + pad, Socket(q));
    AtConcat(packet, at, Zeros(12) + strings, pad);
    AtConcat(packet, at, Zeros(12), strings);
    StringsRead(packet, q);
    SocketReads(packet, SocketOffset(q), q);
  }

  lemma {:induction false} BodyStands(packet: Bytes, seqnum: u16, q: Request, socket: u16, name: u16)
    requires Sendable(q) && socket == SocketOffset(q) && name == NameOffset(q)
    requires packet == RequestPacket(seqnum, q)
    ensures Parsed(packet).Some? && |packet| == socket + 8 && At(packet, HEADER_RR, Body(q, socket, name))
  {
    BodySize(q, socket, name);
    hide At, Body, Parsed, SocketOffset, NameOffset, AlignUp;
    RoundTripIffShort(START_CODE, seqnum, OP_REQUEST, 0, Body(q, socket, name));
    BodyAt(seqnum, Body(q, socket, name));
  }

  /** What the offsets of a standing body lead to. */
  lemma {:induction false} BodyReads(packet: Bytes, q: Request, socket: u16, name: u16)
    requires Sendable(q) && socket == SocketOffset(q) && name == NameOffset(q)
    requires Parsed(packet).Some? && At(packet, HEADER_RR, Body(q, socket, name))
    ensures ReadRequest(packet) == Some(q)
  {
    hide At, Body, Lead, Extra, Trail, Parsed, AlignUp, CStrAt, ReadSocket, U16At, U32At, NulFree, ReadIds;
    PartsStand(packet, q, socket, name);
    LeadReads(packet, q);
    AtBe16(packet, 24, socket);
    ExtraReads(packet, q);
    AtBe16(packet, 34 + 2 * |q.ids|, name);
    TrailReads(packet, q);
  }

  /** Following the offsets gives back the whole request; both forward offsets land where they should. */
  lemma {:induction false} RequestReadsBack(seqnum: u16, q: Request)
    requires Sendable(q)
    ensures ReadRequest(RequestPacket(seqnum, q)) == Some(q)
  {
    var socket: u16, name: u16 := SocketOffset(q), NameOffset(q);
    hide Sendable, SocketOffset, NameOffset, RequestPacket, ReadRequest;
    BodyStands(RequestPacket(seqnum, q), seqnum, q, socket, name);
    BodyReads(RequestPacket(seqnum, q), q, socket, name);
  }

  /** The socket descriptor stands at the first multiple of 8 after the strings, and ends the packet. */
  lemma {:induction false} SocketIsAligned(seqnum: u16, q: Request)
    requires Sendable(q)
    ensures var packet, at := RequestPacket(seqnum, q), SocketOffset(q);
      && |packet| == at + 8 && U16At(packet, 24) == at
      && at % 8 == 0 && StringsEnd(q) <= at
      && forall m {:trigger m % 8} :: StringsEnd(q) <= m && m % 8 == 0 ==> at <= m
  {
    var packet, socket: u16, name: u16 := RequestPacket(seqnum, q), SocketOffset(q), NameOffset(q);
    FirstAligned(StringsEnd(q));
    hide At, Body, Sendable, AlignUp, U16At, RequestPacket, StringsEnd, Parsed;
    BodyStands(packet, seqnum, q, socket, name);
    PartsStand(packet, q, socket, name);
    AtBe16(packet, 24, socket);
  }

  lemma FirstAligned(n: nat)
    ensures forall m {:trigger m % 8} :: n <= m && m % 8 == 0 ==> AlignUp(n) <= m
  {
  }

  // ---- the numbers the transmitter's reading does not depend on ----

  lemma {:induction false} LeadLayout(packet: Bytes, q: Request)
    requires At(packet, 10, Lead(q))
    ensures |packet| >= 24 && HalfAt(packet, 20) == 1
  {
    hide At, HalfAt, U16At;
    var front := Be16(Low16(HostOffset(q))) + Be32(q.rate) + Be32(q.bits);
    AtConcat(packet, 10, front + Be16(1), Be16(Low16(|q.ids|)));
    AtConcat(packet, 10, front, Be16(1));
    AtInside(packet, 10, Lead(q));
    BigEndian(packet, 20, 1, 0);
  }

  lemma {:induction false} ExtraLayout(packet: Bytes, q: Request)
    requires At(packet, 26, Extra(q))
    ensures |packet| >= 34 + 2 * |q.ids|
    ensures HalfAt(packet, 28 + 2 * |q.ids|) == 0x0A00 && HalfAt(packet, 30 + 2 * |q.ids|) == 2
  {
    PartSizes(q);
    AtInside(packet, 26, Extra(q));
    hide At, HalfAt, U16At, IdBytes;
    var front := IdBytes(q.ids) + Be16(Low16(0x1C + 2 * |q.ids|));
    AtConcat(packet, 26, front + Be16(0x0A00) + Be16(0x0002), Be16(q.fpp));
    AtConcat(packet, 26, front + Be16(0x0A00), Be16(0x0002));
    AtConcat(packet, 26, front, Be16(0x0A00));
    BigEndian(packet, 28 + 2 * |q.ids|, 0x0A00, 0);
    BigEndian(packet, 30 + 2 * |q.ids|, 2, 0);
  }

  lemma {:induction false} TrailLayout(packet: Bytes, q: Request)
    requires At(packet, 36 + 2 * |q.ids|, Trail(q))
    ensures 48 + 2 * |q.ids| <= |packet|
    ensures forall i :: 36 + 2 * |q.ids| <= i < 48 + 2 * |q.ids| ==> packet[i] == 0
  {
    var at, rest := 36 + 2 * |q.ids|, Strings(q) + Zeros(SocketOffset(q) - StringsEnd(q)) + Socket(q);
    assert Trail(q) == Zeros(12) + rest;
    hide Trail;
    AtConcat(packet, at, Zeros(12), rest);
    AtInside(packet, at, Zeros(12));
    forall i | at <= i < at + 12
      ensures packet[i] == 0
    {
      AtByte(packet, at, Zeros(12), i - at);
    }
  }

  /** A flow request is packet 0x0100 of protocol 0x1102, and the fixed fields between those that are read. */
  lemma {:induction false} RequestLayout(seqnum: u16, q: Request)
    requires Sendable(q)
    ensures var p, n := RequestPacket(seqnum, q), 2 * |q.ids|;
      && |p| >= 48 + n
      && HalfAt(p, 0) == 0x1102 && HalfAt(p, 4) == seqnum && HalfAt(p, 6) == 0x0100 && HalfAt(p, 8) == 0
      && HalfAt(p, 20) == 1 && HalfAt(p, 28 + n) == 0x0A00 && HalfAt(p, 30 + n) == 2
      && forall i :: 36 + n <= i < 48 + n ==> p[i] == 0
  {
    var p, socket: u16, name: u16 := RequestPacket(seqnum, q), SocketOffset(q), NameOffset(q);
    PacketLayout(START_CODE, seqnum, OP_REQUEST, 0, Body(q, Low16(SocketOffset(q)), Low16(NameOffset(q))));
    hide Sendable, SocketOffset, NameOffset, Body, Parsed, Lead, Extra, Trail, At, HalfAt, Packet;
    BodyStands(p, seqnum, q, socket, name);
    PartsStand(p, q, socket, name);
    LeadLayout(p, q);
    ExtraLayout(p, q);
    TrailLayout(p, q);
  }
}

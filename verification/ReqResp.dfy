/** The 10-byte header shared by the control protocols. */
module ReqResp {
  import opened Machine
  import opened Bytes
  import opened Buf

  const HEADER_RR: nat := 10
  const OPCODE2_OK: u16 := 1
  const OPCODE2_MORE: u16 := 0x8112

  datatype Header = Header(startCode: u16, totalLength: u16, seqnum: u16, opcode1: u16, opcode2: u16)

  function HeaderBytes(h: Header): (b: Bytes)
    ensures |b| == HEADER_RR
  {
    Be16(h.startCode) + Be16(h.totalLength) + Be16(h.seqnum) + Be16(h.opcode1) + Be16(h.opcode2)
  }

  /** The header of a packet with this content; the length field is a truncating cast. */
  function HeaderFor(startCode: u16, seqnum: u16, opcode1: u16, opcode2: u16, content: Bytes): Header {
    Header(startCode, Low16(HEADER_RR + |content|), seqnum, opcode1, opcode2)
  }

  function Packet(startCode: u16, seqnum: u16, opcode1: u16, opcode2: u16, content: Bytes): Bytes {
    HeaderBytes(HeaderFor(startCode, seqnum, opcode1, opcode2, content)) + content
  }

  method Encode(startCode: u16, seqnum: u16, opcode1: u16, opcode2: u16, content: Bytes) returns (packet: Bytes)
    ensures packet == Packet(startCode, seqnum, opcode1, opcode2, content)
  {
    var w := new BeWriter();
    w.PutU16(startCode);
    w.PutU16(Low16(HEADER_RR + |content|));
    w.PutU16(seqnum);
    w.PutU16(opcode1);
    w.PutU16(opcode2);
    assert w.inner == HeaderBytes(HeaderFor(startCode, seqnum, opcode1, opcode2, content));
    w.PutBytes(content);
    packet := w.inner;
  }

  function HeaderOf(packet: Bytes): Header
    requires |packet| >= HEADER_RR
  {
    Header(U16At(packet, 0), U16At(packet, 2), U16At(packet, 4), U16At(packet, 6), U16At(packet, 8))
  }

  /** Header and content; bytes beyond the stated length are ignored, a longer stated length is cut. */
  function Parsed(packet: Bytes): Option<(Header, Bytes)> {
    if |packet| < HEADER_RR then None
    else
      var h := HeaderOf(packet);
      var end := Min(h.totalLength, |packet|);
      if end < HEADER_RR then None else Some((h, packet[HEADER_RR..end]))
  }

  method Decode(packet: Bytes) returns (r: Option<(Header, Bytes)>)
    ensures r == Parsed(packet)
  {
    if |packet| < HEADER_RR {
      return None;
    }
    var s := new BeSlice(packet);
    var startCode := s.TakeU16();
    var totalLength := s.TakeU16();
    var seqnum := s.TakeU16();
    var opcode1 := s.TakeU16();
    var opcode2 := s.TakeU16();
    var h := Header(startCode.value, totalLength.value, seqnum.value, opcode1.value, opcode2.value);
    var end := Min(h.totalLength, |packet|);
    if end < HEADER_RR {
      return None;
    }
    r := Some((h, packet[HEADER_RR..end]));
  }

  lemma HeaderReads(h: Header, content: Bytes)
    ensures |HeaderBytes(h) + content| >= HEADER_RR && HeaderOf(HeaderBytes(h) + content) == h
  {
    hide At, U16At;
    var packet := HeaderBytes(h) + content;
    var three := Be16(h.startCode) + Be16(h.totalLength) + Be16(h.seqnum);
    AtWhole(packet);
    AtConcat(packet, 0, HeaderBytes(h), content);
    AtConcat(packet, 0, three + Be16(h.opcode1), Be16(h.opcode2));
    AtConcat(packet, 0, three, Be16(h.opcode1));
    AtConcat(packet, 0, Be16(h.startCode) + Be16(h.totalLength), Be16(h.seqnum));
    AtConcat(packet, 0, Be16(h.startCode), Be16(h.totalLength));
    AtBe16(packet, 0, h.startCode);
    AtBe16(packet, 2, h.totalLength);
    AtBe16(packet, 4, h.seqnum);
    AtBe16(packet, 6, h.opcode1);
    AtBe16(packet, 8, h.opcode2);
  }

  /** A packet is read back whole exactly when its length fits the 16-bit length field. */
  lemma RoundTripIffShort(startCode: u16, seqnum: u16, opcode1: u16, opcode2: u16, content: Bytes)
    ensures Parsed(Packet(startCode, seqnum, opcode1, opcode2, content))
        == Some((HeaderFor(startCode, seqnum, opcode1, opcode2, content), content))
      <==> HEADER_RR + |content| < 0x1_0000
  {
    hide HeaderBytes, HeaderOf;
    var h := HeaderFor(startCode, seqnum, opcode1, opcode2, content);
    HeaderReads(h, content);
    var packet := HeaderBytes(h) + content;
    if HEADER_RR + |content| < 0x1_0000 {
      assert h.totalLength == |packet| && packet[HEADER_RR..|packet|] == content;
    } else {
      assert h.totalLength < |packet|;
      assert h.totalLength >= HEADER_RR ==> |packet[HEADER_RR..h.totalLength]| < |content|;
    }
  }

  /** The 0-based start a paged request asks for; requests count from 1. */
  function PaginationStart(content: Bytes): Option<nat> {
    if |content| < 4 || U16At(content, 2) == 0 then None else Some(U16At(content, 2) - 1)
  }

  /** A request for the page from `start`. */
  function PageRequest(start: nat): Bytes { [0, 0] + Be16(Low16(start + 1)) }

  lemma PageRequestReads(start: nat)
    requires start < 0xFFFF
    ensures PaginationStart(PageRequest(start)) == Some(start)
  {
    var v: u16 := start + 1;
    var b := [0, 0] + Be16(v);
    assert PageRequest(start) == b && |b| == 4;
    hide At, U16At, Be16, PageRequest;
    AtWhole(b);
    AtConcat(b, 0, [0, 0], Be16(v));
    AtBe16(b, 2, v);
  }

  // ---- by the positions of the bytes ----

  /** Start code, length of the packet in 16 bits, sequence number and the two opcodes, then the content. */
  lemma {:induction false} PacketLayout(startCode: u16, seqnum: u16, opcode1: u16, opcode2: u16, content: Bytes)
    ensures var p := Packet(startCode, seqnum, opcode1, opcode2, content);
      && |p| == 10 + |content| && p[10..] == content
      && HalfAt(p, 0) == startCode && (|p| - HalfAt(p, 2)) % 0x1_0000 == 0
      && HalfAt(p, 4) == seqnum && HalfAt(p, 6) == opcode1 && HalfAt(p, 8) == opcode2
  {
    var h := HeaderFor(startCode, seqnum, opcode1, opcode2, content);
    HeaderReads(h, content);
    HeaderMeans(HeaderBytes(h) + content);
    hide HeaderBytes, HeaderOf, HalfAt;
  }

  lemma {:induction false} HeaderMeans(packet: Bytes)
    requires |packet| >= 10
    ensures var h := HeaderOf(packet);
      && h.startCode == HalfAt(packet, 0) && h.totalLength == HalfAt(packet, 2) && h.seqnum == HalfAt(packet, 4)
      && h.opcode1 == HalfAt(packet, 6) && h.opcode2 == HalfAt(packet, 8)
  {
    hide U16At, HalfAt;
    U16IsHalf(packet, 0);
    U16IsHalf(packet, 2);
    U16IsHalf(packet, 4);
    U16IsHalf(packet, 6);
    U16IsHalf(packet, 8);
  }

  /** What is read from any packet: the header's five numbers, and the content up to the stated length or the end. */
  lemma {:induction false} ParsedMeans(packet: Bytes)
    ensures Parsed(packet).Some? <==> |packet| >= 10 && HalfAt(packet, 2) >= 10
    ensures Parsed(packet).Some? ==>
      var (h, content) := Parsed(packet).value;
      && h.startCode == HalfAt(packet, 0) && h.totalLength == HalfAt(packet, 2) && h.seqnum == HalfAt(packet, 4)
      && h.opcode1 == HalfAt(packet, 6) && h.opcode2 == HalfAt(packet, 8)
      && content == packet[10..if HalfAt(packet, 2) < |packet| then HalfAt(packet, 2) else |packet|]
  {
    if |packet| >= 10 {
      HeaderMeans(packet);
    }
    hide HeaderOf, HalfAt;
  }

  /** The start of a page request is the number at 2, less one; without such a number there is none. */
  lemma {:induction false} PaginationMeans(content: Bytes)
    ensures PaginationStart(content).Some? <==> |content| >= 4 && HalfAt(content, 2) > 0
    ensures PaginationStart(content).Some? ==> PaginationStart(content).value == HalfAt(content, 2) - 1
  {
  }
}

/** A client that follows the offsets of every page, and asks on while there is more, gets every channel. */
module ArcWalk {
  import opened Machine
  import opened Bytes
  import opened Buf
  import opened ReqResp
  import opened ArcPages

  /** What a page says about one channel. */
  datatype View =
    View(id: u16, rate: u32, bits: u16, friendly: Text, tx: Option<(Text, Text)>, status: u32)

  function ViewOf(ch: RxChannel, rate: u32, bits: u16): View {
    View(ch.id, rate, bits, ch.friendly, if ch.Paired() then Some((ch.txChannel.value, ch.txHost.value)) else None,
         ch.status)
  }

  function Views(chs: seq<RxChannel>, rate: u32, bits: u16): seq<View> {
    seq(|chs|, i requires 0 <= i < |chs| => ViewOf(chs[i], rate, bits))
  }

  // ---- the client ----

  function ReadTx(packet: Bytes, name: u16, host: u16): Option<(Text, Text)> {
    match (CStrAt(packet, name), CStrAt(packet, host))
    case (Some(n), Some(h)) => Some((n, h))
    case _ => None
  }

  /** One item and everything its offsets point at. */
  function ReadItem(packet: Bytes, at: nat): Option<View>
    requires at + 20 <= |packet|
  {
    var pcm := U16At(packet, at + 4);
    if pcm + 16 > |packet| then None
    else
      match CStrAt(packet, U16At(packet, at + 10))
      case None => None
      case Some(friendly) =>
        Some(View(U16At(packet, at), U32At(packet, pcm), U16At(packet, pcm + 6), friendly,
                  ReadTx(packet, U16At(packet, at + 6), U16At(packet, at + 8)), U32At(packet, at + 12)))
  }

  /** The first n items of a page. */
  function ReadItems(packet: Bytes, n: nat): Option<seq<View>>
    requires HEADER_RR + 2 + Slots(n) <= |packet|
  {
    if n == 0 then Some([])
    else
      match (ReadItems(packet, n - 1), ReadItem(packet, HEADER_RR + 2 + Slots(n - 1)))
      case (Some(front), Some(v)) => Some(front + [v])
      case _ => None
  }

  datatype Page = Page(more: bool, views: seq<View>)

  function ReadPage(packet: Bytes): Option<Page> {
    match Parsed(packet)
    case None => None
    case Some(r) =>
      if |r.1| < 2 || HEADER_RR + 2 + Slots(r.1[1]) > |packet| then None
      else
        match ReadItems(packet, r.1[1])
        case None => None
        case Some(views) => Some(Page(r.0.opcode2 == OPCODE2_MORE, views))
  }

  /** Ask, and ask again from where the page ended while it says there is more; None when rounds run out. */
  function Walk(serve: Bytes -> Bytes, start: nat, rounds: nat): Option<seq<View>>
    decreases rounds
  {
    match ReadPage(serve(PageRequest(start)))
    case None => None
    case Some(page) =>
      if !page.more then Some(page.views)
      else if rounds == 0 then None
      else
        match Walk(serve, start + |page.views|, rounds - 1)
        case None => None
        case Some(rest) => Some(page.views + rest)
  }

  // ---- the server ----

  /** The answer to a request with this content. */
  function Answer(req: Header, content: Bytes, channels: seq<RxChannel>, rate: u32, bits: u16): Bytes {
    var start := match PaginationStart(content) case None => 0 case Some(s) => s;
    Packet(req.startCode, req.seqnum, req.opcode1, PageCode(channels, start),
           PageContent(channels, start, rate, bits))
  }

  /** The page starts at the requested channel, or at the first one if the request has no start. */
  lemma {:induction false} AnswerMeans(req: Header, content: Bytes, channels: seq<RxChannel>, rate: u32, bits: u16)
    ensures var start := if |content| >= 4 && HalfAt(content, 2) > 0 then HalfAt(content, 2) - 1 else 0;
      Answer(req, content, channels, rate, bits)
        == Packet(req.startCode, req.seqnum, req.opcode1, PageCode(channels, start),
                  PageContent(channels, start, rate, bits))
  {
    PaginationMeans(content);
    hide Packet, PageCode, PageContent, PaginationStart, HalfAt;
  }

  method AnswerRequest(req: Header, content: Bytes, channels: seq<RxChannel>, rate: u32, bits: u16)
      returns (packet: Bytes)
    ensures packet == Answer(req, content, channels, rate, bits)
  {
    var s := PaginationStart(content);
    packet := EncodeRxChannels(req, if s.None? then 0 else s.value, rate, bits, channels);
  }

  /** Names without NUL bytes, short enough that offsets and lengths stay below 2^16. */
  ghost predicate Readable(ch: RxChannel) {
    && NulFree(ch.friendly)
    && (ch.Paired() ==> NulFree(ch.txChannel.value) && NulFree(ch.txHost.value))
    && |Texts(ch)| <= 64_726
  }

  ghost predicate AllReadable(chs: seq<RxChannel>) { forall i :: 0 <= i < |chs| ==> Readable(chs[i]) }

  // ---- one item ----

  lemma {:induction false} TextsRead(packet: Bytes, off: nat, ch: RxChannel)
    requires Readable(ch) && At(packet, off, Texts(ch)) && 0 < off < 810
    ensures CStrAt(packet, off) == Some(ch.friendly)
    ensures ch.Paired() ==>
      ReadTx(packet, NameOffset(ch, off), HostOffset(ch, off)) == Some((ch.txChannel.value, ch.txHost.value))
  {
    hide At, CStrAt, NulFree;
    var f := ch.friendly + [0];
    if ch.Paired() {
      var n, h := ch.txChannel.value + [0], ch.txHost.value + [0];
      PairTexts(ch);
      AtConcat(packet, off, f, n + h);
      AtConcat(packet, off + |f|, n, h);
      CStrReads(packet, off + |f|, ch.txChannel.value);
      CStrReads(packet, off + |f| + |n|, ch.txHost.value);
    } else {
      assert Texts(ch) == f;
    }
    CStrReads(packet, off, ch.friendly);
  }

  lemma {:induction false} PairTexts(ch: RxChannel)
    requires ch.Paired()
    ensures Texts(ch) == (ch.friendly + [0]) + ((ch.txChannel.value + [0]) + (ch.txHost.value + [0]))
  {
  }

  lemma {:induction false} PcmReads(packet: Bytes, pcm: nat, rate: u32, bits: u16)
    requires At(packet, pcm, Pcm(rate, bits))
    ensures pcm + 16 <= |packet| && U32At(packet, pcm) == rate && U16At(packet, pcm + 6) == bits
  {
    hide At, U16At, U32At;
    var front := Be32(rate) + [1, 1] + Be16(bits);
    AtConcat(packet, pcm, front + Be16(0x0400) + Be16(bits) + Be16(bits), Be16(PCM_TYPE));
    AtConcat(packet, pcm, front + Be16(0x0400) + Be16(bits), Be16(bits));
    AtConcat(packet, pcm, front + Be16(0x0400), Be16(bits));
    AtConcat(packet, pcm, front, Be16(0x0400));
    AtConcat(packet, pcm, Be32(rate) + [1, 1], Be16(bits));
    AtConcat(packet, pcm, Be32(rate), [1, 1]);
    AtBe32(packet, pcm, rate);
    AtBe16(packet, pcm + 6, bits);
    PcmInside(packet, pcm, rate, bits);
  }

  lemma {:induction false} PcmInside(packet: Bytes, pcm: nat, rate: u32, bits: u16)
    requires At(packet, pcm, Pcm(rate, bits))
    ensures pcm + 16 <= |packet|
  {
  }

  lemma {:induction false} FieldsRead(packet: Bytes, at: nat, ch: RxChannel, pcm: u16, off: nat)
    requires At(packet, at, Item(ch, pcm, off))
    ensures at + 20 <= |packet| && U16At(packet, at) == ch.id && U16At(packet, at + 4) == pcm
    ensures U16At(packet, at + 6) == NameOffset(ch, off) && U16At(packet, at + 8) == HostOffset(ch, off)
    ensures U16At(packet, at + 10) == Low16(off) && U32At(packet, at + 12) == ch.status
  {
    hide At, U16At, U32At, NameOffset, HostOffset;
    var a, b, c := Be16(ch.id), Be16(0x0006), Be16(pcm);
    var n, h, f := Be16(NameOffset(ch, off)), Be16(HostOffset(ch, off)), Be16(Low16(off));
    AtConcat(packet, at, a + b + c + n + h + f + Be32(ch.status), Be32(0));
    AtConcat(packet, at, a + b + c + n + h + f, Be32(ch.status));
    AtConcat(packet, at, a + b + c + n + h, f);
    AtConcat(packet, at, a + b + c + n, h);
    AtConcat(packet, at, a + b + c, n);
    AtConcat(packet, at, a + b, c);
    AtConcat(packet, at, a, b);
    AtBe16(packet, at, ch.id);
    AtBe16(packet, at + 4, pcm);
    AtBe16(packet, at + 6, NameOffset(ch, off));
    AtBe16(packet, at + 8, HostOffset(ch, off));
    AtBe16(packet, at + 10, Low16(off));
    AtBe32(packet, at + 12, ch.status);
    AtBe32(packet, at + 16, 0);
  }

  lemma {:induction false} ItemReads(
      packet: Bytes, at: nat, ch: RxChannel, pcm: u16, off: nat, rate: u32, bits: u16)
    requires Readable(ch) && 0 < off < 810
    requires At(packet, at, Item(ch, pcm, off)) && At(packet, off, Texts(ch)) && At(packet, pcm, Pcm(rate, bits))
    ensures at + 20 <= |packet| && ReadItem(packet, at) == Some(ViewOf(ch, rate, bits))
  {
    hide At, Item, Texts, Pcm, CStrAt, U16At, U32At, Readable;
    FieldsRead(packet, at, ch, pcm, off);
    PcmReads(packet, pcm, rate, bits);
    TextsRead(packet, off, ch);
    if !ch.Paired() {
      NoPair(packet);
    }
  }

  lemma NoPair(packet: Bytes)
    ensures ReadTx(packet, 0, 0) == None
  {
  }

  // ---- where items and strings stand ----

  lemma {:induction false} ItemStands(packet: Bytes, at: nat, chs: seq<RxChannel>, pcm: u16, off: nat, i: nat)
    requires At(packet, at, Items(chs, pcm, off)) && i < |chs|
    ensures At(packet, at + Slots(i), Item(chs[i], pcm, off + |AllTexts(chs[..i])|))
    decreases |chs|
  {
    var n := |chs| - 1;
    hide At, Item, AllTexts;
    AtConcat(packet, at, Items(chs[..n], pcm, off), Item(chs[n], pcm, off + |AllTexts(chs[..n])|));
    if i < n {
      ItemStands(packet, at, chs[..n], pcm, off, i);
      assert chs[..n][..i] == chs[..i];
    }
  }

  lemma {:induction false} TextsStand(packet: Bytes, at: nat, chs: seq<RxChannel>, i: nat)
    requires At(packet, at, AllTexts(chs)) && i < |chs|
    ensures At(packet, at + |AllTexts(chs[..i])|, Texts(chs[i]))
    decreases |chs|
  {
    var n := |chs| - 1;
    hide At, Texts;
    AtConcat(packet, at, AllTexts(chs[..n]), Texts(chs[n]));
    if i < n {
      TextsStand(packet, at, chs[..n], i);
      assert chs[..n][..i] == chs[..i];
    }
  }

  /** Only a page whose strings so far are short takes another channel. */
  lemma {:induction false} TakenIsShort(slice: seq<RxChannel>, space: nat, i: nat, k: nat)
    requires i <= space <= |slice| && i <= k < Taken(slice, space, i)
    ensures TextOffset(space) + |AllTexts(slice[..k])| < 810
    decreases k - i
  {
    hide AllTexts;
    if k > i {
      TakenIsShort(slice, space, i + 1, k);
    }
  }

  lemma {:induction false} FirstIsTaken(slice: seq<RxChannel>)
    requires slice != []
    ensures Taken(slice, Space(slice), 0) >= 1
  {
    assert slice[..0] == [];
  }

  // ---- one page ----

  lemma {:induction false} PartsStand(packet: Bytes, space: u8, count: u8, chs: seq<RxChannel>, rate: u32, bits: u16)
    requires |chs| <= space <= PAGE_ITEMS && At(packet, HEADER_RR, Content(space, count, chs, rate, bits))
    ensures At(packet, HEADER_RR + 2, Items(chs, PcmOffset(space), TextOffset(space)))
    ensures At(packet, PcmOffset(space), Pcm(rate, bits))
    ensures At(packet, TextOffset(space), AllTexts(chs))
  {
    var items, free := Items(chs, PcmOffset(space), TextOffset(space)), Zeros(Slots(space - |chs|));
    hide At, Items, AllTexts, Pcm;
    var front := [space, count];
    AtConcat(packet, HEADER_RR, front + items + free + Pcm(rate, bits), AllTexts(chs));
    AtConcat(packet, HEADER_RR, front + items + free, Pcm(rate, bits));
    AtConcat(packet, HEADER_RR, front + items, free);
    AtConcat(packet, HEADER_RR, front, items);
  }

  lemma {:induction false} ItemOfPageReads(
      packet: Bytes, space: u8, count: u8, chs: seq<RxChannel>, rate: u32, bits: u16, i: nat)
    requires i < |chs| <= space <= PAGE_ITEMS && Readable(chs[i])
    requires At(packet, HEADER_RR, Content(space, count, chs, rate, bits))
    requires TextOffset(space) + |AllTexts(chs[..i])| < 810
    ensures HEADER_RR + 2 + Slots(i + 1) <= |packet|
    ensures ReadItem(packet, HEADER_RR + 2 + Slots(i)) == Some(ViewOf(chs[i], rate, bits))
  {
    hide At, Item, Items, Texts, AllTexts, Pcm, Content, Readable, ReadItem, ViewOf;
    PartsStand(packet, space, count, chs, rate, bits);
    ItemStands(packet, HEADER_RR + 2, chs, PcmOffset(space), TextOffset(space), i);
    TextsStand(packet, TextOffset(space), chs, i);
    ItemReads(packet, HEADER_RR + 2 + Slots(i), chs[i], PcmOffset(space),
              TextOffset(space) + |AllTexts(chs[..i])|, rate, bits);
  }

  lemma {:induction false} ItemsRead(
      packet: Bytes, space: u8, count: u8, chs: seq<RxChannel>, rate: u32, bits: u16, n: nat)
    requires n <= |chs| <= space <= PAGE_ITEMS && AllReadable(chs)
    requires At(packet, HEADER_RR, Content(space, count, chs, rate, bits))
    requires forall k :: 0 <= k < |chs| ==> TextOffset(space) + |AllTexts(chs[..k])| < 810
    ensures HEADER_RR + 2 + Slots(n) <= |packet|
    ensures ReadItems(packet, n) == Some(Views(chs[..n], rate, bits))
    decreases n
  {
    hide At, AllTexts, Content, Readable, ReadItem, ViewOf, TextOffset;
    if n == 0 {
      PagePrefix(packet, space, count, chs, rate, bits);
    } else {
      ItemsRead(packet, space, count, chs, rate, bits, n - 1);
      ItemOfPageReads(packet, space, count, chs, rate, bits, n - 1);
      assert Views(chs[..n], rate, bits) == Views(chs[..n - 1], rate, bits) + [ViewOf(chs[n - 1], rate, bits)];
    }
  }

  lemma {:induction false} PagePrefix(packet: Bytes, space: u8, count: u8, chs: seq<RxChannel>, rate: u32, bits: u16)
    requires |chs| <= space <= PAGE_ITEMS && At(packet, HEADER_RR, Content(space, count, chs, rate, bits))
    ensures HEADER_RR + 2 <= |packet|
  {
    ContentSize(space, count, chs, rate, bits);
  }

  lemma {:induction false} PageStarts(packet: Bytes, space: u8, count: u8, chs: seq<RxChannel>, rate: u32, bits: u16)
    requires |chs| <= space <= PAGE_ITEMS && At(packet, HEADER_RR, Content(space, count, chs, rate, bits))
    ensures HEADER_RR + 2 <= |packet| && packet[HEADER_RR + 1] == count
  {
    PagePrefix(packet, space, count, chs, rate, bits);
    AtByte(packet, HEADER_RR, Content(space, count, chs, rate, bits), 1);
  }

  lemma {:induction false} TextsGrow(chs: seq<RxChannel>)
    requires chs != []
    ensures |AllTexts(chs)| == |AllTexts(chs[..|chs| - 1])| + |Texts(chs[|chs| - 1])|
  {
  }

  /** A page of readable channels fits the 16-bit length field. */
  lemma {:induction false} PageIsShort(channels: seq<RxChannel>, start: nat, rate: u32, bits: u16)
    requires AllReadable(channels)
    ensures HEADER_RR + |PageContent(channels, start, rate, bits)| < 0x1_0000
  {
    var slice, chs := Slice(channels, start), PageChannels(channels, start);
    if slice != [] {
      hide Texts, NulFree, Content, AllTexts;
      FirstIsTaken(slice);
      var k := |chs| - 1;
      ContentSize(Space(slice), |chs|, chs, rate, bits);
      TakenIsShort(slice, Space(slice), 0, k);
      TextsGrow(chs);
      assert chs[..k] == slice[..k];
      assert Readable(chs[k]) by { assert chs[k] == channels[start + k]; }
    }
  }

  lemma {:induction false} ContentStands(startCode: u16, seqnum: u16, opcode1: u16, opcode2: u16, content: Bytes)
    ensures At(Packet(startCode, seqnum, opcode1, opcode2, content), HEADER_RR, content)
  {
    hide At, HeaderBytes, HeaderFor;
    var header := HeaderBytes(HeaderFor(startCode, seqnum, opcode1, opcode2, content));
    AtWhole(header + content);
    AtConcat(header + content, 0, header, content);
  }

  /** The channels of a page all start below the string limit. */
  lemma {:induction false} PageFits(channels: seq<RxChannel>, start: nat)
    ensures var slice, chs := Slice(channels, start), PageChannels(channels, start);
      forall k :: 0 <= k < |chs| ==> TextOffset(Space(slice)) + |AllTexts(chs[..k])| < 810
  {
    var slice, chs := Slice(channels, start), PageChannels(channels, start);
    hide AllTexts, TextOffset;
    forall k | 0 <= k < |chs|
      ensures TextOffset(Space(slice)) + |AllTexts(chs[..k])| < 810
    {
      TakenIsShort(slice, Space(slice), 0, k);
      assert chs[..k] == slice[..k];
    }
  }

  /** Everything the client reads from the page at start. */
  lemma {:induction false} PageReads(
      req: Header, channels: seq<RxChannel>, start: nat, rate: u32, bits: u16, packet: Bytes)
    requires AllReadable(channels)
    requires packet == Packet(req.startCode, req.seqnum, req.opcode1, PageCode(channels, start),
                              PageContent(channels, start, rate, bits))
    ensures ReadPage(packet) == Some(Page(start + |PageChannels(channels, start)| < |channels|,
                                          Views(PageChannels(channels, start), rate, bits)))
  {
    var content, code := PageContent(channels, start, rate, bits), PageCode(channels, start);
    var slice, chs := Slice(channels, start), PageChannels(channels, start);
    PageIsShort(channels, start, rate, bits);
    PageFits(channels, start);
    hide At, Packet, Parsed, Content, AllTexts, Readable, Taken, ReadItem, ViewOf, TextOffset;
    RoundTripIffShort(req.startCode, req.seqnum, req.opcode1, code, content);
    ContentStands(req.startCode, req.seqnum, req.opcode1, code, content);
    if slice == [] {
      NothingRead(packet, rate, bits);
    } else {
      PageStarts(packet, Space(slice), |chs|, chs, rate, bits);
      ItemsRead(packet, Space(slice), |chs|, chs, rate, bits, |chs|);
      assert chs[..|chs|] == chs;
      ContentSize(Space(slice), |chs|, chs, rate, bits);
    }
  }

  lemma NothingRead(packet: Bytes, rate: u32, bits: u16)
    requires HEADER_RR + 2 <= |packet|
    ensures ReadItems(packet, 0) == Some(Views([], rate, bits))
  {
    assert Views([], rate, bits) == [];
  }

  lemma {:induction false} ViewsSplit(a: seq<RxChannel>, b: seq<RxChannel>, rate: u32, bits: u16)
    ensures Views(a + b, rate, bits) == Views(a, rate, bits) + Views(b, rate, bits)
  {
    hide ViewOf;
  }

  /** The page at start holds a prefix of what is left: something if anything is left. */
  lemma {:induction false} PageIsPrefix(channels: seq<RxChannel>, start: nat)
    requires start < |channels|
    ensures var chs := PageChannels(channels, start);
      1 <= |chs| && start + |chs| <= |channels| && channels[start..] == chs + channels[start + |chs|..]
  {
    hide AllTexts, TextOffset;
    FirstIsTaken(Slice(channels, start));
  }

  /** What the client makes of the answer to its request for start. */
  lemma {:induction false} AnswerReads(
      req: Header, channels: seq<RxChannel>, rate: u32, bits: u16, start: nat)
    requires AllReadable(channels) && start < 0xFFFF
    ensures var chs := PageChannels(channels, start);
      ReadPage(Answer(req, PageRequest(start), channels, rate, bits))
        == Some(Page(start + |chs| < |channels|, Views(chs, rate, bits)))
  {
    hide PageContent, PageCode, Packet, AllReadable, ReadPage, Views, PageChannels, PageRequest, PaginationStart;
    PageRequestReads(start);
    PageReads(req, channels, start, rate, bits, Answer(req, PageRequest(start), channels, rate, bits));
  }

  /** The client, asking for at most 65535 channels from 1 on, gets each of them once, in order. */
  lemma {:induction false} WalkFrom(
      req: Header, channels: seq<RxChannel>, rate: u32, bits: u16, serve: Bytes -> Bytes, start: nat, rounds: nat)
    requires AllReadable(channels) && |channels| < 0x1_0000
    requires forall content :: serve(content) == Answer(req, content, channels, rate, bits)
    requires start < |channels| <= start + rounds || (start == 0 && channels == [])
    ensures Walk(serve, start, rounds) == Some(Views(channels[start..], rate, bits))
    decreases rounds
  {
    hide AllReadable, ReadPage, PageChannels, PageRequest, Answer, Views;
    var chs := PageChannels(channels, start);
    AnswerReads(req, channels, rate, bits, start);
    if channels == [] {
      NoChannels();
    } else {
      PageIsPrefix(channels, start);
      var next := start + |chs|;
      ViewsSize(chs, rate, bits);
      ViewsSplit(chs, channels[next..], rate, bits);
      if next < |channels| {
        WalkFrom(req, channels, rate, bits, serve, next, rounds - 1);
      } else {
        assert channels[next..] == [] && chs + [] == chs;
      }
    }
  }

  lemma {:induction false} ViewsSize(chs: seq<RxChannel>, rate: u32, bits: u16)
    ensures |Views(chs, rate, bits)| == |chs|
  {
  }

  lemma NoChannels()
    ensures PageChannels([], 0) == []
  {
  }

  /** The walk from the first channel ends within one request per channel and recovers the whole list. */
  lemma {:induction false} WalkRecoversAll(
      req: Header, channels: seq<RxChannel>, rate: u32, bits: u16, serve: Bytes -> Bytes)
    requires AllReadable(channels) && |channels| < 0x1_0000
    requires forall content :: serve(content) == Answer(req, content, channels, rate, bits)
    ensures Walk(serve, 0, |channels|) == Some(Views(channels, rate, bits))
  {
    hide AllReadable, Answer, Walk, Views;
    WalkFrom(req, channels, rate, bits, serve, 0, |channels|);
    assert channels[0..] == channels;
  }
}

/** Pages of receive channels: fixed items that point, by patched offsets, at strings appended behind them. */
module ArcPages {
  import opened Machine
  import opened Bytes
  import opened Buf
  import opened ReqResp

  const PAGE_ITEMS: nat := 16
  const PAGE_BYTES: nat := 800
  const PCM_TYPE: u16 := 0x000E

  /** Bytes of n item slots, 20 each. */
  function Slots(n: nat): nat { 20 * n }

  datatype RxChannel =
    RxChannel(id: u16, friendly: Text, txChannel: Option<Text>, txHost: Option<Text>, status: u32)
  {
    /** A transmitter is reported only when both halves of its name are known. */
    predicate Paired() { txChannel.Some? && txHost.Some? }
  }

  // ---- the layout ----

  /** The strings one channel appends. */
  function Texts(ch: RxChannel): Bytes {
    ch.friendly + [0] + if ch.Paired() then ch.txChannel.value + [0] + ch.txHost.value + [0] else []
  }

  function AllTexts(chs: seq<RxChannel>): Bytes {
    if chs == [] then [] else AllTexts(chs[..|chs| - 1]) + Texts(chs[|chs| - 1])
  }

  function NameOffset(ch: RxChannel, off: nat): u16 {
    if ch.Paired() then Low16(off + |ch.friendly| + 1) else 0
  }

  function HostOffset(ch: RxChannel, off: nat): u16 {
    if ch.Paired() then Low16(off + |ch.friendly| + 1 + |ch.txChannel.value| + 1) else 0
  }

  /** The item of a channel whose strings start at packet offset off. */
  function Item(ch: RxChannel, pcm: u16, off: nat): (b: Bytes)
    ensures |b| == 20
  {
    Be16(ch.id) + Be16(0x0006) + Be16(pcm) + Be16(NameOffset(ch, off)) + Be16(HostOffset(ch, off))
    + Be16(Low16(off)) + Be32(ch.status) + Be32(0)
  }

  function Items(chs: seq<RxChannel>, pcm: u16, off: nat): (b: Bytes)
    ensures |b| == Slots(|chs|)
  {
    if chs == [] then []
    else
      var front := chs[..|chs| - 1];
      Items(front, pcm, off) + Item(chs[|chs| - 1], pcm, off + |AllTexts(front)|)
  }

  function Pcm(rate: u32, bits: u16): (b: Bytes)
    ensures |b| == 16
  {
    Be32(rate) + [1, 1] + Be16(bits) + Be16(0x0400) + Be16(bits) + Be16(bits) + Be16(PCM_TYPE)
  }

  function PcmOffset(space: nat): nat { HEADER_RR + 2 + Slots(space) }

  function TextOffset(space: nat): nat { PcmOffset(space) + 16 }

  function Layout(front: Bytes, items: Bytes, free: nat, pcm: Bytes, texts: Bytes): Bytes {
    front + items + Zeros(free) + pcm + texts
  }

  /** Page content with `space` item slots, of which those for `chs` are filled. */
  function Content(space: u8, count: u8, chs: seq<RxChannel>, rate: u32, bits: u16): Bytes
    requires |chs| <= space <= PAGE_ITEMS
  {
    Layout([space, count], Items(chs, PcmOffset(space), TextOffset(space)), Slots(space - |chs|),
           Pcm(rate, bits), AllTexts(chs))
  }

  /** How many channels go on the page, counting on from the first i. */
  function Taken(slice: seq<RxChannel>, space: nat, i: nat): (n: nat)
    requires i <= space <= |slice|
    ensures i <= n <= space
    decreases |slice| - i
  {
    if i == space || TextOffset(space) - HEADER_RR + |AllTexts(slice[..i])| >= PAGE_BYTES then i
    else Taken(slice, space, i + 1)
  }

  function Slice(channels: seq<RxChannel>, start: nat): seq<RxChannel> {
    if start >= |channels| then [] else channels[start..]
  }

  function Space(slice: seq<RxChannel>): u8 { Min(|slice|, PAGE_ITEMS) }

  /** The channels of the page at start. */
  function PageChannels(channels: seq<RxChannel>, start: nat): seq<RxChannel> {
    var slice := Slice(channels, start);
    slice[..Taken(slice, Space(slice), 0)]
  }

  function PageContent(channels: seq<RxChannel>, start: nat, rate: u32, bits: u16): Bytes {
    var slice, chs := Slice(channels, start), PageChannels(channels, start);
    if slice == [] then [0, 0] else Content(Space(slice), |chs|, chs, rate, bits)
  }

  function PageCode(channels: seq<RxChannel>, start: nat): u16 {
    if start + |PageChannels(channels, start)| < |channels| then OPCODE2_MORE else OPCODE2_OK
  }

  // ---- the encoder ----

  lemma {:induction false} ContentSize(space: u8, count: u8, chs: seq<RxChannel>, rate: u32, bits: u16)
    requires |chs| <= space <= PAGE_ITEMS
    ensures |Content(space, count, chs, rate, bits)| == TextOffset(space) - HEADER_RR + |AllTexts(chs)|
  {
  }

  method WriteTexts(c: BeWriter, ch: RxChannel) returns (friendlyOff: u16, nameOff: u16, hostOff: u16)
    modifies c
    ensures c.inner == old(c.inner) + Texts(ch)
    ensures var off := HEADER_RR + |old(c.inner)|;
      friendlyOff == Low16(off) && nameOff == NameOffset(ch, off) && hostOff == HostOffset(ch, off)
  {
    friendlyOff := Low16(HEADER_RR + c.Len());
    c.PutCStr(ch.friendly);
    nameOff, hostOff := 0, 0;
    if ch.txChannel.Some? && ch.txHost.Some? {
      nameOff := Low16(HEADER_RR + c.Len());
      c.PutCStr(ch.txChannel.value);
      hostOff := Low16(HEADER_RR + c.Len());
      c.PutCStr(ch.txHost.value);
    }
  }

  method BuildItem(ch: RxChannel, pcm: u16, nameOff: u16, hostOff: u16, friendlyOff: u16, ghost off: nat)
      returns (bytes: Bytes)
    requires friendlyOff == Low16(off) && nameOff == NameOffset(ch, off) && hostOff == HostOffset(ch, off)
    ensures bytes == Item(ch, pcm, off)
  {
    var item := new BeWriter();
    item.PutU16(ch.id);
    item.PutU16(0x0006);
    item.PutU16(pcm);
    item.PutU16(nameOff);
    item.PutU16(hostOff);
    item.PutU16(friendlyOff);
    item.PutU32(ch.status);
    item.PutU32(0);
    bytes := item.inner;
  }

  method WritePcm(c: BeWriter, rate: u32, bits: u16)
    modifies c
    ensures c.inner == old(c.inner) + Pcm(rate, bits)
  {
    c.PutU32(rate);
    c.PutU8(1);
    c.PutU8(1);
    c.PutU16(bits);
    c.PutU16(0x0400);
    c.PutU16(bits);
    c.PutU16(bits);
    c.PutU16(PCM_TYPE);
  }

  /** b with the bytes from position i replaced by part. */
  function Spliced(b: Bytes, i: nat, part: Bytes): Bytes
    requires i + |part| <= |b|
  {
    b[..i] + part + b[i + |part|..]
  }

  lemma {:induction false} SpliceSlot(head: Bytes, part: Bytes, free: nat, tail: Bytes)
    requires |part| <= free
    ensures Spliced(head + Zeros(free) + tail, |head|, part) == head + part + Zeros(free - |part|) + tail
  {
    var b := head + Zeros(free) + tail;
    assert b[..|head|] == head;
    assert b[|head| + |part|..] == Zeros(free - |part|) + tail;
  }

  lemma {:induction false} GrowPage(
      front: Bytes, items: Bytes, item: Bytes, left: nat, pcm: Bytes, texts: Bytes, more: Bytes, at: nat)
    requires at == |front| + |items|
    ensures at + |item| <= |Layout(front, items, left + |item|, pcm, texts)|
    ensures Spliced(Layout(front, items, left + |item|, pcm, texts) + more, at, item)
      == Layout(front, items + item, left, pcm, texts + more)
  {
    var tail := pcm + texts + more;
    var free := left + |item|;
    assert front + items + Zeros(free) + pcm + texts + more == (front + items) + Zeros(free) + tail;
    SpliceSlot(front + items, item, free, tail);
  }

  lemma {:induction false} MoreChannels(chs: seq<RxChannel>, ch: RxChannel, pcm: u16, off: nat)
    ensures AllTexts(chs + [ch]) == AllTexts(chs) + Texts(ch)
    ensures Items(chs + [ch], pcm, off) == Items(chs, pcm, off) + Item(ch, pcm, off + |AllTexts(chs)|)
  {
    assert (chs + [ch])[..|chs|] == chs;
  }

  /** The content after one more channel, from the parts before it. */
  ghost function Grown(space: u8, chs: seq<RxChannel>, ch: RxChannel, item: Bytes, rate: u32, bits: u16): Bytes
    requires |chs| < space <= PAGE_ITEMS
  {
    Layout([space, 0], Items(chs, PcmOffset(space), TextOffset(space)) + item, Slots(space - |chs| - 1),
           Pcm(rate, bits), AllTexts(chs) + Texts(ch))
  }

  lemma {:induction false} FillSlot(
      space: u8, chs: seq<RxChannel>, ch: RxChannel, rate: u32, bits: u16, item: Bytes)
    requires |chs| < space <= PAGE_ITEMS && |item| == 20
    ensures |Content(space, 0, chs, rate, bits)| >= 2 + Slots(|chs|) + 20
    ensures Spliced(Content(space, 0, chs, rate, bits) + Texts(ch), 2 + Slots(|chs|), item)
      == Grown(space, chs, ch, item, rate, bits)
  {
    var left: nat := Slots(space - |chs| - 1);
    hide Layout, Items, AllTexts, Texts, Pcm, Spliced, Zeros;
    GrowPage([space, 0], Items(chs, PcmOffset(space), TextOffset(space)), item, left, Pcm(rate, bits),
             AllTexts(chs), Texts(ch), 2 + Slots(|chs|));
  }

  lemma {:induction false} GrownIsContent(
      space: u8, chs: seq<RxChannel>, ch: RxChannel, rate: u32, bits: u16, item: Bytes)
    requires |chs| < space <= PAGE_ITEMS
    requires item == Item(ch, PcmOffset(space), TextOffset(space) + |AllTexts(chs)|)
    ensures Grown(space, chs, ch, item, rate, bits) == Content(space, 0, chs + [ch], rate, bits)
  {
    hide Layout, Items, AllTexts, Texts, Pcm, Zeros, Item;
    MoreChannels(chs, ch, PcmOffset(space), TextOffset(space));
  }

  method StartPage(space: u8, rate: u32, bits: u16) returns (c: BeWriter)
    requires space <= PAGE_ITEMS
    ensures fresh(c) && c.inner == Content(space, 0, [], rate, bits)
  {
    c := new BeWriter();
    c.PutU8(space);
    c.PutU8(0);
    c.PutZeros(Slots(space));
    WritePcm(c, rate, bits);
  }

  method PutChannel(c: BeWriter, space: u8, ghost chs: seq<RxChannel>, i: nat, ch: RxChannel, ghost rate: u32,
                    ghost bits: u16)
    requires i == |chs| < space <= PAGE_ITEMS
    requires c.inner == Content(space, 0, chs, rate, bits)
    modifies c
    ensures c.inner == Content(space, 0, chs + [ch], rate, bits)
  {
    hide Content, Item, Texts, NameOffset, HostOffset, AllTexts;
    ghost var off := TextOffset(space) + |AllTexts(chs)|;
    FillSlot(space, chs, ch, rate, bits, Item(ch, PcmOffset(space), off));
    GrownIsContent(space, chs, ch, rate, bits, Item(ch, PcmOffset(space), off));
    ContentSize(space, 0, chs, rate, bits);
    var friendlyOff, nameOff, hostOff := WriteTexts(c, ch);
    var bytes := BuildItem(ch, PcmOffset(space), nameOff, hostOff, friendlyOff, off);
    var raw := c.inner;
    c.inner := Spliced(raw, 2 + Slots(i), bytes);
  }

  lemma {:induction false} SetCount(space: u8, count: u8, chs: seq<RxChannel>, rate: u32, bits: u16)
    requires |chs| <= space <= PAGE_ITEMS
    ensures var content := Content(space, 0, chs, rate, bits);
      |content| > 1 && content[1 := count] == Content(space, count, chs, rate, bits)
  {
  }

  method EncodeRxChannels(req: Header, start: nat, rate: u32, bits: u16, channels: seq<RxChannel>)
      returns (packet: Bytes)
    ensures packet
      == Packet(req.startCode, req.seqnum, req.opcode1, PageCode(channels, start),
                PageContent(channels, start, rate, bits))
  {
    hide Content, AllTexts;
    var slice := if start >= |channels| then [] else channels[start..];
    var space: u8 := Min(|slice|, PAGE_ITEMS);
    if space == 0 {
      packet := Encode(req.startCode, req.seqnum, req.opcode1, OPCODE2_OK, [0, 0]);
      return;
    }
    var c := StartPage(space, rate, bits);
    var i, haveMore := 0, false;
    assert slice[..0] == [];
    while i < |slice|
      invariant i <= space
      invariant c.inner == Content(space, 0, slice[..i], rate, bits)
      invariant Taken(slice, space, 0) == Taken(slice, space, i)
    {
      ContentSize(space, 0, slice[..i], rate, bits);
      if i >= space {
        haveMore := true;
        break;
      }
      if c.Len() >= PAGE_BYTES {
        haveMore := true;
        break;
      }
      assert slice[..i + 1] == slice[..i] + [slice[i]];
      PutChannel(c, space, slice[..i], i, slice[i], rate, bits);
      i := i + 1;
    }
    SetCount(space, i, slice[..i], rate, bits);
    var raw := c.inner[1 := i];
    packet := Encode(req.startCode, req.seqnum, req.opcode1, if haveMore then OPCODE2_MORE else OPCODE2_OK, raw);
  }

  // ---- by the positions of the bytes ----

  /** The sixteen bytes that describe the samples. */
  lemma {:induction false} PcmLayout(rate: u32, bits: u16)
    ensures var p := Pcm(rate, bits);
      && WordAt(p, 0) == rate && p[4] == 1 && p[5] == 1 && HalfAt(p, 6) == bits && HalfAt(p, 8) == 0x0400
      && HalfAt(p, 10) == bits && HalfAt(p, 12) == bits && HalfAt(p, 14) == 0x000E
  {
  }

  /** The twenty bytes of a channel whose strings start at off, and where each string starts, in 16 bits. */
  lemma {:induction false} ItemLayout(ch: RxChannel, pcm: u16, off: nat)
    ensures var p := Item(ch, pcm, off);
      && HalfAt(p, 0) == ch.id && HalfAt(p, 2) == 6 && HalfAt(p, 4) == pcm
      && WordAt(p, 12) == ch.status && WordAt(p, 16) == 0
      && HalfAt(p, 10) == off % 0x1_0000
      && (ch.txChannel == None || ch.txHost == None ==> HalfAt(p, 6) == 0 && HalfAt(p, 8) == 0)
      && (ch.txChannel != None && ch.txHost != None ==>
            var name := off + |ch.friendly| + 1;
            HalfAt(p, 6) == name % 0x1_0000 && HalfAt(p, 8) == (name + |ch.txChannel.value| + 1) % 0x1_0000)
  {
    ItemFields(ch.id, pcm, NameOffset(ch, off), HostOffset(ch, off), Low16(off), ch.status);
  }

  lemma {:induction false} ItemFields(id: u16, pcm: u16, name: u16, host: u16, off: u16, status: u32)
    ensures var p := Be16(id) + Be16(0x0006) + Be16(pcm) + Be16(name) + Be16(host) + Be16(off) + Be32(status) + Be32(0);
      && |p| == 20 && HalfAt(p, 0) == id && HalfAt(p, 2) == 6 && HalfAt(p, 4) == pcm && HalfAt(p, 6) == name
      && HalfAt(p, 8) == host && HalfAt(p, 10) == off && WordAt(p, 12) == status && WordAt(p, 16) == 0
  {
  }

  /** Bytes the strings of the first n channels take, each with its NUL. */
  ghost function TextSize(chs: seq<RxChannel>, n: nat): nat
    requires n <= |chs|
  {
    if n == 0 then 0
    else
      var ch := chs[n - 1];
      TextSize(chs, n - 1) + |ch.friendly| + 1
      + if ch.txChannel != None && ch.txHost != None then |ch.txChannel.value| + 1 + |ch.txHost.value| + 1 else 0
  }

  lemma {:induction false} TextSizeIs(chs: seq<RxChannel>, n: nat)
    requires n <= |chs|
    ensures |AllTexts(chs[..n])| == TextSize(chs, n)
  {
    if n > 0 {
      TextSizeIs(chs, n - 1);
      assert chs[..n][..n - 1] == chs[..n - 1];
    }
  }

  /** How many channels a page has: it stops at 16, at the last channel, and where two bytes, a slot of 20 for each of
      the 16 or fewer channels left, the 16 of the format and the strings so far reach 800 bytes. */
  lemma {:induction false} PageStops(channels: seq<RxChannel>, start: nat)
    requires start <= |channels|
    ensures var left := channels[start..];
      var slots := if |left| < 16 then |left| else 16;
      var n := |PageChannels(channels, start)|;
      && n <= slots && PageChannels(channels, start) == left[..n]
      && (forall i :: 0 <= i < n ==> 2 + 20 * slots + 16 + TextSize(left, i) < 800)
      && (n < slots ==> 2 + 20 * slots + 16 + TextSize(left, n) >= 800)
  {
    var left, slice := channels[start..], Slice(channels, start);
    assert slice == left;
    TakenStops(slice, Space(slice), 0);
    hide AllTexts, Taken;
    forall i | 0 <= i <= |slice|
      ensures |AllTexts(slice[..i])| == TextSize(slice, i)
    {
      TextSizeIs(slice, i);
    }
  }

  lemma {:induction false} TakenStops(slice: seq<RxChannel>, space: nat, i: nat)
    requires i <= space <= |slice|
    ensures var n := Taken(slice, space, i);
      && (forall k :: i <= k < n ==> TextOffset(space) - HEADER_RR + |AllTexts(slice[..k])| < 800)
      && (n < space ==> TextOffset(space) - HEADER_RR + |AllTexts(slice[..n])| >= 800)
    decreases |slice| - i
  {
    hide AllTexts;
    if i < space && TextOffset(space) - HEADER_RR + |AllTexts(slice[..i])| < PAGE_BYTES {
      TakenStops(slice, space, i + 1);
    }
  }

  /** The second opcode says whether there are more. */
  lemma {:induction false} CodeMeans(channels: seq<RxChannel>, start: nat)
    ensures PageCode(channels, start)
      == if start + |PageChannels(channels, start)| < |channels| then 0x8112 else 1
  {
  }

  /** Slots and used slots, the slots, zeros for those not used, the format, and the strings. */
  ghost predicate LaidOut(p: Bytes, slots: nat, chs: seq<RxChannel>, rate: u32, bits: u16) {
    var n, format := |chs|, 2 + 20 * slots;
    && n <= slots && |p| == format + 16 + |AllTexts(chs)| && p[0] == slots && p[1] == n
    && (forall i :: 2 + 20 * n <= i < format ==> p[i] == 0)
    && slots <= 16 && p[2..2 + 20 * n] == Items(chs, 10 + format, 10 + format + 16)
    && p[format..format + 16] == Pcm(rate, bits) && p[format + 16..] == AllTexts(chs)
  }

  lemma {:induction false} ContentIsLaidOut(space: u8, chs: seq<RxChannel>, rate: u32, bits: u16)
    requires |chs| <= space <= 16
    ensures LaidOut(Content(space, |chs|, chs, rate, bits), space, chs, rate, bits)
  {
    var items, pcm, texts := Items(chs, PcmOffset(space), TextOffset(space)), Pcm(rate, bits), AllTexts(chs);
    hide Items, Pcm, AllTexts;
    LayoutMeans([space, |chs|], items, Slots(space - |chs|), pcm, texts);
    hide Layout;
  }

  /** A page has slots for the channels left, at most 16, and its content is laid out; if nothing is left it is two
      zeros. */
  lemma {:induction false} ContentLayout(channels: seq<RxChannel>, start: nat, rate: u32, bits: u16)
    ensures start >= |channels| ==> PageContent(channels, start, rate, bits) == [0, 0]
    ensures start < |channels| ==>
      LaidOut(PageContent(channels, start, rate, bits), if |channels| - start < 16 then |channels| - start else 16,
              PageChannels(channels, start), rate, bits)
  {
    if start < |channels| {
      ContentIsLaidOut(Space(Slice(channels, start)), PageChannels(channels, start), rate, bits);
    }
    hide Content, LaidOut, Taken;
  }

  lemma {:induction false} LayoutMeans(front: Bytes, items: Bytes, free: nat, pcm: Bytes, texts: Bytes)
    requires |front| == 2
    ensures var p, k := Layout(front, items, free, pcm, texts), 2 + |items|;
      && |p| == k + free + |pcm| + |texts| && p[0] == front[0] && p[1] == front[1] && p[2..k] == items
      && (forall i :: k <= i < k + free ==> p[i] == 0)
      && p[k + free..k + free + |pcm|] == pcm && p[k + free + |pcm|..] == texts
  {
  }
}

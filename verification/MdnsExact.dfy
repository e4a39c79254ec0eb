/** What a DNS message is, by the positions of its bytes (section 4.1 of RFC 1035), and that the decoder reads exactly
    that, compressed names included. */
module MdnsExact {
  import opened Machine
  import opened Bytes
  import opened Names
  import opened NameTheorems
  import opened Mdns

  // ---- the format ----

  /** The name stands at pos, wherever it ends. */
  ghost predicate Named(msg: Bytes, pos: nat, name: Bytes) { exists end :: NameStands(msg, pos, name, end) }

  /** Two bytes, and four, that stand for a number, the most significant first. */
  ghost predicate Number16(msg: Bytes, pos: nat, v: int) { pos + 2 <= |msg| && HalfAt(msg, pos) == v }

  ghost predicate Number32(msg: Bytes, pos: nat, v: int) { pos + 4 <= |msg| && WordAt(msg, pos) == v }

  /** Character strings, each behind its length; a last one that is cut off is not counted. */
  ghost predicate StringsStand(rdata: Bytes, strings: seq<Bytes>)
    decreases |strings|
  {
    if strings == [] then rdata == [] || 1 + rdata[0] > |rdata|
    else
      && 1 + |strings[0]| <= |rdata| && rdata[0] == |strings[0]| && rdata[1..1 + |strings[0]|] == strings[0]
      && StringsStand(rdata[1 + |strings[0]|..], strings[1..])
  }

  /** The data of a record: an address, a name, strings, or a service. */
  ghost predicate DataStands(msg: Bytes, pos: nat, length: nat, rtype: int, data: RecordData)
    requires pos + length <= |msg|
  {
    match data
    case A(ip) => rtype == 1 && length == 4 && msg[pos..pos + 4] == ip
    case Ptr(name) => rtype == 12 && Named(msg, pos, name)
    case Txt(strings) => rtype == 16 && StringsStand(msg[pos..pos + length], strings)
    case Srv(priority, weight, port, target) =>
      && rtype == 33 && length >= 6 && Number16(msg, pos, priority) && Number16(msg, pos + 2, weight)
      && Number16(msg, pos + 4, port) && Named(msg, pos + 6, target)
  }

  /** Type, class, time to live and data length, then the data. */
  ghost predicate BodyStands(msg: Bytes, p: nat, r: Record, length: nat, end: nat) {
    && Number16(msg, p, r.rtype) && Number16(msg, p + 2, r.rclass) && Number32(msg, p + 4, r.ttl)
    && Number16(msg, p + 8, length) && end == p + 10 + length <= |msg|
    && DataStands(msg, p + 10, length, r.rtype, r.data)
  }

  ghost predicate RecordStands(msg: Bytes, pos: nat, r: Record, end: nat) {
    exists p: nat, length: nat :: NameStands(msg, pos, r.name, p) && BodyStands(msg, p, r, length, end)
  }

  /** The name, its type, and two bytes of class that need not even be there. */
  ghost predicate QuestionStands(msg: Bytes, pos: nat, q: Question, end: nat) {
    exists p: nat :: NameStands(msg, pos, q.name, p) && Number16(msg, p, q.qtype) && end == p + 4
  }

  ghost predicate QuestionsStand(msg: Bytes, pos: nat, qs: seq<Question>, end: nat)
    decreases |qs|
  {
    if qs == [] then end == pos
    else exists mid: nat :: QuestionStands(msg, pos, qs[0], mid) && QuestionsStand(msg, mid, qs[1..], end)
  }

  ghost predicate RecordsStand(msg: Bytes, pos: nat, rs: seq<Record>, end: nat)
    decreases |rs|
  {
    if rs == [] then end == pos
    else exists mid: nat :: RecordStands(msg, pos, rs[0], mid) && RecordsStand(msg, mid, rs[1..], end)
  }

  /** Where the four lists end, and the authority records, which the message does not keep. */
  datatype Sections = Sections(questions: nat, answers: nat, authorities: nat, additionals: nat, authority: seq<Record>)

  ghost predicate MessageStands(msg: Bytes, m: Message, s: Sections) {
    && Number16(msg, 0, m.id) && Number16(msg, 2, m.flags)
    && Number16(msg, 4, |m.questions|) && Number16(msg, 6, |m.answers|)
    && Number16(msg, 8, |s.authority|) && Number16(msg, 10, |m.additionals|)
    && QuestionsStand(msg, 12, m.questions, s.questions)
    && RecordsStand(msg, s.questions, m.answers, s.answers)
    && RecordsStand(msg, s.answers, s.authority, s.authorities)
    && RecordsStand(msg, s.authorities, m.additionals, s.additionals)
  }

  // ---- the decoder reads it ----

  lemma Number16Is(msg: Bytes, pos: nat, v: u16)
    ensures Number16(msg, pos, v) <==> pos + 2 <= |msg| && U16At(msg, pos) == v
  {
    BigEndian(msg, pos, v, 0);
  }

  lemma Number32Is(msg: Bytes, pos: nat, v: u32)
    ensures Number32(msg, pos, v) <==> pos + 4 <= |msg| && U32At(msg, pos) == v
  {
    BigEndian(msg, pos, 0, v);
  }

  lemma {:induction false} SomeName(msg: Bytes, pos: nat, name: Bytes)
    ensures Named(msg, pos, name) <==> NameAt(msg, pos).Some? && NameAt(msg, pos).value.0 == name
  {
    hide NameStands, NameAt;
    if NameAt(msg, pos).Some? && NameAt(msg, pos).value.0 == name {
      DecompressionIsExact(msg, pos, name, NameAt(msg, pos).value.1);
    }
    forall end: nat | NameStands(msg, pos, name, end)
      ensures NameAt(msg, pos).Some? && NameAt(msg, pos).value.0 == name
    {
      DecompressionIsExact(msg, pos, name, end);
    }
  }

  lemma {:induction false} StringsAreExact(rdata: Bytes, strings: seq<Bytes>)
    ensures StringsStand(rdata, strings) <==> StringsIn(rdata) == strings
    decreases |rdata|
  {
    if rdata != [] && 1 + rdata[0] <= |rdata| {
      var n: nat := rdata[0];
      if strings != [] && |strings[0]| == n {
        StringsAreExact(rdata[1 + n..], strings[1..]);
        assert strings == [strings[0]] + strings[1..];
        assert StringsIn(rdata)[1..] == StringsIn(rdata[1 + n..]);
      }
    }
  }

  lemma {:induction false} SrvIsExact(msg: Bytes, pos: nat, length: nat, data: RecordData)
    requires pos + length <= |msg| && data.Srv?
    ensures DataStands(msg, pos, length, 33, data) <==> DataAt(msg, pos, 33, length) == Some(data)
  {
    hide Named, NameAt, U16At, Number16;
    SomeName(msg, pos + 6, data.target);
    Number16Is(msg, pos, data.priority);
    Number16Is(msg, pos + 2, data.weight);
    Number16Is(msg, pos + 4, data.port);
  }

  lemma {:induction false} DataIsExact(msg: Bytes, pos: nat, length: nat, rtype: u16, data: RecordData)
    requires pos + length <= |msg|
    ensures DataStands(msg, pos, length, rtype, data) <==> DataAt(msg, pos, rtype, length) == Some(data)
  {
    hide Named, NameAt, U16At, Number16, StringsStand, StringsIn;
    match data
    case A(_) =>
    case Ptr(name) => SomeName(msg, pos, name);
    case Txt(strings) => StringsAreExact(msg[pos..pos + length], strings);
    case Srv(_, _, _, _) => SrvIsExact(msg, pos, length, data);
  }

  lemma {:induction false} BodyIsExact(msg: Bytes, p: nat, r: Record, end: nat)
    ensures (exists length: nat :: BodyStands(msg, p, r, length, end)) <==> BodyAt(msg, r.name, p) == Some((r, end))
  {
    hide U16At, U32At, Number16, Number32, DataStands, DataAt;
    Number16Is(msg, p, r.rtype);
    Number16Is(msg, p + 2, r.rclass);
    Number32Is(msg, p + 4, r.ttl);
    if p + 10 <= |msg| {
      var length := U16At(msg, p + 8);
      Number16Is(msg, p + 8, length);
      if p + 10 + length <= |msg| {
        DataIsExact(msg, p + 10, length, U16At(msg, p), r.data);
        if BodyAt(msg, r.name, p) == Some((r, end)) {
          assert BodyStands(msg, p, r, length, end);
        }
      }
    }
    forall length: nat | BodyStands(msg, p, r, length, end)
      ensures BodyAt(msg, r.name, p) == Some((r, end))
    {
      LengthIs(msg, p + 8, length);
    }
  }

  lemma LengthIs(msg: Bytes, pos: nat, length: nat)
    requires Number16(msg, pos, length)
    ensures pos + 2 <= |msg| && U16At(msg, pos) == length
  {
    Number16Is(msg, pos, U16At(msg, pos));
  }

  lemma {:induction false} RecordIsExact(msg: Bytes, pos: nat, r: Record, end: nat)
    ensures RecordStands(msg, pos, r, end) <==> RecordAt(msg, pos) == Some((r, end))
  {
    hide NameStands, NameAt, BodyStands, BodyAt;
    if RecordAt(msg, pos) == Some((r, end)) {
      var p := NameAt(msg, pos).value.1;
      NameOfBody(msg, NameAt(msg, pos).value.0, p);
      DecompressionIsExact(msg, pos, r.name, p);
      BodyIsExact(msg, p, r, end);
    }
    forall p: nat, length: nat | NameStands(msg, pos, r.name, p) && BodyStands(msg, p, r, length, end)
      ensures RecordAt(msg, pos) == Some((r, end))
    {
      DecompressionIsExact(msg, pos, r.name, p);
      BodyIsExact(msg, p, r, end);
    }
  }

  lemma NameOfBody(msg: Bytes, name: Text, p: nat)
    ensures BodyAt(msg, name, p).Some? ==> BodyAt(msg, name, p).value.0.name == name
  {
    hide DataAt, U16At, U32At;
  }

  lemma {:induction false} QuestionIsExact(msg: Bytes, pos: nat, q: Question, end: nat)
    ensures QuestionStands(msg, pos, q, end) <==> QuestionAt(msg, pos) == Some((q, end))
  {
    hide NameStands, NameAt, U16At, Number16;
    if QuestionAt(msg, pos) == Some((q, end)) {
      var p := NameAt(msg, pos).value.1;
      DecompressionIsExact(msg, pos, q.name, p);
      Number16Is(msg, p, q.qtype);
    }
    forall p: nat | NameStands(msg, pos, q.name, p) && Number16(msg, p, q.qtype) && end == p + 4
      ensures QuestionAt(msg, pos) == Some((q, end))
    {
      DecompressionIsExact(msg, pos, q.name, p);
      Number16Is(msg, p, q.qtype);
    }
  }

  lemma {:induction false} RecordsAreExact(msg: Bytes, pos: nat, n: nat, rs: seq<Record>, end: nat)
    requires |rs| == n
    ensures RecordsStand(msg, pos, rs, end) <==> RecordsAt(msg, pos, n) == Some((rs, end))
    decreases n
  {
    hide RecordAt, RecordStands;
    if n > 0 {
      var read := RecordReader(msg);
      assert read(pos) == RecordAt(msg, pos);
      if read(pos).Some? {
        var (r, mid) := read(pos).value;
        RecordIsExact(msg, pos, r, mid);
        RecordsAreExact(msg, mid, n - 1, rs[1..], end);
        FirstOf(read, pos, n, rs, end);
        assert rs == [rs[0]] + rs[1..];
      }
      forall mid: nat | RecordStands(msg, pos, rs[0], mid)
        ensures read(pos) == Some((rs[0], mid))
      {
        RecordIsExact(msg, pos, rs[0], mid);
      }
    }
  }

  lemma {:induction false} FirstOf<T>(read: nat -> Option<(T, nat)>, pos: nat, n: nat, items: seq<T>, end: nat)
    requires |items| == n > 0 && read(pos).Some?
    ensures ListAt(read, pos, n) == Some((items, end))
      <==> read(pos).value.0 == items[0] && ListAt(read, read(pos).value.1, n - 1) == Some((items[1..], end))
  {
    var one, rest := read(pos).value, ListAt(read, read(pos).value.1, n - 1);
    if rest.Some? {
      var whole := [one.0] + rest.value.0;
      assert whole[0] == one.0 && whole[1..] == rest.value.0;
      assert items == [items[0]] + items[1..];
    }
  }

  lemma {:induction false} QuestionsAreExact(msg: Bytes, pos: nat, n: nat, qs: seq<Question>, end: nat)
    requires |qs| == n
    ensures QuestionsStand(msg, pos, qs, end) <==> QuestionsAt(msg, pos, n) == Some((qs, end))
    decreases n
  {
    hide QuestionAt, QuestionStands;
    if n > 0 {
      var read := QuestionReader(msg);
      assert read(pos) == QuestionAt(msg, pos);
      if read(pos).Some? {
        var (q, mid) := read(pos).value;
        QuestionIsExact(msg, pos, q, mid);
        QuestionsAreExact(msg, mid, n - 1, qs[1..], end);
        FirstOf(read, pos, n, qs, end);
        assert qs == [qs[0]] + qs[1..];
      }
      forall mid: nat | QuestionStands(msg, pos, qs[0], mid)
        ensures read(pos) == Some((qs[0], mid))
      {
        QuestionIsExact(msg, pos, qs[0], mid);
      }
    }
  }

  lemma {:induction false} ListHasLength<T>(read: nat -> Option<(T, nat)>, pos: nat, n: nat)
    ensures ListAt(read, pos, n).Some? ==> |ListAt(read, pos, n).value.0| == n
    decreases n
  {
    if n > 0 && read(pos).Some? {
      ListHasLength(read, read(pos).value.1, n - 1);
    }
  }

  /** What the decoder goes through on the way to a message. */
  lemma {:induction false} SectionsOf(msg: Bytes, m: Message) returns (s: Sections)
    requires MessageAt(msg) == Some(m)
    ensures MessageStands(msg, m, s)
  {
    hide U16At, QuestionsAt, RecordsAt, RecordsStand, QuestionsStand, Number16, ListAt;
    var qs := QuestionsAt(msg, 12, U16At(msg, 4)).value;
    var an := RecordsAt(msg, qs.1, U16At(msg, 6)).value;
    var ns := RecordsAt(msg, an.1, U16At(msg, 8)).value;
    var ar := RecordsAt(msg, ns.1, U16At(msg, 10)).value;
    s := Sections(qs.1, an.1, ns.1, ar.1, ns.0);
    CountsOf(msg, qs.1, an.1, ns.1);
    Number16Is(msg, 0, m.id);
    Number16Is(msg, 2, m.flags);
    Number16Is(msg, 4, U16At(msg, 4));
    Number16Is(msg, 6, U16At(msg, 6));
    Number16Is(msg, 8, U16At(msg, 8));
    Number16Is(msg, 10, U16At(msg, 10));
    QuestionsAreExact(msg, 12, U16At(msg, 4), qs.0, qs.1);
    RecordsAreExact(msg, qs.1, U16At(msg, 6), an.0, an.1);
    RecordsAreExact(msg, an.1, U16At(msg, 8), ns.0, ns.1);
    RecordsAreExact(msg, ns.1, U16At(msg, 10), ar.0, ar.1);
  }

  lemma {:induction false} CountsOf(msg: Bytes, an: nat, ns: nat, ar: nat)
    requires |msg| >= 12
    ensures QuestionsAt(msg, 12, U16At(msg, 4)).Some? ==>
      |QuestionsAt(msg, 12, U16At(msg, 4)).value.0| == U16At(msg, 4)
    ensures RecordsAt(msg, an, U16At(msg, 6)).Some? ==> |RecordsAt(msg, an, U16At(msg, 6)).value.0| == U16At(msg, 6)
    ensures RecordsAt(msg, ns, U16At(msg, 8)).Some? ==> |RecordsAt(msg, ns, U16At(msg, 8)).value.0| == U16At(msg, 8)
    ensures RecordsAt(msg, ar, U16At(msg, 10)).Some? ==>
      |RecordsAt(msg, ar, U16At(msg, 10)).value.0| == U16At(msg, 10)
  {
    hide U16At;
    ListHasLength(QuestionReader(msg), 12, U16At(msg, 4));
    ListHasLength(RecordReader(msg), an, U16At(msg, 6));
    ListHasLength(RecordReader(msg), ns, U16At(msg, 8));
    ListHasLength(RecordReader(msg), ar, U16At(msg, 10));
  }

  lemma {:induction false} StandingIsDecoded(msg: Bytes, m: Message, s: Sections)
    requires MessageStands(msg, m, s)
    ensures MessageAt(msg) == Some(m)
  {
    hide U16At, QuestionsAt, RecordsAt, RecordsStand, QuestionsStand, Number16;
    LengthIs(msg, 0, m.id);
    LengthIs(msg, 2, m.flags);
    LengthIs(msg, 4, |m.questions|);
    LengthIs(msg, 6, |m.answers|);
    LengthIs(msg, 8, |s.authority|);
    LengthIs(msg, 10, |m.additionals|);
    QuestionsAreExact(msg, 12, |m.questions|, m.questions, s.questions);
    RecordsAreExact(msg, s.questions, |m.answers|, m.answers, s.answers);
    RecordsAreExact(msg, s.answers, |s.authority|, s.authority, s.authorities);
    RecordsAreExact(msg, s.authorities, |m.additionals|, m.additionals, s.additionals);
  }

  /** A datagram is decoded as a message exactly when that message stands in it. */
  lemma {:induction false} DecodingIsExact(msg: Bytes, m: Message)
    ensures MessageAt(msg) == Some(m) <==> exists s :: MessageStands(msg, m, s)
  {
    hide MessageAt, MessageStands;
    if MessageAt(msg) == Some(m) {
      var s := SectionsOf(msg, m);
    }
    forall s | MessageStands(msg, m, s)
      ensures MessageAt(msg) == Some(m)
    {
      StandingIsDecoded(msg, m, s);
    }
  }

  // ---- what the encoder writes and no decoder looks at ----

  /** A question is of class IN. */
  lemma {:induction false} QuestionsAreIn(msg: Bytes, pos: nat, q: Question)
    requires At(msg, pos, QuestionBytes(q))
    ensures Number16(msg, pos + |NameBytes(q.name)|, q.qtype) && Number16(msg, pos + |NameBytes(q.name)| + 2, 1)
  {
    hide At, NameBytes, HalfAt, U16At;
    var name := NameBytes(q.name);
    AtConcat(msg, pos, name + Be16(q.qtype), Be16(CLASS_IN));
    AtConcat(msg, pos, name, Be16(q.qtype));
    AtInside(msg, pos + |name|, Be16(q.qtype));
    AtInside(msg, pos + |name| + 2, Be16(CLASS_IN));
    BigEndian(msg, pos + |name|, q.qtype, 0);
    BigEndian(msg, pos + |name| + 2, 1, 0);
  }
}

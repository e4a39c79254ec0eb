/** Encoding then decoding a message gives it back, and decoded messages are bounded by their bytes. */
module MdnsTheorems {
  import opened Machine
  import opened Bytes
  import opened Names
  import opened NameTheorems
  import opened Mdns

  // ---- what the encoder can carry ----

  ghost predicate DataFits(data: RecordData) {
    |DataBytes(data)| < 0x1_0000
    && match data
       case A(_) => true
       case Ptr(name) => Canonical(name)
       case Txt(strings) => forall i :: 0 <= i < |strings| ==> |strings[i]| <= 255
       case Srv(_, _, _, target) => Canonical(target)
  }

  ghost predicate RecordFits(r: Record) {
    Canonical(r.name) && r.rtype == TypeOf(r.data) && DataFits(r.data)
  }

  ghost predicate RecordsFit(rs: seq<Record>) {
    |rs| < 0x1_0000 && forall i :: 0 <= i < |rs| ==> RecordFits(rs[i])
  }

  ghost predicate QuestionFits(q: Question) { Canonical(q.name) }

  ghost predicate WellFormed(m: Message) {
    && |m.questions| < 0x1_0000
    && (forall i :: 0 <= i < |m.questions| ==> QuestionFits(m.questions[i]))
    && RecordsFit(m.answers)
    && RecordsFit(m.additionals)
  }

  // ---- one record ----

  lemma {:induction false} StringsRoundTrip(strings: seq<Bytes>)
    requires forall i :: 0 <= i < |strings| ==> |strings[i]| <= 255
    ensures StringsIn(StringBytes(strings)) == strings
  {
    if strings != [] {
      var s, rest := strings[0], StringBytes(strings[1..]);
      StringsRoundTrip(strings[1..]);
      var b := StringBytes(strings);
      assert b == [|s|] + s + rest;
      assert b[1..1 + |s|] == s && b[1 + |s|..] == rest;
      assert strings == [s] + strings[1..];
    }
  }

  /** Four consecutive parts. */
  lemma AtFour(msg: Bytes, pos: nat, a: Bytes, b: Bytes, c: Bytes, d: Bytes)
    requires At(msg, pos, a + b + c + d)
    ensures At(msg, pos, a) && At(msg, pos + |a|, b) && At(msg, pos + |a| + |b|, c)
    ensures At(msg, pos + |a| + |b| + |c|, d)
  {
    AtConcat(msg, pos, a + b + c, d);
    AtConcat(msg, pos, a + b, c);
    AtConcat(msg, pos, a, b);
  }

  lemma HeaderReads(msg: Bytes, p: nat, rtype: u16, rclass: u16, ttl: u32, length: u16)
    requires At(msg, p, HeaderBytes(rtype, rclass, ttl, length))
    ensures p + 10 <= |msg|
    ensures U16At(msg, p) == rtype && U16At(msg, p + 2) == rclass
    ensures U32At(msg, p + 4) == ttl && U16At(msg, p + 8) == length
  {
    hide U16At, U32At, At;
    AtFour(msg, p, Be16(rtype), Be16(rclass), Be32(ttl), Be16(length));
    AtBe16(msg, p, rtype);
    AtBe16(msg, p + 2, rclass);
    AtBe32(msg, p + 4, ttl);
    AtBe16(msg, p + 8, length);
  }

  lemma SrvReads(msg: Bytes, pos: nat, data: RecordData)
    requires data.Srv? && DataFits(data) && At(msg, pos, DataBytes(data))
    ensures |DataBytes(data)| >= 6
    ensures DataAt(msg, pos, QTYPE_SRV, |DataBytes(data)|) == Some(data)
  {
    hide U16At, At, NameBytes, Canonical, NameAt;
    AtFour(msg, pos, Be16(data.priority), Be16(data.weight), Be16(data.port), NameBytes(data.target));
    AtBe16(msg, pos, data.priority);
    AtBe16(msg, pos + 2, data.weight);
    AtBe16(msg, pos + 4, data.port);
    NameRoundTrip(msg, pos + 6, data.target);
  }

  lemma DataReads(msg: Bytes, pos: nat, data: RecordData)
    requires DataFits(data) && At(msg, pos, DataBytes(data))
    ensures DataAt(msg, pos, TypeOf(data), |DataBytes(data)|) == Some(data)
  {
    hide NameBytes, Canonical, NameAt, StringsIn, StringBytes;
    match data
    case A(ip) =>
    case Ptr(name) => NameRoundTrip(msg, pos, name);
    case Txt(strings) => StringsRoundTrip(strings);
    case Srv(_, _, _, _) => SrvReads(msg, pos, data);
  }

  lemma BodyReads(msg: Bytes, p: nat, r: Record)
    requires RecordFits(r)
    requires At(msg, p, HeaderBytes(TypeOf(r.data), r.rclass, r.ttl, |DataBytes(r.data)|))
    requires At(msg, p + 10, DataBytes(r.data))
    ensures BodyAt(msg, r.name, p) == Some((r, p + 10 + |DataBytes(r.data)|))
  {
    hide U16At, U32At, HeaderBytes, DataBytes, Canonical, TypeOf, DataAt;
    HeaderReads(msg, p, TypeOf(r.data), r.rclass, r.ttl, |DataBytes(r.data)|);
    DataReads(msg, p + 10, r.data);
  }

  /** A record standing anywhere in a message is read back whole. */
  lemma RecordRoundTrip(msg: Bytes, pos: nat, r: Record)
    requires RecordFits(r) && At(msg, pos, RecordBytes(r))
    ensures RecordAt(msg, pos) == Some((r, pos + |RecordBytes(r)|))
  {
    hide At, NameBytes, DataBytes, TypeOf, NameAt, BodyAt, Canonical;
    var name, data := NameBytes(r.name), DataBytes(r.data);
    var header := HeaderBytes(TypeOf(r.data), r.rclass, r.ttl, |data|);
    AtConcat(msg, pos, name + header, data);
    AtConcat(msg, pos, name, header);
    NameRoundTrip(msg, pos, r.name);
    BodyReads(msg, pos + |name|, r);
  }

  lemma QuestionRoundTrip(msg: Bytes, pos: nat, q: Question)
    requires QuestionFits(q) && At(msg, pos, QuestionBytes(q))
    ensures QuestionAt(msg, pos) == Some((q, pos + |QuestionBytes(q)|))
  {
    hide At, NameBytes, NameAt, U16At, Canonical;
    var name := NameBytes(q.name);
    AtConcat(msg, pos, name + Be16(q.qtype), Be16(CLASS_IN));
    AtConcat(msg, pos, name, Be16(q.qtype));
    NameRoundTrip(msg, pos, q.name);
    AtBe16(msg, pos + |name|, q.qtype);
  }

  // ---- lists ----

  ghost predicate ReadsBack<T(!new)>(msg: Bytes, write: T -> Bytes, read: nat -> Option<(T, nat)>, x: T) {
    forall pos: nat :: At(msg, pos, write(x)) ==> read(pos) == Some((x, pos + |write(x)|))
  }

  lemma {:induction false} ListRoundTrip<T(!new)>(
      msg: Bytes, pos: nat, write: T -> Bytes, read: nat -> Option<(T, nat)>, items: seq<T>)
    requires forall i :: 0 <= i < |items| ==> ReadsBack(msg, write, read, items[i])
    requires At(msg, pos, ListBytes(write, items))
    ensures ListAt(read, pos, |items|) == Some((items, pos + |ListBytes(write, items)|))
    decreases |items|
  {
    hide At;
    if items != [] {
      var rest := items[1..];
      AtConcat(msg, pos, write(items[0]), ListBytes(write, rest));
      assert ReadsBack(msg, write, read, items[0]);
      ListRoundTrip(msg, pos + |write(items[0])|, write, read, rest);
      assert items == [items[0]] + rest;
    }
  }

  lemma {:induction false} ListBytesConcat<T>(write: T -> Bytes, a: seq<T>, b: seq<T>)
    ensures ListBytes(write, a + b) == ListBytes(write, a) + ListBytes(write, b)
  {
    if a == [] {
      assert a + b == b;
    } else {
      assert (a + b)[1..] == a[1..] + b;
      ListBytesConcat(write, a[1..], b);
    }
  }

  lemma RecordsRoundTrip(msg: Bytes, pos: nat, rs: seq<Record>)
    requires RecordsFit(rs) && At(msg, pos, RecordsBytes(rs))
    ensures RecordsAt(msg, pos, |rs|) == Some((rs, pos + |RecordsBytes(rs)|))
  {
    hide At, RecordFits, RecordAt, RecordBytes;
    var read := RecordReader(msg);
    forall i | 0 <= i < |rs|
      ensures ReadsBack(msg, RecordBytes, read, rs[i])
    {
      forall p: nat | At(msg, p, RecordBytes(rs[i]))
        ensures read(p) == Some((rs[i], p + |RecordBytes(rs[i])|))
      {
        RecordRoundTrip(msg, p, rs[i]);
      }
    }
    ListRoundTrip(msg, pos, RecordBytes, read, rs);
  }

  lemma QuestionsRoundTrip(msg: Bytes, pos: nat, qs: seq<Question>)
    requires forall i :: 0 <= i < |qs| ==> QuestionFits(qs[i])
    requires At(msg, pos, QuestionsBytes(qs))
    ensures QuestionsAt(msg, pos, |qs|) == Some((qs, pos + |QuestionsBytes(qs)|))
  {
    hide At, QuestionFits, QuestionAt, QuestionBytes;
    var read := QuestionReader(msg);
    forall i | 0 <= i < |qs|
      ensures ReadsBack(msg, QuestionBytes, read, qs[i])
    {
      forall p: nat | At(msg, p, QuestionBytes(qs[i]))
        ensures read(p) == Some((qs[i], p + |QuestionBytes(qs[i])|))
      {
        QuestionRoundTrip(msg, p, qs[i]);
      }
    }
    ListRoundTrip(msg, pos, QuestionBytes, read, qs);
  }

  // ---- whole messages ----

  lemma CountsRead(msg: Bytes, m: Message)
    requires WellFormed(m) && At(msg, 0, CountsBytes(m))
    ensures |msg| >= 12 && U16At(msg, 0) == m.id && U16At(msg, 2) == m.flags
    ensures U16At(msg, 4) == |m.questions| && U16At(msg, 6) == |m.answers|
    ensures U16At(msg, 8) == 0 && U16At(msg, 10) == |m.additionals|
  {
    hide At, U16At, RecordFits, QuestionFits;
    var q, an, ar := Low16(|m.questions|), Low16(|m.answers|), Low16(|m.additionals|);
    var front := Be16(m.id) + Be16(m.flags) + Be16(q) + Be16(an);
    AtConcat(msg, 0, front + Be16(0), Be16(ar));
    AtConcat(msg, 0, front, Be16(0));
    AtFour(msg, 0, Be16(m.id), Be16(m.flags), Be16(q), Be16(an));
    AtBe16(msg, 0, m.id);
    AtBe16(msg, 2, m.flags);
    AtBe16(msg, 4, q);
    AtBe16(msg, 6, an);
    AtBe16(msg, 8, 0);
    AtBe16(msg, 10, ar);
  }

  lemma Parts(m: Message)
    ensures var msg := MessageBytes(m);
      && |CountsBytes(m)| == 12
      && At(msg, 0, CountsBytes(m))
      && At(msg, 12, QuestionsBytes(m.questions))
      && At(msg, 12 + |QuestionsBytes(m.questions)|, RecordsBytes(m.answers))
      && At(msg, 12 + |QuestionsBytes(m.questions)| + |RecordsBytes(m.answers)|, RecordsBytes(m.additionals))
  {
    var msg, counts := MessageBytes(m), CountsBytes(m);
    CountsAreTwelve(m);
    hide CountsBytes, ListBytes, At;
    var qs, an, ar := QuestionsBytes(m.questions), RecordsBytes(m.answers), RecordsBytes(m.additionals);
    ListBytesConcat(RecordBytes, m.answers, m.additionals);
    AtWhole(msg);
    AtConcat(msg, 0, counts + qs, an + ar);
    AtConcat(msg, 0, counts, qs);
    AtConcat(msg, 12 + |qs|, an, ar);
  }

  lemma CountsAreTwelve(m: Message)
    ensures |CountsBytes(m)| == 12
  {
  }

  /** Decoding an encoded message gives it back. */
  lemma MessageRoundTrip(m: Message)
    requires WellFormed(m)
    ensures MessageAt(MessageBytes(m)) == Some(m)
  {
    hide MessageBytes, CountsBytes, QuestionsBytes, RecordsBytes, At, U16At, RecordFits, QuestionFits;
    hide QuestionsAt, RecordsAt;
    var msg := MessageBytes(m);
    Parts(m);
    CountsRead(msg, m);
    QuestionsRoundTrip(msg, 12, m.questions);
    var an := 12 + |QuestionsBytes(m.questions)|;
    RecordsRoundTrip(msg, an, m.answers);
    var ar := an + |RecordsBytes(m.answers)|;
    RecordsRoundTrip(msg, ar, m.additionals);
    NoRecords(msg, ar);
  }

  lemma NoRecords(msg: Bytes, pos: nat)
    ensures RecordsAt(msg, pos, 0) == Some(([], pos))
  {
  }

  // ---- decoded messages are bounded by their bytes ----

  lemma RecordTakesEleven(msg: Bytes, pos: nat)
    requires RecordAt(msg, pos).Some?
    ensures pos + 11 <= RecordAt(msg, pos).value.1 <= |msg|
  {
    hide NameAt, U16At, U32At, DataAt;
    NameAdvances(msg, pos);
  }

  lemma QuestionTakesFive(msg: Bytes, pos: nat)
    requires QuestionAt(msg, pos).Some?
    ensures pos + 5 <= QuestionAt(msg, pos).value.1 <= |msg| + 2
  {
    hide NameAt, U16At;
    NameAdvances(msg, pos);
  }

  lemma {:induction false} ListGrows<T(!new)>(read: nat -> Option<(T, nat)>, pos: nat, n: nat, size: nat, limit: nat)
    requires ListAt(read, pos, n).Some? && pos <= limit
    requires forall p: nat :: read(p).Some? ==> p + size <= read(p).value.1 <= limit
    ensures |ListAt(read, pos, n).value.0| == n
    ensures pos + size * n <= ListAt(read, pos, n).value.1 <= limit
    decreases n
  {
    if n > 0 {
      ListGrows(read, read(pos).value.1, n - 1, size, limit);
    }
  }

  lemma RecordsGrow(msg: Bytes, pos: nat, n: nat)
    requires RecordsAt(msg, pos, n).Some? && pos <= |msg| + 2
    ensures |RecordsAt(msg, pos, n).value.0| == n
    ensures pos + 11 * n <= RecordsAt(msg, pos, n).value.1 <= |msg| + 2
  {
    hide RecordAt;
    var read := RecordReader(msg);
    forall p: nat | read(p).Some?
      ensures p + 11 <= read(p).value.1 <= |msg|
    {
      RecordTakesEleven(msg, p);
    }
    ListGrows(read, pos, n, 11, |msg| + 2);
  }

  lemma QuestionsGrow(msg: Bytes, pos: nat, n: nat)
    requires QuestionsAt(msg, pos, n).Some? && pos <= |msg| + 2
    ensures |QuestionsAt(msg, pos, n).value.0| == n
    ensures pos + 5 * n <= QuestionsAt(msg, pos, n).value.1 <= |msg| + 2
  {
    hide QuestionAt;
    var read := QuestionReader(msg);
    forall p: nat | read(p).Some?
      ensures p + 5 <= read(p).value.1 <= |msg| + 2
    {
      QuestionTakesFive(msg, p);
    }
    ListGrows(read, pos, n, 5, |msg| + 2);
  }

  /** A decoded message holds no more items than its bytes can pay for, at 5 a question and 11 a record. */
  lemma DecodedIsBounded(msg: Bytes)
    requires MessageAt(msg).Some?
    ensures var m := MessageAt(msg).value;
      && |m.questions| == U16At(msg, 4) && |m.answers| == U16At(msg, 6) && |m.additionals| == U16At(msg, 10)
      && 5 * |m.questions| + 11 * (|m.answers| + U16At(msg, 8) + |m.additionals|) <= |msg| - 10
  {
    hide U16At, QuestionsAt, RecordsAt;
    QuestionsGrow(msg, 12, U16At(msg, 4));
    var an := QuestionsAt(msg, 12, U16At(msg, 4)).value.1;
    RecordsGrow(msg, an, U16At(msg, 6));
    var ns := RecordsAt(msg, an, U16At(msg, 6)).value.1;
    RecordsGrow(msg, ns, U16At(msg, 8));
    var ar := RecordsAt(msg, ns, U16At(msg, 8)).value.1;
    RecordsGrow(msg, ar, U16At(msg, 10));
  }
}

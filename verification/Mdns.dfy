/** DNS messages: the encoder with its back-patched record lengths, and the decoder. */
module Mdns {
  import opened Machine
  import opened Bytes
  import opened Buf
  import opened Names

  const QTYPE_A: u16 := 1
  const QTYPE_PTR: u16 := 12
  const QTYPE_TXT: u16 := 16
  const QTYPE_SRV: u16 := 33
  const CLASS_IN: u16 := 1

  datatype Question = Question(name: Text, qtype: u16)

  datatype RecordData =
    | A(ip: Ipv4)
    | Ptr(name: Text)
    | Txt(strings: seq<Bytes>)
    | Srv(priority: u16, weight: u16, port: u16, target: Text)

  datatype Record = Record(name: Text, rtype: u16, rclass: u16, ttl: u32, data: RecordData)

  datatype Message =
    Message(id: u16, flags: u16, questions: seq<Question>, answers: seq<Record>, additionals: seq<Record>)

  // ---- what the encoder appends ----

  function TypeOf(data: RecordData): u16 {
    match data
    case A(_) => QTYPE_A
    case Ptr(_) => QTYPE_PTR
    case Txt(_) => QTYPE_TXT
    case Srv(_, _, _, _) => QTYPE_SRV
  }

  function StringBytes(strings: seq<Bytes>): Bytes {
    if strings == [] then [] else [|strings[0]| % 0x100] + strings[0] + StringBytes(strings[1..])
  }

  function DataBytes(data: RecordData): Bytes {
    match data
    case A(ip) => ip
    case Ptr(name) => NameBytes(name)
    case Txt(strings) => StringBytes(strings)
    case Srv(priority, weight, port, target) => Be16(priority) + Be16(weight) + Be16(port) + NameBytes(target)
  }

  function HeaderBytes(rtype: u16, rclass: u16, ttl: u32, length: u16): Bytes {
    Be16(rtype) + Be16(rclass) + Be32(ttl) + Be16(length)
  }

  function RecordBytes(r: Record): Bytes {
    var data := DataBytes(r.data);
    NameBytes(r.name) + HeaderBytes(TypeOf(r.data), r.rclass, r.ttl, Low16(|data|)) + data
  }

  function QuestionBytes(q: Question): Bytes { NameBytes(q.name) + Be16(q.qtype) + Be16(CLASS_IN) }

  /** One item after another. */
  function ListBytes<T>(write: T -> Bytes, items: seq<T>): Bytes {
    if items == [] then [] else write(items[0]) + ListBytes(write, items[1..])
  }

  function QuestionsBytes(qs: seq<Question>): Bytes { ListBytes(QuestionBytes, qs) }

  function RecordsBytes(rs: seq<Record>): Bytes { ListBytes(RecordBytes, rs) }

  function CountsBytes(m: Message): Bytes {
    Be16(m.id) + Be16(m.flags) + Be16(Low16(|m.questions|)) + Be16(Low16(|m.answers|)) + Be16(0)
    + Be16(Low16(|m.additionals|))
  }

  function MessageBytes(m: Message): Bytes {
    CountsBytes(m) + QuestionsBytes(m.questions) + RecordsBytes(m.answers + m.additionals)
  }

  method WriteStrings(buf: BeWriter, strings: seq<Bytes>)
    modifies buf
    ensures buf.inner == old(buf.inner) + StringBytes(strings)
  {
    var i := 0;
    while i < |strings|
      invariant i <= |strings|
      invariant buf.inner + StringBytes(strings[i..]) == old(buf.inner) + StringBytes(strings)
    {
      assert strings[i..][1..] == strings[i + 1..];
      ghost var before, rest := buf.inner, StringBytes(strings[i + 1..]);
      assert StringBytes(strings[i..]) == [|strings[i]| % 0x100] + strings[i] + rest;
      buf.PutU8(|strings[i]| % 0x100);
      buf.PutBytes(strings[i]);
      assert buf.inner + rest == before + ([|strings[i]| % 0x100] + strings[i] + rest);
      i := i + 1;
    }
  }

  method WriteData(buf: BeWriter, data: RecordData)
    modifies buf
    ensures buf.inner == old(buf.inner) + DataBytes(data)
  {
    match data {
      case A(ip) =>
        buf.PutBytes(ip);
      case Ptr(name) =>
        WriteName(buf, name);
      case Txt(strings) =>
        WriteStrings(buf, strings);
      case Srv(priority, weight, port, target) =>
        buf.PutU16(priority);
        buf.PutU16(weight);
        buf.PutU16(port);
        WriteName(buf, target);
    }
  }

  lemma HeaderLayout(x: Bytes, name: Bytes, t: Bytes, c: Bytes, l: Bytes, n: Bytes, data: Bytes)
    ensures x + name + t + c + l + n + data == x + (name + (t + c + l + n) + data)
  {
  }

  method WriteFields(buf: BeWriter, r: Record)
    modifies buf
    ensures buf.inner
      == old(buf.inner) + NameBytes(r.name) + Be16(TypeOf(r.data)) + Be16(r.rclass) + Be32(r.ttl)
  {
    WriteName(buf, r.name);
    buf.PutU16(TypeOf(r.data));
    buf.PutU16(r.rclass);
    buf.PutU32(r.ttl);
  }

  method WriteRecord(buf: BeWriter, r: Record)
    modifies buf
    ensures buf.inner == old(buf.inner) + RecordBytes(r)
  {
    ghost var data := DataBytes(r.data);
    ghost var length := Be16(Low16(|data|));
    HeaderLayout(buf.inner, NameBytes(r.name), Be16(TypeOf(r.data)), Be16(r.rclass), Be32(r.ttl), length, data);
    WriteFields(buf, r);
    var lengthAt := buf.Len();
    ghost var front := buf.inner;
    buf.PutU16(0);
    var start := buf.Len();
    WriteData(buf, r.data);
    PatchSlot(front, data, Low16(|data|));
    buf.PatchU16(lengthAt, Low16(buf.Len() - start));
  }

  lemma Regroup(x: Bytes, a: Bytes, b: Bytes)
    ensures x + (a + b) == x + a + b
  {
  }

  lemma NextItem<T>(write: T -> Bytes, items: seq<T>, i: nat, written: Bytes)
    requires i < |items|
    ensures written + ListBytes(write, items[i..])
      == written + write(items[i]) + ListBytes(write, items[i + 1..])
  {
    assert items[i..][1..] == items[i + 1..];
    Regroup(written, write(items[i]), ListBytes(write, items[i + 1..]));
  }

  method WriteRecords(buf: BeWriter, rs: seq<Record>)
    modifies buf
    ensures buf.inner == old(buf.inner) + RecordsBytes(rs)
  {
    var i := 0;
    while i < |rs|
      invariant i <= |rs|
      invariant buf.inner + RecordsBytes(rs[i..]) == old(buf.inner) + RecordsBytes(rs)
    {
      NextItem(RecordBytes, rs, i, buf.inner);
      WriteRecord(buf, rs[i]);
      i := i + 1;
    }
  }

  method WriteQuestion(buf: BeWriter, q: Question)
    modifies buf
    ensures buf.inner == old(buf.inner) + QuestionBytes(q)
  {
    WriteName(buf, q.name);
    buf.PutU16(q.qtype);
    buf.PutU16(CLASS_IN);
  }

  method WriteQuestions(buf: BeWriter, qs: seq<Question>)
    modifies buf
    ensures buf.inner == old(buf.inner) + QuestionsBytes(qs)
  {
    var i := 0;
    while i < |qs|
      invariant i <= |qs|
      invariant buf.inner + QuestionsBytes(qs[i..]) == old(buf.inner) + QuestionsBytes(qs)
    {
      NextItem(QuestionBytes, qs, i, buf.inner);
      WriteQuestion(buf, qs[i]);
      i := i + 1;
    }
  }

  method Encode(m: Message) returns (bytes: Bytes)
    ensures bytes == MessageBytes(m)
  {
    var buf := new BeWriter();
    buf.PutU16(m.id);
    buf.PutU16(m.flags);
    buf.PutU16(Low16(|m.questions|));
    buf.PutU16(Low16(|m.answers|));
    buf.PutU16(0);
    buf.PutU16(Low16(|m.additionals|));
    assert buf.inner == CountsBytes(m);
    WriteQuestions(buf, m.questions);
    WriteRecords(buf, m.answers + m.additionals);
    bytes := buf.inner;
  }

  // ---- what the decoder reads ----

  /** The character strings of a TXT record; a cut-off last one is dropped. */
  function StringsIn(rdata: Bytes): seq<Bytes>
    decreases |rdata|
  {
    if rdata == [] || 1 + rdata[0] > |rdata| then []
    else [rdata[1..1 + rdata[0]]] + StringsIn(rdata[1 + rdata[0]..])
  }

  function DataAt(msg: Bytes, pos: nat, rtype: u16, length: nat): Option<RecordData>
    requires pos + length <= |msg|
  {
    if rtype == QTYPE_A && length == 4 then Some(A(msg[pos..pos + 4]))
    else if rtype == QTYPE_PTR then
      match NameAt(msg, pos)
      case None => None
      case Some(r) => Some(Ptr(r.0))
    else if rtype == QTYPE_TXT then Some(Txt(StringsIn(msg[pos..pos + length])))
    else if rtype == QTYPE_SRV && length >= 6 then
      match NameAt(msg, pos + 6)
      case None => None
      case Some(r) => Some(Srv(U16At(msg, pos), U16At(msg, pos + 2), U16At(msg, pos + 4), r.0))
    else None
  }

  /** The fixed fields after a record's name at p, and its data. */
  function BodyAt(msg: Bytes, name: Text, p: nat): Option<(Record, nat)> {
    if p + 10 > |msg| || p + 10 + U16At(msg, p + 8) > |msg| then None
    else
      var length := U16At(msg, p + 8);
      match DataAt(msg, p + 10, U16At(msg, p), length)
      case None => None
      case Some(data) =>
        Some((Record(name, U16At(msg, p), U16At(msg, p + 2), U32At(msg, p + 4), data), p + 10 + length))
  }

  function RecordAt(msg: Bytes, pos: nat): Option<(Record, nat)> {
    match NameAt(msg, pos)
    case None => None
    case Some(r) => BodyAt(msg, r.0, r.1)
  }

  /** The class of a question is skipped without being looked at, or even required to be there. */
  function QuestionAt(msg: Bytes, pos: nat): Option<(Question, nat)> {
    match NameAt(msg, pos)
    case None => None
    case Some(r) =>
      if r.1 + 2 > |msg| then None else Some((Question(r.0, U16At(msg, r.1)), r.1 + 4))
  }

  /** n items, each starting where the one before it ended. */
  function ListAt<T>(read: nat -> Option<(T, nat)>, pos: nat, n: nat): Option<(seq<T>, nat)>
    decreases n
  {
    if n == 0 then Some(([], pos))
    else
      match read(pos)
      case None => None
      case Some(r) => Onto([r.0], ListAt(read, r.1, n - 1))
  }

  function RecordReader(msg: Bytes): nat -> Option<(Record, nat)> { (pos: nat) => RecordAt(msg, pos) }

  function QuestionReader(msg: Bytes): nat -> Option<(Question, nat)> { (pos: nat) => QuestionAt(msg, pos) }

  function RecordsAt(msg: Bytes, pos: nat, n: nat): Option<(seq<Record>, nat)> {
    ListAt(RecordReader(msg), pos, n)
  }

  function QuestionsAt(msg: Bytes, pos: nat, n: nat): Option<(seq<Question>, nat)> {
    ListAt(QuestionReader(msg), pos, n)
  }

  function Onto<T>(front: seq<T>, r: Option<(seq<T>, nat)>): Option<(seq<T>, nat)> {
    match r
    case None => None
    case Some(rest) => Some((front + rest.0, rest.1))
  }

  lemma OntoNothing<T>(r: Option<(seq<T>, nat)>)
    ensures Onto([], r) == r
  {
    if r.Some? {
      assert [] + r.value.0 == r.value.0;
    }
  }

  lemma OntoTwice<T>(a: seq<T>, b: seq<T>, r: Option<(seq<T>, nat)>)
    ensures Onto(a, Onto(b, r)) == Onto(a + b, r)
  {
    if r.Some? {
      assert a + (b + r.value.0) == (a + b) + r.value.0;
    }
  }

  /** The four lists in order; authority records are read and dropped. */
  function ListsAt(msg: Bytes): Option<Message>
    requires |msg| >= 12
  {
    match QuestionsAt(msg, 12, U16At(msg, 4))
    case None => None
    case Some(qs) =>
      match RecordsAt(msg, qs.1, U16At(msg, 6))
      case None => None
      case Some(an) =>
        match RecordsAt(msg, an.1, U16At(msg, 8))
        case None => None
        case Some(ns) =>
          match RecordsAt(msg, ns.1, U16At(msg, 10))
          case None => None
          case Some(ar) => Some(Message(U16At(msg, 0), U16At(msg, 2), qs.0, an.0, ar.0))
  }

  function MessageAt(msg: Bytes): Option<Message> { if |msg| < 12 then None else ListsAt(msg) }

  method ReadStrings(rdata: Bytes) returns (strings: seq<Bytes>)
    ensures strings == StringsIn(rdata)
  {
    strings := [];
    var i: nat := 0;
    while i < |rdata|
      invariant i <= |rdata|
      invariant strings + StringsIn(rdata[i..]) == StringsIn(rdata)
      decreases |rdata| - i
    {
      var n: nat := rdata[i];
      i := i + 1;
      if i + n > |rdata| {
        break;
      }
      assert rdata[i - 1..][1..1 + n] == rdata[i..i + n];
      assert rdata[i - 1..][1 + n..] == rdata[i + n..];
      strings := strings + [rdata[i..i + n]];
      i := i + n;
    }
  }

  method ReadData(msg: Bytes, pos: nat, rtype: u16, length: nat) returns (data: Option<RecordData>)
    requires pos + length <= |msg|
    ensures data == DataAt(msg, pos, rtype, length)
  {
    if rtype == QTYPE_A && length == 4 {
      return Some(A(msg[pos..pos + 4]));
    }
    if rtype == QTYPE_PTR {
      var n := ReadName(msg, pos);
      return if n.None? then None else Some(Ptr(n.value.0));
    }
    if rtype == QTYPE_TXT {
      var strings := ReadStrings(msg[pos..pos + length]);
      return Some(Txt(strings));
    }
    if rtype == QTYPE_SRV && length >= 6 {
      var n := ReadName(msg, pos + 6);
      if n.None? {
        return None;
      }
      return Some(Srv(U16At(msg, pos), U16At(msg, pos + 2), U16At(msg, pos + 4), n.value.0));
    }
    data := None;
  }

  method ReadRecord(msg: Bytes, start: nat) returns (r: Option<(Record, nat)>)
    ensures r == RecordAt(msg, start)
  {
    var n := ReadName(msg, start);
    if n.None? {
      return None;
    }
    var pos := n.value.1;
    if pos + 10 > |msg| {
      return None;
    }
    var rtype := U16At(msg, pos);
    pos := pos + 2;
    var rclass := U16At(msg, pos);
    pos := pos + 2;
    var ttl := U32At(msg, pos);
    pos := pos + 4;
    var length := U16At(msg, pos);
    pos := pos + 2;
    if pos + length > |msg| {
      return None;
    }
    var data := ReadData(msg, pos, rtype, length);
    r := if data.None? then None else Some((Record(n.value.0, rtype, rclass, ttl, data.value), pos + length));
  }

  lemma OneMore<T>(read: nat -> Option<(T, nat)>, pos: nat, n: nat, items: seq<T>, one: (T, nat))
    requires n > 0 && read(pos) == Some(one)
    ensures Onto(items, ListAt(read, pos, n)) == Onto(items + [one.0], ListAt(read, one.1, n - 1))
  {
    OntoTwice(items, [one.0], ListAt(read, one.1, n - 1));
  }

  method ReadRecords(msg: Bytes, start: nat, n: nat) returns (r: Option<(seq<Record>, nat)>)
    ensures r == RecordsAt(msg, start, n)
  {
    hide RecordAt;
    ghost var read := RecordReader(msg);
    var pos: nat, records := start, [];
    OntoNothing(ListAt(read, start, n));
    for i := 0 to n
      invariant ListAt(read, start, n) == Onto(records, ListAt(read, pos, n - i))
    {
      var one := ReadRecord(msg, pos);
      assert read(pos) == one;
      if one.None? {
        return None;
      }
      OneMore(read, pos, n - i, records, one.value);
      records, pos := records + [one.value.0], one.value.1;
    }
    assert records + [] == records;
    r := Some((records, pos));
  }

  method ReadQuestion(msg: Bytes, start: nat) returns (r: Option<(Question, nat)>)
    ensures r == QuestionAt(msg, start)
  {
    var name := ReadName(msg, start);
    if name.None? {
      return None;
    }
    var pos := name.value.1;
    if pos + 2 > |msg| {
      return None;
    }
    r := Some((Question(name.value.0, U16At(msg, pos)), pos + 4));
  }

  method ReadQuestions(msg: Bytes, start: nat, n: nat) returns (r: Option<(seq<Question>, nat)>)
    ensures r == QuestionsAt(msg, start, n)
  {
    hide QuestionAt;
    ghost var read := QuestionReader(msg);
    var pos: nat, questions := start, [];
    OntoNothing(ListAt(read, start, n));
    for i := 0 to n
      invariant ListAt(read, start, n) == Onto(questions, ListAt(read, pos, n - i))
    {
      var one := ReadQuestion(msg, pos);
      assert read(pos) == one;
      if one.None? {
        return None;
      }
      OneMore(read, pos, n - i, questions, one.value);
      questions, pos := questions + [one.value.0], one.value.1;
    }
    assert questions + [] == questions;
    r := Some((questions, pos));
  }

  method Decode(msg: Bytes) returns (m: Option<Message>)
    ensures m == MessageAt(msg)
  {
    if |msg| < 12 {
      return None;
    }
    var questions := ReadQuestions(msg, 12, U16At(msg, 4));
    if questions.None? {
      return None;
    }
    var answers := ReadRecords(msg, questions.value.1, U16At(msg, 6));
    if answers.None? {
      return None;
    }
    var authorities := ReadRecords(msg, answers.value.1, U16At(msg, 8));
    if authorities.None? {
      return None;
    }
    var additionals := ReadRecords(msg, authorities.value.1, U16At(msg, 10));
    if additionals.None? {
      return None;
    }
    m := Some(Message(U16At(msg, 0), U16At(msg, 2), questions.value.0, answers.value.0, additionals.value.0));
  }
}

/** Domain names on the wire: labels, compression pointers, and the dotted strings they stand for. */
module Names {
  import opened Machine
  import opened Bytes
  import opened Buf

  const DOT: u8 := 46
  const MAX_JUMPS: nat := 16

  // ---- dotted strings ----

  /** `s.split('.')`. */
  function Split(s: Bytes): (labels: seq<Bytes>)
    ensures labels != []
    decreases |s|
  {
    var i := IndexOf(s, DOT);
    if i == |s| then [s] else [s[..i]] + Split(s[i + 1..])
  }

  /** `labels.join(".")`. */
  function Join(labels: seq<Bytes>): Bytes {
    if labels == [] then []
    else if |labels| == 1 then labels[0]
    else labels[0] + [DOT] + Join(labels[1..])
  }

  /** `s.trim_end_matches('.')`. */
  function TrimDots(s: Bytes): Bytes {
    if s != [] && s[|s| - 1] == DOT then TrimDots(s[..|s| - 1]) else s
  }

  predicate LabelLength(l: Bytes) { 1 <= |l| <= 63 }

  /** The names the wire format can carry: no label is empty or longer than 63 bytes. */
  ghost predicate Canonical(name: Bytes) {
    name == [] || forall i :: 0 <= i < |Split(name)| ==> LabelLength(Split(name)[i])
  }

  predicate AllText(labels: seq<Bytes>) { forall i :: 0 <= i < |labels| ==> ValidUtf8(labels[i]) }

  predicate AllShort(labels: seq<Bytes>) { forall i :: 0 <= i < |labels| ==> |labels[i]| <= 63 }

  /** What joining with dots means. */
  lemma {:induction false} JoinMeans(l: Bytes, rest: seq<Bytes>)
    ensures Join([]) == [] && Join([l]) == l
    ensures rest != [] ==> Join([l] + rest) == l + [46] + Join(rest)
  {
    assert ([l] + rest)[1..] == rest;
  }

  /** Splitting at the dots: the parts have none, and joined they are the string again. */
  lemma {:induction false} SplitMeans(s: Bytes)
    ensures Join(Split(s)) == s
    ensures forall l :: l in Split(s) ==> 46 !in l
    decreases |s|
  {
    JoinSplit(s);
    var i := IndexOf(s, DOT);
    if i < |s| {
      SplitMeans(s[i + 1..]);
    }
  }

  /** Trimming takes the dots at the end, all of them, and nothing else. */
  lemma {:induction false} TrimMeans(s: Bytes)
    ensures TrimDots(s) <= s && (TrimDots(s) != [] ==> TrimDots(s)[|TrimDots(s)| - 1] != 46)
    ensures forall i :: |TrimDots(s)| <= i < |s| ==> s[i] == 46
    decreases |s|
  {
    if s != [] && s[|s| - 1] == DOT {
      TrimMeans(s[..|s| - 1]);
    }
  }

  lemma TextFirst(l: Bytes, rest: seq<Bytes>)
    requires ValidUtf8(l) && AllText(rest)
    ensures AllText([l] + rest)
  {
  }

  lemma JoinFirst(l: Bytes, rest: seq<Bytes>)
    requires rest != []
    ensures Join([l] + rest) == l + [DOT] + Join(rest)
  {
    assert ([l] + rest)[1..] == rest;
  }

  lemma Cut(s: Bytes, i: nat)
    requires i < |s|
    ensures s[..i] + [s[i]] + s[i + 1..] == s
  {
  }

  lemma {:induction false} JoinSplit(s: Bytes)
    ensures Join(Split(s)) == s
    decreases |s|
  {
    var i := IndexOf(s, DOT);
    if i < |s| {
      JoinSplit(s[i + 1..]);
      JoinFirst(s[..i], Split(s[i + 1..]));
      Cut(s, i);
    }
  }

  lemma {:induction false} SplitIsText(s: Bytes)
    requires ValidUtf8(s)
    ensures AllText(Split(s))
    decreases |s|
  {
    var i := IndexOf(s, DOT);
    if i < |s| {
      Cut(s, i);
      ValidSplit(s[..i], DOT, s[i + 1..]);
      SplitIsText(s[i + 1..]);
      TextFirst(s[..i], Split(s[i + 1..]));
    }
  }

  lemma {:induction false} JoinIsText(labels: seq<Bytes>)
    requires AllText(labels)
    ensures ValidUtf8(Join(labels))
  {
    if |labels| > 1 {
      JoinIsText(labels[1..]);
      assert ValidUtf8([DOT]) by { assert [DOT][1..] == []; }
      ValidConcat(labels[0], [DOT]);
      ValidConcat(labels[0] + [DOT], Join(labels[1..]));
    }
  }

  // ---- the wire form ----

  function LabelBytes(l: Bytes): Bytes { [|l| % 0x100] + l }

  function LabelsBytes(labels: seq<Bytes>): Bytes {
    if labels == [] then [0] else LabelBytes(labels[0]) + LabelsBytes(labels[1..])
  }

  /** What write_name appends. */
  function NameBytes(name: Bytes): Bytes {
    var n := TrimDots(name);
    if n == [] then [0] else LabelsBytes(Split(n))
  }

  /** What stands at one position of a message, by its first byte (section 4.1.4 of RFC 1035). */
  datatype Node = End | Jump(target: nat) | Label(text: Bytes, next: nat) | Bad

  function NodeAt(msg: Bytes, pos: nat): (node: Node)
    ensures node.Label? ==> pos < node.next <= |msg| && ValidUtf8(node.text) && LabelLength(node.text)
    ensures !node.Bad? ==> pos < |msg|
  {
    if pos >= |msg| then Bad
    else
      var len: nat := msg[pos];
      if len == 0 then End
      else if len >= 0xC0 then
        if pos + 1 < |msg| then Jump((len - 0xC0) * 0x100 + msg[pos + 1]) else Bad
      else if len >= 0x40 then Bad
      else if pos + 1 + len <= |msg| && ValidUtf8(msg[pos + 1..pos + 1 + len]) then
        Label(msg[pos + 1..pos + 1 + len], pos + 1 + len)
      else Bad
  }

  /** The labels reached from pos by at most `jumps` compression pointers. */
  function LabelsAt(msg: Bytes, pos: nat, jumps: nat): (r: Option<seq<Bytes>>)
    ensures r.Some? ==> AllText(r.value) && AllShort(r.value)
    decreases jumps, |msg| - pos
  {
    match NodeAt(msg, pos)
    case End => Some([])
    case Jump(t) => if jumps == 0 then None else LabelsAt(msg, t, jumps - 1)
    case Label(l, next) => Before([l], LabelsAt(msg, next, jumps))
    case Bad => None
  }

  function Before(front: seq<Bytes>, r: Option<seq<Bytes>>): Option<seq<Bytes>> {
    match r
    case None => None
    case Some(rest) => Some(front + rest)
  }

  /** First position after the name at pos: pointers are not followed. */
  function EndAt(msg: Bytes, pos: nat): (end: nat)
    ensures pos <= end
    decreases |msg| - pos
  {
    match NodeAt(msg, pos)
    case End => pos + 1
    case Jump(_) => pos + 2
    case Label(_, next) => EndAt(msg, next)
    case Bad => pos
  }

  function NameAt(msg: Bytes, pos: nat): (r: Option<(Text, nat)>) {
    match LabelsAt(msg, pos, MAX_JUMPS)
    case None => None
    case Some(labels) => JoinIsText(labels); Some((Join(labels), EndAt(msg, pos)))
  }

  lemma BeforeNothing(r: Option<seq<Bytes>>)
    ensures Before([], r) == r
  {
    if r.Some? {
      assert [] + r.value == r.value;
    }
  }

  lemma BeforeTwice(a: seq<Bytes>, b: seq<Bytes>, r: Option<seq<Bytes>>)
    ensures Before(a, Before(b, r)) == Before(a + b, r)
  {
    if r.Some? {
      assert a + (b + r.value) == (a + b) + r.value;
    }
  }

  /** The bytes at one position, checked in the order read_name checks them. */
  method ReadNode(msg: Bytes, pos: nat) returns (node: Node)
    ensures node == NodeAt(msg, pos)
  {
    if pos >= |msg| {
      return Bad;
    }
    var len: nat := msg[pos];
    if len == 0 {
      return End;
    }
    if len >= 0xC0 {
      if pos + 1 >= |msg| {
        return Bad;
      }
      var b2: nat := msg[pos + 1];
      return Jump((len - 0xC0) * 0x100 + b2);
    }
    if len >= 0x40 {
      return Bad;
    }
    if pos + 1 + len > |msg| || !ValidUtf8(msg[pos + 1..pos + 1 + len]) {
      return Bad;
    }
    node := Label(msg[pos + 1..pos + 1 + len], pos + 1 + len);
  }

  method ReadName(msg: Bytes, start: nat) returns (r: Option<(Text, nat)>)
    ensures r == NameAt(msg, start)
  {
    var pos: nat, end: nat, hops: nat := start, start, 0;
    var jumped := false;
    var labels: seq<Bytes> := [];
    BeforeNothing(LabelsAt(msg, start, MAX_JUMPS));
    while true
      invariant hops <= 17
      invariant LabelsAt(msg, start, MAX_JUMPS)
        == if hops <= 16 then Before(labels, LabelsAt(msg, pos, MAX_JUMPS - hops)) else None
      invariant EndAt(msg, start) == if jumped then end else EndAt(msg, pos)
      decreases 17 - hops, |msg| - pos
    {
      if hops > MAX_JUMPS {
        return None;
      }
      var node := ReadNode(msg, pos);
      match node {
        case Bad =>
          return None;
        case End =>
          if !jumped {
            end := pos + 1;
          }
          break;
        case Jump(target) =>
          if !jumped {
            end := pos + 2;
          }
          pos, jumped, hops := target, true, hops + 1;
        case Label(s, next) =>
          BeforeTwice(labels, [s], LabelsAt(msg, next, MAX_JUMPS - hops));
          labels, pos := labels + [s], next;
          if !jumped {
            end := pos;
          }
      }
    }
    assert labels + [] == labels;
    JoinIsText(labels);
    var name: Text := Join(labels);
    r := Some((name, end));
  }

  method WriteName(buf: BeWriter, name: Text)
    modifies buf
    ensures buf.inner == old(buf.inner) + NameBytes(name)
  {
    var n := TrimDots(name);
    if n == [] {
      buf.PutU8(0);
      return;
    }
    var labels := Split(n);
    var i := 0;
    while i < |labels|
      invariant i <= |labels|
      invariant buf.inner + LabelsBytes(labels[i..]) == old(buf.inner) + LabelsBytes(labels)
    {
      assert labels[i..][1..] == labels[i + 1..];
      ghost var before := buf.inner;
      buf.PutU8(|labels[i]| % 0x100);
      buf.PutBytes(labels[i]);
      assert buf.inner == before + LabelBytes(labels[i]);
      i := i + 1;
    }
    buf.PutU8(0);
  }
}

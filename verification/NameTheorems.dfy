/** What reading a name means, and which names survive being written and read back. */
module NameTheorems {
  import opened Machine
  import opened Bytes
  import opened Names

  // ---- the standard's reading of a name, stated on bytes ----

  /** One step of a name: a label, or a jump through a compression pointer. */
  datatype Step = Piece(text: Bytes) | Pointer(target: nat)

  /** A pointer is two bits 11 and a 14-bit offset. */
  ghost predicate PointerAt(msg: Bytes, pos: nat, target: nat) {
    pos + 2 <= |msg| && U16At(msg, pos) == 0xC000 + target
  }

  /** A label is two bits 00, a 6-bit length, and that many bytes, here required to be UTF-8. */
  ghost predicate LabelAt(msg: Bytes, pos: nat, l: Bytes) {
    1 <= |l| <= 63 && ValidUtf8(l) && At(msg, pos, [|l|] + l)
  }

  /** The name at pos takes these steps and then meets the zero byte. */
  ghost predicate Traces(msg: Bytes, pos: nat, steps: seq<Step>)
    decreases |steps|
  {
    if steps == [] then pos < |msg| && msg[pos] == 0
    else
      match steps[0]
      case Piece(l) => LabelAt(msg, pos, l) && Traces(msg, pos + 1 + |l|, steps[1..])
      case Pointer(t) => PointerAt(msg, pos, t) && Traces(msg, t, steps[1..])
  }

  ghost function LabelsOf(steps: seq<Step>): seq<Bytes> {
    if steps == [] then []
    else (if steps[0].Piece? then [steps[0].text] else []) + LabelsOf(steps[1..])
  }

  ghost function Pointers(steps: seq<Step>): nat {
    if steps == [] then 0 else (if steps[0].Pointer? then 1 else 0) + Pointers(steps[1..])
  }

  /** Bytes of the name itself: up to and including its zero byte or its first pointer. */
  ghost function OwnLength(steps: seq<Step>): nat {
    if steps == [] then 1
    else
      match steps[0]
      case Piece(l) => 1 + |l| + OwnLength(steps[1..])
      case Pointer(_) => 2
  }

  /** A name of at most 16 jumps stands from pos to end: its labels, joined with dots. */
  ghost predicate NameStands(msg: Bytes, pos: nat, name: Bytes, end: nat) {
    exists steps :: && Traces(msg, pos, steps) && Pointers(steps) <= 16
                    && Join(LabelsOf(steps)) == name && end == pos + OwnLength(steps)
  }

  lemma NodeMeans(msg: Bytes, pos: nat)
    ensures NodeAt(msg, pos).End? <==> pos < |msg| && msg[pos] == 0
    ensures forall t: nat :: NodeAt(msg, pos) == Jump(t) <==> PointerAt(msg, pos, t)
    ensures NodeAt(msg, pos).Label? ==>
      LabelAt(msg, pos, NodeAt(msg, pos).text) && NodeAt(msg, pos).next == pos + 1 + |NodeAt(msg, pos).text|
  {
    if NodeAt(msg, pos).Label? {
      var l := NodeAt(msg, pos).text;
      assert msg[pos..pos + 1 + |l|] == [|l|] + l;
    }
  }

  lemma LabelIsNode(msg: Bytes, pos: nat, l: Bytes)
    requires LabelAt(msg, pos, l)
    ensures NodeAt(msg, pos) == Label(l, pos + 1 + |l|)
  {
    AtByte(msg, pos, [|l|] + l, 0);
    AtConcat(msg, pos, [|l|], l);
  }

  lemma {:induction false} TraceIsRead(msg: Bytes, pos: nat, jumps: nat, steps: seq<Step>)
    requires Traces(msg, pos, steps) && Pointers(steps) <= jumps
    ensures LabelsAt(msg, pos, jumps) == Some(LabelsOf(steps))
    ensures EndAt(msg, pos) == pos + OwnLength(steps)
    decreases |steps|
  {
    hide PointerAt, LabelAt;
    NodeMeans(msg, pos);
    if steps != [] {
      match steps[0]
      case Piece(l) =>
        LabelIsNode(msg, pos, l);
        TraceIsRead(msg, pos + 1 + |l|, jumps, steps[1..]);
      case Pointer(t) =>
        TraceIsRead(msg, t, jumps - 1, steps[1..]);
        assert [] + LabelsOf(steps[1..]) == LabelsOf(steps[1..]);
    }
  }

  lemma {:induction false} ReadHasTrace(msg: Bytes, pos: nat, jumps: nat) returns (steps: seq<Step>)
    requires LabelsAt(msg, pos, jumps).Some?
    ensures Traces(msg, pos, steps) && Pointers(steps) <= jumps
    decreases jumps, |msg| - pos
  {
    NodeMeans(msg, pos);
    match NodeAt(msg, pos)
    case End =>
      steps := [];
    case Jump(t) =>
      var rest := ReadHasTrace(msg, t, jumps - 1);
      steps := [Pointer(t)] + rest;
    case Label(l, next) =>
      var rest := ReadHasTrace(msg, next, jumps);
      steps := [Piece(l)] + rest;
  }

  /** Reading succeeds exactly on the names that need at most 16 jumps: it gives their labels, joined with dots, and the
      end of the name's own bytes. */
  lemma {:induction false} DecompressionIsExact(msg: Bytes, pos: nat, name: Bytes, end: nat)
    ensures NameStands(msg, pos, name, end)
      <==> NameAt(msg, pos).Some? && NameAt(msg, pos).value.0 == name && NameAt(msg, pos).value.1 == end
  {
    if NameAt(msg, pos).Some? {
      var steps := ReadHasTrace(msg, pos, MAX_JUMPS);
      TraceIsRead(msg, pos, MAX_JUMPS, steps);
    }
    if NameStands(msg, pos, name, end) {
      var steps :| Traces(msg, pos, steps) && Pointers(steps) <= 16
                   && Join(LabelsOf(steps)) == name && end == pos + OwnLength(steps);
      TraceIsRead(msg, pos, MAX_JUMPS, steps);
    }
  }

  lemma {:induction false} EndInside(msg: Bytes, pos: nat, jumps: nat)
    requires LabelsAt(msg, pos, jumps).Some?
    ensures pos < EndAt(msg, pos) <= |msg|
    decreases |msg| - pos
  {
    if NodeAt(msg, pos).Label? {
      EndInside(msg, NodeAt(msg, pos).next, jumps);
    }
  }

  /** A name that was read moves the reader forward and stays inside the message. */
  lemma NameAdvances(msg: Bytes, pos: nat)
    requires NameAt(msg, pos).Some?
    ensures pos < NameAt(msg, pos).value.1 <= |msg|
  {
    EndInside(msg, pos, MAX_JUMPS);
  }

  // ---- writing, then reading ----

  /** The labels before the first empty one: where a written name appears to stop. */
  ghost function Leading(labels: seq<Bytes>): seq<Bytes> {
    if labels == [] || labels[0] == [] then [] else [labels[0]] + Leading(labels[1..])
  }

  /** The steps of a name without pointers. */
  ghost function Pieces(labels: seq<Bytes>): seq<Step> {
    if labels == [] then [] else [Piece(labels[0])] + Pieces(labels[1..])
  }

  lemma {:induction false} PiecesMean(labels: seq<Bytes>)
    ensures LabelsOf(Pieces(labels)) == labels && Pointers(Pieces(labels)) == 0
    ensures OwnLength(Pieces(labels)) == |LabelsBytes(labels)|
  {
    if labels != [] {
      PiecesMean(labels[1..]);
      assert Pieces(labels)[1..] == Pieces(labels[1..]);
      assert labels == [labels[0]] + labels[1..];
    }
  }

  lemma ShortLabelBytes(l: Bytes)
    requires |l| <= 63
    ensures LabelBytes(l) == [|l|] + l
  {
  }

  lemma WrittenLabel(msg: Bytes, pos: nat, l: Bytes, rest: Bytes)
    requires |l| <= 63 && At(msg, pos, LabelBytes(l) + rest)
    ensures pos < |msg| && msg[pos] == |l|
    ensures At(msg, pos, [|l|] + l)
    ensures At(msg, pos + 1 + |l|, rest)
  {
    ShortLabelBytes(l);
    var part := [|l|] + l;
    AtConcat(msg, pos, part, rest);
    AtByte(msg, pos, part, 0);
  }

  lemma LeadingFirst(labels: seq<Bytes>)
    requires labels != [] && labels[0] != []
    ensures var steps := Pieces(Leading(labels));
      steps != [] && steps[0] == Piece(labels[0]) && steps[1..] == Pieces(Leading(labels[1..]))
  {
    assert Leading(labels)[1..] == Leading(labels[1..]);
  }

  lemma {:induction false} WrittenTrace(msg: Bytes, pos: nat, labels: seq<Bytes>)
    requires At(msg, pos, LabelsBytes(labels)) && AllShort(labels) && AllText(labels)
    ensures Traces(msg, pos, Pieces(Leading(labels)))
    decreases |labels|
  {
    if labels == [] {
      AtByte(msg, pos, [0], 0);
    } else {
      WrittenLabel(msg, pos, labels[0], LabelsBytes(labels[1..]));
      if labels[0] != [] {
        WrittenTrace(msg, pos + 1 + |labels[0]|, labels[1..]);
        LeadingFirst(labels);
      }
    }
  }

  lemma ReadBack(msg: Bytes, pos: nat, jumps: nat, labels: seq<Bytes>)
    requires At(msg, pos, LabelsBytes(labels)) && AllShort(labels) && AllText(labels)
    ensures LabelsAt(msg, pos, jumps) == Some(Leading(labels))
    ensures Leading(labels) == labels ==> EndAt(msg, pos) == pos + |LabelsBytes(labels)|
  {
    WrittenTrace(msg, pos, labels);
    PiecesMean(Leading(labels));
    TraceIsRead(msg, pos, jumps, Pieces(Leading(labels)));
  }

  lemma {:induction false} AllLead(labels: seq<Bytes>)
    requires forall i :: 0 <= i < |labels| ==> labels[i] != []
    ensures Leading(labels) == labels
  {
    if labels != [] {
      AllLead(labels[1..]);
    }
  }

  lemma {:induction false} DotAtEnd(s: Bytes)
    requires s != [] && s[|s| - 1] == DOT
    ensures [] in Split(s)
    decreases |s|
  {
    var i := IndexOf(s, DOT);
    var rest := s[i + 1..];
    assert Split(s) == [s[..i]] + Split(rest);
    if rest == [] {
      assert Split(rest) == [[]];
      assert Split(s)[1] == [];
    } else {
      DotAtEnd(rest);
    }
  }

  lemma CanonicalIsTrimmed(name: Bytes)
    requires Canonical(name)
    ensures TrimDots(name) == name
  {
    if name != [] && name[|name| - 1] == DOT {
      DotAtEnd(name);
    }
  }

  lemma LabelsRoundTrip(msg: Bytes, pos: nat, jumps: nat, name: Bytes)
    requires name != [] && ValidUtf8(name) && Canonical(name) && At(msg, pos, NameBytes(name))
    ensures LabelsAt(msg, pos, jumps) == Some(Split(name))
    ensures EndAt(msg, pos) == pos + |NameBytes(name)|
  {
    CanonicalIsTrimmed(name);
    SplitIsText(name);
    AllLead(Split(name));
    ReadBack(msg, pos, jumps, Split(name));
  }

  lemma RootName(msg: Bytes, pos: nat)
    requires At(msg, pos, [0])
    ensures NameAt(msg, pos) == Some(([], pos + 1))
  {
    AtByte(msg, pos, [0], 0);
  }

  lemma RootIsZero()
    ensures NameBytes([]) == [0]
  {
  }

  /** A canonical name standing anywhere in a message is read back whole. */
  lemma NameRoundTrip(msg: Bytes, pos: nat, name: Text)
    requires Canonical(name) && At(msg, pos, NameBytes(name))
    ensures NameAt(msg, pos) == Some((name, pos + |NameBytes(name)|))
  {
    hide At, LabelsAt, EndAt, NameBytes, Split, Canonical;
    if name == [] {
      RootIsZero();
      RootName(msg, pos);
    } else {
      LabelsRoundTrip(msg, pos, MAX_JUMPS, name);
      JoinSplit(name);
    }
  }

  /** A name with dots at its end is written, and read, without them. */
  lemma {:induction false} TrailingDotsAreDropped(msg: Bytes, pos: nat, name: Text)
    requires Canonical(TrimDots(name)) && At(msg, pos, NameBytes(name))
    ensures NameAt(msg, pos).Some? && NameAt(msg, pos).value.0 == TrimDots(name)
    ensures NameAt(msg, pos).value.1 == pos + |NameBytes(name)|
  {
    TrimIsPrefix(name);
    PrefixIsText(name, |TrimDots(name)|);
    CanonicalIsTrimmed(TrimDots(name));
    hide TrimDots, Canonical, NameAt;
    NameRoundTrip(msg, pos, TrimDots(name));
  }

  // ---- compressed names ----

  lemma {:induction false} LabelsOfConcat(a: seq<Step>, b: seq<Step>)
    ensures LabelsOf(a + b) == LabelsOf(a) + LabelsOf(b)
  {
    if a == [] {
      assert a + b == b;
    } else {
      assert (a + b)[1..] == a[1..] + b;
      LabelsOfConcat(a[1..], b);
      var own := if a[0].Piece? then [a[0].text] else [];
      assert own + (LabelsOf(a[1..]) + LabelsOf(b)) == own + LabelsOf(a[1..]) + LabelsOf(b);
    }
  }

  lemma {:induction false} PointersConcat(a: seq<Step>, b: seq<Step>)
    ensures Pointers(a + b) == Pointers(a) + Pointers(b)
  {
    if a == [] {
      assert a + b == b;
    } else {
      assert (a + b)[1..] == a[1..] + b;
      PointersConcat(a[1..], b);
    }
  }

  /** The bytes of labels without the zero byte of the end. */
  ghost function OpenBytes(labels: seq<Bytes>): Bytes {
    if labels == [] then [] else [|labels[0]| % 0x100] + labels[0] + OpenBytes(labels[1..])
  }

  /** Labels followed by a pointer to a name: the steps of both. */
  lemma {:induction false} CompressedTrace(msg: Bytes, pos: nat, labels: seq<Bytes>, target: nat, rest: seq<Step>)
    requires forall i :: 0 <= i < |labels| ==> 1 <= |labels[i]| <= 63 && ValidUtf8(labels[i])
    requires At(msg, pos, OpenBytes(labels)) && PointerAt(msg, pos + |OpenBytes(labels)|, target)
    requires Traces(msg, target, rest)
    ensures Traces(msg, pos, Pieces(labels) + [Pointer(target)] + rest)
    ensures OwnLength(Pieces(labels) + [Pointer(target)] + rest) == |OpenBytes(labels)| + 2
    decreases |labels|
  {
    var steps := Pieces(labels) + [Pointer(target)] + rest;
    hide PointerAt, At, ValidUtf8;
    if labels == [] {
      assert steps[1..] == rest;
    } else {
      var l, open := labels[0], OpenBytes(labels[1..]);
      assert OpenBytes(labels) == ([|l|] + l) + open;
      AtConcat(msg, pos, [|l|] + l, open);
      assert LabelAt(msg, pos, l);
      hide LabelAt;
      CompressedTrace(msg, pos + 1 + |l|, labels[1..], target, rest);
      assert steps[0] == Piece(l) && steps[1..] == Pieces(labels[1..]) + [Pointer(target)] + rest;
    }
  }

  lemma {:induction false} CompressedSteps(labels: seq<Bytes>, target: nat, rest: seq<Step>)
    ensures var steps := Pieces(labels) + [Pointer(target)] + rest;
            LabelsOf(steps) == labels + LabelsOf(rest) && Pointers(steps) == 1 + Pointers(rest)
  {
    PiecesMean(labels);
    LabelsOfConcat(Pieces(labels) + [Pointer(target)], rest);
    LabelsOfConcat(Pieces(labels), [Pointer(target)]);
    PointersConcat(Pieces(labels) + [Pointer(target)], rest);
    PointersConcat(Pieces(labels), [Pointer(target)]);
    assert LabelsOf([Pointer(target)]) == [] && Pointers([Pointer(target)]) == 1;
    assert labels + [] == labels;
  }

  lemma {:induction false} TraceStands(msg: Bytes, pos: nat, steps: seq<Step>)
    requires Traces(msg, pos, steps) && Pointers(steps) <= 16
    ensures NameStands(msg, pos, Join(LabelsOf(steps)), pos + OwnLength(steps))
  {
  }

  /** A compressed name is read with all its labels: those written before the pointer, and those of the name it points
      to, as long as there are no more than 16 pointers in a row. It ends behind its own pointer. */
  lemma {:induction false} CompressedNameReads(msg: Bytes, pos: nat, labels: seq<Bytes>, target: nat, rest: seq<Step>)
    requires forall i :: 0 <= i < |labels| ==> 1 <= |labels[i]| <= 63 && ValidUtf8(labels[i])
    requires At(msg, pos, OpenBytes(labels)) && PointerAt(msg, pos + |OpenBytes(labels)|, target)
    requires Traces(msg, target, rest) && Pointers(rest) < 16
    ensures NameAt(msg, pos).Some?
    ensures NameAt(msg, pos).value.0 == Join(labels + LabelsOf(rest))
    ensures NameAt(msg, pos).value.1 == pos + |OpenBytes(labels)| + 2
  {
    CompressedTrace(msg, pos, labels, target, rest);
    CompressedSteps(labels, target, rest);
    hide Traces, LabelsOf, Pointers, OwnLength, Join, OpenBytes, PointerAt, NameAt, NameStands, At, Pieces, ValidUtf8;
    TraceStands(msg, pos, Pieces(labels) + [Pointer(target)] + rest);
    DecompressionIsExact(msg, pos, Join(labels + LabelsOf(rest)), pos + |OpenBytes(labels)| + 2);
  }

  /** The steps of a name that was written in full. */
  lemma {:induction false} NameTrace(msg: Bytes, pos: nat, name: Text)
    requires Canonical(name) && name != [] && At(msg, pos, NameBytes(name))
    ensures Traces(msg, pos, Pieces(Split(name)))
    ensures LabelsOf(Pieces(Split(name))) == Split(name) && Pointers(Pieces(Split(name))) == 0
  {
    CanonicalIsTrimmed(name);
    SplitIsText(name);
    AllLead(Split(name));
    hide Split, At;
    WrittenTrace(msg, pos, Split(name));
    PiecesMean(Split(name));
  }

  /** The usual case: a pointer to a name that was written in full. */
  lemma {:induction false} SharedSuffixReads(msg: Bytes, pos: nat, labels: seq<Bytes>, target: nat, name: Text)
    requires forall i :: 0 <= i < |labels| ==> 1 <= |labels[i]| <= 63 && ValidUtf8(labels[i])
    requires At(msg, pos, OpenBytes(labels)) && PointerAt(msg, pos + |OpenBytes(labels)|, target)
    requires Canonical(name) && name != [] && At(msg, target, NameBytes(name))
    ensures NameAt(msg, pos).Some?
    ensures NameAt(msg, pos).value.0 == Join(labels + Split(name))
    ensures NameAt(msg, pos).value.1 == pos + |OpenBytes(labels)| + 2
  {
    NameTrace(msg, target, name);
    hide Traces, LabelsOf, Pointers, OwnLength, Join, Split, OpenBytes, PointerAt, NameAt, Canonical, TrimDots, At;
    hide NameBytes, LabelsBytes, Leading, Pieces, ValidUtf8, AllShort, AllText;
    CompressedNameReads(msg, pos, labels, target, Pieces(Split(name)));
  }

  // ---- no other name survives ----

  predicate DotWithin(s: Bytes, i: nat) { exists k :: i <= k < |s| && k < i + 64 && s[k] == DOT }

  /** Every 64 consecutive bytes hold a dot. */
  ghost predicate NoLongRun(s: Bytes) {
    forall i: nat :: i + 63 < |s| ==> DotWithin(s, i)
  }

  lemma {:induction false} ShortLabelsJoin(labels: seq<Bytes>)
    requires AllShort(labels)
    ensures NoLongRun(Join(labels))
  {
    if labels != [] {
      if |labels| > 1 {
        ShortLabelsJoin(labels[1..]);
        RunAcrossDot(labels[0], Join(labels[1..]));
      }
    }
  }

  lemma DotAfter(front: Bytes, rest: Bytes, i: nat)
    requires i + 63 < |rest|
    ensures DotWithin(front + rest, |front| + i) <==> DotWithin(rest, i)
  {
    if DotWithin(rest, i) {
      var k :| i <= k < |rest| && k < i + 64 && rest[k] == DOT;
      assert (front + rest)[|front| + k] == DOT;
    }
  }

  lemma RunAcrossDot(l: Bytes, rest: Bytes)
    requires |l| <= 63 && NoLongRun(rest)
    ensures NoLongRun(l + [DOT] + rest)
  {
    var s := l + [DOT] + rest;
    forall i: nat | i + 63 < |s|
      ensures DotWithin(s, i)
    {
      if i <= |l| {
        assert s[|l|] == DOT;
      } else {
        DotAfter(l + [DOT], rest, i - |l| - 1);
      }
    }
  }

  lemma {:induction false} ShortPieces(s: Bytes)
    requires NoLongRun(s)
    ensures AllShort(Split(s))
    decreases |s|
  {
    var i := IndexOf(s, DOT);
    assert i >= 64 ==> !DotWithin(s, 0);
    if i < |s| {
      SuffixRun(s, i + 1);
      ShortPieces(s[i + 1..]);
    }
  }

  lemma SuffixRun(s: Bytes, n: nat)
    requires n <= |s| && NoLongRun(s)
    ensures NoLongRun(s[n..])
  {
    assert s == s[..n] + s[n..];
    forall i: nat | i + 63 < |s[n..]|
      ensures DotWithin(s[n..], i)
    {
      DotAfter(s[..n], s[n..], i);
    }
  }

  lemma PrefixRun(s: Bytes, n: nat)
    requires n <= |s| && NoLongRun(s)
    ensures NoLongRun(s[..n])
  {
    forall i: nat | i + 63 < n
      ensures DotWithin(s[..n], i)
    {
      assert DotWithin(s, i);
    }
  }

  lemma {:induction false} TrimIsPrefix(s: Bytes)
    ensures |TrimDots(s)| <= |s| && TrimDots(s) == s[..|TrimDots(s)|]
    ensures forall i :: |TrimDots(s)| <= i < |s| ==> s[i] == DOT
  {
    if s != [] && s[|s| - 1] == DOT {
      TrimIsPrefix(s[..|s| - 1]);
    }
  }

  /** Stopping early loses bytes. */
  lemma {:induction false} LeadingIsShorter(labels: seq<Bytes>)
    requires labels != [[]] && Leading(labels) != labels
    ensures |Join(Leading(labels))| < |Join(labels)|
  {
    if labels[0] != [] {
      var rest := labels[1..];
      assert labels == [labels[0]] + rest;
      assert Leading(labels)[1..] == Leading(rest);
      if rest != [[]] {
        LeadingIsShorter(rest);
      }
    }
  }

  lemma {:induction false} LeadingNotEmpty(labels: seq<Bytes>)
    requires Leading(labels) == labels
    ensures forall i :: 0 <= i < |labels| ==> labels[i] != []
  {
    if labels != [] {
      LeadingNotEmpty(labels[1..]);
    }
  }

  /** If a written name reads back as itself, it was canonical. */
  lemma OnlyCanonicalNames(msg: Bytes, pos: nat, name: Text)
    requires At(msg, pos, NameBytes(name))
    requires NameAt(msg, pos).Some? && NameAt(msg, pos).value.0 == name
    ensures Canonical(name)
  {
    var n := TrimDots(name);
    TrimIsPrefix(name);
    if n == [] {
      AtByte(msg, pos, [0], 0);
    } else {
      var read := LabelsAt(msg, pos, MAX_JUMPS).value;
      ShortLabelsJoin(read);
      PrefixRun(name, |n|);
      ShortPieces(n);
      PrefixIsText(name, |n|);
      SplitIsText(n);
      ReadBack(msg, pos, MAX_JUMPS, Split(n));
      JoinSplit(n);
      if Leading(Split(n)) != Split(n) {
        LeadingIsShorter(Split(n));
      }
      LeadingNotEmpty(Split(n));
    }
  }

  /** What TrimDots leaves of a text is text. */
  lemma {:induction false} PrefixIsText(name: Bytes, n: nat)
    requires ValidUtf8(name) && n <= |name|
    requires forall i :: n <= i < |name| ==> name[i] == DOT
    ensures ValidUtf8(name[..n])
    decreases |name|
  {
    if n < |name| {
      var shorter := name[..|name| - 1];
      assert name == shorter + [DOT] + [];
      ValidSplit(shorter, DOT, []);
      PrefixIsText(shorter, n);
      assert shorter[..n] == name[..n];
    } else {
      assert name[..n] == name;
    }
  }

  /** Exactly the canonical names survive, wherever they are written. */
  lemma NamesSurviveIffCanonical(msg: Bytes, pos: nat, name: Text)
    requires At(msg, pos, NameBytes(name))
    ensures NameAt(msg, pos) == Some((name, pos + |NameBytes(name)|)) <==> Canonical(name)
  {
    if Canonical(name) {
      NameRoundTrip(msg, pos, name);
    }
    if NameAt(msg, pos) == Some((name, pos + |NameBytes(name)|)) {
      OnlyCanonicalNames(msg, pos, name);
    }
  }
}

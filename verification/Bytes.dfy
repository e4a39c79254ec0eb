/** Byte strings: big-endian fields, sub-strings at a position, and UTF-8 text. */
module Bytes {
  import opened Machine

  type Bytes = seq<u8>

  type Ipv4 = b: Bytes | |b| == 4 witness [0, 0, 0, 0]

  function Be16(v: u16): Bytes { [v / 0x100, v % 0x100] }

  function Be32(v: u32): Bytes { Be16(v / 0x1_0000) + Be16(v % 0x1_0000) }

  function Word16(a: u8, b: u8): u16 { a * 0x100 + b }

  function U16At(b: Bytes, i: nat): u16
    requires i + 2 <= |b|
  {
    Word16(b[i], b[i + 1])
  }

  function U32At(b: Bytes, i: nat): u32
    requires i + 4 <= |b|
  {
    U16At(b, i) * 0x1_0000 + U16At(b, i + 2)
  }

  /** The numbers that two and four bytes stand for, the most significant byte first. */
  ghost function HalfAt(b: Bytes, i: nat): nat
    requires i + 2 <= |b|
  {
    var high: int, low: int := b[i], b[i + 1];
    high * 0x100 + low
  }

  ghost function WordAt(b: Bytes, i: nat): nat
    requires i + 4 <= |b|
  {
    var b0: int, b1: int, b2: int, b3: int := b[i], b[i + 1], b[i + 2], b[i + 3];
    b0 * 0x100_0000 + b1 * 0x1_0000 + b2 * 0x100 + b3
  }

  lemma U16IsHalf(b: Bytes, i: nat)
    requires i + 2 <= |b|
    ensures U16At(b, i) == HalfAt(b, i)
  {
  }

  lemma U32IsWord(b: Bytes, i: nat)
    requires i + 4 <= |b|
    ensures U32At(b, i) == WordAt(b, i)
  {
  }

  /** The fields of all formats here are big-endian, read or written. */
  lemma BigEndian(b: Bytes, i: nat, v: u16, w: u32)
    ensures i + 2 <= |b| ==> (U16At(b, i) == v <==> HalfAt(b, i) == v) && (At(b, i, Be16(v)) <==> HalfAt(b, i) == v)
    ensures i + 4 <= |b| ==> (U32At(b, i) == w <==> WordAt(b, i) == w) && (At(b, i, Be32(w)) <==> WordAt(b, i) == w)
    ensures |Be16(v)| == 2 && |Be32(w)| == 4
  {
    HalfField(b, i, v);
    WordField(b, i, w);
    hide At, U16At, U32At, HalfAt, WordAt;
  }

  lemma HalfField(b: Bytes, i: nat, v: u16)
    ensures i + 2 <= |b| ==> (U16At(b, i) == v <==> HalfAt(b, i) == v) && (At(b, i, Be16(v)) <==> HalfAt(b, i) == v)
  {
    if i + 2 <= |b| {
      assert b[i..i + 2] == [b[i], b[i + 1]];
    }
  }

  lemma TwoHalves(b: Bytes, i: nat)
    requires i + 4 <= |b|
    ensures WordAt(b, i) == HalfAt(b, i) * 0x1_0000 + HalfAt(b, i + 2)
    ensures 0 <= HalfAt(b, i) < 0x1_0000 && 0 <= HalfAt(b, i + 2) < 0x1_0000
  {
  }

  lemma WordField(b: Bytes, i: nat, w: u32)
    ensures i + 4 <= |b| ==> (U32At(b, i) == w <==> WordAt(b, i) == w) && (At(b, i, Be32(w)) <==> WordAt(b, i) == w)
  {
    if i + 4 <= |b| {
      var high, low := w / 0x1_0000, w % 0x1_0000;
      TwoHalves(b, i);
      HalfField(b, i, high);
      HalfField(b, i + 2, low);
      U16IsHalf(b, i);
      U16IsHalf(b, i + 2);
      AtConcat(b, i, Be16(high), Be16(low));
      hide At, U16At, HalfAt, WordAt;
    }
  }

  /** `x as u16` for a length. */
  function Low16(n: nat): u16 { n % 0x1_0000 }

  /** The bytes `part` stand at position pos of `whole`. */
  ghost predicate At(whole: Bytes, pos: nat, part: Bytes) {
    pos + |part| <= |whole| && whole[pos..pos + |part|] == part
  }

  lemma AtByte(whole: Bytes, pos: nat, part: Bytes, i: nat)
    requires At(whole, pos, part) && i < |part|
    ensures whole[pos + i] == part[i]
  {
    assert whole[pos..pos + |part|][i] == part[i];
  }

  lemma AtConcat(whole: Bytes, pos: nat, a: Bytes, b: Bytes)
    ensures At(whole, pos, a + b) <==> At(whole, pos, a) && At(whole, pos + |a|, b)
  {
    if At(whole, pos, a + b) {
      assert whole[pos..pos + |a|] == whole[pos..pos + |a + b|][..|a|];
      assert whole[pos + |a|..pos + |a| + |b|] == whole[pos..pos + |a + b|][|a|..];
    }
    if At(whole, pos, a) && At(whole, pos + |a|, b) {
      assert whole[pos..pos + |a + b|] == whole[pos..pos + |a|] + whole[pos + |a|..pos + |a| + |b|];
    }
  }

  lemma AtInside(whole: Bytes, pos: nat, part: Bytes)
    requires At(whole, pos, part)
    ensures pos + |part| <= |whole|
  {
  }

  lemma AtWhole(whole: Bytes)
    ensures At(whole, 0, whole)
  {
  }

  lemma AtBe16(whole: Bytes, pos: nat, v: u16)
    requires At(whole, pos, Be16(v))
    ensures pos + 2 <= |whole| && U16At(whole, pos) == v
  {
    AtByte(whole, pos, Be16(v), 0);
    AtByte(whole, pos, Be16(v), 1);
  }

  lemma AtBe32(whole: Bytes, pos: nat, v: u32)
    requires At(whole, pos, Be32(v))
    ensures pos + 4 <= |whole| && U32At(whole, pos) == v
  {
    AtConcat(whole, pos, Be16(v / 0x1_0000), Be16(v % 0x1_0000));
    AtBe16(whole, pos, v / 0x1_0000);
    AtBe16(whole, pos + 2, v % 0x1_0000);
  }

  /** Position of the first byte x, or |s|. */
  function IndexOf(s: Bytes, x: u8): (i: nat)
    ensures i <= |s| && (i < |s| ==> s[i] == x)
    ensures forall k :: 0 <= k < i ==> s[k] != x
  {
    if s == [] || s[0] == x then 0 else 1 + IndexOf(s[1..], x)
  }

  // ---- UTF-8 (section 4 of RFC 3629) ----

  predicate Tail(b: Bytes, i: nat, low: u8, high: u8) { i < |b| && low <= b[i] <= high }

  /** Length of the well-formed character b starts with, or 0. */
  function CharLength(b: Bytes): nat
    requires b != []
  {
    var c := b[0];
    if c <= 0x7F then 1
    else if 0xC2 <= c <= 0xDF then if Tail(b, 1, 0x80, 0xBF) then 2 else 0
    else if 0xE0 <= c <= 0xEF then
      var low, high := if c == 0xE0 then 0xA0 else 0x80, if c == 0xED then 0x9F else 0xBF;
      if Tail(b, 1, low, high) && Tail(b, 2, 0x80, 0xBF) then 3 else 0
    else if 0xF0 <= c <= 0xF4 then
      var low, high := if c == 0xF0 then 0x90 else 0x80, if c == 0xF4 then 0x8F else 0xBF;
      if Tail(b, 1, low, high) && Tail(b, 2, 0x80, 0xBF) && Tail(b, 3, 0x80, 0xBF) then 4 else 0
    else 0
  }

  lemma CharFits(b: Bytes)
    requires b != []
    ensures CharLength(b) <= |b|
    ensures forall i :: 1 <= i < CharLength(b) ==> b[i] >= 0x80
  {
  }

  predicate ValidUtf8(b: Bytes)
    decreases |b|
  {
    if b == [] then true
    else
      CharFits(b);
      CharLength(b) > 0 && ValidUtf8(b[CharLength(b)..])
  }

  /** A string of the program: bytes that are well-formed UTF-8. */
  type Text = b: Bytes | ValidUtf8(b) witness []

  lemma CharLengthPrefix(a: Bytes, b: Bytes)
    requires a != []
    ensures CharLength(a) > 0 ==> CharLength(a + b) == CharLength(a)
    ensures 0 < CharLength(a + b) <= |a| ==> CharLength(a) == CharLength(a + b)
  {
  }

  lemma {:induction false} ValidConcat(a: Bytes, b: Bytes)
    requires ValidUtf8(a) && ValidUtf8(b)
    ensures ValidUtf8(a + b)
    decreases |a|
  {
    if a == [] {
      assert a + b == b;
    } else {
      var n := CharLength(a);
      CharFits(a);
      CharLengthPrefix(a, b);
      assert (a + b)[n..] == a[n..] + b;
      ValidConcat(a[n..], b);
    }
  }

  lemma CharBefore(a: Bytes, x: u8, b: Bytes)
    requires a != [] && x < 0x80
    ensures CharLength(a + [x] + b) <= |a|
  {
    CharFits(a + [x] + b);
    assert (a + [x] + b)[|a|] == x;
  }

  /** An ASCII byte splits a text into two texts. */
  lemma {:induction false} ValidSplit(a: Bytes, x: u8, b: Bytes)
    requires x < 0x80 && ValidUtf8(a + [x] + b)
    ensures ValidUtf8(a) && ValidUtf8(b)
    decreases |a|
  {
    var w := a + [x] + b;
    var n := CharLength(w);
    CharFits(w);
    if a == [] {
      assert n == 1;
      assert w[1..] == b;
    } else {
      CharBefore(a, x, b);
      assert w == a + ([x] + b);
      CharLengthPrefix(a, [x] + b);
      assert w[n..] == a[n..] + [x] + b;
      ValidSplit(a[n..], x, b);
    }
  }
}

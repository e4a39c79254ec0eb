/** Well-formed UTF-8, against the encoding of code points (section 3 of RFC 3629). */
module Utf8 {
  import opened Machine
  import opened Bytes

  /** A Unicode scalar value: no surrogate, and at most 0x10FFFF. */
  type CodePoint = c: int | 0 <= c < 0xD800 || 0xE000 <= c <= 0x10FFFF

  /** One code point in one to four bytes, the fewest that hold it. */
  ghost function CharBytes(c: CodePoint): Bytes {
    if c < 0x80 then [c]
    else if c < 0x800 then [0xC0 + c / 0x40, 0x80 + c % 0x40]
    else if c < 0x1_0000 then [0xE0 + c / 0x1000, 0x80 + c / 0x40 % 0x40, 0x80 + c % 0x40]
    else [0xF0 + c / 0x4_0000, 0x80 + c / 0x1000 % 0x40, 0x80 + c / 0x40 % 0x40, 0x80 + c % 0x40]
  }

  ghost function TextBytes(cs: seq<CodePoint>): Bytes {
    if cs == [] then [] else CharBytes(cs[0]) + TextBytes(cs[1..])
  }

  /** An encoded code point is recognised as one character, whatever follows. */
  lemma {:induction false} EncodedIsChar(c: CodePoint, rest: Bytes)
    ensures CharLength(CharBytes(c) + rest) == |CharBytes(c)| > 0
  {
    var b := CharBytes(c) + rest;
    if c < 0x80 {
    } else if c < 0x800 {
      assert 2 <= c / 0x40 <= 0x1F;
    } else if c < 0x1_0000 {
      assert c / 0x1000 == 0 ==> c / 0x40 % 0x40 >= 0x20;
      assert c / 0x1000 == 0xD ==> c / 0x40 % 0x40 <= 0x1F;
    } else {
      assert c / 0x4_0000 == 0 ==> c / 0x1000 % 0x40 >= 0x10;
      assert c / 0x4_0000 == 4 ==> c / 0x1000 % 0x40 <= 0xF;
    }
  }

  /** The code point of the character b starts with. */
  lemma {:induction false} CharIsEncoded(b: Bytes) returns (c: CodePoint)
    requires b != [] && CharLength(b) > 0
    ensures CharLength(b) <= |b| && CharBytes(c) == b[..CharLength(b)]
  {
    var b0: int := b[0];
    if b0 <= 0x7F {
      c := b0;
    } else if b0 <= 0xDF {
      c := TwoBytes(b0, b[1]);
    } else if b0 <= 0xEF {
      c := ThreeBytes(b0, b[1], b[2]);
    } else {
      c := FourBytes(b0, b[1], b[2], b[3]);
    }
  }

  lemma TwoBytes(b0: u8, b1: u8) returns (c: CodePoint)
    requires 0xC2 <= b0 <= 0xDF && 0x80 <= b1 <= 0xBF
    ensures CharBytes(c) == [b0, b1]
  {
    c := (b0 - 0xC0) * 0x40 + (b1 - 0x80);
  }

  lemma ThreeBytes(b0: u8, b1: u8, b2: u8) returns (c: CodePoint)
    requires 0xE0 <= b0 <= 0xEF && 0x80 <= b1 <= 0xBF && 0x80 <= b2 <= 0xBF
    requires (b0 == 0xE0 ==> b1 >= 0xA0) && (b0 == 0xED ==> b1 <= 0x9F)
    ensures CharBytes(c) == [b0, b1, b2]
  {
    c := (b0 - 0xE0) * 0x1000 + (b1 - 0x80) * 0x40 + (b2 - 0x80);
    assert c / 0x1000 == b0 - 0xE0 && c / 0x40 == (b0 - 0xE0) * 0x40 + (b1 - 0x80);
  }

  lemma FourBytes(b0: u8, b1: u8, b2: u8, b3: u8) returns (c: CodePoint)
    requires 0xF0 <= b0 <= 0xF4 && 0x80 <= b1 <= 0xBF && 0x80 <= b2 <= 0xBF && 0x80 <= b3 <= 0xBF
    requires (b0 == 0xF0 ==> b1 >= 0x90) && (b0 == 0xF4 ==> b1 <= 0x8F)
    ensures CharBytes(c) == [b0, b1, b2, b3]
  {
    c := (b0 - 0xF0) * 0x4_0000 + (b1 - 0x80) * 0x1000 + (b2 - 0x80) * 0x40 + (b3 - 0x80);
    assert c / 0x4_0000 == b0 - 0xF0 && c / 0x1000 == (b0 - 0xF0) * 0x40 + (b1 - 0x80);
    assert c / 0x40 == (b0 - 0xF0) * 0x1000 + (b1 - 0x80) * 0x40 + (b2 - 0x80);
  }

  lemma {:induction false} EncodedIsValid(cs: seq<CodePoint>)
    ensures ValidUtf8(TextBytes(cs))
  {
    hide CharBytes, CharLength;
    if cs != [] {
      var rest := TextBytes(cs[1..]);
      EncodedIsChar(cs[0], rest);
      EncodedIsValid(cs[1..]);
      assert (CharBytes(cs[0]) + rest)[|CharBytes(cs[0])|..] == rest;
    }
  }

  lemma {:induction false} ValidIsEncoded(b: Bytes) returns (cs: seq<CodePoint>)
    requires ValidUtf8(b)
    ensures TextBytes(cs) == b
    decreases |b|
  {
    cs := [];
    if b != [] {
      var c := CharIsEncoded(b);
      var rest := ValidIsEncoded(b[CharLength(b)..]);
      cs := [c] + rest;
      assert cs[1..] == rest && b == b[..CharLength(b)] + b[CharLength(b)..];
    }
  }

  /** The bytes the program takes for text are exactly the encodings of code points. */
  lemma {:induction false} Utf8IsExact(b: Bytes)
    ensures ValidUtf8(b) <==> exists cs :: TextBytes(cs) == b
  {
    hide CharBytes, CharLength;
    if ValidUtf8(b) {
      var cs := ValidIsEncoded(b);
    }
    forall cs | TextBytes(cs) == b
      ensures ValidUtf8(b)
    {
      EncodedIsValid(cs);
    }
  }
}

/** Interleaved big-endian PCM to left-justified samples and back, frame by frame. */
module Pcm {
  import opened Machine
  import opened Bytes
  import opened Slots

  // ---- one sample ----

  function Signed8(b: u8): int { if b < 0x80 then b else b - 0x100 }

  function Promote16(b0: u8, b1: u8): Sample { (Signed8(b0) * 0x100 + b1) * 0x1_0000 }

  function Promote24(b0: u8, b1: u8, b2: u8): Sample { Signed8(b0) * 0x100_0000 + b1 * 0x1_0000 + b2 * 0x100 }

  function Promote32(b0: u8, b1: u8, b2: u8, b3: u8): Sample {
    Signed8(b0) * 0x100_0000 + b1 * 0x1_0000 + b2 * 0x100 + b3
  }

  /** The first sample of b, `width` bytes wide; only 2, 3 and 4 carry anything. */
  function Promote(b: Bytes, width: nat): Sample
    requires width <= |b|
  {
    if width == 2 then Promote16(b[0], b[1])
    else if width == 3 then Promote24(b[0], b[1], b[2])
    else if width == 4 then Promote32(b[0], b[1], b[2], b[3])
    else 0
  }

  /** `s.to_be_bytes()`. */
  function BeBytes(s: Sample): Bytes { Be32(if s >= 0 then s else s + 0x1_0000_0000) }

  /** `((s >> 16) as i16).to_be_bytes()`: the arithmetic shift rounds down. */
  function High16(s: Sample): Bytes {
    var h := s / 0x1_0000;
    Be16(if h >= 0 then h else h + 0x1_0000)
  }

  function Pack(s: Sample, width: nat): Bytes {
    if width == 2 then High16(s)
    else if width == 3 then BeBytes(s)[..3]
    else if width == 4 then BeBytes(s)
    else []
  }

  predicate Carried(width: nat) { 2 <= width <= 4 }

  /** s with the bits that do not fit `width` bytes cleared. */
  function Cleared(s: Sample, width: nat): Sample {
    if width == 2 then s / 0x1_0000 * 0x1_0000 else if width == 3 then s / 0x100 * 0x100 else s
  }

  /** v is s without the bits that do not fit: the high `width` bytes of s, and zeros. */
  ghost predicate Kept(s: Sample, v: Sample, width: nat) {
    match width
    case 2 => v % 0x1_0000 == 0 && 0 <= s - v < 0x1_0000
    case 3 => v % 0x100 == 0 && 0 <= s - v < 0x100
    case _ => v == s
  }

  lemma ClearedIsKept(s: Sample, width: nat)
    ensures Kept(s, Cleared(s, width), width)
  {
  }

  lemma Pack16(b0: u8, b1: u8)
    ensures High16(Promote16(b0, b1)) == [b0, b1]
  {
    var h := Signed8(b0) * 0x100 + b1;
    assert Promote16(b0, b1) / 0x1_0000 == h;
    var word := if h >= 0 then h else h + 0x1_0000;
    assert word == b0 * 0x100 + b1;
  }

  lemma Pack32(b0: u8, b1: u8, b2: u8, b3: u8)
    ensures BeBytes(Promote32(b0, b1, b2, b3)) == [b0, b1, b2, b3]
  {
    var s: int := Promote32(b0, b1, b2, b3);
    WordBytes(if s >= 0 then s else s + 0x1_0000_0000, b0, b1, b2, b3);
  }

  lemma WordBytes(word: u32, b0: u8, b1: u8, b2: u8, b3: u8)
    requires word == b0 * 0x100_0000 + b1 * 0x1_0000 + b2 * 0x100 + b3
    ensures Be32(word) == [b0, b1, b2, b3]
  {
    assert word / 0x1_0000 == b0 * 0x100 + b1;
  }

  lemma PackPromote(b: Bytes, width: nat)
    requires Carried(width) && width <= |b|
    ensures Pack(Promote(b, width), width) == b[..width]
  {
    hide High16, BeBytes, Signed8;
    if width == 2 {
      Pack16(b[0], b[1]);
    } else if width == 3 {
      Pack32(b[0], b[1], b[2], 0);
    } else {
      Pack32(b[0], b[1], b[2], b[3]);
    }
  }

  lemma Unpack16(s: Sample)
    ensures |High16(s)| == 2 && Promote16(High16(s)[0], High16(s)[1]) == s / 0x1_0000 * 0x1_0000
  {
  }

  lemma Unpack32(s: Sample, word: u32)
    requires word == if s >= 0 then s else s + 0x1_0000_0000
    ensures var b := Be32(word); |b| == 4 && Promote32(b[0], b[1], b[2], b[3]) == s
  {
    var hi, lo := word / 0x1_0000, word % 0x1_0000;
    assert Be32(word) == [hi / 0x100, hi % 0x100, lo / 0x100, lo % 0x100];
  }

  lemma DropLow(b0: u8, b1: u8, b2: u8, b3: u8)
    ensures Promote24(b0, b1, b2) == Promote32(b0, b1, b2, b3) / 0x100 * 0x100
  {
  }

  lemma PromotePack(s: Sample, width: nat, rest: Bytes)
    requires Carried(width)
    ensures |Pack(s, width)| == width
    ensures Promote(Pack(s, width) + rest, width) == Cleared(s, width)
  {
    Unpack16(s);
    Unpack32(s, if s >= 0 then s else s + 0x1_0000_0000);
    var b := BeBytes(s);
    DropLow(b[0], b[1], b[2], b[3]);
    hide High16, Promote16, Promote24, Promote32, Be32;
  }

  // ---- runs of samples ----

  /** The first n samples of b. */
  function Samples(b: Bytes, width: nat, n: nat): seq<Sample>
    requires n * width <= |b|
    decreases n
  {
    if n == 0 then []
    else
      Smaller(n, width);
      [Promote(b, width)] + Samples(b[width..], width, n - 1)
  }

  lemma Smaller(n: nat, width: nat)
    requires n > 0
    ensures n * width == width + (n - 1) * width && (n - 1) * width >= 0
  {
  }

  function Packed(samples: seq<Sample>, width: nat): Bytes {
    if samples == [] then [] else Pack(samples[0], width) + Packed(samples[1..], width)
  }

  lemma {:induction false} SamplesSplit(b: Bytes, width: nat, m: nat, n: nat)
    requires (m + n) * width <= |b|
    ensures 0 <= m * width <= |b| && n * width <= |b[m * width..]|
    ensures Samples(b, width, m + n) == Samples(b, width, m) + Samples(b[m * width..], width, n)
    decreases m
  {
    Distribute(m, n, width);
    if m > 0 {
      Smaller(m, width);
      Smaller(m + n, width);
      SamplesSplit(b[width..], width, m - 1, n);
      assert b[width..][(m - 1) * width..] == b[m * width..];
    }
  }

  lemma Distribute(m: nat, n: nat, width: nat)
    ensures (m + n) * width == m * width + n * width && m * width >= 0 && n * width >= 0
  {
  }

  lemma {:induction false} PackedSplit(a: seq<Sample>, b: seq<Sample>, width: nat)
    ensures Packed(a + b, width) == Packed(a, width) + Packed(b, width)
  {
    if a == [] {
      assert a + b == b;
    } else {
      assert (a + b)[1..] == a[1..] + b;
      PackedSplit(a[1..], b, width);
    }
  }

  // ---- whole frames ----

  /** Samples in the whole frames of `bytes`. */
  function WholeSamples(bytes: nat, nchan: nat, width: nat): (n: nat)
    requires nchan > 0 && width > 0
    ensures 0 <= n * width <= bytes
  {
    WholeFramesFit(bytes, nchan, width);
    bytes / (nchan * width) * nchan
  }

  lemma WholeFramesFit(bytes: nat, nchan: nat, width: nat)
    requires nchan > 0 && width > 0
    ensures nchan * width > 0 && 0 <= bytes / (nchan * width) * nchan * width <= bytes
  {
    var stride, frames := nchan * width, bytes / (nchan * width);
    assert frames * stride <= bytes;
    assert frames * nchan * width == frames * stride;
  }

  function Promoted(bytes: Bytes, nchan: nat, width: nat): seq<Sample> {
    if nchan == 0 || width == 0 then [] else Samples(bytes, width, WholeSamples(|bytes|, nchan, width))
  }

  function Whole(n: nat, nchan: nat): (w: nat)
    requires nchan > 0
    ensures w <= n
  {
    n / nchan * nchan
  }

  function Encoded(samples: seq<Sample>, nchan: nat, width: nat): Bytes {
    if nchan == 0 then [] else Packed(samples[..Whole(|samples|, nchan)], width)
  }

  // ---- the loops ----

  method PromoteFrame(bytes: Bytes, base: nat, nchan: nat, width: nat, before: seq<Sample>) returns (out: seq<Sample>)
    requires base <= |bytes| && nchan * width <= |bytes| - base
    ensures out == before + Samples(bytes[base..], width, nchan)
  {
    out := before;
    assert bytes[base..][0 * width..] == bytes[base..];
    for ch := 0 to nchan
      invariant ch * width + (nchan - ch) * width <= |bytes| - base && ch * width >= 0 && (nchan - ch) * width >= 0
      invariant out + Samples(bytes[base + ch * width..], width, nchan - ch)
        == before + Samples(bytes[base..], width, nchan)
    {
      var i := base + ch * width;
      ghost var left := bytes[i..];
      Smaller(nchan - ch, width);
      Distribute(ch, 1, width);
      assert left[width..] == bytes[i + width..];
      var s := Promote(bytes[i..], width);
      out := out + [s];
    }
  }

  method PromoteInterleaved(bytes: Bytes, nchan: nat, width: nat) returns (out: seq<Sample>)
    ensures out == Promoted(bytes, nchan, width)
  {
    if nchan == 0 || width == 0 {
      return [];
    }
    var stride := nchan * width;
    WholeFramesFit(|bytes|, nchan, width);
    var frames := |bytes| / stride;
    out := [];
    for f := 0 to frames
      invariant f * nchan * width <= |bytes| && f * nchan >= 0
      invariant out == Samples(bytes, width, f * nchan)
    {
      FrameFits(f, frames, nchan, width, |bytes|);
      SamplesSplit(bytes, width, f * nchan, nchan);
      out := PromoteFrame(bytes, f * stride, nchan, width, out);
    }
  }

  lemma Assoc(a: nat, b: nat, c: nat)
    ensures a * b * c == a * (b * c) && a * b >= 0 && b * c >= 0 && a * (b * c) >= 0
  {
  }

  lemma FrameFits(f: nat, frames: nat, nchan: nat, width: nat, limit: nat)
    requires f < frames && frames * nchan * width <= limit
    ensures (f * nchan + nchan) * width <= limit && (f + 1) * nchan == f * nchan + nchan
    ensures f * (nchan * width) == f * nchan * width && f * nchan * width + nchan * width <= limit
    ensures f * nchan >= 0 && f * nchan * width >= 0
  {
    Assoc(frames, nchan, width);
    Assoc(f, nchan, width);
    Assoc(f + 1, nchan, width);
    MulMonotone(f + 1, frames, nchan * width);
    Distribute(f, 1, nchan);
    Distribute(f * nchan, nchan, width);
  }

  /** Appending the bytes of one sample. */
  method PackSample(s: Sample, width: nat, before: Bytes) returns (out: Bytes)
    ensures out == before + Pack(s, width)
  {
    out := before;
    if width == 2 {
      out := out + High16(s);
    } else if width == 3 {
      var b := BeBytes(s);
      out := out + b[..3];
    } else if width == 4 {
      out := out + BeBytes(s);
    }
  }

  lemma {:induction false} PackedRun(samples: seq<Sample>, from: nat, mid: nat, to: nat, width: nat)
    requires from <= mid <= to <= |samples|
    ensures Packed(samples[from..to], width) == Packed(samples[from..mid], width) + Packed(samples[mid..to], width)
  {
    PackedSplit(samples[from..mid], samples[mid..to], width);
    assert samples[from..to] == samples[from..mid] + samples[mid..to];
  }

  lemma {:induction false} PackedOne(samples: seq<Sample>, i: nat, width: nat)
    requires i < |samples|
    ensures Packed(samples[i..i + 1], width) == Pack(samples[i], width)
  {
    hide Pack;
    assert samples[i..i + 1] == [samples[i]];
    assert Packed([samples[i]], width) == Pack(samples[i], width) + Packed([], width);
  }

  method EncodeFrame(samples: seq<Sample>, base: nat, nchan: nat, width: nat, before: Bytes) returns (out: Bytes)
    requires base + nchan <= |samples|
    ensures out == before + Packed(samples[base..base + nchan], width)
  {
    hide Pack;
    out := before;
    for ch := 0 to nchan
      invariant out == before + Packed(samples[base..base + ch], width)
    {
      PackedRun(samples, base, base + ch, base + ch + 1, width);
      PackedOne(samples, base + ch, width);
      out := PackSample(samples[base + ch], width, out);
    }
  }

  method EncodeInterleaved(samples: seq<Sample>, nchan: nat, width: nat) returns (out: Bytes)
    ensures out == Encoded(samples, nchan, width)
  {
    if nchan == 0 {
      return [];
    }
    var frames := |samples| / nchan;
    out := [];
    hide Packed;
    NonePacked(samples, width);
    for f := 0 to frames
      invariant 0 <= f * nchan <= |samples|
      invariant out == Packed(samples[0..f * nchan], width)
    {
      FrameFits(f, frames, nchan, 1, Whole(|samples|, nchan));
      PackedRun(samples, 0, f * nchan, f * nchan + nchan, width);
      out := EncodeFrame(samples, f * nchan, nchan, width, out);
    }
  }

  lemma NonePacked(samples: seq<Sample>, width: nat)
    ensures Packed(samples[0..0], width) == []
  {
  }

  // ---- round trips ----

  lemma {:induction false} PackedSamples(b: Bytes, width: nat, n: nat)
    requires Carried(width) && n * width <= |b|
    ensures n * width >= 0 && Packed(Samples(b, width, n), width) == b[..n * width]
    ensures |Samples(b, width, n)| == n
    decreases n
  {
    if n > 0 {
      Smaller(n, width);
      PackPromote(b, width);
      PackedSamples(b[width..], width, n - 1);
      assert b[..n * width] == b[..width] + b[width..][..(n - 1) * width];
    }
  }

  lemma {:induction false} SamplesPacked(samples: seq<Sample>, width: nat)
    requires Carried(width)
    ensures |Packed(samples, width)| == |samples| * width
    ensures Samples(Packed(samples, width), width, |samples|)
      == seq(|samples|, i requires 0 <= i < |samples| => Cleared(samples[i], width))
  {
    if samples != [] {
      var rest := Packed(samples[1..], width);
      Smaller(|samples|, width);
      PromotePack(samples[0], width, rest);
      SamplesPacked(samples[1..], width);
      assert (Pack(samples[0], width) + rest)[width..] == rest;
    }
  }

  lemma DivMul(q: nat, d: nat)
    requires d > 0
    ensures q * d >= 0 && q * d / d == q
  {
    MulMonotone(0, q, d);
    RemainderIs(q * d, d, q, 0);
  }

  lemma WholeTwice(frames: nat, nchan: nat)
    requires nchan > 0
    ensures frames * nchan >= 0 && Whole(frames * nchan, nchan) == frames * nchan
  {
    DivMul(frames, nchan);
  }

  lemma WholeAgain(bytes: nat, nchan: nat, width: nat)
    requires nchan > 0 && width > 0
    ensures Whole(WholeSamples(bytes, nchan, width), nchan) == WholeSamples(bytes, nchan, width)
  {
    WholeTwice(bytes / (nchan * width), nchan);
    hide Whole;
  }

  /** Encoding what was promoted gives back the whole frames, byte for byte. */
  lemma {:induction false} EncodePromoted(bytes: Bytes, nchan: nat, width: nat)
    requires Carried(width) && nchan > 0
    ensures Encoded(Promoted(bytes, nchan, width), nchan, width)
      == bytes[..WholeSamples(|bytes|, nchan, width) * width]
  {
    var n := WholeSamples(|bytes|, nchan, width);
    PackedSamples(bytes, width, n);
    WholeAgain(|bytes|, nchan, width);
    var samples := Samples(bytes, width, n);
    hide Samples, Packed, Whole, WholeSamples;
    assert samples[..n] == samples;
  }

  /** Promoting what was encoded gives back the whole frames, with the bits that do not fit cleared. */
  lemma {:induction false} PromoteEncoded(samples: seq<Sample>, nchan: nat, width: nat)
    requires Carried(width) && nchan > 0
    ensures var n := Whole(|samples|, nchan);
      Promoted(Encoded(samples, nchan, width), nchan, width)
        == seq(n, i requires 0 <= i < n => Cleared(samples[i], width))
  {
    var n := Whole(|samples|, nchan);
    SamplesPacked(samples[..n], width);
    WholeOfFrames(|samples| / nchan, nchan, width);
    hide Samples, Packed, Cleared;
  }

  lemma WholeOfFrames(frames: nat, nchan: nat, width: nat)
    requires nchan > 0 && width > 0
    ensures frames * nchan >= 0 && frames * nchan * width >= 0
    ensures WholeSamples(frames * nchan * width, nchan, width) == frames * nchan
  {
    Assoc(frames, nchan, width);
    WholeFramesFit(frames * nchan * width, nchan, width);
    DivMul(frames, nchan * width);
  }

  // ---- the numbers, by the positions of the bytes ----

  /** A sample is the number its bytes stand for, the most significant byte first, moved to the top of 32 bits. */
  lemma {:induction false} PromoteMeans(b: Bytes, width: nat)
    requires width <= |b|
    ensures width == 2 ==> (Promote(b, width) - HalfAt(b, 0) * 0x1_0000) % 0x1_0000_0000 == 0
    ensures width == 3 ==> (Promote(b, width) - (HalfAt(b, 0) * 0x1_0000 + Byte(b, 2) * 0x100)) % 0x1_0000_0000 == 0
    ensures width == 4 ==> (Promote(b, width) - WordAt(b, 0)) % 0x1_0000_0000 == 0
    ensures !(2 <= width <= 4) ==> Promote(b, width) == 0
  {
  }

  ghost function Byte(b: Bytes, i: nat): int
    requires i < |b|
  {
    b[i]
  }

  lemma {:induction false} SamplesAt(b: Bytes, width: nat, n: nat, i: nat)
    requires n * width <= |b| && i < n
    ensures |Samples(b, width, n)| == n && 0 <= i * width && i * width + width <= |b|
    ensures Samples(b, width, n)[i] == Promote(b[i * width..], width)
    decreases n
  {
    Smaller(n, width);
    var rest := b[width..];
    assert Samples(b, width, n) == [Promote(b, width)] + Samples(rest, width, n - 1);
    hide Promote, Samples;
    if i > 0 {
      var m := (i - 1) * width;
      Smaller(i, width);
      SamplesAt(rest, width, n - 1, i - 1);
      DropTwice(b, width, m);
      assert b[i * width..] == rest[m..];
    } else {
      assert b[0 * width..] == b;
      if n > 1 {
        SamplesAt(rest, width, n - 1, 0);
      } else {
        NoSamples(rest, width);
      }
    }
  }

  lemma NoSamples(b: Bytes, width: nat)
    ensures Samples(b, width, 0) == []
  {
  }

  lemma DropTwice(b: Bytes, m: nat, n: nat)
    requires m + n <= |b|
    ensures b[m..][n..] == b[m + n..]
  {
  }

  /** As many samples as the whole frames have, and the i-th one from the i-th group of bytes. */
  lemma {:induction false} PromotedAt(bytes: Bytes, nchan: nat, width: nat, i: nat)
    requires nchan > 0 && width > 0
    ensures var n := |Promoted(bytes, nchan, width)|;
      && n == |bytes| / (nchan * width) * nchan
      && (i < n ==> && 0 <= i * width && i * width + width <= |bytes|
                    && Promoted(bytes, nchan, width)[i] == Promote(bytes[i * width..], width))
  {
    var n := WholeSamples(|bytes|, nchan, width);
    if i < n {
      SamplesAt(bytes, width, n, i);
    } else if n > 0 {
      SamplesAt(bytes, width, n, 0);
    }
    hide Promote;
  }
}

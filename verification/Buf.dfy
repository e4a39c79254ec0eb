/** The growing byte buffer every encoder writes to, and strings read back by offset. */
module Buf {
  import opened Machine
  import opened Bytes

  function Zeros(n: nat): (z: Bytes)
    ensures |z| == n && forall i :: 0 <= i < n ==> z[i] == 0
  {
    seq(n, _ => 0)
  }

  /** b with the two bytes at position i replaced. */
  function Patched(b: Bytes, i: nat, v: u16): (p: Bytes)
    requires i + 2 <= |b|
    ensures |p| == |b| && U16At(p, i) == v
    ensures forall k :: 0 <= k < |b| && k != i && k != i + 1 ==> p[k] == b[k]
  {
    b[i := v / 0x100][i + 1 := v % 0x100]
  }

  /** Patching a two-byte placeholder is the same as having written the value there. */
  lemma PatchSlot(front: Bytes, back: Bytes, v: u16)
    ensures Patched(front + Be16(0) + back, |front|, v) == front + Be16(v) + back
  {
  }

  /** A `Vec<u8>` that is appended to and patched in place. */
  class BeWriter {
    var inner: Bytes

    constructor ()
      ensures inner == []
    {
      inner := [];
    }

    function Len(): nat
      reads this
    {
      |inner|
    }

    method PutU8(v: u8)
      modifies this
      ensures inner == old(inner) + [v]
    {
      inner := inner + [v];
    }

    method PutU16(v: u16)
      modifies this
      ensures inner == old(inner) + Be16(v)
    {
      inner := inner + Be16(v);
    }

    method PutU32(v: u32)
      modifies this
      ensures inner == old(inner) + Be32(v)
    {
      inner := inner + Be32(v);
    }

    method PutBytes(b: Bytes)
      modifies this
      ensures inner == old(inner) + b
    {
      inner := inner + b;
    }

    method PutCStr(s: Bytes)
      modifies this
      ensures inner == old(inner) + s + [0]
    {
      PutBytes(s);
      PutU8(0);
    }

    method PutZeros(n: nat)
      modifies this
      ensures inner == old(inner) + Zeros(n)
    {
      inner := inner + Zeros(n);
    }

    method PatchU16(i: nat, v: u16)
      requires i + 2 <= |inner|
      modifies this
      ensures inner == Patched(old(inner), i, v)
    {
      inner := inner[i := v / 0x100];
      inner := inner[i + 1 := v % 0x100];
    }
  }

  /** A cursor over received bytes. */
  class BeSlice {
    const inner: Bytes
    var pos: nat

    constructor (inner: Bytes)
      ensures this.inner == inner && pos == 0
    {
      this.inner := inner;
      pos := 0;
    }

    method TakeU8() returns (v: Option<u8>)
      requires pos <= |inner|
      modifies this
      ensures v.Some? <==> old(pos) + 1 <= |inner|
      ensures v.Some? ==> v.value == inner[old(pos)] && pos == old(pos) + 1
      ensures v.None? ==> pos == old(pos)
    {
      if pos >= |inner| {
        return None;
      }
      v := Some(inner[pos]);
      pos := pos + 1;
    }

    method TakeU32() returns (v: Option<u32>)
      requires pos <= |inner|
      modifies this
      ensures v.Some? <==> old(pos) + 4 <= |inner|
      ensures v.Some? ==> v.value == U32At(inner, old(pos)) && pos == old(pos) + 4
      ensures v.None? ==> pos == old(pos)
    {
      if |inner| - pos < 4 {
        return None;
      }
      v := Some(U32At(inner, pos));
      pos := pos + 4;
    }

    method TakeU16() returns (v: Option<u16>)
      requires pos <= |inner|
      modifies this
      ensures v.Some? <==> old(pos) + 2 <= |inner|
      ensures v.Some? ==> v.value == U16At(inner, old(pos)) && pos == old(pos) + 2
      ensures v.None? ==> pos == old(pos)
    {
      if |inner| - pos < 2 {
        return None;
      }
      v := Some(U16At(inner, pos));
      pos := pos + 2;
    }
  }

  // ---- NUL-terminated strings by offset ----

  /** The string at a packet-relative offset; offset 0 means there is none. */
  function CStrAt(packet: Bytes, offset: u16): Option<Text> {
    if offset == 0 || offset >= |packet| then None
    else
      var n := IndexOf(packet[offset..], 0);
      if offset + n == |packet| || !ValidUtf8(packet[offset..offset + n]) then None
      else Some(packet[offset..offset + n])
  }

  ghost predicate NulFree(s: Bytes) { forall i :: 0 <= i < |s| ==> s[i] != 0 }

  /** A NUL-free string and its terminator, written anywhere but at offset 0, are found by their offset. */
  lemma CStrReads(packet: Bytes, offset: u16, s: Text)
    requires offset != 0 && NulFree(s) && At(packet, offset, s + [0])
    ensures CStrAt(packet, offset) == Some(s)
  {
    AtConcat(packet, offset, s, [0]);
    AtByte(packet, offset + |s|, [0], 0);
    var n := IndexOf(packet[offset..], 0);
    assert packet[offset..][|s|] == 0;
    forall i | 0 <= i < |s|
      ensures packet[offset..][i] != 0
    {
      AtByte(packet, offset, s, i);
    }
    assert n == |s|;
  }
}

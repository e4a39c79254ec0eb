/** Fixed-width machine integers as ranges of `int`, with casts and wrap-around written out. */
module Machine {

  const TWO_63: int := 0x8000_0000_0000_0000
  const TWO_64: int := 0x1_0000_0000_0000_0000

  type u8 = x: int | 0 <= x < 0x100
  type u16 = x: int | 0 <= x < 0x1_0000
  type u32 = x: int | 0 <= x < 0x1_0000_0000
  type u64 = x: int | 0 <= x < 0x1_0000_0000_0000_0000
  type i32 = x: int | -0x8000_0000 <= x < 0x8000_0000
  type i64 = x: int | -0x8000_0000_0000_0000 <= x < 0x8000_0000_0000_0000

  /** A left-justified PCM sample. */
  type Sample = i32

  datatype Option<+T> = None | Some(value: T)

  function Abs(x: int): nat { if x < 0 then -x else x }

  function AbsReal(x: real): real { if x < 0.0 then -x else x }

  function Min(a: int, b: int): int { if a < b then a else b }

  function Max(a: int, b: int): int { if a < b then b else a }

  /** The low 64 bits of any integer. */
  function WrapU64(x: int): u64 { x % TWO_64 }

  /** `a as i64` and `a as u64`: the same 64 bits, read the other way. */
  function AsI64(a: u64): i64 { if a < TWO_63 then a else a - TWO_64 }

  function AsU64(a: i64): u64 { if a >= 0 then a else a + TWO_64 }

  /** `wrapping_add` and `wrapping_sub`, on u64 and on i64. */
  function AddU64(a: u64, b: u64): u64 { if a + b < TWO_64 then a + b else a + b - TWO_64 }

  function SubU64(a: u64, b: u64): u64 { if a >= b then a - b else a - b + TWO_64 }

  function AddI64(a: i64, b: i64): i64 {
    if a + b >= TWO_63 then a + b - TWO_64 else if a + b < -TWO_63 then a + b + TWO_64 else a + b
  }

  function SubI64(a: i64, b: i64): i64 {
    if a - b >= TWO_63 then a - b - TWO_64 else if a - b < -TWO_63 then a - b + TWO_64 else a - b
  }

  /** `(a as i64).wrapping_sub(b as i64)`. */
  function DiffI64(a: u64, b: u64): i64 { SubI64(AsI64(a), AsI64(b)) }

  /** `(a as i64).wrapping_add(b) as u64`. */
  function ShiftU64(a: u64, b: i64): u64 { AsU64(AddI64(AsI64(a), b)) }

  lemma WrapMeans(x: int)
    ensures (x - WrapU64(x)) % 0x1_0000_0000_0000_0000 == 0
  {
  }

  /** The conditionals above compute the low 64 bits. */
  lemma WrappingIsModular(a: u64, b: u64)
    ensures AddU64(a, b) == WrapU64(a + b)
    ensures SubU64(a, b) == WrapU64(a - b)
  {
  }

  /** Wrapping changes a number by whole turns of 2^64 only. */
  lemma TurnsDiff(a: u64, b: u64) returns (k: int)
    ensures DiffI64(a, b) == a - b + k * TWO_64
    ensures Abs(k) <= 2
  {
    k := if DiffI64(a, b) == a - b then 0 else if DiffI64(a, b) == a - b + TWO_64 then 1 else -1;
  }

  lemma TurnsShift(a: u64, b: i64) returns (k: int)
    ensures ShiftU64(a, b) == a + b + k * TWO_64
    ensures Abs(k) <= 2
  {
    k := if ShiftU64(a, b) == a + b then 0 else if ShiftU64(a, b) == a + b + TWO_64 then 1 else -1;
  }

  /** Shifting by the difference leads to the target. */
  lemma ShiftByDiff(a: u64, b: u64)
    ensures ShiftU64(b, DiffI64(a, b)) == a
  {
  }

  /** A number of whole turns between two words does not change the low 64 bits. */
  lemma SameWord(x: int, y: int, k: int)
    requires x == y + k * TWO_64
    ensures WrapU64(x) == WrapU64(y)
  {
  }

  lemma SmallWord(x: u64)
    ensures WrapU64(x) == x
  {
  }

  lemma WrapChain(base: u64, a: int, b: int)
    ensures WrapU64(WrapU64(base + a) + b) == WrapU64(base + (a + b))
  {
  }

  lemma MulMonotone(a: nat, b: nat, n: nat)
    requires a <= b
    ensures a * n <= b * n
  {
  }
}

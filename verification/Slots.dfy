/** Power-of-two arithmetic behind the ring's `pos & mask` slots. */
module Slots {
  import opened Machine

  predicate PowerOfTwo(n: nat) { n == 1 || (n > 1 && n % 2 == 0 && PowerOfTwo(n / 2)) }

  /** `usize::next_power_of_two`. */
  function NextPowerOfTwo(n: nat): (p: nat)
    ensures PowerOfTwo(p) && n <= p
    ensures p == 1 || p < 2 * n
  {
    if n <= 1 then 1 else 2 * NextPowerOfTwo((n + 1) / 2)
  }

  /** `a & b` on unsigned integers, bit by bit. */
  function BitAnd(a: nat, b: nat): nat {
    if a == 0 || b == 0 then 0 else 2 * BitAnd(a / 2, b / 2) + (a % 2) * (b % 2)
  }

  /** Masking with a power of two minus one is the remainder. */
  lemma {:induction false} MaskIsRemainder(a: nat, n: nat)
    requires PowerOfTwo(n)
    ensures BitAnd(a, n - 1) == a % n
    decreases n
  {
    if n > 1 {
      var m := n / 2;
      MaskIsRemainder(a / 2, m);
      assert (n - 1) / 2 == m - 1 && (n - 1) % 2 == 1;
      HalfRemainder(a, m);
    }
  }

  lemma HalfRemainder(a: nat, m: nat)
    requires m > 0
    ensures a % (2 * m) == 2 * ((a / 2) % m) + a % 2
  {
    var q, r := (a / 2) / m, (a / 2) % m;
    assert a / 2 == q * m + r;
    assert a == q * (2 * m) + (2 * r + a % 2) by {
      assert a == 2 * (a / 2) + a % 2;
    }
    RemainderIs(a, 2 * m, q, 2 * r + a % 2);
  }

  lemma NoTurn(d: int, n: int)
    requires n > 0
    ensures d >= 1 ==> d * n >= n
    ensures d <= -1 ==> d * n <= -n
  {
  }

  lemma RemainderIs(a: int, n: nat, q: int, r: int)
    requires n > 0 && a == q * n + r && 0 <= r < n
    ensures a % n == r && a / n == q
  {
    var d := a / n - q;
    assert a == (a / n) * n + a % n;
    assert d * n == r - a % n;
    NoTurn(d, n);
  }

  lemma {:induction false} PowersDivide(a: nat, b: nat)
    requires PowerOfTwo(a) && PowerOfTwo(b) && a <= b
    ensures b % a == 0
    decreases b
  {
    if a == 1 {
    } else if b > 1 {
      PowersDivide(a / 2, b / 2);
      var q := (b / 2) / (a / 2);
      assert b / 2 == q * (a / 2);
      assert b == q * a by {
        assert b == 2 * (b / 2) && a == 2 * (a / 2);
      }
      RemainderIs(b, a, q, 0);
    }
  }

  lemma Sixteenfold(n: nat)
    requires PowerOfTwo(n)
    ensures PowerOfTwo(16 * n)
  {
    Double(n);
    Double(2 * n);
    Double(4 * n);
    Double(8 * n);
  }

  lemma Double(n: nat)
    requires PowerOfTwo(n)
    ensures PowerOfTwo(2 * n)
  {
  }

  lemma Times65536(n: nat)
    requires PowerOfTwo(n)
    ensures PowerOfTwo(0x1_0000 * n)
  {
    Sixteenfold(n);
    Sixteenfold(16 * n);
    Sixteenfold(256 * n);
    Sixteenfold(4096 * n);
  }

  lemma WordIsPower()
    ensures PowerOfTwo(TWO_63) && PowerOfTwo(TWO_64)
  {
    Times65536(1);
    Times65536(0x1_0000);
    Times65536(0x1_0000_0000);
    Times65536(0x1_0000_0000_0000);
  }

  /** A u64 position and the unbounded position it stands for share their slot. */
  lemma WrapKeepsSlot(p: int, len: nat)
    requires PowerOfTwo(len) && len <= TWO_64
    ensures WrapU64(p) % len == p % len
  {
    WordIsPower();
    PowersDivide(len, TWO_64);
    RemainderOfRemainder(p, TWO_64, len);
  }

  lemma RemainderOfRemainder(p: int, w: nat, len: nat)
    requires w > 0 && len > 0 && w % len == 0
    ensures (p % w) % len == p % len
  {
    MultipleVanishes(p, p / w, w, p % w, w / len, len);
  }

  lemma MultipleVanishes(p: int, q: int, w: int, s: nat, m: int, len: nat)
    requires len > 0 && p == q * w + s && w == m * len
    ensures p % len == s % len
  {
    assert s == (s / len) * len + s % len;
    assert q * w == (q * m) * len;
    assert (q * m) * len + (s / len) * len == (q * m + s / len) * len;
    RemainderIs(p, len, q * m + s / len, s % len);
  }

  /** Positions less than one ring apart have different slots. */
  lemma SlotsDiffer(p: int, q: int, len: nat)
    requires len > 0 && p % len == q % len && Abs(p - q) < len
    ensures p == q
  {
    assert p == (p / len) * len + p % len;
    assert q == (q / len) * len + q % len;
    var d := p / len - q / len;
    assert p - q == d * len by {
      assert (p / len) * len - (q / len) * len == d * len;
    }
    NoTurn(d, len);
  }
}

/** Machine words: the unsigned types of the source and their wrap-around. */
module MachineWords {

  const TWO8: int := 0x100
  const TWO16: int := 0x1_0000
  const TWO32: int := 0x1_0000_0000
  const TWO64: int := 0x1_0000_0000_0000_0000

  /** The size of a page. */
  const PAGE := 0x1000

  type uint8 = x: int | 0 <= x < TWO8
  type uint16 = x: int | 0 <= x < TWO16
  type uint32 = x: int | 0 <= x < TWO32
  type uint64 = x: int | 0 <= x < TWO64

  /** Conversion of a mathematical integer to an unsigned 64-bit word. */
  function Wrap64(x: int): uint64 {
    x % TWO64
  }

  /** 64-bit addition. */
  function Add64(x: uint64, y: uint64): uint64 {
    if x + y < TWO64 then x + y else x + y - TWO64
  }

  /** 32-bit addition and subtraction. */
  function Add32(x: uint32, y: uint32): uint32 {
    if x + y < TWO32 then x + y else x + y - TWO32
  }

  function Sub32(x: uint32, y: uint32): uint32 {
    if y <= x then x - y else x - y + TWO32
  }

  /** `s++` and `s--` on an unsigned 64-bit counter. */
  function Increment(s: uint64): uint64 {
    if s == TWO64 - 1 then 0 else s + 1
  }

  function Decrement(s: uint64): uint64 {
    if s == 0 then TWO64 - 1 else s - 1
  }

  lemma AtLeastOneMultiple(k: int, d: int)
    requires k >= 1 && d >= 1
    ensures k * d >= d
  {
    assert k * d == (k - 1) * d + d;
  }

  lemma QuotientUnique(d: int, q: int, r: int, q': int, r': int)
    requires 0 <= r < d && 0 <= r' < d && q * d + r == q' * d + r'
    ensures q == q' && r == r'
  {
    assert (q - q') * d == q * d - q' * d == r' - r;
    if q > q' {
      AtLeastOneMultiple(q - q', d);
    } else if q < q' {
      AtLeastOneMultiple(q' - q, d);
    }
  }

  /** A number written as quotient and remainder has that quotient and that remainder. */
  lemma DivMod(q: int, d: int, r: int)
    requires 0 <= r < d
    ensures (q * d + r) / d == q && (q * d + r) % d == r
  {
    var x := q * d + r;
    QuotientUnique(d, q, r, x / d, x % d);
  }

  /** Wrapping addition and subtraction agree with arithmetic modulo 2^32. */
  lemma Add32Wraps(t: nat, c: uint32)
    ensures Add32(t % TWO32, c) == (t + c) % TWO32
  {
    var q, r := t / TWO32, t % TWO32;
    if r + c < TWO32 {
      DivMod(q, TWO32, r + c);
    } else {
      DivMod(q + 1, TWO32, r + c - TWO32);
    }
  }

  lemma Sub32Wraps(t: nat, c: uint32)
    requires c <= t
    ensures Sub32(t % TWO32, c) == (t - c) % TWO32
  {
    var q, r := t / TWO32, t % TWO32;
    if c <= r {
      DivMod(q, TWO32, r - c);
    } else {
      DivMod(q - 1, TWO32, r - c + TWO32);
    }
  }

  /** Bitwise OR. */
  function Or(x: nat, y: nat): nat {
    if x == 0 && y == 0 then 0
    else (if x % 2 == 1 || y % 2 == 1 then 1 else 0) + 2 * Or(x / 2, y / 2)
  }

  function Pow2(k: nat): nat {
    if k == 0 then 1 else 2 * Pow2(k - 1)
  }

  lemma {:induction false} OrZero(x: nat)
    ensures Or(x, 0) == x && Or(0, x) == x
  {
    if x > 0 {
      OrZero(x / 2);
    }
  }

  lemma {:induction false} OrSymmetric(x: nat, y: nat)
    ensures Or(x, y) == Or(y, x)
  {
    if x > 0 || y > 0 {
      OrSymmetric(x / 2, y / 2);
    }
  }

  /** The bits from bit `k` on are those of the first operand if the second has none there. */
  lemma {:induction false} OrSplits(q: nat, k: nat, a: nat, b: nat)
    requires a < Pow2(k) && b < Pow2(k)
    ensures q * Pow2(k) >= 0 && Or(q * Pow2(k) + a, b) == q * Pow2(k) + Or(a, b)
  {
    if k == 0 {
      OrZero(q);
    } else {
      var half := q * Pow2(k - 1);
      assert q * Pow2(k) == 2 * half;
      OrSplits(q, k - 1, a / 2, b / 2);
      assert (2 * half + a) / 2 == half + a / 2 && (2 * half + a) % 2 == a % 2;
      assert a == 0 && b == 0 ==> Or(half, 0) == half;
    }
  }
}

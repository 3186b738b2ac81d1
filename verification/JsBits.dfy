/** The bitwise operators of JavaScript, which work on 32 bits. */
module JsBits {
  function Pow2(n: nat): (p: nat)
    ensures p > 0
  {
    if n == 0 then 1 else 2 * Pow2(n - 1)
  }

  lemma Pow2Values()
    ensures Pow2(0) == 1 && Pow2(1) == 2 && Pow2(2) == 4 && Pow2(3) == 8 && Pow2(4) == 16 && Pow2(5) == 32
    ensures Pow2(6) == 64 && Pow2(7) == 128 && Pow2(8) == 256 && Pow2(9) == 512 && Pow2(10) == 1024
    ensures Pow2(11) == 2048 && Pow2(12) == 4096
  {
    assert Pow2(3) == 8;
    assert Pow2(6) == 64;
    assert Pow2(9) == 512;
  }

  // ---- Conversions -----------------------------------------------------------------------------------

  const TWO32: int := 0x1_0000_0000

  function ToUint32(x: int): int { x % TWO32 }

  function ToInt32(x: int): int {
    if ToUint32(x) < TWO32 / 2 then ToUint32(x) else ToUint32(x) - TWO32
  }

  lemma Wrapped(x: int) returns (t: int)
    ensures ToInt32(x) == x - TWO32 * t
  {
    t := x / TWO32 + (if ToUint32(x) < TWO32 / 2 then 0 else 1);
  }

  // ---- Bit by bit --------------------------------------------------------------------------------------

  /** The bits that both have. */
  function And(x: nat, y: nat): (r: nat)
    ensures r <= x && r <= y
  {
    if x == 0 || y == 0 then 0 else 2 * And(x / 2, y / 2) + (if x % 2 == 1 && y % 2 == 1 then 1 else 0)
  }

  /** The bits that one of them has. */
  function Or(x: nat, y: nat): nat
    decreases x + y
  {
    if x == 0 && y == 0 then 0 else 2 * Or(x / 2, y / 2) + (if x % 2 == 1 || y % 2 == 1 then 1 else 0)
  }

  /** Masking with n ones leaves what lies below the n-th power of two. */
  lemma {:induction false} AndLow(x: nat, n: nat) returns (q: nat)
    ensures var p := Pow2(n); And(x, p - 1) < p && x == p * q + And(x, p - 1)
  {
    if n == 0 {
      q := x;
    } else {
      var p := Pow2(n - 1);
      q := AndLow(x / 2, n - 1);
      AndBit(x, p);
      Doubled(x, p, q, And(x / 2, p - 1));
    }
  }

  lemma AndBit(x: nat, p: nat)
    requires p > 0
    ensures And(x, 2 * p - 1) == 2 * And(x / 2, p - 1) + x % 2
  {
    assert (2 * p - 1) / 2 == p - 1 && (2 * p - 1) % 2 == 1;
  }

  lemma Doubled(x: nat, p: nat, q: nat, y: nat)
    requires x / 2 == p * q + y
    ensures x == (2 * p) * q + (2 * y + x % 2)
  {
    assert (2 * p) * q == 2 * (p * q);
  }

  lemma {:induction false} OrZero(x: nat)
    ensures Or(x, 0) == x
  {
    if x > 0 {
      OrZero(x / 2);
    }
  }

  /** Numbers without a common bit: the lower n bits of the first are empty. */
  lemma {:induction false} OrBelow(x: nat, n: nat, y: nat)
    requires y < Pow2(n)
    ensures Or(x * Pow2(n), y) == x * Pow2(n) + y
  {
    if n == 0 {
      OrZero(x);
    } else {
      var z := x * Pow2(n - 1);
      assert x * Pow2(n) == 2 * z;
      OrBelow(x, n - 1, y / 2);
      assert Or(2 * z, y) == 2 * Or(z, y / 2) + y % 2;
    }
  }

  lemma Powers()
    ensures Pow2(4) == 16 && Pow2(7) == 128 && Pow2(8) == 256
    ensures Pow2(16) == 0x1_0000 && Pow2(24) == 0x100_0000
  {
    Pow2Values();
    assert Pow2(16) == 16 * Pow2(12);
    assert Pow2(20) == 16 * Pow2(16);
    assert Pow2(24) == 16 * Pow2(20);
  }

  lemma LowBits(x: nat, n: nat, p: nat)
    requires p == Pow2(n)
    ensures And(x, p - 1) == x % p
  {
    var q := AndLow(x, n);
    Remainder(x, p, q, And(x, p - 1));
  }

  lemma LowEight(b: nat)
    ensures And(b, 0xff) == b % 256
  {
    Powers();
    LowBits(b, 8, 256);
  }

  // ---- The operators on any integers -----------------------------------------------------------------

  /** `x & y`. */
  function AndInt(x: int, y: int): int { ToInt32(And(ToUint32(x), ToUint32(y))) }

  /** `x | y`. */
  function OrInt(x: int, y: int): int { ToInt32(Or(ToUint32(x), ToUint32(y))) }

  /** `x << n`. */
  function ShiftLeft(x: int, n: nat): int { ToInt32(x * Pow2(n)) }

  /** `x >> n`, which rounds down. */
  function ShiftRight(x: int, n: nat): int { ToInt32(x) / Pow2(n) }

  /** `x >>> n`. */
  function ShiftRightZero(x: int, n: nat): int { ToUint32(x) / Pow2(n) }

  lemma LowByte(x: int)
    ensures AndInt(x, 0xff) == x % 256
  {
    LowEight(ToUint32(x));
    WordRemainder(x, ToUint32(x));
    SmallInt(ToUint32(x) % 256);
    assert ToUint32(0xff) == 0xff;
  }

  lemma WordRemainder(x: int, u: int)
    requires u == x % TWO32
    ensures u % 256 == x % 256
  {
    var q := x / TWO32;
    assert x == TWO32 * q + u;
    assert x == 256 * (0x100_0000 * q + u / 256) + u % 256;
  }

  lemma SmallInt(u: int)
    requires 0 <= u < 256
    ensures ToInt32(u) == u
  {}

  /** The five low bits of the shifted number are free, so the disjunction is a sum. */
  lemma OrShifted(x: int, y: nat)
    requires y < 32
    ensures OrInt(ShiftLeft(x, 5), y) == ToInt32(x * 32) + y
  {
    Pow2Values();
    var u := ToUint32(x * 32);
    FreeBits(x, u);
    OrBelow(u / 32, 5, y);
  }

  lemma FreeBits(x: int, u: nat)
    requires u == ToUint32(x * 32)
    ensures u % 32 == 0 && u / 32 * 32 == u && u + 31 < TWO32 && ToUint32(ToInt32(x * 32)) == u
    ensures u < TWO32 / 2 ==> u + 31 < TWO32 / 2
  {
    var t := x * 32 / TWO32;
    assert x * 32 == TWO32 * t + u;
    assert u == 32 * (x - 0x800_0000 * t);
  }

  // ---- Division ----------------------------------------------------------------------------------------

  lemma Remainder(x: int, d: nat, q: int, r: nat)
    requires r < d && x == d * q + r
    ensures x % d == r && x / d == q
  {
    var q', r' := x / d, x % d;
    Distribute(d, q, q');
    if q > q' {
      AtLeast(d, q - q');
    } else if q < q' {
      AtLeast(d, q' - q);
      Distribute(d, q', q);
    }
  }

  lemma Distribute(d: int, x: int, y: int)
    ensures d * (x - y) == d * x - d * y
  {}

  lemma AtLeast(d: nat, x: nat)
    requires x >= 1
    ensures d * x >= d
  {}
}

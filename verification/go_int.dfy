/**
 * Go's 64-bit integer operations that the tile system relies on, written over
 * Dafny's unbounded integers: two's-complement wrap-around of `int`, division
 * that truncates toward zero, the single-bit mask `1 << k`, the test
 * `x & (1 << k) != 0` and the update `x |= 1 << k`.
 *
 * Go's `int` is taken to be 64 bits wide, as on every 64-bit platform.
 * Bits are numbered from 0 (least significant); bit 63 of an `int` is its sign.
 */
module GoInt {

  const TwoTo63: int := 0x8000_0000_0000_0000
  const TwoTo64: int := 0x1_0000_0000_0000_0000
  /** The most negative `int`, whose only set bit is the sign bit. */
  const MinInt64: int := -0x8000_0000_0000_0000

  /** The values of Go's `int`. */
  type Int64 = x: int | -0x8000_0000_0000_0000 <= x < 0x8000_0000_0000_0000

  /** 2^k */
  function Pow2(k: nat): (r: int)
    ensures r >= 1
  {
    if k == 0 then 1 else 2 * Pow2(k - 1)
  }

  lemma {:induction false} Pow2Add(a: nat, b: nat)
    ensures Pow2(a + b) == Pow2(a) * Pow2(b)
  {
    if a > 0 {
      Pow2Add(a - 1, b);
      assert Pow2(a + b) == 2 * Pow2(a - 1 + b);
    }
  }

  lemma {:induction false} Pow2Monotone(a: nat, b: nat)
    requires a <= b
    ensures Pow2(a) <= Pow2(b)
    ensures a < b ==> 2 * Pow2(a) <= Pow2(b)
  {
    if a < b {
      Pow2Monotone(a, b - 1);
    }
  }

  /** The powers of two that name Go's integer widths and the tile system's sizes. */
  lemma Pow2Constants()
    ensures Pow2(8) == 256
    ensures Pow2(31) == 0x8000_0000
    ensures Pow2(63) == TwoTo63
    ensures Pow2(64) == TwoTo64
  {
    assert Pow2(8) == 256;
    Pow2Add(8, 8);
    Pow2Add(16, 15);
    Pow2Add(16, 16);
    Pow2Add(31, 32);
  }

  /** Division and remainder are determined by the Euclidean equation. */
  lemma DivModUnique(x: int, d: int, q: int, r: int)
    requires d > 0 && 0 <= r < d
    requires x == q * d + r
    ensures x / d == q && x % d == r
  {
    var q0, r0 := x / d, x % d;
    assert x == q0 * d + r0;
    assert (q0 - q) * d == r - r0;
    if q0 < q {
      MulAtLeast(q - q0, d);
      assert false;
    } else if q < q0 {
      MulAtLeast(q0 - q, d);
      assert false;
    }
  }

  lemma MulAtLeast(a: int, d: int)
    requires a >= 1 && d > 0
    ensures a * d >= d
  {
    assert a * d == (a - 1) * d + d;
  }

  /** Adding an even number leaves the parity alone and adds half of it to the half. */
  lemma HalfOfAddEven(a: int, t: int)
    ensures (a + 2 * t) / 2 == a / 2 + t
    ensures (a + 2 * t) % 2 == a % 2
  {
    DivModUnique(a + 2 * t, 2, a / 2 + t, a % 2);
  }

  /** Remainder modulo 2m, split into the low bit and the remainder of the half modulo m. */
  lemma ModDouble(x: int, m: int)
    requires m > 0
    ensures x % (2 * m) == x % 2 + 2 * ((x / 2) % m)
  {
    var h, b := x / 2, x % 2;
    var a, s := h / m, h % m;
    assert x == 2 * h + b;
    assert h == a * m + s;
    assert x == a * (2 * m) + (2 * s + b);
    DivModUnique(x, 2 * m, a, 2 * s + b);
  }

  /** Go's `int` result of an exact value, after 64-bit two's-complement wrap-around. */
  function Wrap64(v: int): (r: Int64)
    ensures (v - r) % TwoTo64 == 0
    ensures -TwoTo63 <= v < TwoTo63 ==> r == v
  {
    Wrap64Facts(v);
    (v + TwoTo63) % TwoTo64 - TwoTo63
  }

  lemma Wrap64Facts(v: int)
    ensures (v - ((v + TwoTo63) % TwoTo64 - TwoTo63)) % TwoTo64 == 0
    ensures -TwoTo63 <= v < TwoTo63 ==> (v + TwoTo63) % TwoTo64 == v + TwoTo63
  {
    var w := (v + TwoTo63) % TwoTo64;
    assert v + TwoTo63 == (v + TwoTo63) / TwoTo64 * TwoTo64 + w;
    DivModUnique(v - (w - TwoTo63), TwoTo64, (v + TwoTo63) / TwoTo64, 0);
    if -TwoTo63 <= v < TwoTo63 {
      DivModUnique(v + TwoTo63, TwoTo64, 0, v + TwoTo63);
    }
  }

  /** Go's `a / b` for a positive divisor: the quotient truncated toward zero. */
  function TruncDiv(a: int, b: int): (q: int)
    requires b > 0
    ensures 0 <= a ==> 0 <= q && b * q <= a < b * q + b
    ensures a < 0 ==> q <= 0 && b * q - b < a <= b * q
  {
    if a >= 0 then a / b else -((-a) / b)
  }

  /** Bit k of x in two's complement, the sign extended to every bit above the width. */
  function TestBit(x: int, k: nat): bool
    decreases k
  {
    if k == 0 then x % 2 == 1 else TestBit(x / 2, k - 1)
  }

  /** The bits of x below position k+1 are bit k followed by the bits below k. */
  lemma {:induction false} ModPow2Split(x: int, k: nat)
    ensures x % Pow2(k + 1) == (if TestBit(x, k) then Pow2(k) else 0) + x % Pow2(k)
    decreases k
  {
    if k == 0 {
    } else {
      ModPow2Split(x / 2, k - 1);
      ModDouble(x, Pow2(k));
      ModDouble(x, Pow2(k - 1));
    }
  }

  lemma {:induction false} TestBitZero(k: nat)
    ensures !TestBit(0, k)
  {
    if k > 0 {
      TestBitZero(k - 1);
    }
  }

  lemma {:induction false} TestBitMinusOne(k: nat)
    ensures TestBit(-1, k)
  {
    if k > 0 {
      TestBitMinusOne(k - 1);
    }
  }

  /** Adding a multiple of 2^n leaves every bit below n unchanged. */
  lemma {:induction false} TestBitAddMultiple(a: int, m: int, n: nat, j: nat)
    requires j < n
    ensures TestBit(a + m * Pow2(n), j) == TestBit(a, j)
    decreases j
  {
    assert m * Pow2(n) == 2 * (m * Pow2(n - 1));
    HalfOfAddEven(a, m * Pow2(n - 1));
    if j > 0 {
      TestBitAddMultiple(a / 2, m, n - 1, j - 1);
    }
  }

  /** Adding 2^k to a number whose bit k is clear sets that bit and no other. */
  lemma {:induction false} AddClearBit(a: int, k: nat)
    requires !TestBit(a, k)
    ensures TestBit(a + Pow2(k), k)
    ensures forall j: nat :: j != k ==> TestBit(a + Pow2(k), j) == TestBit(a, j)
    decreases k
  {
    if k == 0 {
      DivModUnique(a + 1, 2, a / 2, 1);
      forall j: nat | j != k
        ensures TestBit(a + Pow2(k), j) == TestBit(a, j)
      {
      }
    } else {
      HalfOfAddEven(a, Pow2(k - 1));
      AddClearBit(a / 2, k - 1);
      forall j: nat | j != k
        ensures TestBit(a + Pow2(k), j) == TestBit(a, j)
      {
        if j > 0 {
          assert TestBit(a / 2 + Pow2(k - 1), j - 1) == TestBit(a / 2, j - 1);
        }
      }
    }
  }

  /** Setting a clear bit below n of a number below 2^n keeps it below 2^n. */
  lemma {:induction false} AddClearBitBound(a: int, k: nat, n: nat)
    requires k < n && a < Pow2(n)
    requires !TestBit(a, k)
    ensures a + Pow2(k) < Pow2(n)
    decreases k
  {
    var h := a / 2;
    assert a == 2 * h + a % 2;
    assert Pow2(n) == 2 * Pow2(n - 1);
    assert h < Pow2(n - 1);
    if k == 0 {
      assert a % 2 == 0;
    } else {
      assert !TestBit(h, k - 1);
      AddClearBitBound(h, k - 1, n - 1);
      assert Pow2(k) == 2 * Pow2(k - 1);
    }
  }

  /** Among numbers of n+1 bits, bit n is the sign. */
  lemma {:induction false} TestBitSign(x: int, n: nat)
    requires -Pow2(n) <= x < Pow2(n)
    ensures TestBit(x, n) <==> x < 0
    decreases n
  {
    assert x == 2 * (x / 2) + x % 2;
    if n > 0 {
      TestBitSign(x / 2, n - 1);
    }
  }

  /** Numbers of n+1 bits that agree on every one of those bits are equal. */
  lemma {:induction false} BitsDetermine(x: int, y: int, n: nat)
    requires -Pow2(n) <= x < Pow2(n) && -Pow2(n) <= y < Pow2(n)
    requires forall j: nat :: j <= n ==> TestBit(x, j) == TestBit(y, j)
    ensures x == y
    decreases n
  {
    assert x == 2 * (x / 2) + x % 2;
    assert y == 2 * (y / 2) + y % 2;
    assert TestBit(x, 0) == TestBit(y, 0);
    if n > 0 {
      forall j: nat | j <= n - 1
        ensures TestBit(x / 2, j) == TestBit(y / 2, j)
      {
        assert TestBit(x, j + 1) == TestBit(y, j + 1);
      }
      BitsDetermine(x / 2, y / 2, n - 1);
    }
  }

  /** Two Go `int`s are equal exactly when their 64 bits are. */
  lemma Int64Extensional(x: Int64, y: Int64)
    requires forall j: nat :: j < 64 ==> TestBit(x, j) == TestBit(y, j)
    ensures x == y
  {
    Pow2Constants();
    BitsDetermine(x, y, 63);
  }

  /** Go's `1 << k` for an `int` result: bit k alone, where `1 << 63` is the sign
      bit (the most negative `int`) and shifts by 64 or more give 0. */
  function ShiftMask(k: nat): (m: Int64)
    ensures k < 64 ==> TestBit(m, k)
    ensures forall j: nat :: j < 64 && j != k ==> !TestBit(m, j)
    ensures k >= 64 ==> m == 0
  {
    Pow2Constants();
    if k < 63 then
      Pow2Monotone(k, 63);
      SingleBit(k);
      Pow2(k)
    else if k == 63 then
      SignBitOnly();
      MinInt64
    else
      NoBits();
      0
  }

  lemma SingleBit(k: nat)
    ensures TestBit(Pow2(k), k)
    ensures forall j: nat :: j != k ==> !TestBit(Pow2(k), j)
  {
    TestBitZero(k);
    AddClearBit(0, k);
    forall j: nat | j != k
      ensures !TestBit(Pow2(k), j)
    {
      TestBitZero(j);
    }
  }

  lemma SignBitOnly()
    ensures TestBit(MinInt64, 63)
    ensures forall j: nat :: j < 63 ==> !TestBit(MinInt64, j)
  {
    Pow2Constants();
    TestBitSign(MinInt64, 63);
    forall j: nat | j < 63
      ensures !TestBit(MinInt64, j)
    {
      TestBitZero(j);
      TestBitAddMultiple(0, -1, 63, j);
    }
  }

  lemma NoBits()
    ensures forall j: nat :: !TestBit(0, j)
  {
    forall j: nat
      ensures !TestBit(0, j)
    {
      TestBitZero(j);
    }
  }

  /** Go's `x & (1 << k) != 0`: the mask's only bit is bit k, which exists only for k < 64. */
  predicate MaskHit(x: Int64, k: nat)
  {
    k < 64 && TestBit(x, k)
  }

  /** The sign bit is the one `1 << 63` selects. */
  lemma MaskHitSign(x: Int64)
    ensures MaskHit(x, 63) <==> x < 0
  {
    Pow2Constants();
    TestBitSign(x, 63);
  }

  /** Setting a clear bit k with `+ (1 << k)` stays an `int` and changes no other bit. */
  lemma SetClearBit(x: Int64, k: nat)
    requires !MaskHit(x, k)
    ensures -TwoTo63 <= x + ShiftMask(k) < TwoTo63
    ensures k < 64 ==> TestBit(x + ShiftMask(k), k)
    ensures forall j: nat :: j < 64 && j != k ==> TestBit(x + ShiftMask(k), j) == TestBit(x, j)
  {
    Pow2Constants();
    if k < 63 {
      AddClearBit(x, k);
      AddClearBitBound(x, k, 63);
    } else if k == 63 {
      TestBitSign(x, 63);
      TestBitSign(x - TwoTo63, 63);
      forall j: nat | j < 63
        ensures TestBit(x + ShiftMask(k), j) == TestBit(x, j)
      {
        TestBitAddMultiple(x, -1, 63, j);
      }
    }
  }

  /** Go's `x | (1 << k)`: a clear bit k is set by adding the mask, a set one is kept. */
  function OrMask(x: Int64, k: nat): (r: Int64)
    ensures k < 64 ==> MaskHit(r, k)
    ensures forall j: nat :: j < 64 && j != k ==> MaskHit(r, j) == MaskHit(x, j)
    ensures k >= 64 ==> r == x
  {
    if MaskHit(x, k) then x
    else
      SetClearBit(x, k);
      x + ShiftMask(k)
  }
}

/** Powers of two and bitwise operations on naturals, used where the source works on `u8`, `u32` and `u64` words. */
module Bits {
  function Pow2(n: nat): (p: nat)
    ensures p >= 1
  {
    if n == 0 then 1 else 2 * Pow2(n - 1)
  }

  lemma {:induction false} Pow2Add(m: nat, n: nat)
    ensures Pow2(m + n) == Pow2(m) * Pow2(n)
  {
    if m > 0 {
      Pow2Add(m - 1, n);
      assert Pow2(m + n) == 2 * Pow2(m - 1 + n) && Pow2(m) == 2 * Pow2(m - 1);
      hide Pow2;
      DoubleFactor(Pow2(n), Pow2(m - 1));
    }
  }

  lemma {:induction false} Pow2Monotone(m: nat, n: nat)
    requires m <= n
    ensures Pow2(m) <= Pow2(n)
  {
    if m < n {
      Pow2Monotone(m, n - 1);
    }
  }

  lemma Pow2Square(n: nat, p: nat)
    requires Pow2(n) == p
    ensures Pow2(n + n) == p * p
  {
    Pow2Add(n, n);
  }

  lemma Pow2Constants()
    ensures Pow2(7) == 0x80 && Pow2(8) == 0x100 && Pow2(16) == 0x1_0000
    ensures Pow2(32) == 0x1_0000_0000 && Pow2(64) == 0x1_0000_0000_0000_0000
  {
    assert Pow2(8) == 0x100;
    Pow2Square(8, 0x100);
    Pow2Square(16, 0x1_0000);
    Pow2Square(32, 0x1_0000_0000);
  }

  /** Bitwise or of two naturals, bit by bit from the lowest. */
  function BitOr(a: nat, b: nat): nat
    decreases a + b
  {
    if a == 0 && b == 0 then 0
    else 2 * BitOr(a / 2, b / 2) + (if a % 2 == 1 || b % 2 == 1 then 1 else 0)
  }

  lemma {:induction false} BitOrZero(b: nat)
    ensures BitOr(0, b) == b
  {
    if b > 0 {
      BitOrZero(b / 2);
    }
  }

  /** `x << n`, without a width. */
  function ShiftLeft(x: nat, n: nat): nat {
    if n == 0 then x else 2 * ShiftLeft(x, n - 1)
  }

  lemma {:induction false} ShiftLeftZero(n: nat)
    ensures ShiftLeft(0, n) == 0
  {
    if n > 0 {
      ShiftLeftZero(n - 1);
    }
  }

  lemma {:induction false} ShiftLeftSum(x: nat, y: nat, n: nat)
    ensures ShiftLeft(x + y, n) == ShiftLeft(x, n) + ShiftLeft(y, n)
  {
    if n > 0 {
      ShiftLeftSum(x, y, n - 1);
    }
  }

  lemma {:induction false} ShiftLeftMonotone(x: nat, y: nat, n: nat)
    requires x <= y
    ensures ShiftLeft(x, n) <= ShiftLeft(y, n)
  {
    if n > 0 {
      ShiftLeftMonotone(x, y, n - 1);
    }
  }

  lemma {:induction false} OneMonotone(m: nat, n: nat)
    requires m <= n
    ensures ShiftLeft(1, m) <= ShiftLeft(1, n)
  {
    if m < n {
      OneMonotone(m, n - 1);
    }
  }

  lemma {:induction false} ShiftLeftTwice(x: nat, m: nat, n: nat)
    ensures ShiftLeft(ShiftLeft(x, m), n) == ShiftLeft(x, m + n)
  {
    if n > 0 {
      ShiftLeftTwice(x, m, n - 1);
    }
  }

  lemma ShiftLeftConstants(x: nat)
    ensures ShiftLeft(x, 7) == 0x80 * x && ShiftLeft(x, 8) == 0x100 * x
    ensures ShiftLeft(x, 16) == 0x1_0000 * x && ShiftLeft(x, 32) == 0x1_0000_0000 * x
    ensures ShiftLeft(x, 64) == 0x1_0000_0000_0000_0000 * x
  {
    ShiftLeftByte(x, 0);
    ShiftLeftByte(x, 8);
    ShiftLeftByte(x, 16);
    ShiftLeftByte(x, 24);
    ShiftLeftByte(x, 32);
    ShiftLeftByte(x, 40);
    ShiftLeftByte(x, 48);
    ShiftLeftByte(x, 56);
  }

  lemma ShiftLeftByte(x: nat, m: nat)
    ensures ShiftLeft(x, m + 7) == 0x80 * ShiftLeft(x, m)
    ensures ShiftLeft(x, m + 8) == 0x100 * ShiftLeft(x, m)
  {
    assert ShiftLeft(x, m + 2) == 2 * ShiftLeft(x, m + 1) == 4 * ShiftLeft(x, m);
    assert ShiftLeft(x, m + 4) == 2 * ShiftLeft(x, m + 3) == 4 * ShiftLeft(x, m + 2);
    assert ShiftLeft(x, m + 6) == 2 * ShiftLeft(x, m + 5) == 4 * ShiftLeft(x, m + 4);
    assert ShiftLeft(x, m + 8) == 2 * ShiftLeft(x, m + 7) == 4 * ShiftLeft(x, m + 6);
  }

  /** Or-ing in a value whose set bits all lie above the bits of `a` adds it. */
  lemma {:induction false} BitOrDisjoint(a: nat, b: nat, k: nat)
    requires a < ShiftLeft(1, k)
    ensures BitOr(a, ShiftLeft(b, k)) == a + ShiftLeft(b, k)
    decreases k
  {
    if k == 0 {
      BitOrZero(b);
    } else {
      var h := ShiftLeft(b, k - 1);
      BitOrDisjoint(a / 2, b, k - 1);
      if a == 0 && h == 0 {
      } else {
        assert (2 * h) / 2 == h && (2 * h) % 2 == 0;
      }
    }
  }

  lemma DoubleFactor(q: nat, h: nat)
    ensures q * (2 * h) == (2 * q) * h && (2 * q + 1) * h == (2 * q) * h + h
  {
  }

  /** A remainder is determined by any quotient that leaves it. */
  lemma RemainderIs(x: nat, m: nat, q: int, r: nat)
    requires m > 0 && x == q * m + r && r < m
    ensures x % m == r
  {
    var d := x / m - q;
    assert d * m == x / m * m - q * m;
    MulMonotone(1, d, m);
    MulMonotone(d, -1, m);
  }

  lemma MulMonotone(a: int, b: int, w: nat)
    ensures a <= b ==> a * w <= b * w
  {
  }

  ghost predicate IsMultiple(x: nat, w: nat) {
    exists m: nat :: m * w == x
  }

  lemma MultipleSum(x: nat, y: nat, w: nat)
    requires IsMultiple(x, w) && IsMultiple(y, w)
    ensures IsMultiple(x + y, w)
    ensures x <= y ==> IsMultiple(y - x, w)
  {
    var a: nat :| a * w == x;
    var b: nat :| b * w == y;
    assert (a + b) * w == x + y;
    MulMonotone(b, a, w);
    if x <= y {
      var d: nat := if a < b then b - a else 0;
      assert d * w == y - x;
    }
  }

  lemma MultipleTransitive(x: nat, w: nat, v: nat)
    requires IsMultiple(x, w) && IsMultiple(w, v)
    ensures IsMultiple(x, v)
  {
    var a: nat :| a * w == x;
    var b: nat :| b * v == w;
    assert (a * b) * v == a * (b * v);
  }

  lemma MultipleWithin(x: nat, w: nat)
    requires IsMultiple(x, w) && 0 < x <= w
    ensures x == w
  {
    var a: nat :| a * w == x;
    MulMonotone(a, 0, w);
    MulMonotone(2, a, w);
  }

  lemma Pow2Multiple(m: nat, n: nat)
    requires m <= n
    ensures IsMultiple(Pow2(n), Pow2(m))
  {
    Pow2Add(n - m, m);
  }

  /** `x >> n`. */
  function ShiftRight(x: nat, n: nat): nat {
    if n == 0 then x else ShiftRight(x, n - 1) / 2
  }

  lemma {:induction false} ShiftRightMonotone(x: nat, y: nat, n: nat)
    requires x <= y
    ensures ShiftRight(x, n) <= ShiftRight(y, n)
  {
    if n > 0 {
      ShiftRightMonotone(x, y, n - 1);
    }
  }

  lemma {:induction false} ShiftRightQuotient(x: nat, n: nat, q: nat)
    requires q * Pow2(n) <= x < q * Pow2(n) + Pow2(n)
    ensures ShiftRight(x, n) == q
    decreases n
  {
    if n > 0 {
      var h := Pow2(n - 1);
      assert Pow2(n) == 2 * h;
      hide Pow2;
      DoubleFactor(q, h);
      ShiftRightQuotient(x, n - 1, if x < (2 * q) * h + h then 2 * q else 2 * q + 1);
    }
  }
}

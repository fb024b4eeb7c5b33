// Arithmetic of free-running 32-bit ring indices and of the power-of-two mask.

module Modular {

  /** Number of values of a uint32_t. */
  const WORD: int := 0x1_0000_0000

  /** Number of values of a uint64_t. */
  const QWORD: int := 0x1_0000_0000_0000_0000

  function Min(a: int, b: int): int {
    if a <= b then a else b
  }

  function Pow2(k: nat): (p: nat)
    ensures p >= 1
  {
    if k == 0 then 1 else 2 * Pow2(k - 1)
  }

  /** Bitwise and, on the binary digits of two naturals. */
  function BitAnd(a: nat, b: nat): nat {
    if a == 0 || b == 0 then 0 else 2 * BitAnd(a / 2, b / 2) + (a % 2) * (b % 2)
  }

  lemma MulDiv(a: int, m: int)
    requires m > 0
    ensures (a * m) / m == a
    ensures (a * m) % m == 0
  {
    DivUnique(a * m, m, a, 0);
  }

  /** Quotient and remainder are determined by their defining equation. */
  lemma DivUnique(x: int, m: int, q: int, r: int)
    requires m > 0
    requires x == q * m + r
    requires 0 <= r < m
    ensures x / m == q && x % m == r
  {
    var d := x / m - q;
    assert x == (x / m) * m + x % m;
    assert d * m == r - x % m;
    MultipleBounds(d, m);
  }

  lemma MultipleBounds(d: int, m: int)
    requires m > 0
    ensures d >= 1 ==> d * m >= m
    ensures d <= 0 ==> d * m <= 0
    ensures d <= -1 ==> d * m <= -m
  {
  }

  /** Two indices less than one lap apart live in different slots. */
  lemma ModDistinct(a: int, b: int, m: int)
    requires m > 0
    requires a < b < a + m
    ensures a % m != b % m
  {
    var d := b / m - a / m;
    assert b - a == d * m + (b % m - a % m);
    MultipleBounds(d, m);
  }

  /** Reducing modulo a multiple first does not change the residue. */
  lemma ModOfMultiple(x: int, m: int, q: int)
    requires m > 0 && q > 0
    ensures q * m > 0
    ensures (x % (q * m)) % m == x % m
  {
    assert q * m > 0;
    var w := q * m;
    var y := x % w;
    var c := x / w;
    assert x == c * w + y;
    assert c * w == (c * q) * m;
    DivUnique(x, m, c * q + y / m, y % m) by {
      assert y == (y / m) * m + y % m;
      assert (c * q + y / m) * m == (c * q) * m + (y / m) * m;
    }
  }

  lemma Pow2Add(a: nat, b: nat)
    ensures Pow2(a + b) == Pow2(a) * Pow2(b)
  {
    if a != 0 {
      Pow2Add(a - 1, b);
      assert Pow2(a + b) == 2 * (Pow2(a - 1) * Pow2(b)) == (2 * Pow2(a - 1)) * Pow2(b);
    }
  }

  lemma WordIsPow2()
    ensures Pow2(32) == WORD
  {
    Pow2Add(16, 16);
    assert Pow2(16) == 0x1_0000 by {
      Pow2Add(8, 8);
      assert Pow2(8) == 256;
    }
  }

  /** A power-of-two ring size divides 2^32, so indices may wrap freely. */
  lemma SizeDividesWord(k: nat)
    requires k <= 32
    ensures WORD == Pow2(32 - k) * Pow2(k)
  {
    WordIsPow2();
    Pow2Add(32 - k, k);
  }

  lemma {:induction false} Pow2Grows(a: nat, b: nat)
    requires a <= b
    ensures Pow2(a) <= Pow2(b)
    decreases b
  {
    if a < b {
      Pow2Grows(a, b - 1);
    }
  }

  /** Powers of two up to 2^31 fit a 32-bit size. */
  lemma SizeFits(k: nat)
    requires k <= 31
    ensures 1 <= Pow2(k) <= 0x8000_0000
  {
    Pow2Grows(k, 31);
    WordIsPow2();
    assert Pow2(32) == 2 * Pow2(31);
  }

  /** `index & (size - 1)` is the index modulo a power-of-two size. */
  lemma {:induction false} MaskIsMod(x: nat, k: nat)
    ensures BitAnd(x, Pow2(k) - 1) == x % Pow2(k)
  {
    if k == 0 {
    } else if x == 0 {
    } else {
      MaskIsMod(x / 2, k - 1);
      DoubleMask(x, Pow2(k - 1));
    }
  }

  lemma DoubleMask(x: nat, h: nat)
    requires x > 0 && h > 0
    requires BitAnd(x / 2, h - 1) == (x / 2) % h
    ensures BitAnd(x, 2 * h - 1) == x % (2 * h)
  {
    MaskStep(x, h);
    ModStep(x, h);
  }

  lemma MaskStep(x: nat, h: nat)
    requires x > 0 && h > 0
    ensures BitAnd(x, 2 * h - 1) == 2 * BitAnd(x / 2, h - 1) + x % 2
  {
    assert (2 * h - 1) / 2 == h - 1 && (2 * h - 1) % 2 == 1;
  }

  lemma ModStep(x: nat, h: nat)
    requires h > 0
    ensures x % (2 * h) == 2 * ((x / 2) % h) + x % 2
  {
    var y := x / 2;
    var q, r := y / h, y % h;
    assert y == q * h + r;
    assert x == 2 * y + x % 2;
    assert q * (2 * h) == 2 * (q * h);
    DivUnique(x, 2 * h, q, 2 * r + x % 2);
  }

  /** The slot picked by a wrapped 32-bit index is the slot of the unbounded index. */
  lemma WrappedSlot(x: nat, k: nat)
    requires k <= 32
    ensures BitAnd(Wrap32(x), Pow2(k) - 1) == x % Pow2(k)
  {
    MaskIsMod(x % WORD, k);
    SizeDividesWord(k);
    ModOfMultiple(x, Pow2(k), Pow2(32 - k));
  }

  /** A 32-bit register holding an index. */
  function Wrap32(x: int): nat {
    x % WORD
  }

  lemma WrapAdd(a: int, i: int)
    ensures Wrap32(Wrap32(a) + i) == Wrap32(a + i)
  {
  }

  lemma WrapSub(c: int, a: int, b: int)
    ensures Wrap32(c + Wrap32(a) - Wrap32(b)) == Wrap32(c + a - b)
  {
  }

  /** A wrapped base index and an offset pick the slot of the unbounded index. */
  lemma WrappedOffset(base: nat, i: nat, m: nat, k: nat)
    requires k <= 31 && m == Pow2(k)
    ensures (Wrap32(base) + i) % m == (base + i) % m
    ensures BitAnd(Wrap32(Wrap32(base) + i), m - 1) == (base + i) % m
  {
    WrapAdd(base, i);
    WrappedSlot(base + i, k);
    WrappedSlot(Wrap32(base) + i, k);
  }

  /** Free entries and used entries add up to the capacity, across any wrap of the indices. */
  lemma FreePlusUsed(capacity: nat, prod: nat, cons: nat)
    requires capacity < WORD && Wrap32(prod - cons) <= capacity
    ensures Wrap32(capacity + cons - prod) + Wrap32(prod - cons) == capacity
  {
  }

  lemma UsedAfterPut(prod: nat, cons: nat, n: nat)
    requires Wrap32(prod - cons) + n < WORD
    ensures Wrap32(Wrap32(prod + n) - cons) == Wrap32(prod - cons) + n
  {
  }

  lemma UsedAfterTake(prod: nat, cons: nat, n: nat)
    requires n <= Wrap32(prod - cons)
    ensures Wrap32(prod - Wrap32(cons + n)) == Wrap32(prod - cons) - n
  {
  }

  lemma WrapNear(a: int, b: int)
    requires -WORD < a - b < WORD
    ensures Wrap32(a) == Wrap32(b) <==> a == b
  {
  }

  /** A uint64_t counter. */
  function Wrap64(x: int): int {
    x % QWORD
  }

  lemma Wrap64Add(a: int, b: int)
    ensures Wrap64(Wrap64(a) + b) == Wrap64(a + b)
  {
  }

  lemma Wrap64Fits(x: int)
    requires 0 <= x < QWORD
    ensures Wrap64(x) == x
  {
  }

  lemma Wrap32Fits(x: int)
    requires 0 <= x < WORD
    ensures Wrap32(x) == x
  {
  }

  /** Whole laps of a 32-bit counter are lost. */
  lemma WrapPlusLaps(a: int, k: int)
    ensures Wrap32(k * WORD + a) == Wrap32(a)
  {
    DivUnique(k * WORD + a, WORD, k + a / WORD, a % WORD);
  }

  lemma Wrap64Times(a: int, c: int)
    ensures Wrap64(Wrap64(a) * c) == Wrap64(a * c)
  {
    var q := a / QWORD;
    assert a == q * QWORD + Wrap64(a);
    assert a * c == (q * c) * QWORD + Wrap64(a) * c;
    DivUnique(a * c, QWORD, q * c + Wrap64(a) * c / QWORD, Wrap64(a) * c % QWORD);
  }
}

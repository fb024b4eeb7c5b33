// Which values a 32-bit index takes when it is advanced by a fixed stride for ever: the multiples
// of the largest power of two that divides the stride.

module Strides {
  import opened Modular

  /** The index after k turns, starting from 0. */
  function Index(iv: nat, k: nat): (i: nat)
    ensures i < WORD
  {
    Wrap32(k * iv)
  }

  lemma NextIndex(iv: nat, k: nat)
    ensures Index(iv, k + 1) == Wrap32(Index(iv, k) + iv)
  {
    assert (k + 1) * iv == k * iv + iv;
    WrapAdd(k * iv, iv);
  }

  /** After 2^32 turns the index is back where it was. */
  lemma IndexPeriod(iv: nat, k: nat, laps: nat)
    ensures Index(iv, k + laps * WORD) == Index(iv, k)
  {
    assert (k + laps * WORD) * iv == (laps * iv) * WORD + k * iv;
    WrapPlusLaps(k * iv, laps * iv);
    WrapLeavesSmall(k * iv);
  }

  lemma WrapLeavesSmall(a: int)
    ensures Wrap32(Wrap32(a)) == Wrap32(a)
  {
  }

  /** How often 2 divides the stride. */
  function Twos(iv: nat): nat
    requires iv > 0
  {
    if iv % 2 == 1 then 0 else 1 + Twos(iv / 2)
  }

  /** The largest power of two that divides the stride. */
  function TwoPart(iv: nat): nat
    requires iv > 0
  {
    Pow2(Twos(iv))
  }

  lemma {:induction false} OddPart(iv: nat) returns (o: nat)
    requires iv > 0
    ensures iv == o * TwoPart(iv) && o % 2 == 1
  {
    if iv % 2 == 1 {
      o := iv;
    } else {
      o := OddPart(iv / 2);
      assert o * (2 * TwoPart(iv / 2)) == 2 * (o * TwoPart(iv / 2));
    }
  }

  /** Below 2^32 the stride has at most 31 factors of two. */
  lemma TwosBelowWord(iv: nat)
    requires 0 < iv < WORD
    ensures Twos(iv) <= 31 && 0 < TwoPart(iv) < WORD
    ensures WORD == Pow2(32 - Twos(iv)) * TwoPart(iv)
  {
    var o := OddPart(iv);
    MultipleBounds(o, TwoPart(iv));
    if Twos(iv) >= 32 {
      Pow2Add(32, Twos(iv) - 32);
      WordIsPow2();
      MultipleBounds(Pow2(Twos(iv) - 32), WORD);
    }
    SizeDividesWord(Twos(iv));
  }

  /** Odd numbers are invertible modulo every power of two. */
  lemma {:induction false} OddInverse(o: nat, m: nat) returns (u: nat, t: nat)
    requires o % 2 == 1
    ensures o * u == 1 + t * Pow2(m)
  {
    if m == 0 {
      u, t := 1, o - 1;
    } else {
      var p := Pow2(m - 1);
      var u0, t0 := OddInverse(o, m - 1);
      if t0 % 2 == 0 {
        u, t := u0, t0 / 2;
        Halve(t0, p);
      } else {
        u, t := u0 + p, (t0 + o) / 2;
        NextInverse(o, u0, t0, p);
      }
    }
  }

  lemma NextInverse(o: nat, u: nat, t: nat, p: nat)
    requires o * u == 1 + t * p && (t + o) % 2 == 0
    ensures o * (u + p) == 1 + (t + o) / 2 * (2 * p)
  {
    assert o * (u + p) == o * u + o * p;
    assert t * p + o * p == (t + o) * p;
    Halve(t + o, p);
  }

  lemma Halve(t: nat, p: nat)
    requires t % 2 == 0
    ensures t * p == t / 2 * (2 * p)
  {
    assert t == t / 2 * 2;
  }

  lemma Revolve(u: nat, j: nat, o: nat, g: nat, t: nat, rest: nat)
    requires o * u == 1 + t * rest && rest * g == WORD
    ensures (u * j) * (o * g) == (j * t) * WORD + j * g
  {
    assert (u * j) * (o * g) == (o * u) * (j * g);
    assert (1 + t * rest) * (j * g) == j * g + (t * rest) * (j * g);
    assert (t * rest) * (j * g) == (j * t) * (rest * g);
  }

  lemma Lands(u: nat, j: nat, o: nat, g: nat, t: nat, rest: nat)
    requires o * u == 1 + t * rest && rest * g == WORD && j * g < WORD
    ensures Wrap32((u * j) * (o * g)) == j * g
  {
    Revolve(u, j, o, g, t, rest);
    WrapPlusLaps(j * g, j * t);
    Wrap32Fits(j * g);
  }

  /** Every multiple of the two-part is visited. */
  lemma MultipleIsVisited(iv: nat, j: nat) returns (k: nat)
    requires 0 < iv < WORD && j * TwoPart(iv) < WORD
    ensures Index(iv, k) == j * TwoPart(iv)
  {
    TwosBelowWord(iv);
    var o := OddPart(iv);
    var u, t := OddInverse(o, 32 - Twos(iv));
    k := u * j;
    Lands(u, j, o, TwoPart(iv), t, Pow2(32 - Twos(iv)));
  }

  lemma StaysMultiple(k: nat, o: nat, g: nat, rest: nat)
    requires g > 0 && rest > 0 && rest * g == WORD
    ensures Wrap32(k * (o * g)) % g == 0
  {
    assert k * (o * g) == (k * o) * g;
    ModOfMultiple((k * o) * g, g, rest);
    MulDiv(k * o, g);
  }

  /** And nothing else is. */
  lemma VisitedIsMultiple(iv: nat, k: nat)
    requires 0 < iv < WORD
    ensures TwoPart(iv) > 0 && Index(iv, k) % TwoPart(iv) == 0
  {
    TwosBelowWord(iv);
    var o := OddPart(iv);
    StaysMultiple(k, o, TwoPart(iv), Pow2(32 - Twos(iv)));
  }

  lemma QuotientTimes(i: nat, g: nat)
    requires g > 0 && i % g == 0
    ensures i / g * g == i
  {
  }

  /** The values of the index, exactly. */
  lemma VisitedIff(iv: nat, i: nat)
    requires 0 < iv < WORD && i < WORD
    ensures TwoPart(iv) > 0
    ensures (exists k: nat :: Index(iv, k) == i) <==> i % TwoPart(iv) == 0
  {
    TwosBelowWord(iv);
    if i % TwoPart(iv) == 0 {
      QuotientTimes(i, TwoPart(iv));
      var k := MultipleIsVisited(iv, i / TwoPart(iv));
    }
    forall k: nat | Index(iv, k) == i
      ensures i % TwoPart(iv) == 0
    {
      VisitedIsMultiple(iv, k);
    }
  }
}

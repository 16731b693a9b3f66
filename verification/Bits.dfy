/**
 Machine words as natural numbers, with the bitwise operators the sources use. The operators are
 defined digit by digit; the lemmas say what each does to every bit.
 */
module Bits {
  function Pow2(n: nat): (p: nat)
    ensures p > 0
  {
    if n == 0 then 1 else 2 * Pow2(n - 1)
  }

  predicate Bit(x: nat, i: nat) {
    if i == 0 then x % 2 == 1 else Bit(x / 2, i - 1)
  }

  function And(x: nat, y: nat): (r: nat)
    ensures r <= x && r <= y
  {
    if x == 0 || y == 0 then 0
    else 2 * And(x / 2, y / 2) + (if x % 2 == 1 && y % 2 == 1 then 1 else 0)
  }

  function Or(x: nat, y: nat): (r: nat)
    ensures r >= x && r >= y
  {
    if x == 0 then y
    else if y == 0 then x
    else 2 * Or(x / 2, y / 2) + (if x % 2 == 1 || y % 2 == 1 then 1 else 0)
  }

  /** The complement of a word of w bits. */
  function Not(w: nat, x: nat): (r: nat)
    requires x < Pow2(w)
    ensures r < Pow2(w)
  {
    Pow2(w) - 1 - x
  }

  /** n >> k, n & (2^k - 1) and n << k, digit by digit. */
  function High(n: nat, k: nat): nat {
    if k == 0 then n else High(n / 2, k - 1)
  }

  function Low(n: nat, k: nat): (r: nat)
    ensures r < Pow2(k)
  {
    if k == 0 then 0 else 2 * Low(n / 2, k - 1) + n % 2
  }

  function Shl(n: nat, k: nat): nat {
    if k == 0 then n else 2 * Shl(n, k - 1)
  }

  // ---------------------------------------------------------------- powers of two

  lemma {:induction false} Pow2Sum(a: nat, b: nat)
    ensures Pow2(a + b) == Pow2(a) * Pow2(b)
  {
    if a == 0 {
    } else {
      Pow2Sum(a - 1, b);
    }
  }

  lemma {:induction false} Pow2Monotone(a: nat, b: nat)
    requires a <= b
    ensures Pow2(a) <= Pow2(b)
  {
    if a == b {
    } else {
      Pow2Monotone(a, b - 1);
    }
  }

  lemma DoubleProduct(h: nat, p: nat)
    ensures h * (2 * p) == 2 * (h * p)
  {
  }

  lemma {:induction false} HighLowSum(n: nat, k: nat)
    ensures n == High(n, k) * Pow2(k) + Low(n, k)
  {
    if k == 0 {
    } else {
      HighLowSum(n / 2, k - 1);
      DoubleProduct(High(n, k), Pow2(k - 1));
    }
  }

  lemma MulMonotone(a: int, b: int, d: nat)
    ensures a <= b ==> a * d <= b * d
  {
  }

  lemma DivModUnique(x: nat, d: nat, q: nat, r: nat)
    requires x == q * d + r && r < d
    ensures x / d == q && x % d == r
  {
    var e := x / d;
    assert x == e * d + x % d;
    MulMonotone(e + 1, q, d);
    MulMonotone(q + 1, e, d);
  }

  /** High and Low are quotient and remainder by 2^k. */
  lemma {:induction false} HighLow(n: nat, k: nat)
    ensures n == High(n, k) * Pow2(k) + Low(n, k)
    ensures n / Pow2(k) == High(n, k) && n % Pow2(k) == Low(n, k)
  {
    HighLowSum(n, k);
    DivModUnique(n, Pow2(k), High(n, k), Low(n, k));
  }

  lemma {:induction false} ShlIsProduct(n: nat, k: nat)
    ensures Shl(n, k) == n * Pow2(k)
  {
    if k == 0 {
    } else {
      ShlIsProduct(n, k - 1);
    }
  }

  // ---------------------------------------------------------------- the bits of a result

  lemma {:induction false} BitOfZero(i: nat)
    ensures !Bit(0, i)
  {
    if i == 0 {
    } else {
      BitOfZero(i - 1);
    }
  }

  lemma {:induction false} BitAnd(x: nat, y: nat, i: nat)
    ensures Bit(And(x, y), i) <==> Bit(x, i) && Bit(y, i)
  {
    if x == 0 || y == 0 {
      BitOfZero(i);
    } else {
      assert And(x, y) / 2 == And(x / 2, y / 2);
      if i > 0 {
        BitAnd(x / 2, y / 2, i - 1);
      }
    }
  }

  lemma {:induction false} BitOr(x: nat, y: nat, i: nat)
    ensures Bit(Or(x, y), i) <==> Bit(x, i) || Bit(y, i)
  {
    if x == 0 || y == 0 {
      BitOfZero(i);
    } else {
      assert Or(x, y) / 2 == Or(x / 2, y / 2);
      if i > 0 {
        BitOr(x / 2, y / 2, i - 1);
      }
    }
  }

  lemma {:induction false} BitNot(w: nat, x: nat, i: nat)
    requires x < Pow2(w)
    ensures Bit(Not(w, x), i) <==> i < w && !Bit(x, i)
  {
    if w == 0 {
      BitOfZero(i);
    } else if i > 0 {
      assert Not(w, x) / 2 == Not(w - 1, x / 2);
      BitNot(w - 1, x / 2, i - 1);
    }
  }

  lemma {:induction false} BitPow2(k: nat, i: nat)
    ensures Bit(Pow2(k), i) <==> i == k
  {
    if i == 0 {
    } else {
      if k > 0 {
        BitPow2(k - 1, i - 1);
      } else {
        BitOfZero(i - 1);
      }
    }
  }

  lemma {:induction false} BitLow(x: nat, k: nat, i: nat)
    ensures Bit(Low(x, k), i) <==> i < k && Bit(x, i)
  {
    if k == 0 {
      BitOfZero(i);
    } else if i > 0 {
      BitLow(x / 2, k - 1, i - 1);
    }
  }

  lemma {:induction false} BitHigh(x: nat, k: nat, i: nat)
    ensures Bit(High(x, k), i) <==> Bit(x, k + i)
  {
    if k == 0 {
    } else {
      BitHigh(x / 2, k - 1, i);
    }
  }

  /** The digits of b, below 2^k, under the digits of a. */
  lemma {:induction false} BitConcat(a: nat, b: nat, k: nat, i: nat)
    requires b < Pow2(k)
    ensures Bit(Shl(a, k) + b, i) <==> if i < k then Bit(b, i) else Bit(a, i - k)
  {
    if k == 0 {
    } else {
      assert (Shl(a, k) + b) / 2 == Shl(a, k - 1) + b / 2;
      if i > 0 {
        BitConcat(a, b / 2, k - 1, i - 1);
      }
    }
  }

  /** Numbers with the same bits are equal. */
  lemma {:induction false} SameBits(x: nat, y: nat)
    requires forall i: nat :: Bit(x, i) <==> Bit(y, i)
    ensures x == y
  {
    if x == 0 && y == 0 {
    } else {
      assert Bit(x, 0) <==> Bit(y, 0);
      forall i: nat
        ensures Bit(x / 2, i) <==> Bit(y / 2, i)
      {
        assert Bit(x, i + 1) <==> Bit(y, i + 1);
      }
      SameBits(x / 2, y / 2);
    }
  }

  lemma {:induction false} LowOfSmall(x: nat, w: nat)
    requires x < Pow2(w)
    ensures Low(x, w) == x
  {
    if w == 0 {
    } else {
      LowOfSmall(x / 2, w - 1);
    }
  }

  lemma HighBitsClear(x: nat, w: nat, i: nat)
    requires x < Pow2(w) && i >= w
    ensures !Bit(x, i)
  {
    LowOfSmall(x, w);
    BitLow(x, w, i);
  }

  lemma FitsInWidth(x: nat, w: nat)
    requires forall i: nat | i >= w :: !Bit(x, i)
    ensures x < Pow2(w)
  {
    forall i: nat
      ensures Bit(Low(x, w), i) <==> Bit(x, i)
    {
      BitLow(x, w, i);
    }
    SameBits(x, Low(x, w));
  }

  // ---------------------------------------------------------------- fields of a number

  /** The w bits of n from bit s up: n / 2^s mod 2^w. */
  function Extract(n: nat, s: nat, w: nat): nat {
    Low(High(n, s), w)
  }

  /** n with those bits replaced by the low w bits of v. */
  function Replace(n: nat, s: nat, w: nat, v: nat): nat {
    Shl(Shl(High(n, s + w), w) + Low(v, w), s) + Low(n, s)
  }

  lemma BitExtract(n: nat, s: nat, w: nat, i: nat)
    ensures Bit(Extract(n, s, w), i) <==> i < w && Bit(n, s + i)
  {
    BitLow(High(n, s), w, i);
    BitHigh(n, s, i);
  }

  lemma BitReplace(n: nat, s: nat, w: nat, v: nat, i: nat)
    ensures Bit(Replace(n, s, w, v), i) <==> if s <= i < s + w then Bit(v, i - s) else Bit(n, i)
  {
    BitConcat(Shl(High(n, s + w), w) + Low(v, w), Low(n, s), s, i);
    BitLow(n, s, i);
    if i >= s {
      BitConcat(High(n, s + w), Low(v, w), w, i - s);
      BitLow(v, w, i - s);
      if i >= s + w {
        BitHigh(n, s + w, i - s - w);
      }
    }
  }

  /** A number whose bits from s up are the bits of v has the low digits of v in that field. */
  lemma ExtractOfBits(m: nat, s: nat, w: nat, v: nat)
    requires forall i: nat | i < w :: Bit(m, s + i) <==> Bit(v, i)
    ensures Extract(m, s, w) == Low(v, w)
  {
    forall i: nat
      ensures Bit(Extract(m, s, w), i) <==> Bit(Low(v, w), i)
    {
      BitExtract(m, s, w, i);
      BitLow(v, w, i);
    }
    SameBits(Extract(m, s, w), Low(v, w));
  }

  lemma ExtractReplaced(n: nat, s: nat, w: nat, v: nat)
    ensures Extract(Replace(n, s, w, v), s, w) == v % Pow2(w)
  {
    var m := Replace(n, s, w, v);
    forall i: nat | i < w
      ensures Bit(m, s + i) <==> Bit(v, i)
    {
      BitReplace(n, s, w, v, s + i);
    }
    ExtractOfBits(m, s, w, v);
    HighLow(v, w);
  }

  lemma ExtractElsewhere(n: nat, s: nat, w: nat, v: nat, s': nat, w': nat)
    requires s + w <= s' || s' + w' <= s
    ensures Extract(Replace(n, s, w, v), s', w') == Extract(n, s', w')
  {
    var m := Replace(n, s, w, v);
    forall i: nat
      ensures Bit(Extract(m, s', w'), i) <==> Bit(Extract(n, s', w'), i)
    {
      BitExtract(m, s', w', i);
      BitExtract(n, s', w', i);
      BitReplace(n, s, w, v, s' + i);
    }
    SameBits(Extract(m, s', w'), Extract(n, s', w'));
  }

  /** A field on top of what lies below it. */
  lemma LowStep(n: nat, s: nat, w: nat)
    ensures Low(n, s + w) == Low(n, s) + Extract(n, s, w) * Pow2(s)
  {
    var m := Shl(Extract(n, s, w), s) + Low(n, s);
    forall i: nat
      ensures Bit(Low(n, s + w), i) <==> Bit(m, i)
    {
      BitConcat(Extract(n, s, w), Low(n, s), s, i);
      BitLow(n, s + w, i);
      BitLow(n, s, i);
      if i >= s {
        BitExtract(n, s, w, i - s);
      }
    }
    SameBits(Low(n, s + w), m);
    ShlIsProduct(Extract(n, s, w), s);
  }

  /** A field below what lies on top of it. */
  lemma HighStep(n: nat, s: nat, w: nat)
    ensures High(n, s) * Pow2(s) == High(n, s + w) * Pow2(s + w) + Extract(n, s, w) * Pow2(s)
  {
    HighLowSum(n, s);
    HighLowSum(n, s + w);
    LowStep(n, s, w);
  }

  // ---------------------------------------------------------------- what the sources use

  /** x & (2^k - 1) keeps the low k bits. */
  lemma AndLowMask(x: nat, k: nat)
    ensures And(x, Pow2(k) - 1) == x % Pow2(k)
  {
    forall i: nat
      ensures Bit(And(x, Pow2(k) - 1), i) <==> Bit(Low(x, k), i)
    {
      BitAnd(x, Pow2(k) - 1, i);
      BitOfZero(i);
      BitNot(k, 0, i);
      BitLow(x, k, i);
    }
    SameBits(And(x, Pow2(k) - 1), Low(x, k));
    HighLow(x, k);
  }

  /** x & (1 << k) == 1 << k tests bit k. */
  lemma AndOneBit(x: nat, k: nat)
    ensures And(x, Pow2(k)) == Pow2(k) <==> Bit(x, k)
  {
    BitPow2(k, k);
    BitAnd(x, Pow2(k), k);
    if Bit(x, k) {
      forall i: nat
        ensures Bit(And(x, Pow2(k)), i) <==> Bit(Pow2(k), i)
      {
        BitAnd(x, Pow2(k), i);
        BitPow2(k, i);
      }
      SameBits(And(x, Pow2(k)), Pow2(k));
    }
  }

  /** x | 1 << k, and x & !(1 << k) in a w-bit word, change bit k alone. */
  lemma WriteBit(w: nat, x: nat, k: nat)
    requires x < Pow2(w) && k < w
    ensures Pow2(k) < Pow2(w)
    ensures Or(x, Pow2(k)) < Pow2(w) && And(x, Not(w, Pow2(k))) < Pow2(w)
    ensures forall i: nat :: Bit(Or(x, Pow2(k)), i) <==> i == k || Bit(x, i)
    ensures forall i: nat :: Bit(And(x, Not(w, Pow2(k))), i) <==> i != k && Bit(x, i)
  {
    Pow2Monotone(k + 1, w);
    forall i: nat
      ensures Bit(Or(x, Pow2(k)), i) <==> i == k || Bit(x, i)
      ensures Bit(And(x, Not(w, Pow2(k))), i) <==> i != k && Bit(x, i)
    {
      BitPow2(k, i);
      BitOr(x, Pow2(k), i);
      BitNot(w, Pow2(k), i);
      BitAnd(x, Not(w, Pow2(k)), i);
      if i >= w {
        HighBitsClear(x, w, i);
      }
    }
    forall i: nat | i >= w
      ensures !Bit(Or(x, Pow2(k)), i)
    {
      HighBitsClear(x, w, i);
    }
    FitsInWidth(Or(x, Pow2(k)), w);
  }
}

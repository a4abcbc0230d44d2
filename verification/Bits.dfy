/** Machine words as natural numbers, read bit by bit.  Every bitwise operator of the C sources is an
    instance of Bitwise at the width of its operands. */
module Bits {
  import opened Arith

  function Pow2(n: nat): (p: nat)
    ensures p > 0
  {
    if n == 0 then 1 else 2 * Pow2(n - 1)
  }

  // Bit i of v, counted from the least significant one.
  predicate Bit(v: nat, i: nat)
    decreases i
  {
    if i == 0 then v % 2 == 1 else Bit(v / 2, i - 1)
  }

  function Value(b: bool): nat { if b then 1 else 0 }

  function Shr(v: nat, k: nat): nat
    decreases k
  {
    if k == 0 then v else Shr(v / 2, k - 1)
  }

  // The n-bit word whose bits are f of the bits of a and b.
  function Bitwise(f: (bool, bool) -> bool, a: nat, b: nat, n: nat): (r: nat)
    ensures r < Pow2(n)
  {
    if n == 0 then 0 else Value(f(a % 2 == 1, b % 2 == 1)) + 2 * Bitwise(f, a / 2, b / 2, n - 1)
  }

  function And(a: nat, b: nat, n: nat): (r: nat)
    ensures r < Pow2(n)
  {
    Bitwise((x, y) => x && y, a, b, n)
  }

  function Or(a: nat, b: nat, n: nat): (r: nat)
    ensures r < Pow2(n)
  {
    Bitwise((x, y) => x || y, a, b, n)
  }

  function Xor(a: nat, b: nat, n: nat): (r: nat)
    ensures r < Pow2(n)
  {
    Bitwise((x, y) => x != y, a, b, n)
  }

  function AndNot(a: nat, b: nat, n: nat): (r: nat)
    ensures r < Pow2(n)
  {
    Bitwise((x, y) => x && !y, a, b, n)
  }

  lemma {:induction false} BitOfBitwise(f: (bool, bool) -> bool, a: nat, b: nat, n: nat, i: nat)
    ensures Bit(Bitwise(f, a, b, n), i) == (i < n && f(Bit(a, i), Bit(b, i)))
    decreases i
  {
    if n == 0 {
      NoBits(0, i);
    } else if i > 0 {
      BitOfBitwise(f, a / 2, b / 2, n - 1, i - 1);
    }
  }

  lemma BitOfOps(a: nat, b: nat, n: nat, i: nat)
    ensures Bit(And(a, b, n), i) == (i < n && Bit(a, i) && Bit(b, i))
    ensures Bit(Or(a, b, n), i) == (i < n && (Bit(a, i) || Bit(b, i)))
    ensures Bit(Xor(a, b, n), i) == (i < n && Bit(a, i) != Bit(b, i))
    ensures Bit(AndNot(a, b, n), i) == (i < n && Bit(a, i) && !Bit(b, i))
  {
    hide Bitwise;
    BitOfBitwise((x, y) => x && y, a, b, n, i);
    BitOfBitwise((x, y) => x || y, a, b, n, i);
    BitOfBitwise((x, y) => x != y, a, b, n, i);
    BitOfBitwise((x, y) => x && !y, a, b, n, i);
  }

  // A word below 2^n has no bits from n on.
  lemma {:induction false} NoBits(v: nat, n: nat)
    requires v < Pow2(n)
    ensures forall i | n <= i :: !Bit(v, i)
  {
    forall i | n <= i ensures !Bit(v, i) { NoBit(v, n, i); }
  }

  lemma {:induction false} NoBit(v: nat, n: nat, i: nat)
    requires v < Pow2(n) && n <= i
    ensures !Bit(v, i)
    decreases i
  {
    if i > 0 {
      if n > 0 { NoBit(v / 2, n - 1, i - 1); } else { NoBit(v / 2, 0, i - 1); }
    }
  }

  // Two words with the same bits are the same word.
  lemma {:induction false} SameBits(a: nat, b: nat, n: nat)
    requires a < Pow2(n) && b < Pow2(n)
    requires forall i: nat | i < n :: Bit(a, i) == Bit(b, i)
    ensures a == b
  {
    if n > 0 {
      forall i: nat | i < n - 1 ensures Bit(a / 2, i) == Bit(b / 2, i) {
        assert Bit(a, i + 1) == Bit(b, i + 1);
      }
      assert Bit(a, 0) == Bit(b, 0);
      SameBits(a / 2, b / 2, n - 1);
    }
  }

  lemma {:induction false} BitOfPow2(k: nat, i: nat)
    ensures Bit(Pow2(k), i) == (i == k)
    decreases i
  {
    if k > 0 && i > 0 {
      BitOfPow2(k - 1, i - 1);
    } else if i > 0 {
      NoBits(0, i - 1);
    }
  }

  lemma {:induction false} BitOfShr(v: nat, k: nat, i: nat)
    ensures Bit(Shr(v, k), i) == Bit(v, i + k)
    decreases k
  {
    if k > 0 { BitOfShr(v / 2, k - 1, i); }
  }

  lemma {:induction false} Pow2Monotone(m: nat, n: nat)
    requires m <= n
    ensures Pow2(m) <= Pow2(n)
  {
    if m < n { Pow2Monotone(m, n - 1); }
  }

  // Masking with all ones keeps the low n bits.
  lemma {:induction false} BitOfOnes(n: nat, i: nat)
    ensures Bit(Pow2(n) - 1, i) == (i < n)
    decreases i
  {
    if n == 0 {
      NoBits(0, 0);
    } else if i > 0 {
      BitOfOnes(n - 1, i - 1);
    }
  }

  lemma {:induction false} NoBitOfZero(i: nat)
    ensures !Bit(0, i)
  {
    NoBits(0, 0);
  }

  // A word without bits from n on is below 2^n.
  lemma {:induction false} BelowPow2(v: nat, n: nat, m: nat)
    requires v < Pow2(m) && forall i: nat | n <= i < m :: !Bit(v, i)
    ensures v < Pow2(n)
  {
    if m <= n {
      Pow2Monotone(m, n);
    } else if n == 0 {
      forall i: nat | i < m ensures Bit(v, i) == Bit(0, i) { NoBitOfZero(i); }
      SameBits(v, 0, m);
    } else {
      forall i: nat | n - 1 <= i < m - 1 ensures !Bit(v / 2, i) {
        assert !Bit(v, i + 1);
      }
      BelowPow2(v / 2, n - 1, m - 1);
    }
  }

  lemma MaskFits(v: nat, n: nat)
    requires n <= 32
    ensures And(v, Pow2(n) - 1, 32) < Pow2(n)
    ensures forall i: nat | i < n :: Bit(And(v, Pow2(n) - 1, 32), i) == Bit(v, i)
  {
    var r := And(v, Pow2(n) - 1, 32);
    forall i: nat ensures Bit(r, i) == (i < n && Bit(v, i)) {
      BitOfOps(v, Pow2(n) - 1, 32, i);
      BitOfOnes(n, i);
    }
    BelowPow2(r, n, 32);
  }

  // A word made of two, seen bit by bit.
  lemma {:induction false} BitOfSum(h: nat, l: nat, s: nat, i: nat)
    requires l < Pow2(s)
    ensures Bit(h * Pow2(s) + l, i) == if i < s then Bit(l, i) else Bit(h, i - s)
    decreases s
  {
    var v := h * Pow2(s) + l;
    if s > 0 {
      assert v == 2 * (h * Pow2(s - 1)) + l;
      assert v % 2 == l % 2 && v / 2 == h * Pow2(s - 1) + l / 2;
      if i > 0 { BitOfSum(h, l / 2, s - 1, i - 1); }
    }
  }

  lemma LowestBit(c: nat)
    ensures Bit(c, 0) == Bit(c % 2, 0) == (c % 2 == 1) && Shr(c, 1) == c / 2
  {
  }

  lemma {:induction false} BitOfShl(a: nat, k: nat, i: nat)
    ensures Bit(a * Pow2(k), i) == (i >= k && Bit(a, i - k))
    decreases k
  {
    if k > 0 {
      var h := a * Pow2(k - 1);
      assert a * Pow2(k) == 2 * h by { assert a * (2 * Pow2(k - 1)) == 2 * (a * Pow2(k - 1)); }
      if i > 0 { BitOfShl(a, k - 1, i - 1); }
    }
  }

  lemma PowersTimes(a: nat, b: nat)
    ensures Pow2(a + b) == Pow2(a) * Pow2(b)
    decreases a
  {
    if a > 0 { PowersTimes(a - 1, b); }
  }

  // A word moved up by d bits.
  function Shl(v: nat, d: nat): nat { v * Pow2(d) }

  lemma ShlFits(v: nat, a: nat, d: nat)
    requires v < Pow2(a)
    ensures Shl(v, d) < Pow2(a + d)
  {
    hide *;
    PowersTimes(a, d);
    MulMonotone(v + 1, Pow2(a), Pow2(d));
    NextMultiple(v, Pow2(d));
    ShlIs(v, d);
  }

  lemma ShlIs(v: nat, d: nat)
    ensures Shl(v, d) == v * Pow2(d)
  {
  }

  lemma BitOfMoved(v: nat, d: nat, i: nat)
    ensures Bit(Shl(v, d), i) == (i >= d && Bit(v, i - d))
  {
    BitOfShl(v, d, i);
    hide Bit, Pow2;
  }

  // A word without its low d bits, and those bits.
  function HighPart(v: nat, d: nat): (r: nat)
  {
    RemainderBound(v, Pow2(d));
    v / Pow2(d)
  }

  function LowPart(v: nat, d: nat): (r: nat)
    ensures r < Pow2(d)
  {
    RemainderBound(v, Pow2(d));
    v % Pow2(d)
  }

  // The upper part of a word of a + b bits has a bits.
  lemma HighPartFits(v: nat, a: nat, b: nat)
    requires v < Pow2(a + b)
    ensures HighPart(v, b) < Pow2(a)
  {
    PowersTimes(a, b);
    hide Pow2;
    var q, p := HighPart(v, b), Pow2(b);
    DivMod(v, p);
    if q >= Pow2(a) { MulMonotone(Pow2(a), q, p); }
  }

  // The upper part has the upper bits, the lower part the lower ones.
  lemma PartsOf(v: nat, b: nat, i: nat)
    ensures Bit(HighPart(v, b), i) == Bit(v, i + b) && (i < b ==> Bit(LowPart(v, b), i) == Bit(v, i))
  {
    ShrIs(v, b);
    BitOfShr(v, b, i);
    DivMod(v, Pow2(b));
    if i < b { BitOfSum(HighPart(v, b), LowPart(v, b), b, i); }
    hide Bit, Pow2, Shr;
  }

  // A shift drops so many bits, and bit i is the lowest one left after i of them.
  lemma {:induction false} ShrIs(v: nat, k: nat)
    ensures Shr(v, k) == v / Pow2(k) && Bit(v, k) == (v / Pow2(k) % 2 == 1)
    decreases k
  {
    if k > 0 {
      ShrIs(v / 2, k - 1);
      HalfFirst(v, Pow2(k - 1));
    }
  }

  lemma HalfFirst(v: nat, p: nat)
    requires p > 0
    ensures v / 2 / p == v / (2 * p)
  {
    var q, r := v / 2 / p, v / 2 % p;
    DivMod(v / 2, p);
    assert v == q * (2 * p) + (2 * r + v % 2) by { assert q * (2 * p) == 2 * (q * p); }
    QuotientIs(v, 2 * p, q, 2 * r + v % 2);
  }
}

/** Python's non-negative integers and their bitwise operators. Python does not bound an integer, so
    neither does this module: a source that wants a 32-bit word masks for it, and so does its model. */
module Bits {

  function Pow2(n: nat): (p: nat)
    ensures p > 0
  {
    if n == 0 then 1 else 2 * Pow2(n - 1)
  }

  /** `x & y` */
  function And(x: nat, y: nat): nat
    decreases x
  {
    if x == 0 || y == 0 then 0
    else (if x % 2 == 1 && y % 2 == 1 then 1 else 0) + 2 * And(x / 2, y / 2)
  }

  /** `x | y` */
  function Or(x: nat, y: nat): nat
    decreases x
  {
    if x == 0 then y
    else if y == 0 then x
    else (if x % 2 == 1 || y % 2 == 1 then 1 else 0) + 2 * Or(x / 2, y / 2)
  }

  /** `x ^ y` */
  function Xor(x: nat, y: nat): nat
    decreases x
  {
    if x == 0 then y
    else if y == 0 then x
    else (if x % 2 != y % 2 then 1 else 0) + 2 * Xor(x / 2, y / 2)
  }

  /** `x << c` */
  function Shl(x: nat, c: nat): nat {
    if c == 0 then x else 2 * Shl(x, c - 1)
  }

  /** `x >> c` */
  function Shr(x: nat, c: nat): nat {
    if c == 0 then x else Shr(x / 2, c - 1)
  }

  /** The low `n` bits of `x`: its remainder by two to the `n`. */
  function Low(x: nat, n: nat): (r: nat)
    ensures r < Pow2(n)
  {
    if n == 0 then 0 else x % 2 + 2 * Low(x / 2, n - 1)
  }

  // ---- division and remainder ----

  lemma MulAtLeast(k: int, d: int)
    requires k >= 1 && d > 0
    ensures k * d >= d
  {
  }

  lemma MulMinus(a: int, b: int, d: int)
    ensures (a - b) * d == a * d - b * d
  {
  }

  lemma DivModUnique(x: int, d: int, q: int, r: int)
    requires d > 0 && 0 <= r < d && x == q * d + r
    ensures x / d == q && x % d == r
  {
    var q' := x / d;
    var r' := x % d;
    assert x == d * q' + r';
    MulMinus(q', q, d);
    if q' > q {
      MulAtLeast(q' - q, d);
    } else if q' < q {
      MulMinus(q, q', d);
      MulAtLeast(q - q', d);
    }
  }

  lemma Pow2Adds(m: nat, n: nat)
    ensures Pow2(m + n) == Pow2(m) * Pow2(n)
  {
    if m == 0 {
    } else {
      Pow2Adds(m - 1, n);
      assert Pow2(m + n) == 2 * Pow2(m - 1 + n);
    }
  }

  lemma MulTwice(x: int, p: int)
    ensures x * (2 * p) == 2 * (x * p)
  {
  }

  lemma MulAdds(a: int, b: int, d: int)
    ensures (a + b) * d == a * d + b * d
  {
  }

  /** Halving a number halves what it leaves by a power of two, its last bit aside. */
  lemma HalfStep(x: nat, p: nat)
    requires p > 0
    ensures x / (2 * p) == x / 2 / p && x % (2 * p) == 2 * (x / 2 % p) + x % 2
  {
    var q := x / 2 / p;
    var r := x / 2 % p;
    assert x / 2 == p * q + r;
    MulTwice(q, p);
    DivModUnique(x, 2 * p, q, 2 * r + x % 2);
  }

  lemma Pow2Known()
    ensures Pow2(7) == 128 && Pow2(8) == 256 && Pow2(32) == 0x1_0000_0000
  {
    assert Pow2(7) == 128;
    assert Pow2(8) == 256;
    Pow2Adds(8, 8);
    Pow2Adds(16, 16);
    assert Pow2(16) == 0x1_0000;
  }

  // ---- what the operators mean ----

  lemma {:induction false} XorCancels(x: nat, y: nat)
    ensures Xor(Xor(x, y), y) == x
    decreases x
  {
    if x == 0 {
      XorSelf(y);
    } else if y == 0 {
    } else {
      XorCancels(x / 2, y / 2);
      var z := Xor(x, y);
      assert z / 2 == Xor(x / 2, y / 2) && z % 2 == if x % 2 != y % 2 then 1 else 0;
      if z == 0 {
        assert Xor(z, y) == y;
        assert Xor(z / 2, y / 2) == y / 2;
      }
    }
  }

  lemma XorSelf(x: nat)
    ensures Xor(x, x) == 0
  {
  }

  lemma {:induction false} XorBound(x: nat, y: nat, n: nat)
    requires x < Pow2(n) && y < Pow2(n)
    ensures Xor(x, y) < Pow2(n)
    decreases n
  {
    if n > 0 && x > 0 && y > 0 {
      XorBound(x / 2, y / 2, n - 1);
    }
  }

  /** Masking with `n` ones keeps the low `n` bits. */
  lemma {:induction false} AndLow(x: nat, n: nat)
    ensures And(x, Pow2(n) - 1) == Low(x, n)
    decreases n
  {
    if n > 0 && x > 0 {
      AndLow(x / 2, n - 1);
      assert (Pow2(n) - 1) / 2 == Pow2(n - 1) - 1 && (Pow2(n) - 1) % 2 == 1;
    } else if n > 0 {
      LowOfZero(n);
    }
  }

  lemma LowOfZero(n: nat)
    ensures Low(0, n) == 0
  {
  }

  /** Masking with one bit asks for that bit. */
  lemma {:induction false} AndBit(x: nat, n: nat)
    ensures And(x, Pow2(n)) == if x / Pow2(n) % 2 == 1 then Pow2(n) else 0
    decreases n
  {
    if n == 0 {
      AndHalves(x, 1);
      AndZero(x / 2);
    } else {
      AndHalves(x, Pow2(n));
      hide And, Pow2;
      Pow2Step(n);
      AndBit(x / 2, n - 1);
      HalfStep(x, Pow2(n - 1));
    }
  }

  lemma AndZero(x: nat)
    ensures And(x, 0) == 0
  {
  }

  lemma Pow2Step(n: nat)
    requires n > 0
    ensures Pow2(n) == 2 * Pow2(n - 1) && Pow2(n) % 2 == 0 && Pow2(n) / 2 == Pow2(n - 1)
  {
    Doubled(Pow2(n - 1), 0);
  }

  /** Shifts multiply and divide by a power of two, and `Low` is the remainder. */
  lemma {:induction false} ShiftsMean(x: nat, c: nat)
    ensures Shl(x, c) == x * Pow2(c)
    ensures Shr(x, c) == x / Pow2(c)
    ensures Low(x, c) == x % Pow2(c)
  {
    if c > 0 {
      ShlMeans(x, c);
      ShiftsMean(x / 2, c - 1);
      HalfStep(x, Pow2(c - 1));
    }
  }

  lemma {:induction false} ShlMeans(x: nat, c: nat)
    ensures Shl(x, c) == x * Pow2(c)
  {
    if c > 0 {
      ShlMeans(x, c - 1);
      MulTwice(x, Pow2(c - 1));
    }
  }

  /** Every number is its high bits above its low ones. */
  lemma {:induction false} SplitsAt(x: nat, n: nat)
    ensures x == Shl(Shr(x, n), n) + Low(x, n)
  {
    if n > 0 {
      SplitsAt(x / 2, n - 1);
    }
  }

  /** And only one way. */
  lemma {:induction false} JoinedAt(h: nat, l: nat, n: nat)
    requires l < Pow2(n)
    ensures Shr(Shl(h, n) + l, n) == h && Low(Shl(h, n) + l, n) == l
    decreases n
  {
    if n > 0 {
      JoinedAt(h, l / 2, n - 1);
      assert (Shl(h, n) + l) / 2 == Shl(h, n - 1) + l / 2;
    }
  }

  lemma {:induction false} ShrBound(x: nat, m: nat, n: nat)
    requires x < Pow2(m + n)
    ensures Shr(x, n) < Pow2(m)
    decreases n
  {
    if n > 0 {
      ShrBound(x / 2, m, n - 1);
    }
  }

  lemma {:induction false} ShlBound(x: nat, m: nat, n: nat)
    requires x < Pow2(m)
    ensures Shl(x, n) + Pow2(n) <= Pow2(m + n)
  {
    if n > 0 {
      ShlBound(x, m, n - 1);
    }
  }

  lemma {:induction false} LowOfShl(x: nat, m: nat, n: nat)
    ensures Low(Shl(x, n), m + n) == Shl(Low(x, m), n)
    decreases n
  {
    if n > 0 {
      LowOfShl(x, m, n - 1);
    }
  }

  lemma OrComm(x: nat, y: nat)
    ensures Or(x, y) == Or(y, x)
  {
  }

  /** A number with `n` low zeros, or-ed with one below two to the `n`, is their sum. */
  lemma {:induction false} OrAdds(x: nat, y: nat, n: nat)
    requires y < Pow2(n)
    ensures Or(Shl(x, n), y) == Shl(x, n) + y
    decreases n
  {
    if n > 0 {
      OrAdds(x, y / 2, n - 1);
      OrHalves(Shl(x, n), y);
    }
  }

  lemma OrHalves(x: nat, y: nat)
    ensures Or(x, y) == (if x % 2 == 1 || y % 2 == 1 then 1 else 0) + 2 * Or(x / 2, y / 2)
  {
  }

  lemma Doubled(a: nat, l: nat)
    ensures (2 * a + l) / 2 == a + l / 2 && (2 * a + l) % 2 == l % 2
  {
  }

  lemma AndHalves(x: nat, y: nat)
    ensures And(x, y) == (if x % 2 == 1 && y % 2 == 1 then 1 else 0) + 2 * And(x / 2, y / 2)
  {
  }

  lemma XorHalves(x: nat, y: nat)
    ensures Xor(x, y) == (if x % 2 != y % 2 then 1 else 0) + 2 * Xor(x / 2, y / 2)
  {
  }

  /** Bit `n` of a number, from the least. */
  function Bit(x: nat, n: nat): nat {
    x / Pow2(n) % 2
  }

  lemma BitOfHalf(x: nat, n: nat)
    requires n > 0
    ensures Bit(x, n) == Bit(x / 2, n - 1)
  {
    HalfStep(x, Pow2(n - 1));
  }

  lemma LastBit(x: nat)
    ensures Bit(x, 0) == x % 2
  {
  }

  /** The operators work bit by bit: bit `n` of `&`, `|` and `^` is what theirs come to, for every `n`. */
  lemma {:induction false} BitByBit(x: nat, y: nat, n: nat)
    ensures Bit(And(x, y), n) == 1 <==> Bit(x, n) == 1 && Bit(y, n) == 1
    ensures Bit(Or(x, y), n) == 1 <==> Bit(x, n) == 1 || Bit(y, n) == 1
    ensures Bit(Xor(x, y), n) == 1 <==> Bit(x, n) != Bit(y, n)
    decreases n
  {
    AndHalves(x, y);
    OrHalves(x, y);
    XorHalves(x, y);
    hide And, Or, Xor, Bit;
    if n == 0 {
      LastBit(x);
      LastBit(y);
      LastBit(And(x, y));
      LastBit(Or(x, y));
      LastBit(Xor(x, y));
    } else {
      BitByBit(x / 2, y / 2, n - 1);
      BitOfHalf(x, n);
      BitOfHalf(y, n);
      BitOfHalf(And(x, y), n);
      BitOfHalf(Or(x, y), n);
      BitOfHalf(Xor(x, y), n);
    }
  }

  /** What `^` leaves out of a sum is what is carried. */
  lemma {:induction false} XorAdds(x: nat, y: nat)
    ensures Xor(x, y) + 2 * And(x, y) == x + y
    decreases x + y
  {
    if x + y > 0 {
      XorAdds(x / 2, y / 2);
      XorHalves(x, y);
      AndHalves(x, y);
    }
  }

  lemma ShlStep(x: nat, n: nat)
    requires n > 0
    ensures Shl(x, n) == 2 * Shl(x, n - 1)
  {
  }

  lemma HalvesOf(h: nat, l: nat, n: nat)
    requires n > 0
    ensures (Shl(h, n) + l) / 2 == Shl(h, n - 1) + l / 2 && (Shl(h, n) + l) % 2 == l % 2
  {
    hide Shl;
    ShlStep(h, n);
    Doubled(Shl(h, n - 1), l);
  }

  lemma HalfBelow(l: nat, n: nat)
    requires n > 0 && l < Pow2(n)
    ensures l / 2 < Pow2(n - 1)
  {
  }

  /** `&` works on the low `n` bits and on the rest apart. */
  lemma {:induction false} AndSplits(h1: nat, l1: nat, h2: nat, l2: nat, n: nat)
    requires l1 < Pow2(n) && l2 < Pow2(n)
    ensures And(Shl(h1, n) + l1, Shl(h2, n) + l2) == Shl(And(h1, h2), n) + And(l1, l2)
    decreases n
  {
    if n > 0 {
      hide And, Shl, Pow2;
      HalfBelow(l1, n);
      HalfBelow(l2, n);
      AndSplits(h1, l1 / 2, h2, l2 / 2, n - 1);
      HalvesOf(h1, l1, n);
      HalvesOf(h2, l2, n);
      AndHalves(Shl(h1, n) + l1, Shl(h2, n) + l2);
      AndHalves(l1, l2);
      ShlStep(And(h1, h2), n);
    }
  }
}

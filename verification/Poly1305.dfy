/** The one-time authenticator of section 2.5 of RFC 8439, as `_poly1305` accumulates it. */
module Poly1305 {
  import opened Bits
  import opened Bytes

  /** 2^130 - 5 */
  const P: nat := 0x3_FFFF_FFFF_FFFF_FFFF_FFFF_FFFF_FFFF_FFFB
  const TWO128: nat := 0x1_0000_0000_0000_0000_0000_0000_0000_0000
  const CLAMP: nat := 0x0FFF_FFFC_0FFF_FFFC_0FFF_FFFC_0FFF_FFFF

  type OneTimeKey = k: seq<Byte> | |k| == 32 witness Zeros(32)

  function Min(a: nat, b: nat): nat {
    if a <= b then a else b
  }

  /** `message[i:i + 16] + b"\x01"` read as a number. */
  function Coefficient(block: seq<Byte>): nat {
    FromLe(block + [1])
  }

  /** The coefficients c_1 .. c_q of a message, a block of 16 bytes each, the last perhaps shorter. */
  function Coefficients(message: seq<Byte>): (cs: seq<nat>)
    ensures |cs| == (|message| + 15) / 16
  {
    if |message| == 0 then []
    else [Coefficient(message[..Min(16, |message|)])] + Coefficients(message[Min(16, |message|)..])
  }

  function Pow(r: nat, n: nat): nat {
    if n == 0 then 1 else Pow(r, n - 1) * r
  }

  /** c_1 * r^q + c_2 * r^(q-1) + ... + c_q * r */
  function PolySum(cs: seq<nat>, r: nat): nat {
    if |cs| == 0 then 0 else cs[0] * Pow(r, |cs|) + PolySum(cs[1..], r)
  }

  /** The clamped first half of the one-time key. */
  function R(key: OneTimeKey): nat {
    And(FromLe(key[..16]), CLAMP)
  }

  function S(key: OneTimeKey): nat {
    FromLe(key[16..])
  }

  /** Section 2.5: the polynomial at `r` modulo 2^130 - 5, plus `s`, modulo 2^128. Said of every sum that
      is the message's, so that a proof which does not speak of the sum is not handed it. */
  ghost predicate IsMac(key: OneTimeKey, message: seq<Byte>, tag: seq<Byte>) {
    && |tag| == 16
    && forall cs, r {:trigger PolySum(cs, r)} :: cs == Coefficients(message) && r == R(key)
         ==> tag == ToLe((PolySum(cs, r) % P + S(key)) % TWO128, 16)
  }

  lemma MacExists(key: OneTimeKey, message: seq<Byte>)
    ensures exists tag: seq<Byte> :: IsMac(key, message, tag)
  {
    hide PolySum, Coefficients, R, S, ToLe;
    assert IsMac(key, message, ToLe((PolySum(Coefficients(message), R(key)) % P + S(key)) % TWO128, 16));
  }

  ghost function Mac(key: OneTimeKey, message: seq<Byte>): (tag: seq<Byte>)
    ensures |tag| == 16
  {
    MacExists(key, message);
    var tag: seq<Byte> :| IsMac(key, message, tag);
    tag
  }

  lemma MacBySum(key: OneTimeKey, message: seq<Byte>)
    ensures Mac(key, message) == ToLe((PolySum(Coefficients(message), R(key)) % P + S(key)) % TWO128, 16)
  {
    hide PolySum, Coefficients, R, S, ToLe;
    var cs, r := Coefficients(message), R(key);
    assert PolySum(cs, r) >= 0;
  }

  /** What the loop has accumulated `i` bytes into the message. */
  function SumTo(message: seq<Byte>, i: nat, r: nat): (acc: nat)
    ensures acc < P
  {
    PolySum(Coefficients(message[..Min(i, |message|)]), r) % P
  }

  function BlockAt(message: seq<Byte>, i: nat): nat
    requires i < |message|
  {
    Coefficient(message[i..Min(i + 16, |message|)])
  }

  /** `_poly1305`: the polynomial summed block by block, reduced at every step. */
  method Accumulate(key: OneTimeKey, message: seq<Byte>) returns (tag: seq<Byte>)
    ensures tag == Mac(key, message)
  {
    hide SumTo, BlockAt, PolySum, Coefficients, And, FromLe, ToLe;
    var r := And(FromLe(key[..16]), CLAMP);
    var s := FromLe(key[16..]);
    var acc, i := 0, 0;
    SumStarts(message, r);
    while i < |message|
      invariant i % 16 == 0
      invariant acc == SumTo(message, i, r) < P
    {
      SumStep(message, i, r);
      acc := (acc + BlockAt(message, i)) * r % P;
      i := i + 16;
    }
    SumEnds(message, i, r);
    MacBySum(key, message);
    tag := ToLe((acc + s) % TWO128, 16);
  }

  lemma SumStarts(message: seq<Byte>, r: nat)
    ensures SumTo(message, 0, r) == 0
  {
    NoBlocks(r);
  }

  /** What one pass of the loop adds. */
  lemma SumStep(message: seq<Byte>, i: nat, r: nat)
    requires i < |message| && i % 16 == 0
    ensures SumTo(message, i + 16, r) == (SumTo(message, i, r) + BlockAt(message, i)) * r % P
  {
    hide PolySum, Coefficients, Coefficient;
    var before := message[..i];
    var block := message[i..Min(i + 16, |message|)];
    BlockAppends(before, block);
    assert before + block == message[..Min(i + 16, |message|)];
    SumAppends(Coefficients(before), Coefficient(block), r);
    ReducedStep(PolySum(Coefficients(before), r), Coefficient(block), r, P);
  }

  lemma SumEnds(message: seq<Byte>, i: nat, r: nat)
    requires i >= |message|
    ensures SumTo(message, i, r) == PolySum(Coefficients(message), r) % P
  {
    assert message[..Min(i, |message|)] == message;
  }

  lemma NoBlocks(r: nat)
    ensures PolySum(Coefficients([]), r) == 0
  {
  }

  /** A block appended to whole blocks appends its coefficient. */
  lemma {:induction false} BlockAppends(whole: seq<Byte>, block: seq<Byte>)
    requires |whole| % 16 == 0 && 0 < |block| <= 16
    ensures Coefficients(whole + block) == Coefficients(whole) + [Coefficient(block)]
  {
    hide Coefficient;
    if |whole| == 0 {
      assert whole + block == block;
      assert block[..|block|] == block && block[|block|..] == [];
    } else {
      assert (whole + block)[..16] == whole[..16];
      assert (whole + block)[16..] == whole[16..] + block;
      BlockAppends(whole[16..], block);
    }
  }

  lemma Horner(a: nat, p: nat, x: nat, r: nat)
    ensures a * (p * r) + x * r == (a * p + x) * r
  {
  }

  /** Horner's rule. */
  lemma {:induction false} SumAppends(cs: seq<nat>, c: nat, r: nat)
    ensures PolySum([], r) == 0
    ensures PolySum(cs + [c], r) == (PolySum(cs, r) + c) * r
  {
    if |cs| == 0 {
      assert cs + [c] == [c];
      assert [c][1..] == [];
      assert PolySum([c], r) == c * Pow(r, 1);
      assert Pow(r, 1) == r;
    } else {
      assert (cs + [c])[1..] == cs[1..] + [c];
      SumAppends(cs[1..], c, r);
      Horner(cs[0], Pow(r, |cs|), PolySum(cs[1..], r) + c, r);
    }
  }

  lemma ModPlus(y: nat, p: nat, k: nat)
    requires p > 0
    ensures (y + k * p) % p == y % p
  {
    MulAdds(y / p, k, p);
    DivModUnique(y + k * p, p, y / p + k, y % p);
  }

  lemma Distribute(q: nat, p: nat, m: nat, c: nat, r: nat)
    ensures (q * p + m + c) * r == (m + c) * r + (q * r) * p
  {
    MulAdds(q * p, m + c, r);
    Swap(q, p, r);
  }

  lemma Swap(q: nat, p: nat, r: nat)
    ensures q * p * r == q * r * p
  {
  }

  /** Reducing before a step changes nothing modulo `p`. */
  lemma ReducedStep(x: nat, c: nat, r: nat, p: nat)
    requires p > 0
    ensures (x % p + c) * r % p == (x + c) * r % p
  {
    var q := x / p;
    var m := x % p;
    assert x == q * p + m;
    Distribute(q, p, m, c, r);
    ModPlus((m + c) * r, p, q * r);
  }

  // ---- what the coefficients and the clamp are ----

  lemma ModulusIsRfc()
    ensures P == Pow2(130) - 5 && TWO128 == Pow2(128)
  {
    Pow2Known();
    Pow2Adds(32, 32);
    Pow2Adds(64, 64);
    Pow2Adds(128, 2);
  }

  lemma OneByte()
    ensures FromLe([1]) == 1
  {
    assert [1][1..] == [];
  }

  lemma CoefficientSplits(block: seq<Byte>)
    ensures Coefficient(block) == FromLe(block) + Pow256(|block|)
  {
    hide FromLe;
    FromLeConcat(block, [1]);
    OneByte();
  }

  lemma {:induction false} Pow256Grows(m: nat, n: nat)
    requires m < n
    ensures 2 * Pow256(m) <= Pow256(n)
    decreases n
  {
    if m < n - 1 {
      Pow256Grows(m, n - 1);
    }
  }

  /** The byte put above a block tells its length, so blocks with one coefficient are one block. */
  lemma CoefficientInjective(a: seq<Byte>, b: seq<Byte>)
    requires Coefficient(a) == Coefficient(b)
    ensures a == b
  {
    CoefficientSplits(a);
    CoefficientSplits(b);
    FromLeBound(a);
    FromLeBound(b);
    if |a| < |b| {
      Pow256Grows(|a|, |b|);
    } else if |b| < |a| {
      Pow256Grows(|b|, |a|);
    } else {
      LeLaysBack(a);
      LeLaysBack(b);
    }
  }

  /** No two messages have the same coefficients, whatever their lengths. */
  lemma {:induction false} CoefficientsInjective(a: seq<Byte>, b: seq<Byte>)
    requires Coefficients(a) == Coefficients(b)
    ensures a == b
    decreases |a|
  {
    hide Coefficient;
    if |a| == 0 || |b| == 0 {
      assert |Coefficients(a)| == |Coefficients(b)|;
    } else {
      var i, j := Min(16, |a|), Min(16, |b|);
      assert Coefficients(a)[0] == Coefficient(a[..i]) && Coefficients(b)[0] == Coefficient(b[..j]);
      CoefficientInjective(a[..i], b[..j]);
      assert Coefficients(a)[1..] == Coefficients(a[i..]) && Coefficients(b)[1..] == Coefficients(b[j..]);
      CoefficientsInjective(a[i..], b[j..]);
      assert a == a[..i] + a[i..] && b == b[..j] + b[j..];
    }
  }

  /** Two messages have one tag under a one-time key exactly when their polynomials there, reduced, agree
      modulo 2^128. */
  lemma SameTagExactly(key: OneTimeKey, a: seq<Byte>, b: seq<Byte>)
    ensures Mac(key, a) == Mac(key, b)
       <==> (PolySum(Coefficients(a), R(key)) % P) % TWO128 == (PolySum(Coefficients(b), R(key)) % P) % TWO128
  {
    hide PolySum, Coefficients, R, S, ToLe;
    var x, y := PolySum(Coefficients(a), R(key)) % P, PolySum(Coefficients(b), R(key)) % P;
    SixteenBytes();
    MacBySum(key, a);
    MacBySum(key, b);
    if Mac(key, a) == Mac(key, b) {
      LeInjective((x + S(key)) % TWO128, (y + S(key)) % TWO128, 16);
    }
    ShiftedEqually(x, y, S(key));
  }

  lemma SixteenBytes()
    ensures Pow256(16) == TWO128
  {
    FourBytes();
    assert Pow256(8) == 0x1_0000_0000_0000_0000;
    assert Pow256(12) == 0x1_0000_0000_0000_0000_0000_0000;
  }

  lemma ShiftedEqually(x: nat, y: nat, s: nat)
    ensures (x + s) % TWO128 == (y + s) % TWO128 <==> x % TWO128 == y % TWO128
  {
  }

  /** Coefficient `k` is the `k`th sixteen bytes of the message, or those there are, least byte first, with a
      byte of one above them. */
  lemma {:induction false} CoefficientAt(message: seq<Byte>, k: nat)
    requires 16 * k < |message|
    ensures var block := message[16 * k..if 16 * k + 16 <= |message| then 16 * k + 16 else |message|];
            Coefficients(message)[k] == FromLe(block) + Pow256(|block|)
  {
    hide FromLe, Pow256, Coefficient;
    var n := Min(16, |message|);
    if k == 0 {
      CoefficientSplits(message[..n]);
    } else {
      var rest := message[16..];
      CoefficientAt(rest, k - 1);
      SliceBehind(message, 16 * k, Min(16 * k + 16, |message|));
      assert Coefficients(message)[k] == Coefficients(rest)[k - 1];
    }
  }

  lemma SliceBehind(message: seq<Byte>, from: nat, to: nat)
    requires 16 <= from <= to <= |message|
    ensures message[16..][from - 16..to - 16] == message[from..to]
  {
  }

  /** `s` is the second half of the key. */
  lemma SIsSecondHalf(key: OneTimeKey)
    ensures ToLe(S(key), 16) == key[16..]
  {
    LeLaysBack(key[16..]);
  }

  /** Section 2.5 from the key's two halves: the tag, read least byte first, is the polynomial at the clamped
      first half modulo 2^130 - 5, plus the second half, modulo 2^128. */
  lemma TagIsRfc(key: OneTimeKey, message: seq<Byte>, r: nat)
    requires r < 0x1_0000_0000_0000_0000_0000_0000_0000_0000
    requires forall i :: 0 <= i < 16 ==>
               ToLe(r, 16)[i] == if i % 4 == 3 then key[i] % 16
                                 else if i == 4 || i == 8 || i == 12 then key[i] - key[i] % 4
                                 else key[i]
    ensures FromLe(Mac(key, message))
         == (PolySum(Coefficients(message), r) % 0x3_FFFF_FFFF_FFFF_FFFF_FFFF_FFFF_FFFF_FFFB + FromLe(key[16..]))
            % 0x1_0000_0000_0000_0000_0000_0000_0000_0000
  {
    hide PolySum, Coefficients, R, S, ToLe, FromLe;
    RIsClamped(key);
    RBelow(key);
    SixteenBytes();
    assert ToLe(r, 16) == ToLe(R(key), 16);
    LeInjective(r, R(key), 16);
    MacBySum(key, message);
    LeRoundTrip((PolySum(Coefficients(message), r) % P + S(key)) % TWO128, 16);
    SIs(key);
  }

  lemma RBelow(key: OneTimeKey)
    ensures R(key) < TWO128
  {
    hide And, FromLe;
    AndBound(FromLe(key[..16]), CLAMP);
    FromLeBound(key[..16]);
    SixteenBytes();
  }

  lemma SIs(key: OneTimeKey)
    ensures S(key) == FromLe(key[16..])
  {
  }

  /** What the clamp leaves of a byte. */
  function Clamped(i: nat, b: Byte): Byte {
    if i % 4 == 3 then b % 16
    else if i == 4 || i == 8 || i == 12 then b - b % 4
    else b
  }

  function ClampBytes(): (bs: seq<Byte>)
    ensures |bs| == 16
  {
    [255, 255, 255, 15, 252, 255, 255, 15, 252, 255, 255, 15, 252, 255, 255, 15]
  }

  lemma FromLeOfWord(bs: seq<Byte>, b0: Byte, b1: Byte, b2: Byte, b3: Byte)
    requires |bs| >= 4 && bs[0] == b0 && bs[1] == b1 && bs[2] == b2 && bs[3] == b3
    ensures FromLe(bs) == b0 + 0x100 * b1 + 0x1_0000 * b2 + 0x100_0000 * b3 + 0x1_0000_0000 * FromLe(bs[4..])
  {
    assert bs[1..][1..] == bs[2..];
    assert bs[2..][1..] == bs[3..];
    assert bs[3..][1..] == bs[4..];
    assert FromLe(bs[3..]) == b3 + 0x100 * FromLe(bs[4..]);
    assert FromLe(bs[2..]) == b2 + 0x100 * FromLe(bs[3..]);
    assert FromLe(bs[1..]) == b1 + 0x100 * FromLe(bs[2..]);
  }

  lemma ClampBytesAre()
    ensures FromLe(ClampBytes()) == CLAMP
  {
    hide FromLe;
    var bs := ClampBytes();
    FromLeOfWord(bs, 255, 255, 255, 15);
    FromLeOfWord(bs[4..], 252, 255, 255, 15);
    assert bs[4..][4..] == bs[8..];
    FromLeOfWord(bs[8..], 252, 255, 255, 15);
    assert bs[8..][4..] == bs[12..];
    FromLeOfWord(bs[12..], 252, 255, 255, 15);
    assert bs[12..][4..] == [];
    FromLeOfNone();
  }

  lemma FromLeOfNone()
    ensures FromLe([]) == 0
  {
  }

  lemma MaskLow(b: Byte)
    ensures AndByte(b, 255) == b && AndByte(b, 15) == b % 16
  {
    hide And, Low;
    assert Pow2(8) == 256 && Pow2(4) == 16;
    AndLow(b, 8);
    ShiftsMean(b, 8);
    AndLow(b, 4);
    ShiftsMean(b, 4);
  }

  lemma MaskHigh(b: Byte)
    ensures AndByte(b, 252) == b - b % 4
  {
    hide And, Shl;
    var h, l := b / 4, b % 4;
    FourIsPow2();
    ShlMeans(h, 2);
    ShlMeans(63, 2);
    AndSplits(h, l, 63, 0, 2);
    HighKept(h);
    AndZero(l);
  }

  lemma FourIsPow2()
    ensures Pow2(2) == 4
  {
  }

  lemma HighKept(h: nat)
    requires h < 64
    ensures Shl(And(h, 63), 2) == 4 * h
  {
    hide And, Low, Shl, Shr;
    assert Pow2(6) == 64;
    AndLow(h, 6);
    ShiftsMean(h, 6);
    ShlMeans(h, 2);
    FourIsPow2();
  }

  lemma RByBytes(key: OneTimeKey)
    ensures ToLe(R(key), 16) == seq(16, i requires 0 <= i < 16 => Clamped(i, key[i]))
  {
    hide And, ClampBytes;
    var half := key[..16];
    ClampBytesAre();
    AndByBytes(half, ClampBytes());
    var both := seq(16, i requires 0 <= i < 16 => AndByte(half[i], ClampBytes()[i]));
    assert both == seq(|half|, i requires 0 <= i < |half| => AndByte(half[i], ClampBytes()[i]));
    LeLaysBack(both);
    forall i | 0 <= i < 16
      ensures both[i] == Clamped(i, key[i])
    {
      ClampByteAt(i);
      MaskLow(key[i]);
      MaskHigh(key[i]);
    }
  }

  /** `r` is the first half of the key with exactly the bits section 2.5 clears cleared: bytes 3, 7, 11 and 15
      lose their top four bits, bytes 4, 8 and 12 their bottom two. */
  lemma RIsClamped(key: OneTimeKey)
    ensures forall i :: 0 <= i < 16 ==>
              ToLe(R(key), 16)[i] == if i % 4 == 3 then key[i] % 16
                                     else if i == 4 || i == 8 || i == 12 then key[i] - key[i] % 4
                                     else key[i]
  {
    hide R, ToLe;
    RByBytes(key);
  }

  lemma ClampByteAt(i: nat)
    requires i < 16
    ensures ClampBytes()[i] == if i % 4 == 3 then 15 else if i == 4 || i == 8 || i == 12 then 252 else 255
  {
  }
}

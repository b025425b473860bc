/** The ChaCha permutation, its block function and HChaCha20 (sections 2.1 to 2.3 of RFC 8439 and
    section 2.2 of draft-irtf-cfrg-xchacha), as `e2e/backup/run.py` computes them: over a list of
    Python integers updated in place, each sum masked to 32 bits. */
module ChaCha {
  import opened Bits
  import opened Bytes

  const M32: nat := 0xFFFF_FFFF
  const TWO32: nat := 0x1_0000_0000

  // ---- words: the source's mask and shifts, and RFC 8439's modular sum and rotation ----

  /** The source's rotation: a masked left shift, or-ed with a right shift. */
  function Rotl(v: nat, c: nat): nat
    requires c <= 32
  {
    Or(And(Shl(v, c), M32), Shr(v, 32 - c))
  }

  /** Section 2.1's `<<<`: the low `32 - c` bits of a word moved up past its top `c`. */
  function RotateLeft(v: nat, c: nat): nat
    requires c <= 32
  {
    Shl(Low(v, 32 - c), c) + Shr(v, 32 - c)
  }

  lemma Masked(x: nat)
    ensures And(x, M32) == x % TWO32
  {
    Pow2Known();
    AndLow(x, 32);
    ShiftsMean(x, 32);
  }

  lemma RotateLeftWord(v: nat, c: nat)
    requires v < TWO32 && c <= 32
    ensures Shr(v, 32 - c) < Pow2(c)
    ensures RotateLeft(v, c) < TWO32
  {
    Pow2Known();
    ShrBound(v, c, 32 - c);
    ShlBound(Low(v, 32 - c), 32 - c, c);
  }

  /** The masked shift-and-or is the rotation of a word, and a word again. */
  lemma RotlRotates(v: nat, c: nat)
    requires v < TWO32 && c <= 32
    ensures Rotl(v, c) == RotateLeft(v, c) < TWO32
  {
    RotateLeftWord(v, c);
    Pow2Known();
    AndLow(Shl(v, c), 32);
    LowOfShl(v, 32 - c, c);
    OrAdds(Low(v, 32 - c), Shr(v, 32 - c), c);
  }

  /** In numbers: the word times two to the `c`, what goes past its top put at its bottom. */
  lemma RotateLeftMeans(v: nat, c: nat)
    requires c <= 32
    ensures RotateLeft(v, c) == v * Pow2(c) % 0x1_0000_0000 + v / Pow2(32 - c)
  {
    Pow2Known();
    LowOfShl(v, 32 - c, c);
    ShiftsMean(Shl(v, c), 32);
    ShlMeans(v, c);
    ShiftsMean(v, 32 - c);
  }

  /** Rotating on by the rest of a word's 32 places undoes a rotation. */
  lemma RotateBack(v: nat, c: nat)
    requires v < TWO32 && c <= 32
    ensures RotateLeft(v, c) < TWO32
    ensures RotateLeft(RotateLeft(v, c), 32 - c) == v
  {
    hide Shl, Shr, Low;
    RotateLeftWord(v, c);
    JoinedAt(Low(v, 32 - c), Shr(v, 32 - c), c);
    SplitsAt(v, 32 - c);
  }

  // ---- one step of the quarter round: add, exclusive-or, rotate ----

  /** The source's `x = (x + y) & M32; z = _rotl(z ^ x, m)`: the new `x` and `z`. */
  function Step(x: nat, y: nat, z: nat, m: nat): (nat, nat)
    requires m <= 32
  {
    var sum := And(x + y, M32);
    (sum, Rotl(Xor(z, sum), m))
  }

  /** Section 2.1's `x += y; z ^= x; z <<<= m`. */
  function Arx(x: nat, y: nat, z: nat, m: nat): (nat, nat)
    requires m <= 32
  {
    var sum := (x + y) % TWO32;
    (sum, RotateLeft(Xor(z, sum), m))
  }

  /** `x - y` modulo 2^32 */
  function Less(x: nat, y: nat): nat
    requires y < TWO32
  {
    (x + TWO32 - y) % TWO32
  }

  /** The step run backwards. */
  function ArxBack(sum: nat, y: nat, turned: nat, m: nat): (nat, nat)
    requires sum < TWO32 && y < TWO32 && m <= 32
  {
    (Less(sum, y), Xor(RotateLeft(turned, 32 - m), sum))
  }

  lemma XorWord(a: nat, b: nat)
    requires a < TWO32 && b < TWO32
    ensures Xor(a, b) < TWO32
    ensures Xor(Xor(a, b), b) == a
  {
    Pow2Known();
    XorBound(a, b, 32);
    XorCancels(a, b);
  }

  lemma StepIsArx(x: nat, y: nat, z: nat, m: nat)
    requires x < TWO32 && y < TWO32 && z < TWO32 && m <= 32
    ensures Step(x, y, z, m) == Arx(x, y, z, m)
    ensures Arx(x, y, z, m).0 < TWO32 && Arx(x, y, z, m).1 < TWO32
  {
    var sum := (x + y) % TWO32;
    Masked(x + y);
    XorWord(z, sum);
    RotlRotates(Xor(z, sum), m);
  }

  lemma SumBack(x: nat, y: nat)
    requires x < TWO32 && y < TWO32
    ensures Less((x + y) % TWO32, y) == x
    ensures (Less(x, y) + y) % TWO32 == x
  {
    if x + y < TWO32 {
      assert (x + y) % TWO32 == x + y;
    } else {
      assert (x + y) % TWO32 == x + y - TWO32;
    }
    if x >= y {
      assert (x + TWO32 - y) % TWO32 == x - y;
    } else {
      assert (x + TWO32 - y) % TWO32 == x + TWO32 - y;
    }
  }

  lemma ArxForthAndBack(x: nat, y: nat, z: nat, m: nat)
    requires x < TWO32 && y < TWO32 && z < TWO32 && m <= 32
    ensures var (sum, turned) := Arx(x, y, z, m);
            sum < TWO32 && turned < TWO32 && ArxBack(sum, y, turned, m) == (x, z)
  {
    var sum := (x + y) % TWO32;
    XorWord(z, sum);
    RotateBack(Xor(z, sum), m);
    SumBack(x, y);
  }

  lemma ArxBackAndForth(sum: nat, y: nat, turned: nat, m: nat)
    requires sum < TWO32 && y < TWO32 && turned < TWO32 && m <= 32
    ensures var (x, z) := ArxBack(sum, y, turned, m);
            x < TWO32 && z < TWO32 && Arx(x, y, z, m) == (sum, turned)
  {
    RotateBack(turned, 32 - m);
    XorWord(RotateLeft(turned, 32 - m), sum);
    SumBack(sum, y);
  }

  // ---- the quarter round ----

  datatype Quad = Quad(a: nat, b: nat, c: nat, d: nat) {
    predicate Words() {
      a < TWO32 && b < TWO32 && c < TWO32 && d < TWO32
    }
  }

  /** What the source's `qr` leaves in its four places, whatever integers were in them. */
  function Mixed(q: Quad): Quad {
    var (a1, d1) := Step(q.a, q.b, q.d, 16);
    var (c1, b1) := Step(q.c, d1, q.b, 12);
    var (a2, d2) := Step(a1, b1, d1, 8);
    var (c2, b2) := Step(c1, d2, b1, 7);
    Quad(a2, b2, c2, d2)
  }

  /** Section 2.1 of RFC 8439. */
  function QuarterRound(q: Quad): Quad {
    var (a1, d1) := Arx(q.a, q.b, q.d, 16);
    var (c1, b1) := Arx(q.c, d1, q.b, 12);
    var (a2, d2) := Arx(a1, b1, d1, 8);
    var (c2, b2) := Arx(c1, d2, b1, 7);
    Quad(a2, b2, c2, d2)
  }

  /** The quarter round run backwards, step by step. */
  function InverseQuarter(q: Quad): Quad
    requires q.Words()
  {
    var (c1, b1) := ArxBack(q.c, q.d, q.b, 7);
    ArxBackAndForth(q.c, q.d, q.b, 7);
    var (a1, d1) := ArxBack(q.a, b1, q.d, 8);
    ArxBackAndForth(q.a, b1, q.d, 8);
    var (c, b) := ArxBack(c1, d1, b1, 12);
    ArxBackAndForth(c1, d1, b1, 12);
    var (a, d) := ArxBack(a1, b, d1, 16);
    Quad(a, b, c, d)
  }

  lemma QuarterForthAndBack(q: Quad)
    requires q.Words()
    ensures QuarterRound(q).Words() && InverseQuarter(QuarterRound(q)) == q
  {
    var (a1, d1) := Arx(q.a, q.b, q.d, 16);
    ArxForthAndBack(q.a, q.b, q.d, 16);
    var (c1, b1) := Arx(q.c, d1, q.b, 12);
    ArxForthAndBack(q.c, d1, q.b, 12);
    var (a2, d2) := Arx(a1, b1, d1, 8);
    ArxForthAndBack(a1, b1, d1, 8);
    ArxForthAndBack(c1, d2, b1, 7);
  }

  lemma QuarterBackAndForth(q: Quad)
    requires q.Words()
    ensures InverseQuarter(q).Words() && QuarterRound(InverseQuarter(q)) == q
  {
    var (c1, b1) := ArxBack(q.c, q.d, q.b, 7);
    ArxBackAndForth(q.c, q.d, q.b, 7);
    var (a1, d1) := ArxBack(q.a, b1, q.d, 8);
    ArxBackAndForth(q.a, b1, q.d, 8);
    var (c, b) := ArxBack(c1, d1, b1, 12);
    ArxBackAndForth(c1, d1, b1, 12);
    ArxBackAndForth(a1, b, d1, 16);
  }

  /** On words, the source's `qr` is section 2.1's quarter round. */
  lemma MixedIsQuarterRound(q: Quad)
    requires q.Words()
    ensures Mixed(q) == QuarterRound(q)
    ensures Mixed(q).Words()
  {
    var (a1, d1) := Arx(q.a, q.b, q.d, 16);
    StepIsArx(q.a, q.b, q.d, 16);
    var (c1, b1) := Arx(q.c, d1, q.b, 12);
    StepIsArx(q.c, d1, q.b, 12);
    var (a2, d2) := Arx(a1, b1, d1, 8);
    StepIsArx(a1, b1, d1, 8);
    StepIsArx(c1, d2, b1, 7);
  }

  lemma FourTurns(v: nat)
    ensures RotateLeft(v, 16) == v * 0x1_0000 % 0x1_0000_0000 + v / 0x1_0000
    ensures RotateLeft(v, 12) == v * 0x1000 % 0x1_0000_0000 + v / 0x10_0000
    ensures RotateLeft(v, 8) == v * 0x100 % 0x1_0000_0000 + v / 0x100_0000
    ensures RotateLeft(v, 7) == v * 0x80 % 0x1_0000_0000 + v / 0x200_0000
  {
    hide RotateLeft;
    RotateLeftMeans(v, 16);
    RotateLeftMeans(v, 12);
    RotateLeftMeans(v, 8);
    RotateLeftMeans(v, 7);
    TurnPowers();
  }

  lemma TurnPowers()
    ensures Pow2(7) == 0x80 && Pow2(8) == 0x100 && Pow2(12) == 0x1000 && Pow2(16) == 0x1_0000
    ensures Pow2(20) == 0x10_0000 && Pow2(24) == 0x100_0000 && Pow2(25) == 0x200_0000
  {
    Pow2Known();
    assert Pow2(12) == 0x1000;
    Pow2Adds(8, 8);
    Pow2Adds(12, 8);
    Pow2Adds(16, 8);
  }

  /** Section 2.1's quarter round in numbers: four sums modulo 2^32, each exclusive-ored into the word turned
      by 16, 12, 8 and 7 places. */
  lemma QuarterRoundIsRfc(q: Quad)
    ensures var a1 := (q.a + q.b) % 0x1_0000_0000;
            var dx := Xor(q.d, a1);
            var d1 := dx * 0x1_0000 % 0x1_0000_0000 + dx / 0x1_0000;
            var c1 := (q.c + d1) % 0x1_0000_0000;
            var bx := Xor(q.b, c1);
            var b1 := bx * 0x1000 % 0x1_0000_0000 + bx / 0x10_0000;
            var a2 := (a1 + b1) % 0x1_0000_0000;
            var dy := Xor(d1, a2);
            var d2 := dy * 0x100 % 0x1_0000_0000 + dy / 0x100_0000;
            var c2 := (c1 + d2) % 0x1_0000_0000;
            var bz := Xor(b1, c2);
            var b2 := bz * 0x80 % 0x1_0000_0000 + bz / 0x200_0000;
            QuarterRound(q) == Quad(a2, b2, c2, d2)
  {
    hide Xor, RotateLeft;
    var (a1, d1) := Arx(q.a, q.b, q.d, 16);
    FourTurns(Xor(q.d, a1));
    var (c1, b1) := Arx(q.c, d1, q.b, 12);
    FourTurns(Xor(q.b, c1));
    var (a2, d2) := Arx(a1, b1, d1, 8);
    FourTurns(Xor(d1, a2));
    var (c2, b2) := Arx(c1, d2, b1, 7);
    FourTurns(Xor(b1, c2));
  }

  // ---- the permutation in place: ten double rounds over a list of sixteen integers ----

  predicate Places(a: nat, b: nat, c: nat, d: nat) {
    a < 16 && b < 16 && c < 16 && d < 16 && a != b && a != c && a != d && b != c && b != d && c != d
  }

  function QuadAt(s: seq<nat>, a: nat, b: nat, c: nat, d: nat): Quad
    requires |s| == 16 && Places(a, b, c, d)
  {
    Quad(s[a], s[b], s[c], s[d])
  }

  function Put(s: seq<nat>, a: nat, b: nat, c: nat, d: nat, q: Quad): (t: seq<nat>)
    requires |s| == 16 && Places(a, b, c, d)
    ensures |t| == 16
  {
    s[a := q.a][b := q.b][c := q.c][d := q.d]
  }

  /** The list after `qr(a, b, c, d)`: four places mixed, the other twelve as they were. */
  function QuarterAt(s: seq<nat>, a: nat, b: nat, c: nat, d: nat): (t: seq<nat>)
    requires |s| == 16 && Places(a, b, c, d)
    ensures |t| == 16
  {
    Put(s, a, b, c, d, Mixed(QuadAt(s, a, b, c, d)))
  }

  /** The places of the `k`th `qr` call of a round of eight: four columns, then four diagonals. */
  function Schedule(k: nat): (p: (nat, nat, nat, nat))
    ensures Places(p.0, p.1, p.2, p.3)
  {
    if k == 0 then (0, 4, 8, 12) else if k == 1 then (1, 5, 9, 13)
    else if k == 2 then (2, 6, 10, 14) else if k == 3 then (3, 7, 11, 15)
    else if k == 4 then (0, 5, 10, 15) else if k == 5 then (1, 6, 11, 12)
    else if k == 6 then (2, 7, 8, 13) else (3, 4, 9, 14)
  }

  /** The list after the first `n` calls of `qr`. */
  function Calls(s: seq<nat>, n: nat): (t: seq<nat>)
    requires |s| == 16
    ensures |t| == 16
  {
    if n == 0 then s
    else
      var (a, b, c, d) := Schedule((n - 1) % 8);
      QuarterAt(Calls(s, n - 1), a, b, c, d)
  }

  /** The list `_rounds` leaves, eighty calls on. Said this way, a proof that does not speak of calls is
      not handed eighty of them. */
  ghost function Permuted(s: seq<nat>): (t: seq<nat>)
    requires |s| == 16
    ensures |t| == 16
  {
    var t: seq<nat> :| |t| == 16 && forall n: nat {:trigger Calls(s, n)} :: n == 80 ==> t == Calls(s, n);
    t
  }

  lemma PermutedByCalls(s: seq<nat>)
    requires |s| == 16
    ensures Permuted(s) == Calls(s, 80)
  {
    hide Calls;
    var n: nat := 80;
    assert |Calls(s, n)| == 16;
  }

  lemma NextCall(s: seq<nat>, round: nat, k: nat)
    requires |s| == 16 && k < 8
    ensures var (a, b, c, d) := Schedule(k);
            Calls(s, 8 * round + k + 1) == QuarterAt(Calls(s, 8 * round + k), a, b, c, d)
  {
    hide QuarterAt;
    assert (8 * round + k) % 8 == k;
  }

  /** `qr`, statement by statement, on the list itself. */
  method Qr(s: array<nat>, a: nat, b: nat, c: nat, d: nat)
    requires s.Length == 16 && Places(a, b, c, d)
    modifies s
    ensures s[..] == QuarterAt(old(s[..]), a, b, c, d)
  {
    hide And, Rotl, Xor;
    ghost var was := s[..];
    s[a] := And(s[a] + s[b], M32);
    s[d] := Rotl(Xor(s[d], s[a]), 16);
    s[c] := And(s[c] + s[d], M32);
    s[b] := Rotl(Xor(s[b], s[c]), 12);
    s[a] := And(s[a] + s[b], M32);
    s[d] := Rotl(Xor(s[d], s[a]), 8);
    s[c] := And(s[c] + s[d], M32);
    s[b] := Rotl(Xor(s[b], s[c]), 7);
    assert Quad(s[a], s[b], s[c], s[d]) == Mixed(QuadAt(was, a, b, c, d));
  }

  lemma NoCalls(s: seq<nat>)
    requires |s| == 16
    ensures Calls(s, 0) == s
  {
  }

  function EightQuarters(s: seq<nat>): (t: seq<nat>)
    requires |s| == 16
    ensures |t| == 16
  {
    FourDiagonalQuarters(FourColumnQuarters(s))
  }

  function FourColumnQuarters(s: seq<nat>): (t: seq<nat>)
    requires |s| == 16
    ensures |t| == 16
  {
    QuarterAt(QuarterAt(QuarterAt(QuarterAt(s, 0, 4, 8, 12), 1, 5, 9, 13), 2, 6, 10, 14), 3, 7, 11, 15)
  }

  function FourDiagonalQuarters(s: seq<nat>): (t: seq<nat>)
    requires |s| == 16
    ensures |t| == 16
  {
    QuarterAt(QuarterAt(QuarterAt(QuarterAt(s, 0, 5, 10, 15), 1, 6, 11, 12), 2, 7, 8, 13), 3, 4, 9, 14)
  }

  lemma EightCalls(s: seq<nat>, round: nat)
    requires |s| == 16
    ensures Calls(s, 8 * (round + 1)) == EightQuarters(Calls(s, 8 * round))
  {
    hide QuarterAt, Calls;
    NextCall(s, round, 0);
    NextCall(s, round, 1);
    NextCall(s, round, 2);
    NextCall(s, round, 3);
    NextCall(s, round, 4);
    NextCall(s, round, 5);
    NextCall(s, round, 6);
    NextCall(s, round, 7);
  }

  /** `_rounds`: the list permuted in place. */
  method Rounds(s: array<nat>)
    requires s.Length == 16
    modifies s
    ensures s[..] == Permuted(old(s[..]))
  {
    hide QuarterAt, Calls;
    ghost var was := s[..];
    NoCalls(was);
    for round := 0 to 10
      invariant s[..] == Calls(was, 8 * round)
    {
      EightCalls(was, round);
      Qr(s, 0, 4, 8, 12); Qr(s, 1, 5, 9, 13); Qr(s, 2, 6, 10, 14); Qr(s, 3, 7, 11, 15);
      Qr(s, 0, 5, 10, 15); Qr(s, 1, 6, 11, 12); Qr(s, 2, 7, 8, 13); Qr(s, 3, 4, 9, 14);
    }
    PermutedByCalls(was);
  }

  // ---- section 2.3's permutation: four quarter rounds side by side ----

  predicate IsState(s: seq<nat>) {
    |s| == 16 && forall i :: 0 <= i < 16 ==> s[i] < TWO32
  }

  /** The four columns, or the four diagonals, of a state seen as a 4 by 4 matrix. */
  datatype Lanes = Lanes(q0: Quad, q1: Quad, q2: Quad, q3: Quad) {
    predicate Words() {
      q0.Words() && q1.Words() && q2.Words() && q3.Words()
    }
  }

  function Columns(s: seq<nat>): Lanes
    requires |s| == 16
  {
    Lanes(Quad(s[0], s[4], s[8], s[12]), Quad(s[1], s[5], s[9], s[13]),
          Quad(s[2], s[6], s[10], s[14]), Quad(s[3], s[7], s[11], s[15]))
  }

  function FromColumns(l: Lanes): seq<nat> {
    [l.q0.a, l.q1.a, l.q2.a, l.q3.a,
     l.q0.b, l.q1.b, l.q2.b, l.q3.b,
     l.q0.c, l.q1.c, l.q2.c, l.q3.c,
     l.q0.d, l.q1.d, l.q2.d, l.q3.d]
  }

  function Diagonals(s: seq<nat>): Lanes
    requires |s| == 16
  {
    Lanes(Quad(s[0], s[5], s[10], s[15]), Quad(s[1], s[6], s[11], s[12]),
          Quad(s[2], s[7], s[8], s[13]), Quad(s[3], s[4], s[9], s[14]))
  }

  function FromDiagonals(l: Lanes): seq<nat> {
    [l.q0.a, l.q1.a, l.q2.a, l.q3.a,
     l.q3.b, l.q0.b, l.q1.b, l.q2.b,
     l.q2.c, l.q3.c, l.q0.c, l.q1.c,
     l.q1.d, l.q2.d, l.q3.d, l.q0.d]
  }

  /** A quarter round of every lane at once. */
  function Mix(l: Lanes): Lanes {
    Lanes(QuarterRound(l.q0), QuarterRound(l.q1), QuarterRound(l.q2), QuarterRound(l.q3))
  }

  function Unmix(l: Lanes): Lanes
    requires l.Words()
  {
    Lanes(InverseQuarter(l.q0), InverseQuarter(l.q1), InverseQuarter(l.q2), InverseQuarter(l.q3))
  }

  function ColumnRound(s: seq<nat>): seq<nat>
    requires |s| == 16
  {
    FromColumns(Mix(Columns(s)))
  }

  function DiagonalRound(s: seq<nat>): seq<nat>
    requires |s| == 16
  {
    FromDiagonals(Mix(Diagonals(s)))
  }

  /** `n` times section 2.3's inner block: a column round, then a diagonal round. */
  function InnerBlocks(s: seq<nat>, n: nat): (t: seq<nat>)
    requires |s| == 16
    ensures |t| == 16
  {
    if n == 0 then s else DiagonalRound(ColumnRound(InnerBlocks(s, n - 1)))
  }

  /** Section 2.3's inner block, place by place: column `k` is every fourth word from the `k`th, and diagonal
      `k` goes one place right, round the end, with every row down. */
  lemma RoundsAreRfc(s: seq<nat>, k: nat)
    requires |s| == 16 && k < 4
    ensures var q := QuarterRound(Quad(s[k], s[4 + k], s[8 + k], s[12 + k]));
            var r := ColumnRound(s);
            |r| == 16 && r[k] == q.a && r[4 + k] == q.b && r[8 + k] == q.c && r[12 + k] == q.d
    ensures var i, j, l := 4 + (k + 1) % 4, 8 + (k + 2) % 4, 12 + (k + 3) % 4;
            var q := QuarterRound(Quad(s[k], s[i], s[j], s[l]));
            var r := DiagonalRound(s);
            |r| == 16 && r[k] == q.a && r[i] == q.b && r[j] == q.c && r[l] == q.d
  {
    hide QuarterRound;
    assert k == 0 || k == 1 || k == 2 || k == 3;
  }

  /** A column round first, then a diagonal round, each time. */
  lemma NextInnerBlock(s: seq<nat>, n: nat)
    requires |s| == 16
    ensures InnerBlocks(s, 0) == s
    ensures InnerBlocks(s, n + 1) == DiagonalRound(ColumnRound(InnerBlocks(s, n)))
  {
    hide ColumnRound, DiagonalRound;
  }

  lemma UnmixedState(s: seq<nat>)
    requires IsState(s)
    ensures IsState(FromColumns(Unmix(Columns(s)))) && IsState(FromDiagonals(Unmix(Diagonals(s))))
  {
    hide InverseQuarter, QuarterRound;
    UnmixWords(Columns(s));
    UnmixWords(Diagonals(s));
  }

  function InverseColumnRound(s: seq<nat>): (t: seq<nat>)
    requires IsState(s)
    ensures IsState(t)
  {
    UnmixedState(s);
    FromColumns(Unmix(Columns(s)))
  }

  function InverseDiagonalRound(s: seq<nat>): (t: seq<nat>)
    requires IsState(s)
    ensures IsState(t)
  {
    UnmixedState(s);
    FromDiagonals(Unmix(Diagonals(s)))
  }

  function InverseInnerBlock(s: seq<nat>): (t: seq<nat>)
    requires IsState(s)
    ensures IsState(t)
  {
    InverseColumnRound(InverseDiagonalRound(s))
  }

  /** `n` inner blocks run backwards. */
  function InverseInnerBlocks(s: seq<nat>, n: nat): (t: seq<nat>)
    requires IsState(s)
    ensures IsState(t)
    decreases n
  {
    if n == 0 then s else InverseInnerBlocks(InverseInnerBlock(s), n - 1)
  }

  lemma MixUnmixes(l: Lanes)
    requires l.Words()
    ensures Mix(l).Words() && Unmix(Mix(l)) == l
  {
    QuarterForthAndBack(l.q0);
    QuarterForthAndBack(l.q1);
    QuarterForthAndBack(l.q2);
    QuarterForthAndBack(l.q3);
  }

  lemma UnmixWords(l: Lanes)
    requires l.Words()
    ensures Unmix(l).Words() && Mix(Unmix(l)) == l
  {
    QuarterBackAndForth(l.q0);
    QuarterBackAndForth(l.q1);
    QuarterBackAndForth(l.q2);
    QuarterBackAndForth(l.q3);
  }

  lemma ColumnsLaidOut(s: seq<nat>, l: Lanes)
    requires |s| == 16
    ensures FromColumns(Columns(s)) == s && Columns(FromColumns(l)) == l
  {
  }

  lemma DiagonalsLaidOut(s: seq<nat>, l: Lanes)
    requires |s| == 16
    ensures FromDiagonals(Diagonals(s)) == s && Diagonals(FromDiagonals(l)) == l
  {
  }

  lemma FourColumns(s: seq<nat>, l: Lanes)
    requires |s| == 16
    ensures var s1 := Put(s, 0, 4, 8, 12, l.q0);
            var s2 := Put(s1, 1, 5, 9, 13, l.q1);
            var s3 := Put(s2, 2, 6, 10, 14, l.q2);
            && QuadAt(s1, 1, 5, 9, 13) == Columns(s).q1
            && QuadAt(s2, 2, 6, 10, 14) == Columns(s).q2
            && QuadAt(s3, 3, 7, 11, 15) == Columns(s).q3
            && Put(s3, 3, 7, 11, 15, l.q3) == FromColumns(l)
  {
  }

  lemma FourDiagonals(s: seq<nat>, l: Lanes)
    requires |s| == 16
    ensures var s1 := Put(s, 0, 5, 10, 15, l.q0);
            var s2 := Put(s1, 1, 6, 11, 12, l.q1);
            var s3 := Put(s2, 2, 7, 8, 13, l.q2);
            && QuadAt(s1, 1, 6, 11, 12) == Diagonals(s).q1
            && QuadAt(s2, 2, 7, 8, 13) == Diagonals(s).q2
            && QuadAt(s3, 3, 4, 9, 14) == Diagonals(s).q3
            && Put(s3, 3, 4, 9, 14, l.q3) == FromDiagonals(l)
  {
  }

  lemma MixedLanes(l: Lanes)
    requires l.Words()
    ensures Lanes(Mixed(l.q0), Mixed(l.q1), Mixed(l.q2), Mixed(l.q3)) == Mix(l)
    ensures Mix(l).Words()
  {
    MixedIsQuarterRound(l.q0);
    MixedIsQuarterRound(l.q1);
    MixedIsQuarterRound(l.q2);
    MixedIsQuarterRound(l.q3);
  }

  /** Four `qr` calls one after another mix the four columns as if at once. */
  lemma ColumnsAtOnce(s: seq<nat>)
    requires IsState(s)
    ensures FourColumnQuarters(s) == ColumnRound(s)
    ensures IsState(ColumnRound(s))
  {
    hide Mixed, QuarterRound;
    MixedLanes(Columns(s));
    FourColumns(s, Mix(Columns(s)));
  }

  lemma DiagonalsAtOnce(s: seq<nat>)
    requires IsState(s)
    ensures FourDiagonalQuarters(s) == DiagonalRound(s)
    ensures IsState(DiagonalRound(s))
  {
    hide Mixed, QuarterRound;
    MixedLanes(Diagonals(s));
    FourDiagonals(s, Mix(Diagonals(s)));
  }

  lemma {:induction false} CallsAreInnerBlocks(s: seq<nat>, n: nat)
    requires IsState(s)
    ensures Calls(s, 8 * n) == InnerBlocks(s, n)
    ensures IsState(InnerBlocks(s, n))
  {
    hide FourColumnQuarters, FourDiagonalQuarters, ColumnRound, DiagonalRound, Calls;
    if n == 0 {
      NoCalls(s);
    } else {
      CallsAreInnerBlocks(s, n - 1);
      EightCalls(s, n - 1);
      ColumnsAtOnce(InnerBlocks(s, n - 1));
      DiagonalsAtOnce(ColumnRound(InnerBlocks(s, n - 1)));
    }
  }

  /** Every state of sixteen 32-bit words is permuted to such a state, by section 2.3's ten inner
      blocks. */
  lemma PermutedIsRfc(s: seq<nat>)
    requires IsState(s)
    ensures Permuted(s) == InnerBlocks(s, 10)
    ensures IsState(Permuted(s))
  {
    hide InnerBlocks, Calls;
    PermutedByCalls(s);
    CallsAreInnerBlocks(s, 10);
  }

  lemma InnerBlockInverts(s: seq<nat>)
    requires IsState(s)
    ensures IsState(DiagonalRound(ColumnRound(s)))
    ensures InverseInnerBlock(DiagonalRound(ColumnRound(s))) == s
  {
    hide QuarterRound, InverseQuarter;
    var c := Columns(s);
    MixUnmixes(c);
    ColumnsLaidOut(s, Mix(c));
    var t := ColumnRound(s);
    var d := Diagonals(t);
    MixUnmixes(d);
    DiagonalsLaidOut(t, Mix(d));
  }

  lemma InnerBlockInvertsBack(s: seq<nat>)
    requires IsState(s)
    ensures IsState(InverseInnerBlock(s))
    ensures DiagonalRound(ColumnRound(InverseInnerBlock(s))) == s
  {
    hide QuarterRound, InverseQuarter;
    var d := Diagonals(s);
    UnmixWords(d);
    DiagonalsLaidOut(s, Unmix(d));
    var t := InverseDiagonalRound(s);
    var c := Columns(t);
    UnmixWords(c);
    ColumnsLaidOut(t, Unmix(c));
  }

  lemma {:induction false} InnerBlocksInvert(s: seq<nat>, n: nat)
    requires IsState(s)
    ensures IsState(InnerBlocks(s, n)) && InverseInnerBlocks(InnerBlocks(s, n), n) == s
  {
    hide ColumnRound, DiagonalRound, InverseInnerBlock, Calls;
    CallsAreInnerBlocks(s, n);
    if n > 0 {
      InnerBlocksInvert(s, n - 1);
      InnerBlockInverts(InnerBlocks(s, n - 1));
    }
  }

  lemma {:induction false} InnerBlocksInvertBack(s: seq<nat>, n: nat)
    requires IsState(s)
    ensures InnerBlocks(InverseInnerBlocks(s, n), n) == s
    decreases n
  {
    hide ColumnRound, DiagonalRound, InverseInnerBlock;
    if n > 0 {
      InnerBlockInvertsBack(s);
      InnerBlocksInvertBack(InverseInnerBlock(s), n - 1);
    }
  }

  /** The permutation is a bijection on states: `InverseInnerBlocks` undoes it both ways round. */
  lemma PermutedIsBijection(s: seq<nat>)
    requires IsState(s)
    ensures IsState(Permuted(s)) && InverseInnerBlocks(Permuted(s), 10) == s
    ensures Permuted(InverseInnerBlocks(s, 10)) == s
  {
    hide InnerBlocks, Calls, InverseInnerBlocks;
    PermutedIsRfc(s);
    InnerBlocksInvert(s, 10);
    InnerBlocksInvertBack(s, 10);
    PermutedIsRfc(InverseInnerBlocks(s, 10));
  }
}

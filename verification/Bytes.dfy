/** Byte strings and the little-endian layouts `struct` and `int` give them. */
module Bytes {
  import opened Bits

  type Byte = b: int | 0 <= b < 256

  /** Two to the 8`n`: one past the largest number of `n` bytes. */
  function Pow256(n: nat): (p: nat)
    ensures p > 0
  {
    if n == 0 then 1 else 256 * Pow256(n - 1)
  }

  /** `int.from_bytes(bs, "little")` */
  function FromLe(bs: seq<Byte>): nat {
    if |bs| == 0 then 0 else bs[0] + 256 * FromLe(bs[1..])
  }

  /** The low `width` bytes of `n`, least first: `n.to_bytes(width, "little")` where it fits. */
  function ToLe(n: nat, width: nat): (bs: seq<Byte>)
    ensures |bs| == width
    decreases n, width
  {
    if width == 0 then [] else [n % 256] + ToLe(n / 256, width - 1)
  }

  function Zeros(n: nat): (bs: seq<Byte>)
    ensures |bs| == n
    ensures forall i :: 0 <= i < n ==> bs[i] == 0
  {
    seq(n, _ => 0)
  }

  /** A `bytes` literal of ASCII characters. */
  function Ascii(s: string): (bs: seq<Byte>)
    requires forall i :: 0 <= i < |s| ==> s[i] < 128 as char
    ensures |bs| == |s|
    ensures forall i :: 0 <= i < |s| ==> bs[i] == s[i] as int
  {
    seq(|s|, i requires 0 <= i < |s| => s[i] as int)
  }

  lemma {:induction false} FromLeBound(bs: seq<Byte>)
    ensures FromLe(bs) < Pow256(|bs|)
  {
    if |bs| > 0 {
      FromLeBound(bs[1..]);
    }
  }

  /** Laying a number out and reading it back gives it, whenever it fits. */
  lemma {:induction false} LeRoundTrip(n: nat, width: nat)
    requires n < Pow256(width)
    ensures FromLe(ToLe(n, width)) == n
    decreases width
  {
    if width > 0 {
      LeRoundTrip(n / 256, width - 1);
      assert ToLe(n, width)[1..] == ToLe(n / 256, width - 1);
    }
  }

  /** Reading a layout and laying it out again gives it back. */
  lemma {:induction false} LeLaysBack(bs: seq<Byte>)
    ensures ToLe(FromLe(bs), |bs|) == bs
  {
    if |bs| > 0 {
      LeLaysBack(bs[1..]);
      LeHead(bs[0], FromLe(bs[1..]));
      assert bs == [bs[0]] + bs[1..];
    }
  }

  lemma LeHead(b: Byte, x: nat)
    ensures (b + 256 * x) % 256 == b && (b + 256 * x) / 256 == x
  {
  }

  lemma LeInjective(m: nat, n: nat, width: nat)
    requires m < Pow256(width) && n < Pow256(width)
    requires ToLe(m, width) == ToLe(n, width)
    ensures m == n
  {
    LeRoundTrip(m, width);
    LeRoundTrip(n, width);
  }

  lemma {:induction false} FromLeConcat(a: seq<Byte>, b: seq<Byte>)
    ensures FromLe(a + b) == FromLe(a) + Pow256(|a|) * FromLe(b)
  {
    if |a| == 0 {
      assert a + b == b;
    } else {
      FromLeConcat(a[1..], b);
      assert (a + b)[1..] == a[1..] + b;
      Regroup(Pow256(|a| - 1), FromLe(b));
    }
  }

  lemma Regroup(p: nat, x: nat)
    ensures 256 * (p * x) == 256 * p * x
  {
  }

  // ---- words ----

  /** `struct.pack("<nI", *ws)` */
  function PackWords(ws: seq<nat>): (bs: seq<Byte>)
    ensures |bs| == 4 * |ws|
  {
    if |ws| == 0 then [] else ToLe(ws[0], 4) + PackWords(ws[1..])
  }

  /** `struct.unpack("<nI", bs)` */
  function UnpackWords(bs: seq<Byte>): (ws: seq<nat>)
    requires |bs| % 4 == 0
    ensures |ws| == |bs| / 4
    ensures forall i :: 0 <= i < |ws| ==> ws[i] < 0x1_0000_0000
  {
    if |bs| == 0 then []
    else
      FromLeBound(bs[..4]);
      FourBytes();
      [FromLe(bs[..4])] + UnpackWords(bs[4..])
  }

  lemma UnpackStep(word: seq<Byte>, rest: seq<Byte>)
    requires |word| == 4 && |rest| % 4 == 0
    ensures UnpackWords(word + rest) == [FromLe(word)] + UnpackWords(rest)
  {
    assert (word + rest)[..4] == word;
    assert (word + rest)[4..] == rest;
  }

  lemma {:induction false} UnpackPacked(ws: seq<nat>)
    requires forall i :: 0 <= i < |ws| ==> ws[i] < 0x1_0000_0000
    ensures UnpackWords(PackWords(ws)) == ws
  {
    if |ws| > 0 {
      UnpackPacked(ws[1..]);
      FourBytes();
      LeRoundTrip(ws[0], 4);
      UnpackStep(ToLe(ws[0], 4), PackWords(ws[1..]));
    }
  }

  lemma FourBytes()
    ensures Pow256(4) == 0x1_0000_0000
  {
  }

  lemma {:induction false} PackUnpacked(bs: seq<Byte>)
    requires |bs| % 4 == 0
    ensures PackWords(UnpackWords(bs)) == bs
  {
    if |bs| > 0 {
      PackUnpacked(bs[4..]);
      LeLaysBack(bs[..4]);
      assert UnpackWords(bs)[1..] == UnpackWords(bs[4..]);
      assert bs == bs[..4] + bs[4..];
    }
  }

  // ---- bitwise operators on bytes ----

  /** `a ^ b` of two bytes is a byte. */
  function XorByte(a: Byte, b: Byte): Byte {
    Pow2Known();
    XorBound(a, b, 8);
    Xor(a, b)
  }

  function AndByte(a: Byte, b: Byte): Byte {
    AndBound(a, b);
    And(a, b)
  }

  lemma AndBound(x: nat, y: nat)
    ensures And(x, y) <= x
    decreases x
  {
  }

  lemma ShlByte(x: nat)
    ensures Shl(x, 8) == 256 * x
  {
    ShlMeans(x, 8);
    Pow2Known();
  }

  /** `&` of two numbers is `&` of their bytes, place by place. */
  lemma {:induction false} AndByBytes(xs: seq<Byte>, ys: seq<Byte>)
    requires |xs| == |ys|
    ensures And(FromLe(xs), FromLe(ys))
         == FromLe(seq(|xs|, i requires 0 <= i < |xs| => AndByte(xs[i], ys[i])))
  {
    var both := seq(|xs|, i requires 0 <= i < |xs| => AndByte(xs[i], ys[i]));
    if |xs| > 0 {
      hide And, Shl;
      var rest := seq(|xs| - 1, i requires 0 <= i < |xs| - 1 => AndByte(xs[1..][i], ys[1..][i]));
      AndByBytes(xs[1..], ys[1..]);
      assert rest == seq(|xs[1..]|, i requires 0 <= i < |xs[1..]| => AndByte(xs[1..][i], ys[1..][i]));
      assert both[1..] == rest;
      Pow2Known();
      AndSplits(FromLe(xs[1..]), xs[0], FromLe(ys[1..]), ys[0], 8);
      ShlByte(FromLe(xs[1..]));
      ShlByte(FromLe(ys[1..]));
      ShlByte(And(FromLe(xs[1..]), FromLe(ys[1..])));
    }
  }
}

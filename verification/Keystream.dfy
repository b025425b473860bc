/** ChaCha20's block function, HChaCha20 and the keystream `_xor` draws from them (sections 2.3 and 2.4
    of RFC 8439, section 2.2 of draft-irtf-cfrg-xchacha). */
module Keystream {
  import opened Bits
  import opened Bytes
  import opened ChaCha

  type Key = k: seq<Byte> | |k| == 32 witness Zeros(32)
  type Nonce12 = n: seq<Byte> | |n| == 12 witness Zeros(12)
  type Nonce16 = n: seq<Byte> | |n| == 16 witness Zeros(16)

  /** The eight words of a key. */
  function KeyWords(key: Key): (ws: seq<nat>)
    ensures |ws| == 8
  {
    UnpackWords(key)
  }

  /** The source's SIGMA. */
  function Sigma(): (s: seq<nat>)
    ensures |s| == 4 && forall i :: 0 <= i < 4 ==> s[i] < TWO32
  {
    UnpackWords(Ascii("expand 32-byte k"))
  }

  /** `_block`'s list before the rounds: constants, key, counter, nonce. The counter is placed as it is. */
  function Start(key: Key, counter: nat, nonce: Nonce12): (s: seq<nat>)
    ensures |s| == 16
    ensures counter < TWO32 ==> IsState(s)
  {
    Sigma() + KeyWords(key) + [counter] + UnpackWords(nonce)
  }

  /** `[(w[i] + s[i]) & M32 for i in range(16)]` */
  function Summed(w: seq<nat>, s: seq<nat>): (t: seq<nat>)
    requires |w| == |s| == 16
    ensures |t| == 16
  {
    seq(16, i requires 0 <= i < 16 => And(w[i] + s[i], M32))
  }

  ghost function Block(key: Key, counter: nat, nonce: Nonce12): (bs: seq<Byte>)
    ensures |bs| == 64
  {
    var s := Start(key, counter, nonce);
    PackWords(Summed(Permuted(s), s))
  }

  ghost function BlockWords(key: Key, counter: nat, nonce: Nonce12): (ws: seq<nat>)
    ensures |ws| == 16
  {
    UnpackWords(Block(key, counter, nonce))
  }

  /** `_block`, its copy of the state permuted in place. */
  method ComputeBlock(key: Key, counter: nat, nonce: Nonce12) returns (bs: seq<Byte>)
    ensures bs == Block(key, counter, nonce)
  {
    var s := Start(key, counter, nonce);
    var w := new nat[16](i requires 0 <= i < 16 => s[i]);
    assert w[..] == s;
    Rounds(w);
    bs := PackWords(Summed(w[..], s));
  }

  function HStart(key: Key, nonce: Nonce16): (s: seq<nat>)
    ensures IsState(s)
  {
    Sigma() + KeyWords(key) + UnpackWords(nonce)
  }

  ghost function HChaCha(key: Key, nonce: Nonce16): Key {
    var t := Permuted(HStart(key, nonce));
    PackWords(t[0..4] + t[12..16])
  }

  /** `_hchacha`, the state permuted in place. */
  method ComputeHChaCha(key: Key, nonce: Nonce16) returns (subkey: Key)
    ensures subkey == HChaCha(key, nonce)
  {
    var start := HStart(key, nonce);
    var s := new nat[16](i requires 0 <= i < 16 => start[i]);
    assert s[..] == start;
    Rounds(s);
    subkey := PackWords(s[0..4] + s[12..16]);
  }

  // ---- the block function is section 2.3's, and HChaCha20 is its core ----

  /** The four bytes at `4 * i` as a word, least byte first. */
  function Word(bs: seq<Byte>, i: nat): nat
    requires 4 * i + 4 <= |bs|
  {
    bs[4 * i] as nat + 0x100 * bs[4 * i + 1] as nat
    + 0x1_0000 * bs[4 * i + 2] as nat + 0x100_0000 * bs[4 * i + 3] as nat
  }

  /** The words of a byte string, each read from its own four bytes. */
  lemma {:induction false} WordAt(bs: seq<Byte>, i: nat)
    requires |bs| % 4 == 0 && i < |bs| / 4
    ensures UnpackWords(bs)[i] == Word(bs, i)
  {
    if i == 0 {
      assert bs[..4] == [bs[0], bs[1], bs[2], bs[3]];
      WordOf(bs[0], bs[1], bs[2], bs[3]);
    } else {
      hide FromLe;
      WordAt(bs[4..], i - 1);
    }
  }

  /** Section 2.3's state: four constants, the key's eight words, the counter and the nonce's three; and
      HChaCha20's, the nonce's four words in the last row. */
  lemma StartIsRfc(key: Key, counter: nat, nonce: Nonce12, long: Nonce16, i: nat)
    requires i < 16
    ensures Start(key, counter, nonce)[i]
         == if i == 0 then 0x61707865 else if i == 1 then 0x3320646e
            else if i == 2 then 0x79622d32 else if i == 3 then 0x6b206574
            else if i < 12 then Word(key, i - 4)
            else if i == 12 then counter
            else Word(nonce, i - 13)
    ensures HStart(key, long)[i] == if i < 12 then Start(key, counter, nonce)[i] else Word(long, i - 12)
  {
    hide UnpackWords, Sigma, Ascii;
    SigmaIsRfc();
    if 4 <= i < 12 {
      WordAt(key, i - 4);
    } else if i > 12 {
      WordAt(nonce, i - 13);
    }
    if i >= 12 {
      WordAt(long, i - 12);
    }
  }

  lemma SigmaBytes()
    ensures Ascii("expand 32-byte k")
         == [0x65, 0x78, 0x70, 0x61, 0x6e, 0x64, 0x20, 0x33, 0x32, 0x2d, 0x62, 0x79, 0x74, 0x65, 0x20, 0x6b]
  {
    var s := "expand 32-byte k";
    assert s[0] == 'e' && s[1] == 'x' && s[2] == 'p' && s[3] == 'a';
    assert s[4] == 'n' && s[5] == 'd' && s[6] == ' ' && s[7] == '3';
    assert s[8] == '2' && s[9] == '-' && s[10] == 'b' && s[11] == 'y';
    assert s[12] == 't' && s[13] == 'e' && s[14] == ' ' && s[15] == 'k';
  }

  /** The constants section 2.3 of RFC 8439 gives. */
  lemma SigmaIsRfc()
    ensures Sigma() == [0x61707865, 0x3320646e, 0x79622d32, 0x6b206574]
  {
    hide UnpackWords, FromLe, Ascii;
    SigmaBytes();
    FourWords([0x65, 0x78, 0x70, 0x61, 0x6e, 0x64, 0x20, 0x33, 0x32, 0x2d, 0x62, 0x79, 0x74, 0x65, 0x20, 0x6b]);
    WordOf(0x65, 0x78, 0x70, 0x61);
    WordOf(0x6e, 0x64, 0x20, 0x33);
    WordOf(0x32, 0x2d, 0x62, 0x79);
    WordOf(0x74, 0x65, 0x20, 0x6b);
  }

  lemma WordOf(b0: Byte, b1: Byte, b2: Byte, b3: Byte)
    ensures FromLe([b0, b1, b2, b3]) == b0 + 0x100 * b1 + 0x1_0000 * b2 + 0x100_0000 * b3
  {
    assert [b3][1..] == [];
    assert FromLe([b3]) == b3;
    assert [b2, b3][1..] == [b3];
    assert FromLe([b2, b3]) == b2 + 0x100 * b3;
    assert [b1, b2, b3][1..] == [b2, b3];
    assert FromLe([b1, b2, b3]) == b1 + 0x100 * b2 + 0x1_0000 * b3;
    assert [b0, b1, b2, b3][1..] == [b1, b2, b3];
  }

  lemma FourWords(c: seq<Byte>)
    requires |c| == 16
    ensures UnpackWords(c) == [FromLe([c[0], c[1], c[2], c[3]]), FromLe([c[4], c[5], c[6], c[7]]),
                                FromLe([c[8], c[9], c[10], c[11]]), FromLe([c[12], c[13], c[14], c[15]])]
  {
    assert c == [c[0], c[1], c[2], c[3]] + c[4..];
    UnpackStep([c[0], c[1], c[2], c[3]], c[4..]);
    assert c[4..] == [c[4], c[5], c[6], c[7]] + c[8..];
    UnpackStep([c[4], c[5], c[6], c[7]], c[8..]);
    assert c[8..] == [c[8], c[9], c[10], c[11]] + c[12..];
    UnpackStep([c[8], c[9], c[10], c[11]], c[12..]);
    assert c[12..] == [c[12], c[13], c[14], c[15]] + [];
    UnpackStep([c[12], c[13], c[14], c[15]], []);
  }

  /** Two states added word by word, modulo 2^32. */
  function AddedWords(w: seq<nat>, s: seq<nat>): (t: seq<nat>)
    requires |w| == |s| == 16
    ensures |t| == 16
  {
    seq(16, i requires 0 <= i < 16 => (w[i] + s[i]) % TWO32)
  }

  lemma BlockBySums(key: Key, counter: nat, nonce: Nonce12)
    requires counter < TWO32
    ensures IsState(Start(key, counter, nonce))
    ensures var start := Start(key, counter, nonce);
            BlockWords(key, counter, nonce) == AddedWords(InnerBlocks(start, 10), start)
  {
    hide Start, Permuted, UnpackWords, PackWords, InnerBlocks, And;
    var s := Start(key, counter, nonce);
    PermutedIsRfc(s);
    var words := Summed(Permuted(s), s);
    forall i | 0 <= i < 16
      ensures words[i] == AddedWords(InnerBlocks(s, 10), s)[i] < TWO32
    {
      Masked(Permuted(s)[i] + s[i]);
    }
    UnpackPacked(words);
  }

  /** Section 2.3's block, for every 32-bit counter: each word of the state after ten inner blocks added,
      modulo 2^32, to that of the state before, and laid out least byte first. */
  lemma BlockIsRfc(key: Key, counter: nat, nonce: Nonce12, i: nat)
    requires counter < 0x1_0000_0000 && i < 16
    ensures var start := Start(key, counter, nonce);
            Word(Block(key, counter, nonce), i) == (Permuted(start)[i] + start[i]) % 0x1_0000_0000
  {
    hide Start, Block, UnpackWords, InnerBlocks, Permuted, Word;
    BlockBySums(key, counter, nonce);
    PermutedIsRfc(Start(key, counter, nonce));
    BlockWordAt(key, counter, nonce, i);
  }

  lemma BlockWordAt(key: Key, counter: nat, nonce: Nonce12, i: nat)
    requires i < 16
    ensures BlockWords(key, counter, nonce)[i] == Word(Block(key, counter, nonce), i)
  {
    hide UnpackWords, Block, Word;
    WordAt(Block(key, counter, nonce), i);
  }

  /** Where HChaCha20 takes its eight words from. */
  function Kept(i: nat): nat {
    if i < 4 then i else i + 8
  }

  /** Taking the state before away from the block's words leaves the state after. */
  lemma AddedLess(w: seq<nat>, s: seq<nat>, k: nat)
    requires IsState(w) && IsState(s) && k < 16
    ensures Less(AddedWords(w, s)[k], s[k]) == w[k]
  {
    SumBack(w[k], s[k]);
  }

  lemma SameStart(key: Key, counter: nat, nonce: Nonce12)
    requires counter < TWO32
    ensures HStart(key, ToLe(counter, 4) + nonce) == Start(key, counter, nonce)
  {
    FourBytes();
    LeRoundTrip(counter, 4);
    UnpackStep(ToLe(counter, 4), nonce);
  }

  lemma HWords(key: Key, nonce: Nonce16, i: nat)
    requires i < 8
    ensures KeyWords(HChaCha(key, nonce))[i] == Permuted(HStart(key, nonce))[Kept(i)]
    ensures IsState(Permuted(HStart(key, nonce)))
  {
    hide Permuted, UnpackWords, PackWords, HStart;
    PermutedIsRfc(HStart(key, nonce));
    var t := Permuted(HStart(key, nonce));
    UnpackPacked(t[0..4] + t[12..16]);
  }

  /** Section 2.2 of draft-irtf-cfrg-xchacha: HChaCha20's eight words are the first four and the last four of
      the permuted state, nothing added. */
  lemma HChaChaIsDraft(key: Key, nonce: Nonce16, i: nat)
    requires i < 8
    ensures Word(HChaCha(key, nonce), i) == Permuted(HStart(key, nonce))[if i < 4 then i else i + 8]
  {
    hide HChaCha, Permuted, UnpackWords, HStart, Word;
    HWords(key, nonce, i);
    WordAt(HChaCha(key, nonce), i);
  }

  /** They are the block's first and last four, less the state they were added to: a block whose counter and
      nonce are laid end to end as HChaCha20's nonce. */
  lemma HChaChaFromBlock(key: Key, counter: nat, nonce: Nonce12, i: nat)
    requires counter < 0x1_0000_0000 && i < 8
    ensures var j := if i < 4 then i else i + 8;
            var left := Word(Block(key, counter, nonce), j) + 0x1_0000_0000 - Start(key, counter, nonce)[j];
            Word(HChaCha(key, ToLe(counter, 4) + nonce), i) == left % 0x1_0000_0000
  {
    hide Permuted, Block, Start, HStart, HChaCha, ToLe, Word;
    var s, j := Start(key, counter, nonce), if i < 4 then i else i + 8;
    SameStart(key, counter, nonce);
    HChaChaIsDraft(key, ToLe(counter, 4) + nonce, i);
    BlockIsRfc(key, counter, nonce, j);
    HWords(key, ToLe(counter, 4) + nonce, i);
    AddedLess(Permuted(s), s, j);
  }

  // ---- the keystream ----

  /** The first `n` blocks of `_xor`'s stream: their counters run from 1. */
  ghost function Stream(key: Key, nonce: Nonce12, n: nat): (bs: seq<Byte>)
    ensures |bs| == 64 * n
  {
    if n == 0 then [] else Stream(key, nonce, n - 1) + Block(key, 1 + (n - 1), nonce)
  }

  /** The bytes of `data` and of `stream` exclusive-ored as far as the shorter goes. */
  function XorZip(data: seq<Byte>, stream: seq<Byte>): (bs: seq<Byte>)
    ensures |bs| == if |data| <= |stream| then |data| else |stream|
  {
    seq(if |data| <= |stream| then |data| else |stream|,
        i requires 0 <= i < |data| && i < |stream| => XorByte(data[i], stream[i]))
  }

  /** What `_xor` makes: one block for every 64 bytes of data begun. */
  ghost function XorData(key: Key, nonce: Nonce12, data: seq<Byte>): (bs: seq<Byte>)
    ensures |bs| == |data|
  {
    XorZip(data, Stream(key, nonce, (|data| + 63) / 64))
  }

  /** `_xor` */
  method ComputeXor(key: Key, nonce: Nonce12, data: seq<Byte>) returns (bs: seq<Byte>)
    ensures bs == XorData(key, nonce, data)
  {
    hide Block, XorZip;
    var stream: seq<Byte>, i := [], 0;
    ghost var n := 0;
    while i < |data|
      invariant i == 64 * n < |data| + 64
      invariant stream == Stream(key, nonce, n)
    {
      var block := ComputeBlock(key, 1 + i / 64, nonce);
      stream := stream + block;
      i, n := i + 64, n + 1;
    }
    bs := XorZip(data, stream);
  }

  lemma {:induction false} StreamAt(key: Key, nonce: Nonce12, n: nat, j: nat)
    requires j < 64 * n
    ensures Stream(key, nonce, n)[j] == Block(key, 1 + j / 64, nonce)[j % 64]
  {
    hide Block;
    if j < 64 * (n - 1) {
      StreamAt(key, nonce, n - 1, j);
    } else {
      assert j / 64 == n - 1;
    }
  }

  /** Byte `j` of `_xor` is byte `j` of the data, exclusive-ored with byte `j` mod 64 of the block whose
      counter is 1 + `j` div 64. */
  lemma XorDataAt(key: Key, nonce: Nonce12, data: seq<Byte>, j: nat)
    requires j < |data|
    ensures XorData(key, nonce, data)[j] == Xor(data[j], Block(key, 1 + j / 64, nonce)[j % 64])
  {
    hide Block, Xor;
    StreamAt(key, nonce, (|data| + 63) / 64, j);
  }

  /** Up to 64 * (2^32 - 1) bytes, every block `_xor` takes is one RFC 8439 defines, and none is block 0,
      which section 2.8 keeps for the one-time key; no two bytes 64 or more apart share a block. */
  lemma CountersStayWords(data: seq<Byte>, j: nat, k: nat)
    requires j < |data| <= 64 * (TWO32 - 1) && k < |data|
    ensures 0 < 1 + j / 64 < TWO32
    ensures 1 + j / 64 == 1 + k / 64 && j % 64 == k % 64 ==> j == k
  {
  }

  lemma XorByteTwice(a: Byte, b: Byte)
    ensures XorByte(XorByte(a, b), b) == a
  {
    XorCancels(a, b);
  }

  /** `_xor` undoes itself, on data of any length. */
  lemma XorDataInvolutes(key: Key, nonce: Nonce12, data: seq<Byte>)
    ensures XorData(key, nonce, XorData(key, nonce, data)) == data
  {
    hide XorByte, Stream;
    var once := XorData(key, nonce, data);
    var twice := XorData(key, nonce, once);
    var stream := Stream(key, nonce, (|data| + 63) / 64);
    forall j | 0 <= j < |data|
      ensures twice[j] == data[j]
    {
      XorByteTwice(data[j], stream[j]);
    }
  }

  /** What `_xor` makes of a prefix is a prefix of what it makes of the whole. */
  lemma XorDataOfPrefix(key: Key, nonce: Nonce12, data: seq<Byte>, n: nat)
    requires n <= |data|
    ensures XorData(key, nonce, data[..n]) == XorData(key, nonce, data)[..n]
  {
    hide XorData, XorByte, Block;
    var whole := XorData(key, nonce, data);
    var part := XorData(key, nonce, data[..n]);
    XorDataInvolutes(key, nonce, data);
    XorDataInvolutes(key, nonce, data[..n]);
    forall j | 0 <= j < n
      ensures part[j] == whole[j]
    {
      XorDataAt(key, nonce, data, j);
      XorDataAt(key, nonce, data[..n], j);
    }
  }
}

/** A plugin setting sealed and opened as `e2e/backup/run.py` does it: XChaCha20-Poly1305 (section 2.8 of
    RFC 8439, section 2.3 of draft-irtf-cfrg-xchacha) over a version byte, a nonce, the ciphertext and the
    tag. Values, plugin ids and names are the bytes their text encodes to. */
module Sealing {
  import opened Bits
  import opened Bytes
  import opened ChaCha
  import opened Keystream
  import opened Wrappers
  import P = Poly1305

  type Nonce24 = n: seq<Byte> | |n| == 24 witness Zeros(24)

  /** `b + b"\0" * (-len(b) % 16)` */
  function Pad(b: seq<Byte>): seq<Byte> {
    b + Zeros(-|b| % 16)
  }

  /** What `_tag` authenticates: both parts padded, then both lengths as 64-bit integers. */
  function MacData(aad: seq<Byte>, ciphertext: seq<Byte>): seq<Byte> {
    Pad(aad) + Pad(ciphertext) + (ToLe(|aad|, 8) + ToLe(|ciphertext|, 8))
  }

  /** What `_tag` gives, its one-time key the first half of block 0. */
  ghost function Tag(subkey: Key, nonce: Nonce12, aad: seq<Byte>, ciphertext: seq<Byte>): (tag: seq<Byte>)
    ensures |tag| == 16
  {
    P.Mac(Block(subkey, 0, nonce)[..32], MacData(aad, ciphertext))
  }

  /** `_tag` */
  method ComputeTag(subkey: Key, nonce: Nonce12, aad: seq<Byte>, ciphertext: seq<Byte>) returns (tag: seq<Byte>)
    ensures tag == Tag(subkey, nonce, aad, ciphertext)
  {
    var block := ComputeBlock(subkey, 0, nonce);
    tag := P.Accumulate(block[..32], MacData(aad, ciphertext));
  }

  function AadPrefix(): seq<Byte> {
    Ascii("meridian.plugin-setting.v1") + [0]
  }

  /** `_aad` */
  function Aad(plugin: seq<Byte>, name: seq<Byte>): seq<Byte> {
    AadPrefix() + plugin + [0] + name
  }

  ghost function Subkey(key: Key, nonce: Nonce24): Key {
    HChaCha(key, nonce[..16])
  }

  function InnerNonce(nonce: Nonce24): Nonce12 {
    Zeros(4) + nonce[16..]
  }

  /** What `seal` makes, its random nonce given. */
  ghost function Seal(key: Key, plugin: seq<Byte>, name: seq<Byte>, nonce: Nonce24, value: seq<Byte>): seq<Byte> {
    var ciphertext := XorData(Subkey(key, nonce), InnerNonce(nonce), value);
    [1] + nonce + ciphertext + Tag(Subkey(key, nonce), InnerNonce(nonce), Aad(plugin, name), ciphertext)
  }

  /** `seal` */
  method ComputeSeal(key: Key, plugin: seq<Byte>, name: seq<Byte>, nonce: Nonce24, value: seq<Byte>)
    returns (sealed: seq<Byte>)
    ensures sealed == Seal(key, plugin, name, nonce, value)
  {
    var subkey := ComputeHChaCha(key, nonce[..16]);
    var nonce12 := InnerNonce(nonce);
    var ciphertext := ComputeXor(subkey, nonce12, value);
    var tag := ComputeTag(subkey, nonce12, Aad(plugin, name), ciphertext);
    sealed := [1] + nonce + ciphertext + tag;
  }

  /** The nonce sealed bytes carry. */
  function NonceIn(sealed: seq<Byte>): Nonce24
    requires |sealed| >= 41
  {
    sealed[1..25]
  }

  /** What `opened` gives. */
  ghost function Opened(key: Key, plugin: seq<Byte>, name: seq<Byte>, sealed: seq<Byte>): (r: Option<seq<Byte>>)
    ensures r.Some? ==> |sealed| == 41 + |r.value|
  {
    if |sealed| < 41 || sealed[0] != 1 then None
    else
      var nonce, body, tag := NonceIn(sealed), sealed[25..|sealed| - 16], sealed[|sealed| - 16..];
      if Tag(Subkey(key, nonce), InnerNonce(nonce), Aad(plugin, name), body) != tag then None
      else Some(XorData(Subkey(key, nonce), InnerNonce(nonce), body))
  }

  /** `opened` */
  method ComputeOpened(key: Key, plugin: seq<Byte>, name: seq<Byte>, sealed: seq<Byte>)
    returns (r: Option<seq<Byte>>)
    ensures r == Opened(key, plugin, name, sealed)
  {
    if |sealed| < 41 || sealed[0] != 1 {
      return None;
    }
    var nonce, body, tag := NonceIn(sealed), sealed[25..|sealed| - 16], sealed[|sealed| - 16..];
    var subkey := ComputeHChaCha(key, nonce[..16]);
    var nonce12 := InnerNonce(nonce);
    var made := ComputeTag(subkey, nonce12, Aad(plugin, name), body);
    if made != tag {
      return None;
    }
    var value := ComputeXor(subkey, nonce12, body);
    return Some(value);
  }

  // ---- sealing and opening are inverse ----

  /** Where `opened` cuts what `seal` laid end to end. */
  lemma Cut(nonce: Nonce24, body: seq<Byte>, tag: seq<Byte>)
    requires |tag| == 16
    ensures var sealed := [1] + nonce + body + tag;
            |sealed| == 41 + |body| && sealed[0] == 1 && sealed[1..25] == nonce
            && sealed[25..|sealed| - 16] == body && sealed[|sealed| - 16..] == tag
  {
  }

  lemma Joined(sealed: seq<Byte>)
    requires |sealed| >= 41 && sealed[0] == 1
    ensures sealed == [1] + sealed[1..25] + sealed[25..|sealed| - 16] + sealed[|sealed| - 16..]
  {
  }

  /** What is sealed opens to the value, under every key, plugin, name and nonce. */
  lemma SealThenOpen(key: Key, plugin: seq<Byte>, name: seq<Byte>, nonce: Nonce24, value: seq<Byte>)
    ensures |Seal(key, plugin, name, nonce, value)| == 41 + |value|
    ensures Opened(key, plugin, name, Seal(key, plugin, name, nonce, value)) == Some(value)
  {
    hide Tag, XorData, Aad, Subkey, InnerNonce;
    var body := XorData(Subkey(key, nonce), InnerNonce(nonce), value);
    XorDataInvolutes(Subkey(key, nonce), InnerNonce(nonce), value);
    Cut(nonce, body, Tag(Subkey(key, nonce), InnerNonce(nonce), Aad(plugin, name), body));
  }

  /** What opens is what sealing the opened value under the nonce it carries makes, byte for byte. */
  lemma OpenThenSeal(key: Key, plugin: seq<Byte>, name: seq<Byte>, sealed: seq<Byte>, value: seq<Byte>)
    requires |sealed| >= 41 && Opened(key, plugin, name, sealed) == Some(value)
    ensures Seal(key, plugin, name, NonceIn(sealed), value) == sealed
  {
    hide Tag, XorData, Aad, Subkey, InnerNonce;
    var nonce := NonceIn(sealed);
    XorDataInvolutes(Subkey(key, nonce), InnerNonce(nonce), sealed[25..|sealed| - 16]);
    Joined(sealed);
  }

  /** So bytes open to a value exactly when some nonce seals that value to them. */
  lemma OpensExactlyWhatWasSealed(key: Key, plugin: seq<Byte>, name: seq<Byte>, sealed: seq<Byte>, value: seq<Byte>)
    ensures Opened(key, plugin, name, sealed) == Some(value)
       <==> exists nonce: Nonce24 :: Seal(key, plugin, name, nonce, value) == sealed
  {
    hide Opened, Seal;
    if Opened(key, plugin, name, sealed) == Some(value) {
      OpenThenSeal(key, plugin, name, sealed, value);
    }
    if nonce: Nonce24 :| Seal(key, plugin, name, nonce, value) == sealed {
      SealThenOpen(key, plugin, name, nonce, value);
    }
  }

  /** Of all tags put behind a nonce and a body, exactly one opens. */
  lemma OneTagOpens(key: Key, plugin: seq<Byte>, name: seq<Byte>, nonce: Nonce24, body: seq<Byte>, tag: seq<Byte>)
    requires |tag| == 16
    ensures Opened(key, plugin, name, [1] + nonce + body + tag).Some?
       <==> tag == Tag(Subkey(key, nonce), InnerNonce(nonce), Aad(plugin, name), body)
  {
    hide Tag, XorData, Aad, Subkey, InnerNonce;
    Cut(nonce, body, tag);
  }

  // ---- the authenticated input is uniquely decodable ----

  lemma PadIsWhole(b: seq<Byte>)
    ensures |Pad(b)| % 16 == 0 && |Pad(b)| < |b| + 16
    ensures |b| <= |Pad(b)| && Pad(b)[..|b|] == b
  {
  }

  lemma EightBytes()
    ensures Pow256(8) == 0x1_0000_0000_0000_0000
  {
    FourBytes();
  }

  /** The last sixteen bytes give both lengths, the lengths both paddings, and they both parts: two inputs
      of 64-bit lengths are authenticated as the same bytes exactly when they are the same. */
  lemma MacDataInjective(aad1: seq<Byte>, text1: seq<Byte>, aad2: seq<Byte>, text2: seq<Byte>)
    requires |aad1| < 0x1_0000_0000_0000_0000 && |text1| < 0x1_0000_0000_0000_0000
    requires |aad2| < 0x1_0000_0000_0000_0000 && |text2| < 0x1_0000_0000_0000_0000
    ensures MacData(aad1, text1) == MacData(aad2, text2) <==> aad1 == aad2 && text1 == text2
  {
    hide Pad, ToLe, Pow256;
    var m1, m2 := MacData(aad1, text1), MacData(aad2, text2);
    if m1 == m2 {
      var ends1 := ToLe(|aad1|, 8) + ToLe(|text1|, 8);
      var ends2 := ToLe(|aad2|, 8) + ToLe(|text2|, 8);
      assert m1[|m1| - 16..] == ends1 && m2[|m2| - 16..] == ends2;
      assert ends1[..8] == ToLe(|aad1|, 8) && ends1[8..] == ToLe(|text1|, 8);
      assert ends2[..8] == ToLe(|aad2|, 8) && ends2[8..] == ToLe(|text2|, 8);
      EightBytes();
      LeInjective(|aad1|, |aad2|, 8);
      LeInjective(|text1|, |text2|, 8);
      PaddedAlike(aad1, aad2);
      PaddedAlike(text1, text2);
      PadIsWhole(aad1);
      PadIsWhole(aad2);
      PadIsWhole(text1);
      PadIsWhole(text2);
      var p, q := |Pad(aad1)|, |Pad(text1)|;
      assert m1[..p] == Pad(aad1) && m2[..p] == Pad(aad2);
      assert m1[p..p + q] == Pad(text1) && m2[p..p + q] == Pad(text2);
    }
  }

  lemma PaddedAlike(a: seq<Byte>, b: seq<Byte>)
    requires |a| == |b|
    ensures |Pad(a)| == |Pad(b)|
  {
  }

  /** Plugin ids hold no NUL, so the NUL after one ends it: `_aad` tells plugin and name apart. */
  lemma AadInjective(plugin1: seq<Byte>, name1: seq<Byte>, plugin2: seq<Byte>, name2: seq<Byte>)
    requires 0 !in plugin1 && 0 !in plugin2
    requires Aad(plugin1, name1) == Aad(plugin2, name2)
    ensures plugin1 == plugin2 && name1 == name2
  {
    var n := |AadPrefix()|;
    var rest1, rest2 := plugin1 + [0] + name1, plugin2 + [0] + name2;
    assert rest1 == Aad(plugin1, name1)[n..] && rest2 == Aad(plugin2, name2)[n..];
    assert rest1[|plugin1|] == 0 && forall i :: 0 <= i < |plugin1| ==> rest1[i] == plugin1[i] != 0;
    assert rest2[|plugin2|] == 0 && forall i :: 0 <= i < |plugin2| ==> rest2[i] == plugin2[i] != 0;
    assert |plugin1| == |plugin2|;
    assert rest1[..|plugin1|] == plugin1 && rest2[..|plugin2|] == plugin2;
    assert rest1[|plugin1| + 1..] == name1 && rest2[|plugin2| + 1..] == name2;
  }

  /** And no further: a plugin id is told apart from every NUL-free one exactly when it is NUL-free itself. */
  lemma AadConfusedExactly(plugin: seq<Byte>, name: seq<Byte>)
    ensures (exists p: seq<Byte>, n: seq<Byte> :: 0 !in p && (p, n) != (plugin, name) && Aad(p, n) == Aad(plugin, name))
       <==> 0 in plugin
  {
    if 0 in plugin {
      var k := FirstNul(plugin);
      var p, n := plugin[..k], plugin[k + 1..] + [0] + name;
      assert plugin == p + [0] + plugin[k + 1..];
      assert p + [0] + n == plugin + [0] + name;
      assert AadPrefix() + p + [0] + n == AadPrefix() + (p + [0] + n);
      assert AadPrefix() + plugin + [0] + name == AadPrefix() + (plugin + [0] + name);
      assert 0 !in p && (p, n) != (plugin, name) && Aad(p, n) == Aad(plugin, name);
    } else {
      forall p: seq<Byte>, n: seq<Byte> | 0 !in p && Aad(p, n) == Aad(plugin, name)
        ensures (p, n) == (plugin, name)
      {
        AadInjective(p, n, plugin, name);
      }
    }
  }

  lemma FirstNul(s: seq<Byte>) returns (k: nat)
    requires 0 in s
    ensures k < |s| && s[k] == 0 && 0 !in s[..k]
  {
    k := 0;
    while s[k] != 0
      invariant k < |s| && 0 !in s[..k] && 0 in s[k..]
      decreases |s| - k
    {
      k := k + 1;
    }
  }

  /** Everything a tag authenticates, down to the coefficients `_poly1305` sums, determines the plugin, the
      name and the ciphertext. */
  lemma AuthenticatedInputDecodes(
      plugin1: seq<Byte>, name1: seq<Byte>, text1: seq<Byte>, plugin2: seq<Byte>, name2: seq<Byte>, text2: seq<Byte>)
    requires 0 !in plugin1 && 0 !in plugin2
    requires |Aad(plugin1, name1)| < 0x1_0000_0000_0000_0000 && |text1| < 0x1_0000_0000_0000_0000
    requires |Aad(plugin2, name2)| < 0x1_0000_0000_0000_0000 && |text2| < 0x1_0000_0000_0000_0000
    ensures var m1, m2 := MacData(Aad(plugin1, name1), text1), MacData(Aad(plugin2, name2), text2);
            P.Coefficients(m1) == P.Coefficients(m2) <==>
            plugin1 == plugin2 && name1 == name2 && text1 == text2
  {
    hide Aad, MacData, P.Coefficients;
    var m1, m2 := MacData(Aad(plugin1, name1), text1), MacData(Aad(plugin2, name2), text2);
    if P.Coefficients(m1) == P.Coefficients(m2) {
      P.CoefficientsInjective(m1, m2);
      MacDataInjective(Aad(plugin1, name1), text1, Aad(plugin2, name2), text2);
      AadInjective(plugin1, name1, plugin2, name2);
    }
  }

  // ---- what is sealed, byte by byte ----

  /** Section 2.3's state for a key, a counter and a nonce: four constants, then words read least byte first. */
  predicate IsStart(s: seq<nat>, key: Key, counter: nat, nonce: Nonce12) {
    && |s| == 16
    && s[0] == 0x61707865 && s[1] == 0x3320646e && s[2] == 0x79622d32 && s[3] == 0x6b206574
    && (forall i :: 0 <= i < 8 ==> s[4 + i] == Word(key, i))
    && s[12] == counter
    && forall i :: 0 <= i < 3 ==> s[13 + i] == Word(nonce, i)
  }

  /** The smallest multiple of sixteen not below a length. */
  function Whole(n: nat): nat {
    (n + 15) / 16 * 16
  }

  /** Section 2.8's input: the associated data and the ciphertext, each followed by zeros up to a multiple of
      sixteen bytes, then their lengths in eight bytes each, least first. */
  predicate IsMacData(data: seq<Byte>, aad: seq<Byte>, text: seq<Byte>) {
    var a, c := Whole(|aad|), Whole(|text|);
    && |data| == a + c + 16
    && data[..|aad|] == aad && (forall i :: |aad| <= i < a ==> data[i] == 0)
    && data[a..a + |text|] == text && (forall i :: a + |text| <= i < a + c ==> data[i] == 0)
    && FromLe(data[a + c..a + c + 8]) == |aad| && FromLe(data[a + c + 8..]) == |text|
  }

  lemma OnlyOneStart(s: seq<nat>, key: Key, counter: nat, nonce: Nonce12)
    requires IsStart(s, key, counter, nonce)
    ensures s == Start(key, counter, nonce)
  {
    var start := Start(key, counter, nonce);
    hide Start, Word;
    forall i | 0 <= i < 16
      ensures s[i] == start[i]
    {
      StartIsRfc(key, counter, nonce, Zeros(16), i);
      assert 4 <= i < 12 ==> s[4 + (i - 4)] == Word(key, i - 4);
      assert 13 <= i ==> s[13 + (i - 13)] == Word(nonce, i - 13);
    }
  }

  /** The first thirty-two bytes of a block, by their words. */
  lemma OnlyOneKey(k: P.OneTimeKey, block: seq<Byte>)
    requires |block| == 64 && forall i :: 0 <= i < 8 ==> Word(k, i) == Word(block, i)
    ensures k == block[..32]
  {
    forall j | 0 <= j < 32
      ensures k[j] == block[j]
    {
      var i := j / 4;
      assert Word(k, i) == Word(block, i);
      SameBytes(k[4 * i], k[4 * i + 1], k[4 * i + 2], k[4 * i + 3],
                block[4 * i], block[4 * i + 1], block[4 * i + 2], block[4 * i + 3]);
      assert j == 4 * i || j == 4 * i + 1 || j == 4 * i + 2 || j == 4 * i + 3;
    }
  }

  lemma FirstByte(a: Byte, x: nat, b: Byte, y: nat)
    requires a + 256 * x == b + 256 * y
    ensures a == b && x == y
  {
  }

  lemma SameBytes(a0: Byte, a1: Byte, a2: Byte, a3: Byte, b0: Byte, b1: Byte, b2: Byte, b3: Byte)
    requires a0 as nat + 0x100 * a1 as nat + 0x1_0000 * a2 as nat + 0x100_0000 * a3 as nat
          == b0 as nat + 0x100 * b1 as nat + 0x1_0000 * b2 as nat + 0x100_0000 * b3 as nat
    ensures a0 == b0 && a1 == b1 && a2 == b2 && a3 == b3
  {
    var x2, y2 := a2 as nat + 0x100 * a3 as nat, b2 as nat + 0x100 * b3 as nat;
    var x1, y1 := a1 as nat + 0x100 * x2, b1 as nat + 0x100 * y2;
    FirstByte(a0, x1, b0, y1);
    FirstByte(a1, x2, b1, y2);
    FirstByte(a2, a3, b2, b3);
  }

  lemma OnlyOneMacData(data: seq<Byte>, aad: seq<Byte>, text: seq<Byte>)
    requires IsMacData(data, aad, text)
    requires |aad| < 0x1_0000_0000_0000_0000 && |text| < 0x1_0000_0000_0000_0000
    ensures data == MacData(aad, text)
  {
    hide FromLe, ToLe, Pow256;
    var a, c := Whole(|aad|), Whole(|text|);
    EightBytes();
    LeLaysBack(data[a + c..a + c + 8]);
    LeLaysBack(data[a + c + 8..]);
    PaddedIs(data[..a], aad);
    PaddedIs(data[a..a + c], text);
    assert data[..a][..|aad|] == data[..|aad|];
    assert data[a..a + c][..|text|] == data[a..a + |text|];
    assert data == data[..a] + data[a..a + c] + (data[a + c..a + c + 8] + data[a + c + 8..]);
  }

  lemma PaddedIs(padded: seq<Byte>, b: seq<Byte>)
    requires |padded| == Whole(|b|) && padded[..|b|] == b && forall i :: |b| <= i < |padded| ==> padded[i] == 0
    ensures padded == Pad(b)
  {
    WholeByPadding(|b|);
    assert padded == padded[..|b|] + padded[|b|..];
  }

  lemma WholeByPadding(n: int)
    requires n >= 0
    ensures n + -n % 16 == (n + 15) / 16 * 16
  {
  }

  /** The tag is section 2.8's: the one-time key is the first thirty-two bytes of the block whose counter is
      0, and what it authenticates is the padded parts and their lengths. */
  lemma TagIsRfc(subkey: Key, nonce: Nonce12, aad: seq<Byte>, text: seq<Byte>,
                 start: seq<nat>, oneTime: P.OneTimeKey, data: seq<Byte>)
    requires |aad| < 0x1_0000_0000_0000_0000 && |text| < 0x1_0000_0000_0000_0000
    requires IsStart(start, subkey, 0, nonce)
    requires forall i :: 0 <= i < 8 ==> Word(oneTime, i) == (Permuted(start)[i] + start[i]) % 0x1_0000_0000
    requires IsMacData(data, aad, text)
    ensures Tag(subkey, nonce, aad, text) == P.Mac(oneTime, data)
  {
    hide IsStart, IsMacData, MacData, Permuted, Block, Word, Start;
    OnlyOneStart(start, subkey, 0, nonce);
    forall i | 0 <= i < 8
      ensures Word(oneTime, i) == Word(Block(subkey, 0, nonce), i)
    {
      BlockIsRfc(subkey, 0, nonce, i);
    }
    OnlyOneKey(oneTime, Block(subkey, 0, nonce));
    OnlyOneMacData(data, aad, text);
  }

  /** The associated data: the prefix's 26 characters, NUL, the plugin id, NUL, the name. */
  lemma AadLaidOut(plugin: seq<Byte>, name: seq<Byte>)
    ensures var aad, prefix := Aad(plugin, name), "meridian.plugin-setting.v1";
            && |prefix| == 26 && |aad| == 28 + |plugin| + |name|
            && (forall i :: 0 <= i < 26 ==> aad[i] == prefix[i] as int)
            && aad[26] == 0 && aad[27..27 + |plugin|] == plugin
            && aad[27 + |plugin|] == 0 && aad[28 + |plugin|..] == name
  {
    var prefix := "meridian.plugin-setting.v1";
    assert |AadPrefix()| == 27 && AadPrefix()[..26] == Ascii(prefix) && AadPrefix()[26] == 0;
    assert forall i :: 0 <= i < 26 ==> AadPrefix()[i] == AadPrefix()[..26][i];
  }

  /** What `seal` makes: a byte of one; the nonce; each byte of the value exclusive-ored with the keystream,
      whose blocks' counters start from one; and the tag. The key of both is HChaCha20's of the nonce's first
      sixteen bytes, their nonce four zeros and the nonce's last eight. */
  lemma SealedIsDraft(key: Key, plugin: seq<Byte>, name: seq<Byte>, nonce: Nonce24, value: seq<Byte>)
    ensures var sealed := Seal(key, plugin, name, nonce, value);
            var subkey, inner: Nonce12, n := HChaCha(key, nonce[..16]), [0, 0, 0, 0] + nonce[16..24], |value|;
            && |sealed| == 41 + n && sealed[0] == 1 && sealed[1..25] == nonce
            && (forall j :: 0 <= j < n ==>
                  sealed[25 + j] == Xor(value[j], Block(subkey, 1 + j / 64, inner)[j % 64]))
            && sealed[25 + n..] == Tag(subkey, inner, Aad(plugin, name), sealed[25..25 + n])
  {
    hide Tag, XorData, Aad, HChaCha, Block, Xor;
    var subkey, inner := Subkey(key, nonce), InnerNonce(nonce);
    assert inner == [0, 0, 0, 0] + nonce[16..24];
    var body := XorData(subkey, inner, value);
    var sealed := Seal(key, plugin, name, nonce, value);
    Cut(nonce, body, Tag(subkey, inner, Aad(plugin, name), body));
    forall j | 0 <= j < |value|
      ensures sealed[25 + j] == Xor(value[j], Block(subkey, 1 + j / 64, inner)[j % 64])
    {
      XorDataAt(subkey, inner, value, j);
      assert sealed[25..25 + |value|][j] == body[j];
    }
  }
}

/** The IDs `deploy/harness/platform.py` mints: a prefix, then a number padded with zeros, and what it takes
    for a table's IDs to name its keys. */
module Numbering {

  function Digit(d: nat): char
    requires d < 10
  {
    '0' + d as char
  }

  function DigitValue(c: char): nat {
    if '0' <= c <= '9' then (c - '0') as nat else 0
  }

  function Decimal(n: nat): (s: string)
    ensures |s| > 0
  {
    if n < 10 then [Digit(n)] else Decimal(n / 10) + [Digit(n % 10)]
  }

  /** `f"{n:0{width}d}"`: at least `width` digits, more where the number has more. */
  function Padded(n: nat, width: nat): string {
    var digits := Decimal(n);
    seq(if |digits| < width then width - |digits| else 0, _ => '0') + digits
  }

  /** The number a string of digits writes. */
  function ValueOf(s: string): nat {
    if |s| == 0 then 0 else 10 * ValueOf(s[..|s| - 1]) + DigitValue(s[|s| - 1])
  }

  lemma {:induction false} DecimalReads(n: nat)
    ensures ValueOf(Decimal(n)) == n
  {
    assert DigitValue(Digit(n % 10)) == n % 10;
    if n < 10 {
      assert ValueOf([Digit(n)][..0]) == 0;
    } else {
      DecimalReads(n / 10);
      assert Decimal(n)[..|Decimal(n)| - 1] == Decimal(n / 10);
    }
  }

  lemma {:induction false} LeadingZeros(k: nat, s: string)
    ensures ValueOf(seq(k, _ => '0') + s) == ValueOf(s)
    decreases k + |s|
  {
    var whole := seq(k, _ => '0') + s;
    if |s| > 0 {
      LeadingZeros(k, s[..|s| - 1]);
      assert whole[..|whole| - 1] == seq(k, _ => '0') + s[..|s| - 1];
    } else if k > 0 {
      LeadingZeros(k - 1, s);
      assert whole[..|whole| - 1] == seq(k - 1, _ => '0') + s;
    }
  }

  /** Zero-padding included, two numbers are written alike only where they are one. */
  lemma PaddedInjective(m: nat, n: nat, width: nat)
    requires Padded(m, width) == Padded(n, width)
    ensures m == n
  {
    DecimalReads(m);
    DecimalReads(n);
    LeadingZeros(if |Decimal(m)| < width then width - |Decimal(m)| else 0, Decimal(m));
    LeadingZeros(if |Decimal(n)| < width then width - |Decimal(n)| else 0, Decimal(n));
  }

  // ---- the four kinds of ID minted ----

  datatype Kind = Figi | EventContract | Candidate | EventGroup

  function Prefix(kind: Kind): (p: string)
    ensures |p| >= 10
  {
    match kind
    case Figi => "INS-01JMINT"
    case EventContract => "INS-01JEVT"
    case Candidate => "INS-01JCAND"
    case EventGroup => "EVG-01JEVG"
  }

  function Width(kind: Kind): nat {
    if kind == Figi || kind == Candidate then 19 else 20
  }

  function MintedId(kind: Kind, n: nat): (id: string) {
    Prefix(kind) + Padded(n, Width(kind))
  }

  lemma PrefixesPart()
    ensures Prefix(Figi)[7] == 'M' && Prefix(EventContract)[7] == 'E' && Prefix(Candidate)[7] == 'C'
    ensures forall kind: Kind :: Prefix(kind)[0] == if kind == EventGroup then 'E' else 'I'
  {
  }

  /** A minted ID tells its kind and its number. */
  lemma MintedIdInjective(kind1: Kind, n1: nat, kind2: Kind, n2: nat)
    requires MintedId(kind1, n1) == MintedId(kind2, n2)
    ensures kind1 == kind2 && n1 == n2
  {
    hide Padded, Prefix;
    PrefixesPart();
    var id := MintedId(kind1, n1);
    assert id[0] == Prefix(kind1)[0] == Prefix(kind2)[0];
    assert id[7] == Prefix(kind1)[7] == Prefix(kind2)[7];
    assert kind1 == kind2;
    assert Padded(n1, Width(kind1)) == id[|Prefix(kind1)|..];
    assert Padded(n2, Width(kind1)) == id[|Prefix(kind1)|..];
    PaddedInjective(n1, n2, Width(kind1));
  }

  /** A number with its last `k` decimal digits off. */
  function Tenths(n: nat, k: nat): nat {
    if k == 0 then n else Tenths(n / 10, k - 1)
  }

  /** The `k`th digit from the right, and no digits but those it takes. */
  lemma {:induction false} DecimalDigit(n: nat, k: nat)
    requires k < |Decimal(n)|
    ensures Decimal(n)[|Decimal(n)| - 1 - k] as int == '0' as int + Tenths(n, k) % 10
  {
    if k > 0 {
      DecimalDigit(n / 10, k - 1);
    }
  }

  lemma {:induction false} DecimalSize(n: nat, k: nat)
    ensures k >= |Decimal(n)| ==> Tenths(n, k) == 0
    ensures k < |Decimal(n)| && k > 0 ==> Tenths(n, k) > 0
  {
    if n >= 10 && k > 0 {
      DecimalSize(n / 10, k - 1);
    } else if k > 0 {
      TenthsOfNone(k - 1);
    }
  }

  lemma {:induction false} TenthsOfNone(k: nat)
    ensures Tenths(0, k) == 0
  {
    if k > 0 {
      TenthsOfNone(k - 1);
    }
  }

  /** A minted ID outright: its table's prefix, then its number in decimal, zeros before it up to 19 or 20
      digits, and more digits than that only for a number that takes them. */
  lemma MintedIdSays(kind: Kind, n: nat, k: nat)
    ensures var prefix := if kind == Figi then "INS-01JMINT" else if kind == EventContract then "INS-01JEVT"
                          else if kind == Candidate then "INS-01JCAND" else "EVG-01JEVG";
            var width := if kind == Figi || kind == Candidate then 19 else 20;
            var id := MintedId(kind, n);
            && |id| >= |prefix| + width && id[..|prefix|] == prefix
            && Tenths(n, |id| - |prefix|) == 0
            && (|id| > |prefix| + width ==> Tenths(n, |id| - |prefix| - 1) > 0)
            && (k < |id| - |prefix| ==> id[|id| - 1 - k] as int == '0' as int + Tenths(n, k) % 10)
  {
    hide Padded, Tenths;
    PaddedDigit(n, Width(kind), k);
  }

  lemma PaddedDigit(n: nat, width: nat, k: nat)
    requires width > 1
    ensures var s := Padded(n, width);
            && |s| >= width && Tenths(n, |s|) == 0 && (|s| > width ==> Tenths(n, |s| - 1) > 0)
            && (k < |s| ==> s[|s| - 1 - k] as int == '0' as int + Tenths(n, k) % 10)
  {
    hide Decimal, Tenths;
    var s := Padded(n, width);
    DecimalSize(n, |s|);
    DecimalSize(n, |s| - 1);
    DecimalSize(n, k);
    if k < |Decimal(n)| {
      DecimalDigit(n, k);
    }
  }

  // ---- a table numbered from its length plus one ----

  ghost predicate NumberedUpTo(kind: Kind, id: string, most: nat) {
    exists n: nat :: 1 <= n <= most && id == MintedId(kind, n)
  }

  ghost predicate UpTo<K(!new)>(kind: Kind, ids: map<K, string>, most: nat) {
    forall k :: k in ids ==> NumberedUpTo(kind, ids[k], most)
  }

  ghost predicate Apart<K(!new)>(ids: map<K, string>) {
    forall j, k :: j in ids && k in ids && ids[j] == ids[k] ==> j == k
  }

  /** Every key's ID is numbered up to the table's length, and no two keys share one. */
  ghost predicate Numbered<K(!new)>(kind: Kind, ids: map<K, string>) {
    UpTo(kind, ids, |ids|) && Apart(ids)
  }

  lemma NumberedApart(kind: Kind, id: string, most: nat)
    requires NumberedUpTo(kind, id, most)
    ensures id != MintedId(kind, most + 1) && NumberedUpTo(kind, id, most + 1)
  {
    hide MintedId;
    var n: nat :| 1 <= n <= most && id == MintedId(kind, n);
    if id == MintedId(kind, most + 1) {
      MintedIdInjective(kind, n, kind, most + 1);
    }
  }

  lemma StaysApart<K(!new)>(ids: map<K, string>, key: K, id: string)
    requires Apart(ids) && forall k :: k in ids ==> ids[k] != id
    ensures Apart(ids[key := id])
  {
  }

  lemma OneMore<K>(ids: map<K, string>, key: K, id: string)
    requires key !in ids
    ensures |ids[key := id]| == |ids| + 1
  {
    assert ids[key := id].Keys == ids.Keys + {key};
    assert |ids[key := id]| == |ids[key := id].Keys|;
  }

  lemma NumberedOn<K(!new)>(kind: Kind, ids: map<K, string>, most: nat)
    requires UpTo(kind, ids, most)
    ensures UpTo(kind, ids, most + 1)
    ensures forall k :: k in ids ==> ids[k] != MintedId(kind, most + 1)
  {
    hide MintedId, NumberedUpTo;
    forall k | k in ids
      ensures NumberedUpTo(kind, ids[k], most + 1) && ids[k] != MintedId(kind, most + 1)
    {
      NumberedApart(kind, ids[k], most);
    }
  }

  lemma UpToAdds<K(!new)>(kind: Kind, ids: map<K, string>, key: K, most: nat)
    requires UpTo(kind, ids, most) && most > 0
    ensures UpTo(kind, ids[key := MintedId(kind, most)], most)
  {
    hide MintedId;
    assert NumberedUpTo(kind, MintedId(kind, most), most);
    hide NumberedUpTo;
  }

  /** Minting the next number keeps a table's IDs apart. */
  lemma NextNumber<K(!new)>(kind: Kind, ids: map<K, string>, key: K)
    requires Numbered(kind, ids) && key !in ids
    ensures Numbered(kind, ids[key := MintedId(kind, |ids| + 1)])
  {
    hide MintedId, UpTo, Apart;
    OneMore(ids, key, MintedId(kind, |ids| + 1));
    NumberedOn(kind, ids, |ids|);
    UpToAdds(kind, ids, key, |ids| + 1);
    StaysApart(ids, key, MintedId(kind, |ids| + 1));
  }
}

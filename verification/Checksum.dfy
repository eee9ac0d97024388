/**
  The Internet checksum (sections 1 and 2 of RFC 1071): 16-bit words summed in a 32-bit accumulator,
  carries folded back at the end, against word-by-word end-around-carry addition.
 */
module Checksum {
  import opened Net
  import opened Numbers
  import opened Counting

  newtype u32 = x: int | 0 <= x < 0x1_0000_0000

  /** The k-th big-endian word; an odd last byte is padded with a zero byte. */
  function WordAt(s: seq<Byte>, k: nat): Word
    requires 2 * k < |s|
  {
    BigEndian(s[2 * k], if 2 * k + 1 < |s| then s[2 * k + 1] else 0)
  }

  function Words(s: seq<Byte>): (ws: seq<Word>)
    ensures |ws| == (|s| + 1) / 2
    ensures forall k :: 0 <= k < |ws| ==> ws[k] == WordAt(s, k)
  {
    seq((|s| + 1) / 2, k requires 0 <= k < (|s| + 1) / 2 => WordAt(s, k))
  }

  /** Words are two octets each, most significant first; a segment of odd length counts as if a zero octet followed. */
  lemma WordsExact(s: seq<Byte>)
    ensures |s| % 2 == 0 ==> |Words(s)| == |s| / 2
    ensures |s| % 2 == 0 ==> forall k :: 0 <= k < |s| / 2 ==> Words(s)[k] == Number(s[2 * k..2 * k + 2])
    ensures |s| % 2 == 1 ==> Words(s) == Words(s + [0])
  {
    if |s| % 2 == 0 {
      forall k | 0 <= k < |s| / 2
        ensures Words(s)[k] == Number(s[2 * k..2 * k + 2])
      {
        NumberTwo(s[2 * k..2 * k + 2]);
      }
    }
  }

  /** One's-complement addition of two words: a carry out of bit 15 is added back at bit 0. */
  function OcAdd(a: Word, b: Word): Word {
    if a + b >= 0x1_0000 then a + b - 0x1_0000 + 1 else a + b
  }

  function OcSum(ws: seq<Word>): Word {
    if ws == [] then 0 else OcAdd(OcSum(ws[..|ws| - 1]), ws[|ws| - 1])
  }

  /** A receiver accepts when the sum over everything, checksum included, is all ones. */
  predicate Verifies(ws: seq<Word>) {
    OcSum(ws) == 0xFFFF
  }

  /** A number with its carries folded into 16 bits: its residue mod 65535, non-zero kept non-zero. */
  ghost predicate IsFolded(total: nat, r: nat) {
    r <= 0xFFFF && r % 0xFFFF == total % 0xFFFF && (r == 0 <==> total == 0)
  }

  lemma FoldedUnique(total: nat, r: nat, q: nat)
    requires IsFolded(total, r) && IsFolded(total, q)
    ensures r == q
  {
  }

  /** One fold step removes a multiple of 65535 and keeps a non-zero number non-zero. */
  lemma FoldStep(sum: nat, low: nat, high: nat)
    requires sum == 0x1_0000 * high + low && high > 0
    ensures low + high == sum - 0xFFFF * high
    ensures 0 < low + high < sum && (low + high) % 0xFFFF == sum % 0xFFFF
  {
  }

  lemma {:induction false} OcSumIsFolded(ws: seq<Word>)
    ensures IsFolded(Sum(ws), OcSum(ws))
  {
    if ws != [] {
      OcSumIsFolded(ws[..|ws| - 1]);
    }
  }

  /** Summing wide and folding once equals end-around-carry addition of every word. */
  lemma FoldEqualsOcSum(ws: seq<Word>, r: nat)
    requires IsFolded(Sum(ws), r)
    ensures r == OcSum(ws)
  {
    OcSumIsFolded(ws);
    FoldedUnique(Sum(ws), r, OcSum(ws));
  }

  lemma {:induction false} SumAppend(a: seq<nat>, b: seq<nat>)
    ensures Sum(a + b) == Sum(a) + Sum(b)
  {
    if b == [] {
      assert a + b == a;
    } else {
      var last := |b| - 1;
      assert (a + b)[..|a + b| - 1] == a + b[..last];
      SumAppend(a, b[..last]);
    }
  }

  lemma SumPrefix(ws: seq<nat>, k: nat)
    requires k < |ws|
    ensures Sum(ws[..k + 1]) == Sum(ws[..k]) + ws[k]
  {
    assert ws[..k + 1][..k] == ws[..k];
  }

  lemma SumBound(ws: seq<Word>)
    ensures Sum(ws) <= |ws| * 0xFFFF
  {
    SumAtMost(ws, 0xFFFF);
  }

  /** Filling the checksum field with the complement makes the whole verify, also when a zero is sent as all ones. */
  lemma ChecksumCompletes(ws: seq<Word>, k: nat)
    requires k < |ws| && ws[k] == 0
    ensures Verifies(ws[k := 0xFFFF - OcSum(ws)])
    ensures 0xFFFF - OcSum(ws) == 0 ==> Verifies(ws[k := 0xFFFF])
  {
    hide OcSum, Sum;
    OcSumIsFolded(ws);
    var c := 0xFFFF - OcSum(ws);
    SumUpdate(ws, k, c);
    FoldEqualsOcSum(ws[k := c], 0xFFFF);
    if c == 0 {
      SumUpdate(ws, k, 0xFFFF);
      FoldEqualsOcSum(ws[k := 0xFFFF], 0xFFFF);
    }
  }

  /**
    Error detection, exactly: after one word of a verified message is replaced, it still verifies if and only
    if the new word is congruent to the old one mod 65535 and the message is not all zero.
   */
  lemma SingleWordDetection(ws: seq<Word>, k: nat, w: Word)
    requires Verifies(ws) && k < |ws|
    ensures Verifies(ws[k := w]) <==> w % 0xFFFF == ws[k] % 0xFFFF && Sum(ws[k := w]) > 0
  {
    OcSumIsFolded(ws);
    OcSumIsFolded(ws[k := w]);
    SumUpdate(ws, k, w);
    TermAtMostSum(ws, k);
    hide OcSum, Sum;
    ReplaceModulo(Sum(ws), ws[k], w);
  }

  lemma ReplaceModulo(total: nat, before: Word, after: Word)
    requires total % 0xFFFF == 0 && before <= total
    ensures (total - before + after) % 0xFFFF == 0 <==> after % 0xFFFF == before % 0xFFFF
  {
  }

  lemma {:induction false} TermAtMostSum(ws: seq<nat>, k: nat)
    requires k < |ws|
    ensures ws[k] <= Sum(ws)
  {
    if k < |ws| - 1 {
      TermAtMostSum(ws[..|ws| - 1], k);
    }
  }

  /** Reordering words never changes the checksum. */
  lemma OrderIrrelevant(a: seq<Word>, b: seq<Word>)
    requires multiset(a) == multiset(b)
    ensures OcSum(a) == OcSum(b)
  {
    SumPermutation(a, b);
    OcSumIsFolded(a);
    FoldEqualsOcSum(b, OcSum(a));
  }

  lemma {:induction false} SumPermutation(a: seq<Word>, b: seq<Word>)
    requires multiset(a) == multiset(b)
    ensures Sum(a) == Sum(b)
  {
    if a == [] {
      assert |multiset(b)| == 0;
    } else {
      var last := |a| - 1;
      assert a[last] in multiset(b);
      var k :| 0 <= k < |b| && b[k] == a[last];
      var rest := b[..k] + b[k + 1..];
      assert a == a[..last] + [a[last]];
      assert b == b[..k] + [b[k]] + b[k + 1..];
      assert multiset(b) == multiset(rest) + multiset{b[k]};
      assert multiset(a) == multiset(a[..last]) + multiset{a[last]};
      assert multiset(a[..last]) == multiset(a) - multiset{a[last]};
      assert multiset(rest) == multiset(b) - multiset{b[k]};
      SumPermutation(a[..last], rest);
      SumAppend(b[..k], b[k + 1..]);
      SumAppend(b[..k] + [b[k]], b[k + 1..]);
      SumAppend(b[..k], [b[k]]);
    }
  }

  /** The accumulation loop: two bytes at a time, then the odd byte; the accumulator does not overflow. */
  method Accumulate(start: u32, data: seq<Byte>) returns (sum: u32)
    requires start as int + Sum(Words(data)) < 0x1_0000_0000
    ensures sum as int == start as int + Sum(Words(data))
  {
    sum := start;
    var i := 0;
    ghost var ws, k := Words(data), 0;
    PrefixSums(ws);
    hide Sum, Words, BigEndian;
    while i + 1 < |data|
      invariant i == 2 * k && i <= |data| && |ws| == (|data| + 1) / 2
      invariant sum as int == start as int + Sum(ws[..k])
    {
      SumPrefix(ws, k);
      assert ws[k] == WordAt(data, k) == BigEndian(data[i], data[i + 1]);
      sum := sum + BigEndian(data[i], data[i + 1]) as u32;
      i := i + 2;
      k := k + 1;
    }
    if i < |data| {
      SumPrefix(ws, k);
      assert ws[k] == WordAt(data, k) == BigEndian(data[i], 0);
      sum := sum + BigEndian(data[i], 0) as u32;
      assert ws[..k + 1] == ws;
    } else {
      assert ws[..k] == ws;
    }
  }

  lemma {:induction false} PrefixSums(ws: seq<nat>)
    ensures forall k :: 0 <= k <= |ws| ==> Sum(ws[..k]) <= Sum(ws)
    ensures Sum(ws[..0]) == 0
  {
    forall k | 0 <= k <= |ws|
      ensures Sum(ws[..k]) <= Sum(ws)
    {
      SumAppend(ws[..k], ws[k..]);
      assert ws[..k] + ws[k..] == ws;
    }
  }

  /** The folding loop and the final complement. */
  method FoldCarries(total: u32) returns (r: Word)
    ensures IsFolded(total as int, r)
  {
    var sum := total;
    while sum / 0x1_0000 != 0
      invariant sum as int % 0xFFFF == total as int % 0xFFFF && (sum == 0 <==> total == 0)
      decreases sum
    {
      FoldStep(sum as int, (sum % 0x1_0000) as int, (sum / 0x1_0000) as int);
      sum := sum % 0x1_0000 + sum / 0x1_0000;
    }
    r := sum as int;
  }

  /** `checksum`: the complement of the one's-complement sum, whenever the accumulator can hold the sum. */
  method Compute(data: seq<Byte>) returns (r: Word)
    requires Sum(Words(data)) < 0x1_0000_0000
    ensures r == 0xFFFF - OcSum(Words(data))
  {
    var sum := Accumulate(0, data);
    var folded := FoldCarries(sum);
    FoldEqualsOcSum(Words(data), folded);
    r := 0xFFFF - folded;
  }

  /** A computed zero is transmitted as all ones, since zero means that no checksum was computed (RFC 768). */
  function Transmitted(c: Word): Word {
    if c == 0 then 0xFFFF else c
  }

  /** The pseudo-header of UDP over IPv4: addresses, protocol 17, UDP length (RFC 768). */
  function PseudoV4(src: seq<Byte>, dst: seq<Byte>, len: Word): seq<Word> {
    Words(src) + Words(dst) + [17, len]
  }

  /** The pseudo-header of section 8.1 of RFC 8200: addresses, 32-bit length, zeros, next header 17. */
  function PseudoV6(src: seq<Byte>, dst: seq<Byte>, len: Word): seq<Word> {
    Words(src) + Words(dst) + [len / 0x1_0000, len % 0x1_0000, 0, 17]
  }

  /** The pseudo-headers as octets: section 3.1 of RFC 791 and RFC 768, and section 8.1 of RFC 8200. */
  lemma PseudoLayouts(src: seq<Byte>, dst: seq<Byte>, len: Word)
    requires |src| % 2 == 0 && |dst| % 2 == 0
    ensures PseudoV4(src, dst, len) == Words(src + dst + [0, 17] + Octets(len, 2))
    ensures PseudoV6(src, dst, len) == Words(src + dst + Octets(len, 4) + [0, 0, 0, 17])
  {
    hide Words, Octets, WordAt;
    var v4: seq<Byte>, v6: seq<Byte>, next: seq<Byte> := [0, 17] + Octets(len, 2), Octets(len, 4), [0, 0, 0, 17];
    WordsConcat(src, dst);
    WordsConcat(src + dst, v4);
    WordsConcat([0, 17], Octets(len, 2));
    WordsConcat(src + dst, v6 + next);
    WordsConcat(v6, next);
    LengthWords(len);
    assert src + dst + [0, 17] + Octets(len, 2) == src + dst + v4;
    assert src + dst + v6 + next == src + dst + (v6 + next);
  }

  lemma WordAtConcat(a: seq<Byte>, b: seq<Byte>, n: nat, k: nat)
    requires |a| == 2 * n && 2 * k < |a + b|
    ensures WordAt(a + b, k) == if k < n then WordAt(a, k) else WordAt(b, k - n)
  {
    if k < n {
      assert (a + b)[2 * k] == a[2 * k] && (a + b)[2 * k + 1] == a[2 * k + 1];
    } else {
      assert (a + b)[2 * k] == b[2 * (k - n)];
    }
  }

  lemma WordsConcat(a: seq<Byte>, b: seq<Byte>)
    requires |a| % 2 == 0
    ensures Words(a + b) == Words(a) + Words(b)
  {
    hide WordAt;
    var n := |a| / 2;
    forall k | 0 <= k < |Words(a + b)|
      ensures Words(a + b)[k] == (Words(a) + Words(b))[k]
    {
      WordAtConcat(a, b, n, k);
    }
  }

  lemma WordOfTwo(s: seq<Byte>)
    requires |s| == 2
    ensures Words(s) == [Number(s)]
  {
    NumberTwo(s);
    assert Words(s)[0] == WordAt(s, 0);
  }

  lemma LengthWords(len: Word)
    ensures Words([0, 17]) == [17] && Words([0, 0, 0, 17]) == [0, 17]
    ensures Words(Octets(len, 2)) == [len] && Words(Octets(len, 4)) == [0, len]
  {
    hide Words, Octets;
    Limits();
    NumberOfOctets(len, 2);
    WordOfTwo(Octets(len, 2));
    WordOfTwo([0, 0]);
    WordOfTwo([0, 17]);
    NumberTwo([0, 0]);
    NumberTwo([0, 17]);
    WordsConcat([0, 0], Octets(len, 2));
    WordsConcat([0, 0], [0, 17]);
    HighZero(len);
    assert [0, 0, 0, 17] == [0, 0] + [0, 17];
  }

  lemma HighZero(len: Word)
    ensures Octets(len, 4) == [0, 0] + Octets(len, 2)
  {
    var low := Octets(len, 2);
    assert low == Octets(len / 256, 1) + [len % 256];
    assert Octets(len / 256, 1) == Octets(0, 0) + [len / 256 % 256];
    assert len / 256 / 256 == 0;
    assert Octets(0, 2) == Octets(0, 1) + [0] == [0, 0];
    assert Octets(len / 256, 3) == Octets(0, 2) + [len / 256 % 256];
    assert Octets(len, 4) == Octets(len / 256, 3) + [len % 256];
  }

  lemma PseudoSums(src: seq<Byte>, dst: seq<Byte>, len: Word, segment: seq<Byte>)
    ensures Sum(PseudoV4(src, dst, len) + Words(segment))
      == Sum(Words(src)) + Sum(Words(dst)) + 17 + len + Sum(Words(segment))
    ensures Sum(PseudoV6(src, dst, len) + Words(segment))
      == Sum(Words(src)) + Sum(Words(dst)) + len / 0x1_0000 + len % 0x1_0000 + 17 + Sum(Words(segment))
  {
    SumAppend(PseudoV4(src, dst, len), Words(segment));
    SumAppend(PseudoV6(src, dst, len), Words(segment));
    SumAppend(Words(src) + Words(dst), [17, len]);
    SumAppend(Words(src) + Words(dst), [len / 0x1_0000, len % 0x1_0000, 0, 17]);
    SumAppend(Words(src), Words(dst));
    SumTwo(17, len);
    SumFour(len / 0x1_0000, len % 0x1_0000, 0, 17);
  }

  lemma SumTwo(x: nat, y: nat)
    ensures Sum([x, y]) == x + y
  {
    assert Sum([]) == 0 && [x][..0] == [];
    assert Sum([x]) == x;
    assert [x, y][..1] == [x];
  }

  lemma SumFour(w: nat, x: nat, y: nat, z: nat)
    ensures Sum([w, x, y, z]) == w + x + y + z
  {
    SumAppend([w, x], [y, z]);
    SumTwo(w, x);
    SumTwo(y, z);
    assert [w, x, y, z] == [w, x] + [y, z];
  }

  method UdpV4(src: seq<Byte>, dst: seq<Byte>, segment: seq<Byte>) returns (r: Word)
    requires |src| == |dst| == 4 && |segment| <= 0xFFFF
    ensures r == Transmitted(0xFFFF - OcSum(PseudoV4(src, dst, |segment|) + Words(segment))) && r != 0
  {
    ghost var ws := PseudoV4(src, dst, |segment|) + Words(segment);
    PseudoSums(src, dst, |segment|, segment);
    SumBound(Words(src));
    SumBound(Words(dst));
    SumBound(Words(segment));
    var sum: u32 := 0;
    FourBytes(src);
    FourBytes(dst);
    sum := sum + BigEndian(src[0], src[1]) as u32;
    sum := sum + BigEndian(src[2], src[3]) as u32;
    sum := sum + BigEndian(dst[0], dst[1]) as u32;
    sum := sum + BigEndian(dst[2], dst[3]) as u32;
    sum := sum + 17;
    sum := sum + |segment| as u32;
    sum := Accumulate(sum, segment);
    var folded := FoldCarries(sum);
    FoldEqualsOcSum(ws, folded);
    r := 0xFFFF - folded;
    if r == 0 {
      r := 0xFFFF;
    }
  }

  lemma FourBytes(a: seq<Byte>)
    requires |a| == 4
    ensures Sum(Words(a)) == BigEndian(a[0], a[1]) + BigEndian(a[2], a[3])
  {
    assert Words(a) == [WordAt(a, 0), WordAt(a, 1)];
    SumTwo(WordAt(a, 0), WordAt(a, 1));
  }

  method UdpV6(src: seq<Byte>, dst: seq<Byte>, segment: seq<Byte>) returns (r: Word)
    requires |src| == |dst| == 16 && |segment| <= 0xFFFF
    ensures r == Transmitted(0xFFFF - OcSum(PseudoV6(src, dst, |segment|) + Words(segment))) && r != 0
  {
    ghost var ws := PseudoV6(src, dst, |segment|) + Words(segment);
    PseudoSums(src, dst, |segment|, segment);
    SumBound(Words(src));
    SumBound(Words(dst));
    SumBound(Words(segment));
    PrefixSums(Words(src));
    PrefixSums(Words(dst));
    var sum: u32 := 0;
    for k := 0 to 8
      invariant sum as int == Sum(Words(src)[..k]) + Sum(Words(dst)[..k])
    {
      SumPrefix(Words(src), k);
      SumPrefix(Words(dst), k);
      assert Words(src)[k] == WordAt(src, k) && Words(dst)[k] == WordAt(dst, k);
      sum := sum + BigEndian(src[2 * k], src[2 * k + 1]) as u32;
      sum := sum + BigEndian(dst[2 * k], dst[2 * k + 1]) as u32;
    }
    assert Words(src)[..8] == Words(src) && Words(dst)[..8] == Words(dst);
    sum := sum + (|segment| / 0x1_0000) as u32;
    sum := sum + (|segment| % 0x1_0000) as u32;
    sum := sum + 17;
    sum := Accumulate(sum, segment);
    var folded := FoldCarries(sum);
    FoldEqualsOcSum(ws, folded);
    r := 0xFFFF - folded;
    if r == 0 {
      r := 0xFFFF;
    }
  }
}

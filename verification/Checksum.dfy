/** The Internet checksum of `ctcp_utils.c` (RFC 1071). */
module Checksum {
  import opened Bytes

  const ONES := 0xffff

  /** Two bytes as a big-endian word. */
  function Word(high: byte, low: byte): u16 {
    high * 256 + low
  }

  /** The sum of the big-endian 16-bit words of a buffer; an odd last byte is the high half of a word. */
  function WordSum(s: seq<byte>): nat {
    if |s| == 0 then 0
    else if |s| == 1 then Word(s[0], 0)
    else Word(s[0], s[1]) + WordSum(s[2..])
  }

  /**
   The checksum as RFC 1071 means it: the negated residue of the word sum modulo 65535, never
   the zero word, in network byte order.
   */
  function Cksum(s: seq<byte>): u16 {
    Swap16(ONES - WordSum(s) % ONES)
  }

  /** One round of carry folding. */
  function FoldOnce(x: nat): nat {
    x / U16_MOD + x % U16_MOD
  }

  /** The second loop of `cksum`: at most two rounds, and the residue modulo 65535 is kept. */
  method FoldCarries(total: u32) returns (sum: u16)
    ensures sum % ONES == total % ONES && (sum == 0 <==> total == 0)
    ensures sum == total || sum == FoldOnce(total) || sum == FoldOnce(FoldOnce(total))
  {
    var x: u32 := total;
    ghost var rounds := 0;
    while x > ONES
      invariant 0 <= rounds <= 2
      invariant x == if rounds == 0 then total else if rounds == 1 then FoldOnce(total) else FoldOnce(FoldOnce(total))
      invariant x % ONES == total % ONES && (x == 0 <==> total == 0)
    {
      FoldKeepsResidue(total);
      FoldKeepsResidue(x);
      x := FoldOnce(x);
      rounds := rounds + 1;
    }
    sum := x;
  }

  /** The first loop of `cksum`: words are accumulated in a `uint32_t`, which never wraps. */
  method SumWords(data: seq<byte>) returns (sum: u32)
    requires |data| < U16_MOD
    ensures sum == WordSum(data)
  {
    sum := 0;
    var p, len := 0, |data|;
    WordSumBound(data);
    assert data[0..] == data;
    while len >= 2
      invariant 0 <= p && 0 <= len && p + len == |data|
      invariant sum + WordSum(data[p..]) == WordSum(data)
    {
      ghost var rest := data[p..];
      assert rest[2..] == data[p + 2..] && rest[0] == data[p] && rest[1] == data[p + 1];
      AddNoWrap(sum, Word(data[p], data[p + 1]));
      sum := U32(sum + Word(data[p], data[p + 1]));
      p, len := p + 2, len - 2;
    }
    if len > 0 {
      AddNoWrap(sum, Word(data[p], 0));
      sum := U32(sum + Word(data[p], 0));
    }
  }

  lemma AddNoWrap(x: u32, y: nat)
    ensures x + y < U32_MOD ==> U32(x + y) == x + y
  {
  }

  /** `cksum`: accumulate, fold the carries, complement, swap, avoid zero. */
  method ComputeCksum(data: seq<byte>) returns (result: u16)
    requires |data| < U16_MOD
    ensures result == Cksum(data)
  {
    var sum := SumWords(data);
    var folded := FoldCarries(sum);
    result := Complement(folded);
    ComplementIsCksum(folded, sum);
  }

  /** The complement in network order, with 0xffff in place of zero. */
  function Complement(sum: u16): u16 {
    var word := Swap16(ONES - sum);
    if word != 0 then word else ONES
  }

  lemma ComplementIsCksum(sum: u16, total: nat)
    requires sum % ONES == total % ONES && (sum == 0 <==> total == 0)
    ensures Complement(sum) == Swap16(ONES - total % ONES)
  {
    if sum == ONES {
    } else {
      assert sum % ONES == sum;
    }
  }

  lemma FoldKeepsResidue(x: u32)
    ensures FoldOnce(x) % ONES == x % ONES
    ensures FoldOnce(x) == 0 <==> x == 0
    ensures FoldOnce(x) <= 2 * ONES
    ensures FoldOnce(FoldOnce(x)) <= ONES
  {
    var q := x / U16_MOD;
    assert FoldOnce(x) == x - ONES * q;
    ResidueShift(FoldOnce(x), q);
  }

  lemma ResidueShift(x: int, q: int)
    ensures (x + ONES * q) % ONES == x % ONES
  {
    assert x == ONES * (x / ONES) + x % ONES;
    assert x + ONES * q == ONES * (x / ONES + q) + x % ONES;
  }

  /** No `uint16_t` length can overflow the 32-bit accumulator. */
  lemma {:induction false} WordSumBound(s: seq<byte>)
    ensures 2 * WordSum(s) <= ONES * (|s| + 1)
    ensures |s| < U16_MOD ==> WordSum(s) < U32_MOD
  {
    if |s| >= 2 {
      WordSumBound(s[2..]);
    }
  }

  lemma {:induction false} WordSumConcat(a: seq<byte>, b: seq<byte>)
    requires |a| % 2 == 0
    ensures WordSum(a + b) == WordSum(a) + WordSum(b)
  {
    if a == [] {
      assert a + b == b;
    } else {
      WordSumConcat(a[2..], b);
      assert (a + b)[2..] == a[2..] + b;
    }
  }

  /** The weight of a byte in the word sum. */
  function Weight(i: nat): nat {
    if i % 2 == 0 then 256 else 1
  }

  lemma {:induction false} WordSumUpdate(s: seq<byte>, i: nat, v: byte)
    requires i < |s|
    ensures WordSum(s[i := v]) == WordSum(s) + Weight(i) * (v - s[i])
  {
    if i >= 2 {
      WordSumUpdate(s[2..], i - 2, v);
      assert s[i := v][2..] == s[2..][i - 2 := v];
    } else if |s| >= 2 {
      assert s[i := v][2..] == s[2..];
    }
  }

  /** Two buffers have the same checksum exactly when their word sums agree modulo 65535; zero never occurs. */
  lemma CksumEqualIff(s: seq<byte>, t: seq<byte>)
    ensures Cksum(s) == Cksum(t) <==> WordSum(s) % ONES == WordSum(t) % ONES
    ensures Cksum(s) != 0
  {
    Swap16Injective(ONES - WordSum(s) % ONES, ONES - WordSum(t) % ONES);
  }

  /** A buffer with a 16-bit variable stored at an offset. */
  function Store16(s: seq<byte>, k: nat, v: u16): seq<byte>
    requires k + 1 < |s|
  {
    s[k := v % 256][k + 1 := v / 256]
  }

  lemma WordSumStore(s: seq<byte>, k: nat, v: u16)
    requires k % 2 == 0 && k + 1 < |s| && s[k] == s[k + 1] == 0
    ensures WordSum(Store16(s, k, v)) == WordSum(s) + Swap16(v)
  {
    var low: byte, high: byte := v % 256, v / 256;
    WeightsAt(k);
    WordSumUpdate(s, k, low);
    WordSumUpdate(s[k := low], k + 1, high);
  }

  lemma WeightsAt(k: nat)
    requires k % 2 == 0
    ensures Weight(k) == 256 && Weight(k + 1) == 1
  {
  }

  /**
   The receiver's comparison in the terms of RFC 1071: the stored word is the checksum of the buffer
   with that word zeroed, exactly when it is not zero and the whole buffer sums to 0 modulo 65535.
   */
  lemma StoredCksumIff(s: seq<byte>, k: nat, v: u16)
    requires k % 2 == 0 && k + 1 < |s| && s[k] == s[k + 1] == 0
    ensures v == Cksum(s) <==> v != 0 && WordSum(Store16(s, k, v)) % ONES == 0
  {
    WordSumStore(s, k, v);
    NegatedResidue(WordSum(s), Swap16(v));
    Swap16Injective(v, Cksum(s));
    Swap16Twice(ONES - WordSum(s) % ONES);
    Swap16Injective(v, 0);
  }

  lemma NegatedResidue(x: nat, y: u16)
    ensures y == ONES - x % ONES <==> y != 0 && (x + y) % ONES == 0
  {
    var r := x % ONES;
    ResidueShift(r + y, x / ONES);
    assert (x + y) % ONES == (r + y) % ONES;
  }

  /** Bit `j` of a number, counted from the lowest: its `j`th binary digit. */
  function Bit(b: nat, j: nat): nat {
    if j == 0 then b % 2 else Bit(b / 2, j - 1)
  }

  /** `flipbit` on one byte: exclusive or with the mask `1 << k`. */
  function FlipByte(b: byte, k: nat): byte
    requires k < 8
  {
    if Bit(b, k) == 1 then
      BitSetIsThere(b, k);
      b - Power(k)
    else
      BitClearHasRoom(b, k, 8);
      PowerOf8();
      b + Power(k)
  }

  lemma PowerOf8()
    ensures Power(8) == 256
  {
    assert Power(4) == 16;
    PowerAdd(4, 4);
  }

  lemma {:induction false} BitSetIsThere(b: nat, k: nat)
    requires Bit(b, k) == 1
    ensures b >= Power(k)
  {
    if k > 0 {
      BitSetIsThere(b / 2, k - 1);
    }
  }

  lemma {:induction false} BitClearHasRoom(b: nat, k: nat, n: nat)
    requires Bit(b, k) != 1 && k < n && b < Power(n)
    ensures b + Power(k) < Power(n)
  {
    assert Power(n) == 2 * Power(n - 1);
    if k > 0 {
      BitClearHasRoom(b / 2, k - 1, n - 1);
    }
  }

  /** The mask is added or taken away: bit `k` is complemented, and no other bit changes. */
  lemma {:induction false} FlipsOneBit(b: nat, f: nat, k: nat, j: nat)
    requires f == if Bit(b, k) == 1 then b - Power(k) else b + Power(k)
    ensures Bit(f, j) == if j == k then 1 - Bit(b, j) else Bit(b, j)
    decreases k
  {
    BitIsBinary(b, k);
    if k == 0 {
      assert f / 2 == b / 2 && f % 2 == 1 - b % 2;
    } else {
      var p := Power(k - 1);
      assert f % 2 == b % 2 && f / 2 == if Bit(b / 2, k - 1) == 1 then b / 2 - p else b / 2 + p;
      if j > 0 {
        FlipsOneBit(b / 2, f / 2, k - 1, j - 1);
      }
    }
  }

  lemma {:induction false} BitIsBinary(b: nat, k: nat)
    ensures Bit(b, k) == 0 || Bit(b, k) == 1
  {
    if k > 0 {
      BitIsBinary(b / 2, k - 1);
    }
  }

  lemma FlipByteFlipsOneBit(b: byte, k: nat, j: nat)
    requires k < 8
    ensures Bit(FlipByte(b, k), j) == if j == k then 1 - Bit(b, j) else Bit(b, j)
  {
    FlipsOneBit(b, FlipByte(b, k), k, j);
  }

  lemma PowerBelow(k: nat)
    requires k < 8
    ensures 1 <= Power(k) <= 128
  {
    assert Power(4) == 16 && Power(7) == 2 * 2 * 2 * Power(4);
  }

  /** A one-bit error anywhere in a buffer changes its checksum. */
  lemma OneBitErrorChangesCksum(s: seq<byte>, i: nat, k: nat)
    requires i < |s| && k < 8
    ensures Cksum(s[i := FlipByte(s[i], k)]) != Cksum(s)
  {
    var t := s[i := FlipByte(s[i], k)];
    WordSumUpdate(s, i, FlipByte(s[i], k));
    var d := Weight(i) * Power(k);
    PowerBelow(k);
    assert 0 < d <= 0x8000;
    assert WordSum(t) == WordSum(s) + d || WordSum(t) == WordSum(s) - d;
    if WordSum(t) % ONES == WordSum(s) % ONES {
      SameResidue(WordSum(t), WordSum(s));
      assert false;
    }
    CksumEqualIff(s, t);
  }

  lemma SameResidue(x: int, y: int)
    requires x % ONES == y % ONES
    ensures x == y || x - y >= ONES || y - x >= ONES
  {
    var a, b := x / ONES, y / ONES;
    assert x - y == ONES * (a - b);
  }
}

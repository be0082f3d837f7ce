/** Machine-width integers, byte order on the little-endian host that cTCP runs on, and byte strings. */
module Bytes {

  datatype Option<+T> = None | Some(value: T)

  const U16_MOD := 0x1_0000
  const U32_MOD := 0x1_0000_0000

  type byte = x: int | 0 <= x < 0x100
  type u16 = x: int | 0 <= x < 0x1_0000
  type u32 = x: int | 0 <= x < 0x1_0000_0000

  /** Assignment to a `uint16_t` and to a `uint32_t`: reduction modulo the width, also for negative values. */
  function U16(x: int): u16 { x % U16_MOD }

  function U32(x: int): u32 { x % U32_MOD }

  /** `htons` and `ntohs`. */
  function Swap16(x: u16): u16 {
    x % 256 * 256 + x / 256
  }

  /** `htonl` and `ntohl`. */
  function Swap32(x: u32): u32 {
    Swap16(x % U16_MOD) * U16_MOD + Swap16(x / U16_MOD)
  }

  /** The bytes in memory of a 16-bit and of a 32-bit variable. */
  function Memory16(x: u16): seq<byte> {
    [x % 256, x / 256]
  }

  function Memory32(x: u32): seq<byte> {
    Memory16(x % U16_MOD) + Memory16(x / U16_MOD)
  }

  lemma Swap16Bytes(low: byte, high: byte)
    ensures Swap16(high * 256 + low) == low * 256 + high
  {
    assert (high * 256 + low) % 256 == low && (high * 256 + low) / 256 == high;
  }

  lemma Swap16Twice(x: u16)
    ensures Swap16(Swap16(x)) == x
  {
    var low: byte, high: byte := x % 256, x / 256;
    Swap16Bytes(low, high);
    Swap16Bytes(high, low);
    hide Swap16;
    assert x == high * 256 + low;
  }

  lemma Swap32Halves(low: u16, high: u16)
    ensures Swap32(high * U16_MOD + low) == Swap16(low) * U16_MOD + Swap16(high)
  {
    assert (high * U16_MOD + low) % U16_MOD == low && (high * U16_MOD + low) / U16_MOD == high;
  }

  lemma Swap32Twice(x: u32)
    ensures Swap32(Swap32(x)) == x
  {
    var low: u16, high: u16 := x % U16_MOD, x / U16_MOD;
    assert Swap32(x) == Swap16(low) * U16_MOD + Swap16(high) && Swap32(Swap32(x)) == high * U16_MOD + low by {
      Swap16Twice(low);
      Swap16Twice(high);
      Swap32Halves(low, high);
      Swap32Halves(Swap16(high), Swap16(low));
    }
  }

  lemma Swap16Injective(x: u16, y: u16)
    ensures Swap16(x) == Swap16(y) <==> x == y
  {
    Swap16Twice(x);
    Swap16Twice(y);
  }

  function Min(a: nat, b: nat): nat {
    if a < b then a else b
  }

  /** A sequence without its `k`th element. */
  function Removed<T>(s: seq<T>, k: nat): seq<T>
    requires k < |s|
  {
    s[..k] + s[k + 1..]
  }

  /** The pieces of a stream, joined. */
  function Flatten(parts: seq<seq<byte>>): seq<byte> {
    if parts == [] then [] else parts[0] + Flatten(parts[1..])
  }

  lemma {:induction false} FlattenConcat(a: seq<seq<byte>>, b: seq<seq<byte>>)
    ensures Flatten(a + b) == Flatten(a) + Flatten(b)
  {
    if a == [] {
      assert a + b == b;
    } else {
      FlattenConcat(a[1..], b);
      assert (a + b)[1..] == a[1..] + b && (a + b)[0] == a[0];
    }
  }

  lemma FlattenSnoc(a: seq<seq<byte>>, x: seq<byte>)
    ensures Flatten(a + [x]) == Flatten(a) + x
  {
    FlattenConcat(a, [x]);
    assert Flatten([x]) == x + Flatten([]);
  }

  /** A 16-bit and a 32-bit variable read from memory, and the same read in network order. */
  function Variable16(s: seq<byte>, i: nat): u16
    requires i + 1 < |s|
  {
    var low: int, high: int := s[i], s[i + 1];
    low + 0x100 * high
  }

  function Variable32(s: seq<byte>, i: nat): u32
    requires i + 3 < |s|
  {
    var a: int, b: int, c: int, d: int := s[i], s[i + 1], s[i + 2], s[i + 3];
    a + 0x100 * b + 0x1_0000 * c + 0x100_0000 * d
  }

  function Network16(s: seq<byte>, i: nat): u16
    requires i + 1 < |s|
  {
    var high: int, low: int := s[i], s[i + 1];
    0x100 * high + low
  }

  function Network32(s: seq<byte>, i: nat): u32
    requires i + 3 < |s|
  {
    var a: int, b: int, c: int, d: int := s[i], s[i + 1], s[i + 2], s[i + 3];
    0x100_0000 * a + 0x1_0000 * b + 0x100 * c + d
  }

  lemma ReadMemory16(x: u16)
    ensures Variable16(Memory16(x), 0) == x
    ensures Network16(Memory16(Swap16(x)), 0) == x
  {
    Swap16Bytes(x % 256, x / 256);
  }

  lemma ReadMemory32(x: u32)
    ensures Variable32(Memory32(x), 0) == x
    ensures Network32(Memory32(Swap32(x)), 0) == x
  {
    var low: u16, high: u16 := x % U16_MOD, x / U16_MOD;
    ReadMemory16(low);
    ReadMemory16(high);
    Swap32Memory(x);
    hide Swap16, Swap32;
    assert x == high * U16_MOD + low;
  }

  lemma Swap32Memory(x: u32)
    ensures Memory32(Swap32(x)) == Memory16(Swap16(x / U16_MOD)) + Memory16(Swap16(x % U16_MOD))
  {
    var low, high := Swap16(x % U16_MOD), Swap16(x / U16_MOD);
    hide Swap16, Memory16;
    assert (low * U16_MOD + high) % U16_MOD == high && (low * U16_MOD + high) / U16_MOD == low;
  }

  // ---------- arithmetic ----------

  lemma SmallU16(x: nat)
    ensures x < U16_MOD ==> U16(x) == x
  {
  }

  lemma SmallU32(x: nat)
    ensures x < U32_MOD ==> U32(x) == x
  {
  }

  lemma NumbersUsed(a: u32, n: nat)
    requires n < U32_MOD
    ensures U32(U32(a + n) - a) == n
    ensures a + n < U32_MOD ==> U32(a + n) == a + n
  {
  }

  lemma Multiples(x: int, q: int)
    ensures U16(x + U16_MOD * q) == U16(x)
  {
    assert x == U16_MOD * (x / U16_MOD) + x % U16_MOD;
    assert x + U16_MOD * q == U16_MOD * (x / U16_MOD + q) + x % U16_MOD;
  }

  lemma AddReduced(x: nat, y: nat)
    ensures U16(U16(x) + y) == U16(x + y)
  {
    assert x == U16_MOD * (x / U16_MOD) + U16(x);
    Multiples(U16(x) + y, x / U16_MOD);
  }

  lemma Reduced(x: nat)
    ensures U16(x) <= x && (x < U16_MOD ==> U16(x) == x) && (x >= U16_MOD ==> U16(x) <= x - U16_MOD)
  {
  }

  lemma Monotone(a: nat, b: nat, t: nat)
    requires a <= b
    ensures a * t <= b * t
  {
    assert b * t == a * t + (b - a) * t;
  }

  lemma TimesNext(k: nat, t: nat)
    ensures (k + 1) * t == k * t + t
  {
  }

  lemma Distributed(a: nat, b: nat, c: nat)
    ensures (a + b) * c == a * c + b * c
  {
  }

  lemma Regrouped(a: nat, b: nat, c: nat)
    ensures a * (b * c) == (a * b) * c == b * (a * c)
  {
  }

  lemma QuotientIs(y: nat, q: nat, r: nat, m: nat)
    requires y == m * q + r && r < m
    ensures y % m == r && y / m == q
  {
    if y / m > q {
      Monotone(q + 1, y / m, m);
      assert false;
    }
    if y / m < q {
      Monotone(y / m + 1, q, m);
      assert false;
    }
  }

  function Power(i: nat): (p: nat)
    ensures p >= 1
  {
    if i == 0 then 1 else 2 * Power(i - 1)
  }

  lemma {:induction false} PowerAdd(i: nat, j: nat)
    ensures Power(i) * Power(j) == Power(i + j)
  {
    if i > 0 {
      PowerAdd(i - 1, j);
      assert Power(i) * Power(j) == 2 * (Power(i - 1) * Power(j));
    }
  }
}

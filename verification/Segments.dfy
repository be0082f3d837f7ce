/**
 cTCP segments: the protocol-level value, the `ctcp_segment_t` struct it is built in, and the
 checksum that guards it (`ctcp_sys.h`, and the segment helpers of `ctcp.c`).
 */
module Segments {
  import opened Bytes
  import opened Checksum

  /** `sizeof(ctcp_segment_t)`: two bytes of zero padding follow `len`. */
  const HDR := 20
  /** `MAX_SEG_DATA_SIZE`. */
  const MAX_DATA := 1440

  /** The flags in host order, `ntohl(TH_FIN)` and `ntohl(TH_ACK)`. */
  const FIN: u32 := Swap32(0x01)
  const ACK: u32 := Swap32(0x10)

  /** `flags & mask`, for a mask with one bit. */
  predicate Has(flags: u32, mask: u32)
    requires mask > 0
  {
    flags / mask % 2 == 1
  }

  function FlagsOf(fin: bool, ack: bool): u32 {
    (if fin then FIN else 0) + (if ack then ACK else 0)
  }

  lemma FlagValues()
    ensures FIN == 0x0100_0000 && ACK == 0x1000_0000
  {
  }

  /** A segment as the protocol sees it, in host byte order. */
  datatype Segment = Segment(seqno: u32, ackno: u32, len: u16, fin: bool, ack: bool, data: seq<byte>) {
    predicate Sized() { len == HDR + |data| }
  }

  /** The contents of a `ctcp_segment_t` in memory. */
  datatype RawSegment = RawSegment(seqno: u32, ackno: u32, len: u16, flags: u32, window: u16, cksum: u16,
                                   data: seq<byte>) {
    /** Every field that `_segment_hton` and `_segment_ntoh` swap, swapped. */
    function Swapped(): RawSegment {
      RawSegment(Swap32(seqno), Swap32(ackno), Swap16(len), Swap32(flags), Swap16(window), cksum, data)
    }

    /** The header up to the window, padding included. */
    function Front(): (s: seq<byte>)
      ensures |s| == 16
    {
      Memory32(seqno) + Memory32(ackno) + Memory16(len) + [0, 0] + Memory32(flags)
    }

    /** The bytes of the segment. */
    function Image(): (s: seq<byte>)
      ensures |s| == HDR + |data|
    {
      Front() + Memory16(window) + Memory16(cksum) + data
    }

    function Zeroed(): RawSegment {
      this.(cksum := 0)
    }

    /** The `len` field covers the whole segment. */
    predicate Whole() { Swap16(len) == HDR + |data| }
  }

  lemma SwappedTwice(r: RawSegment)
    ensures r.Swapped().Swapped() == r
  {
    Swap32Twice(r.seqno);
    Swap32Twice(r.ackno);
    Swap16Twice(r.len);
    Swap32Twice(r.flags);
    Swap16Twice(r.window);
  }

  /** The struct as the compiler lays it out: each field at its offset, two zero bytes after the length. */
  lemma ImageHoldsFields(r: RawSegment)
    ensures var image := r.Image();
      && Variable32(image, 0) == r.seqno
      && Variable32(image, 4) == r.ackno
      && Variable16(image, 8) == r.len
      && image[10] == 0 && image[11] == 0
      && Variable32(image, 12) == r.flags
      && Variable16(image, 16) == r.window
      && Variable16(image, 18) == r.cksum
      && image[20..] == r.data
  {
    ReadMemory32(r.seqno);
    ReadMemory32(r.ackno);
    ReadMemory16(r.len);
    ReadMemory32(r.flags);
    ReadMemory16(r.window);
    ReadMemory16(r.cksum);
    ImageParts(r);
  }

  /** The bytes of the fields, one by one. */
  lemma ImageParts(r: RawSegment)
    ensures var image := r.Image();
      && image[0..4] == Memory32(r.seqno) && image[4..8] == Memory32(r.ackno)
      && image[8..10] == Memory16(r.len) && image[10] == image[11] == 0
      && image[12..16] == Memory32(r.flags)
      && image[16..18] == Memory16(r.window) && image[18..20] == Memory16(r.cksum)
      && image[HDR..] == r.data
  {
    hide Memory16, Memory32;
    Sizes(r.seqno, r.ackno, r.flags, r.len);
    Sizes(0, 0, 0, r.window);
    Sizes(0, 0, 0, r.cksum);
  }

  /** A protocol segment as `_segment_send` puts it on the wire. */
  function Encode(s: Segment): RawSegment {
    var net := RawSegment(s.seqno, s.ackno, s.len, FlagsOf(s.fin, s.ack), MAX_DATA, 0, s.data).Swapped();
    net.(cksum := Cksum(net.Image()))
  }

  /** A struct in host byte order, read field by field. */
  function View(host: RawSegment): Segment {
    Segment(host.seqno, host.ackno, host.len, Has(host.flags, FIN), Has(host.flags, ACK),
            if HDR <= host.len <= HDR + |host.data| then host.data[..host.len - HDR] else [])
  }

  /** What `ctcp_receive` reads after `_segment_ntoh`. */
  function Decode(r: RawSegment): Segment {
    View(r.Swapped())
  }

  /** `_is_segment_valid` for a segment of which `len` bytes were received. */
  predicate Accepts(r: RawSegment, len: nat) {
    var segLen := Swap16(r.len);
    segLen <= U16(len) && segLen <= HDR + |r.data| && r.cksum == Cksum(r.Zeroed().Image()[..segLen])
  }

  /** A segment whose length field, if it covers a header at all, covers exactly its data. */
  type Framed = s: Segment | s.len >= HDR ==> s.Sized() witness Segment(0, 0, HDR, false, false, [])

  /** Only framed segments pass the test: what `ctcp_receive` acts on is an event of the host. */
  lemma AcceptedIsFramed(r: RawSegment, len: nat)
    requires Accepts(r, len)
    ensures Decode(r).len >= HDR ==> Decode(r).Sized()
  {
  }

  /** What `ctcp_receive` reads in a segment that passed the test. */
  function Arrived(r: RawSegment, len: nat): Framed
    requires Accepts(r, len)
  {
    AcceptedIsFramed(r, len);
    Decode(r)
  }

  lemma FlagsRoundTrip(fin: bool, ack: bool)
    ensures Has(FlagsOf(fin, ack), FIN) == fin && Has(FlagsOf(fin, ack), ACK) == ack
  {
  }

  /** Building and reading a segment are inverse. */
  lemma DecodeEncode(s: Segment)
    requires s.Sized()
    ensures Decode(Encode(s)) == s && Encode(s).Whole()
  {
    var host := RawSegment(s.seqno, s.ackno, s.len, FlagsOf(s.fin, s.ack), MAX_DATA, 0, s.data);
    SwappedTwice(host);
    FlagsRoundTrip(s.fin, s.ack);
    assert s.data[..s.len - HDR] == s.data;
  }

  /**
   What a segment is on the wire: its fields in network order at the offsets of the struct, the flags in
   the first byte of theirs.
   */
  lemma EncodeOnTheWire(s: Segment)
    ensures var image := Encode(s).Image();
      && Network32(image, 0) == s.seqno
      && Network32(image, 4) == s.ackno
      && Network16(image, 8) == s.len
      && image[10] == 0 && image[11] == 0
      && image[12] == (if s.fin then 0x01 else 0) + (if s.ack then 0x10 else 0)
      && image[13] == 0 && image[14] == 0 && image[15] == 0
      && Network16(image, 16) == 1440
      && image[20..] == s.data
  {
    var r := Encode(s);
    ImageParts(r);
    EncodeFields(s);
    ReadMemory32(s.seqno);
    ReadMemory32(s.ackno);
    ReadMemory16(s.len);
    ReadMemory16(MAX_DATA);
    FlagsInMemory(s.fin, s.ack);
    hide Encode, Memory16, Memory32, Swap16, Swap32, RawSegment.Image, FlagsOf;
    var image := r.Image();
    assert image[0..4] == Memory32(Swap32(s.seqno)) && image[4..8] == Memory32(Swap32(s.ackno));
    assert Network32(image, 0) == Network32(image[0..4], 0) && Network32(image, 4) == Network32(image[4..8], 0);
    assert Network16(image, 8) == Network16(image[8..10], 0) && Network16(image, 16) == Network16(image[16..18], 0);
    assert image[12] == image[12..16][0] && image[13] == image[12..16][1];
    assert image[14] == image[12..16][2] && image[15] == image[12..16][3];
  }

  lemma EncodeFields(s: Segment)
    ensures var r := Encode(s);
      && r.seqno == Swap32(s.seqno) && r.ackno == Swap32(s.ackno) && r.len == Swap16(s.len)
      && r.flags == Swap32(FlagsOf(s.fin, s.ack)) && r.window == Swap16(MAX_DATA) && r.data == s.data
  {
  }

  lemma FlagsInMemory(fin: bool, ack: bool)
    ensures Memory32(Swap32(FlagsOf(fin, ack))) == [(if fin then 0x01 else 0) + (if ack then 0x10 else 0), 0, 0, 0]
  {
    FlagValues();
    Swap32Memory(FlagsOf(fin, ack));
    var high: u16 := FlagsOf(fin, ack) / U16_MOD;
    assert FlagsOf(fin, ack) % U16_MOD == 0 && high == (if fin then 0x0100 else 0) + (if ack then 0x1000 else 0);
    assert Swap16(0) == 0 && Swap16(0x0100) == 0x01 && Swap16(0x1000) == 0x10 && Swap16(0x1100) == 0x11;
    hide Swap16, FlagsOf, Swap32;
  }

  /** Which bits of the flags `ctcp_receive` looks at, whatever else is set. */
  lemma FlagsRead(r: RawSegment)
    ensures Decode(r).fin <==> Bit(r.Image()[12], 0) == 1
    ensures Decode(r).ack <==> Bit(r.Image()[12], 4) == 1
  {
    FlagValues();
    ImageParts(r);
    FlagByte(r.flags);
    hide RawSegment.Image;
    assert r.Image()[12] == r.Image()[12..16][0];
  }

  /** The first byte in memory is the highest after the swap. */
  lemma TopByte(flags: u32)
    ensures Swap32(flags) / 0x100_0000 == Memory32(flags)[0]
  {
    var low: u16, high: u16 := flags % U16_MOD, flags / U16_MOD;
    var swapped := Swap16(low);
    assert Swap32(flags) == swapped * U16_MOD + Swap16(high);
    assert Swap32(flags) / 0x100_0000 == swapped / 256 by { hide Swap16; }
    assert Memory32(flags)[0] == low % 256;
    assert swapped / 256 == low % 256;
  }

  lemma FlagByte(flags: u32)
    ensures Has(Swap32(flags), 0x0100_0000) <==> Bit(Memory32(flags)[0], 0) == 1
    ensures Has(Swap32(flags), 0x1000_0000) <==> Bit(Memory32(flags)[0], 4) == 1
  {
    var x, b := Swap32(flags), Memory32(flags)[0];
    TopByte(flags);
    FifthBit(b);
    hide Swap32, Memory32;
    assert x / 0x1000_0000 == b / 16;
  }

  lemma FifthBit(b: byte)
    ensures Bit(b, 4) == b / 16 % 2 && Bit(b, 0) == b % 2
  {
    assert Bit(b, 4) == Bit(b / 2, 3) == Bit(b / 2 / 2, 2) == Bit(b / 2 / 2 / 2, 1) == Bit(b / 2 / 2 / 2 / 2, 0);
    assert b / 2 / 2 / 2 / 2 == b / 16;
  }

  lemma AcceptsWhole(r: RawSegment, len: nat)
    requires r.Whole() && HDR + |r.data| <= len < U16_MOD
    ensures Accepts(r, len) <==> r.cksum == Cksum(r.Zeroed().Image())
  {
    var z := r.Zeroed().Image();
    assert z[..Swap16(r.len)] == z;
  }

  /** Padding after a segment makes no difference, to the test or to what is read. */
  lemma PaddingIgnored(r: RawSegment, padding: seq<byte>, len: nat)
    requires r.Whole() && HDR + |r.data| <= len < U16_MOD
    ensures Accepts(r.(data := r.data + padding), len) <==> Accepts(r, len)
    ensures Decode(r.(data := r.data + padding)) == Decode(r)
  {
    var p := r.(data := r.data + padding);
    var z := r.Zeroed().Image();
    hide Cksum;
    assert p.Zeroed().Image()[..HDR + |r.data|] == z[..HDR + |r.data|];
    assert p.data[..|r.data|] == r.data[..|r.data|];
  }

  /** Every segment that is built is accepted exactly when enough of it arrives. */
  lemma EncodeAcceptedIff(s: Segment, len: nat)
    requires s.Sized()
    ensures Accepts(Encode(s), len) <==> s.len <= U16(len)
  {
    if s.len <= U16(len) {
      EncodeAccepted(s, U16(len));
    }
    Swap16Twice(s.len);
  }

  lemma EncodeAccepted(s: Segment, len: nat)
    requires s.Sized() && s.len <= len < U16_MOD
    ensures Accepts(Encode(s), len)
  {
    DecodeEncode(s);
    ZeroedEncode(s);
    AcceptsWhole(Encode(s), len);
  }

  lemma ZeroedEncode(s: Segment)
    ensures Encode(s).cksum == Cksum(Encode(s).Zeroed().Image())
  {
  }

  lemma ImageStoresCksum(r: RawSegment)
    ensures Store16(r.Zeroed().Image(), 18, r.cksum) == r.Image()
    ensures r.Zeroed().Image()[18] == r.Zeroed().Image()[19] == 0
  {
  }

  /**
   Acceptance in the terms of RFC 1071: a whole segment is accepted exactly when its checksum field
   is not zero and all its words, the checksum included, sum to 0 modulo 65535.
   */
  lemma AcceptsIff(r: RawSegment, len: nat)
    requires r.Whole() && HDR + |r.data| <= len < U16_MOD
    ensures Accepts(r, len) <==> r.cksum != 0 && WordSum(r.Image()) % ONES == 0
  {
    AcceptsWhole(r, len);
    ImageStoresCksum(r);
    StoredCksumIff(r.Zeroed().Image(), 18, r.cksum);
  }

  /** One bit of the first and of the second byte in memory of a 16-bit variable. */
  function FlipLow(x: u16, k: nat): (y: u16)
    requires k < 8
    ensures Memory16(y) == [FlipByte(x % 256, k), x / 256]
  {
    x / 256 * 256 + FlipByte(x % 256, k)
  }

  function FlipHigh(x: u16, k: nat): (y: u16)
    requires k < 8
    ensures Memory16(y) == [x % 256, FlipByte(x / 256, k)]
  {
    FlipByte(x / 256, k) * 256 + x % 256
  }

  /** One bit of the `j`th byte in memory of a 32-bit variable. */
  function Flip32(x: u32, j: nat, k: nat): (y: u32)
    requires j < 4 && k < 8
    ensures Memory32(y) == Memory32(x)[j := FlipByte(Memory32(x)[j], k)]
  {
    var low: u16, high: u16 := x % U16_MOD, x / U16_MOD;
    match j
    case 0 => Flip32Low(x, j, k); high * U16_MOD + FlipLow(low, k)
    case 1 => Flip32Low(x, j, k); high * U16_MOD + FlipHigh(low, k)
    case 2 => Flip32High(x, j, k); FlipLow(high, k) * U16_MOD + low
    case _ => Flip32High(x, j, k); FlipHigh(high, k) * U16_MOD + low
  }

  lemma Halves(low: u16, high: u16)
    ensures Memory32(high * U16_MOD + low) == Memory16(low) + Memory16(high)
  {
    hide Memory16;
    assert (high * U16_MOD + low) % U16_MOD == low && (high * U16_MOD + low) / U16_MOD == high;
  }

  lemma Flip32Low(x: u32, j: nat, k: nat)
    requires j < 2 && k < 8
    ensures var low: u16, high: u16 := x % U16_MOD, x / U16_MOD;
      Memory32(high * U16_MOD + (if j == 0 then FlipLow(low, k) else FlipHigh(low, k))) ==
      Memory32(x)[j := FlipByte(Memory32(x)[j], k)]
  {
    hide FlipByte;
    var low: u16, high: u16 := x % U16_MOD, x / U16_MOD;
    Halves(if j == 0 then FlipLow(low, k) else FlipHigh(low, k), high);
    hide FlipLow, FlipHigh;
  }

  lemma Flip32High(x: u32, j: nat, k: nat)
    requires 2 <= j < 4 && k < 8
    ensures var low: u16, high: u16 := x % U16_MOD, x / U16_MOD;
      Memory32((if j == 2 then FlipLow(high, k) else FlipHigh(high, k)) * U16_MOD + low) ==
      Memory32(x)[j := FlipByte(Memory32(x)[j], k)]
  {
    hide FlipByte;
    var low: u16, high: u16 := x % U16_MOD, x / U16_MOD;
    Halves(low, if j == 2 then FlipLow(high, k) else FlipHigh(high, k));
    hide FlipLow, FlipHigh;
  }

  /** The bits of all fields but the length, which has padding after it. */
  predicate InField(r: RawSegment, bit: nat) {
    bit / 8 < 8 || 12 <= bit / 8 < HDR + |r.data|
  }

  /** `flipbit` with a bit number of one of these fields. */
  function FlipBit(r: RawSegment, bit: nat): (f: RawSegment)
    requires InField(r, bit)
    ensures f.len == r.len && |f.data| == |r.data|
  {
    var i, k := bit / 8, bit % 8;
    if i < 4 then r.(seqno := Flip32(r.seqno, i, k))
    else if i < 8 then r.(ackno := Flip32(r.ackno, i - 4, k))
    else if i < 16 then r.(flags := Flip32(r.flags, i - 12, k))
    else
      match i
      case 16 => r.(window := FlipLow(r.window, k))
      case 17 => r.(window := FlipHigh(r.window, k))
      case 18 => r.(cksum := FlipLow(r.cksum, k))
      case 19 => r.(cksum := FlipHigh(r.cksum, k))
      case _ => r.(data := r.data[i - HDR := FlipByte(r.data[i - HDR], k)])
  }

  lemma FlipBitFlipsFront(r: RawSegment, bit: nat)
    requires InField(r, bit) && bit / 8 < 16
    ensures FlipBit(r, bit).Front() == r.Front()[bit / 8 := FlipByte(r.Front()[bit / 8], bit % 8)]
  {
    hide FlipByte, Memory16, Memory32, Flip32;
    var f := FlipBit(r, bit);
    var i, v := bit / 8, FlipByte(r.Front()[bit / 8], bit % 8);
    var middle := Memory16(r.len) + [0, 0];
    Sizes(r.seqno, r.ackno, r.flags, r.len);
    Sizes(f.seqno, f.ackno, f.flags, f.len);
    assert r.Front() == Memory32(r.seqno) + Memory32(r.ackno) + middle + Memory32(r.flags);
    assert f.Front() == Memory32(f.seqno) + Memory32(f.ackno) + middle + Memory32(f.flags);
    if i < 4 {
      assert r.Front()[i] == Memory32(r.seqno)[i];
    } else if i < 8 {
      assert r.Front()[i] == Memory32(r.ackno)[i - 4];
    } else {
      assert r.Front()[i] == Memory32(r.flags)[i - 12];
    }
  }

  lemma Sizes(x: u32, y: u32, z: u32, n: u16)
    ensures |Memory32(x)| == |Memory32(y)| == |Memory32(z)| == 4 && |Memory16(n)| == 2
  {
  }

  lemma FlipBitFlipsImage(r: RawSegment, bit: nat)
    requires InField(r, bit)
    ensures FlipBit(r, bit).Image() == r.Image()[bit / 8 := FlipByte(r.Image()[bit / 8], bit % 8)]
  {
    if bit / 8 < 16 {
      FlipBitFlipsFront(r, bit);
      FrontFlipped(r, FlipBit(r, bit), bit);
    } else {
      FlipBitFlipsBack(r, bit);
    }
  }

  lemma FrontFlipped(r: RawSegment, f: RawSegment, bit: nat)
    requires bit / 8 < 16 && f.Front() == r.Front()[bit / 8 := FlipByte(r.Front()[bit / 8], bit % 8)]
    requires f.window == r.window && f.cksum == r.cksum && f.data == r.data
    ensures f.Image() == r.Image()[bit / 8 := FlipByte(r.Image()[bit / 8], bit % 8)]
  {
    hide FlipByte, Memory16, RawSegment.Front;
    assert r.Image()[bit / 8] == r.Front()[bit / 8];
  }

  lemma FlipBitFlipsBack(r: RawSegment, bit: nat)
    requires 16 <= bit / 8 < HDR + |r.data|
    ensures FlipBit(r, bit).Image() == r.Image()[bit / 8 := FlipByte(r.Image()[bit / 8], bit % 8)]
  {
    hide FlipByte, RawSegment.Front, Flip32;
    var f := FlipBit(r, bit);
    var i, v := bit / 8, FlipByte(r.Image()[bit / 8], bit % 8);
    var before := Memory16(r.window) + Memory16(r.cksum);
    var after := Memory16(f.window) + Memory16(f.cksum);
    SameFront(r, f);
    assert r.Image() == r.Front() + before + r.data && f.Image() == r.Front() + after + f.data;
    if i < HDR {
      assert r.Image()[i] == before[i - 16];
      assert f.data == r.data && after == before[i - 16 := v];
    } else {
      assert r.Image()[i] == r.data[i - HDR];
      assert f.data == r.data[i - HDR := v] && after == before;
    }
  }

  lemma SameFront(r: RawSegment, f: RawSegment)
    requires f.seqno == r.seqno && f.ackno == r.ackno && f.len == r.len && f.flags == r.flags
    ensures f.Front() == r.Front()
  {
  }

  /** One flipped bit of any field but the length makes an accepted segment unacceptable. */
  lemma FlipBitRejected(r: RawSegment, bit: nat, len: nat)
    requires r.Whole() && HDR + |r.data| <= len < U16_MOD && Accepts(r, len)
    requires InField(r, bit)
    ensures !Accepts(FlipBit(r, bit), len)
  {
    hide FlipBit, FlipByte, Accepts, Cksum, WordSum, RawSegment.Image, Swap16;
    var f := FlipBit(r, bit);
    AcceptsIff(r, len);
    AcceptsIff(f, len);
    FlipBitFlipsImage(r, bit);
    OneBitErrorChangesCksum(r.Image(), bit / 8, bit % 8);
    CksumEqualIff(f.Image(), r.Image());
  }

  /** `ctcp_segment_t` on the heap. */
  class CtcpSegment {
    var seqno: u32
    var ackno: u32
    var len: u16
    var flags: u32
    var window: u16
    var cksum: u16
    var data: seq<byte>

    /** `calloc(len, 1)`. */
    constructor (size: nat)
      requires size >= HDR
      ensures Raw() == RawSegment(0, 0, 0, 0, 0, 0, seq(size - HDR, _ => 0))
    {
      seqno, ackno, len, flags, window, cksum := 0, 0, 0, 0, 0, 0;
      data := seq(size - HDR, _ => 0);
    }

    function Raw(): RawSegment
      reads this
    {
      RawSegment(seqno, ackno, len, flags, window, cksum, data)
    }

    /** `_segment_hton`. */
    method Hton()
      modifies this
      ensures Raw() == old(Raw()).Swapped()
    {
      seqno := Swap32(seqno);
      ackno := Swap32(ackno);
      len := Swap16(len);
      flags := Swap32(flags);
      window := Swap16(window);
    }

    /** `_segment_ntoh`. */
    method Ntoh()
      modifies this
      ensures Raw() == old(Raw()).Swapped()
    {
      seqno := Swap32(seqno);
      ackno := Swap32(ackno);
      len := Swap16(len);
      flags := Swap32(flags);
      window := Swap16(window);
    }

    /** `_is_segment_valid`: the checksum field is cleared on the way unless the segment is truncated. */
    method IsValid(received: nat) returns (valid: bool)
      requires Swap16(len) <= HDR + |data|
      modifies this`cksum
      ensures valid == Accepts(old(Raw()), received)
      ensures cksum == if Swap16(len) > U16(received) then old(cksum) else 0
    {
      var segLen := Swap16(len);
      if segLen > U16(received) {
        return false;
      }
      var sum := cksum;
      cksum := 0;
      assert Raw() == old(Raw()).Zeroed();
      var expected := ComputeCksum(Raw().Image()[..segLen]);
      valid := expected == sum;
    }

    /** `flipbit` as `conn_send` calls it. */
    method Flip(bit: nat)
      requires 16 * 8 <= bit < 8 * (HDR + |data|)
      modifies this
      ensures Raw() == FlipBit(old(Raw()), bit)
    {
      var i, k := bit / 8, bit % 8;
      if i == 16 {
        window := FlipLow(window, k);
      } else if i == 17 {
        window := FlipHigh(window, k);
      } else if i == 18 {
        cksum := FlipLow(cksum, k);
      } else if i == 19 {
        cksum := FlipHigh(cksum, k);
      } else {
        data := data[i - HDR := FlipByte(data[i - HDR], k)];
      }
    }
  }

  /** The part of `_segment_send` that builds the segment. */
  method BuildSegment(seqno: u32, ackno: u32, fin: bool, ack: bool, data: seq<byte>) returns (segment: CtcpSegment)
    requires |data| <= MAX_DATA
    ensures fresh(segment)
    ensures segment.Raw() == Encode(Segment(seqno, ackno, HDR + |data|, fin, ack, data))
  {
    var len := HDR + |data|;
    segment := new CtcpSegment(len);
    segment.len := len;
    segment.seqno := seqno;
    segment.ackno := ackno;
    segment.flags := FlagsOf(fin, ack);
    segment.window := MAX_DATA;
    segment.data := data;
    segment.Hton();
    segment.cksum := 0;
    var sum := ComputeCksum(segment.Raw().Image());
    segment.cksum := sum;
  }
}

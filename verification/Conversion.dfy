/**
 cTCP segments inside TCP/IP packets: `convert_to_datagram`, `convert_to_ctcp`, `create_datagram`,
 `cksum_tcp` and the sequence-number part of the TCP handshake.
 */
module Conversion {
  import opened Bytes
  import opened Checksum
  import opened Segments

  const IP_HDR := 20
  const TCP_HDR := 20
  const FULL_HDR := 40
  const IP_ID := 144
  const DEFAULT_TTL := 64
  const IPPROTO_TCP := 6
  /** The longest data that fits an IP packet. */
  const MAX_PAYLOAD := 0xffff - FULL_HDR

  const TH_SYN: byte := 0x02
  const TH_ACK: byte := 0x10

  /** The addresses a packet is sent between, as they stand in the headers. */
  datatype Route = Route(saddr: u32, daddr: u32, sport: u16, dport: u16)

  /** The initial sequence numbers that a `conn` keeps. */
  datatype Numbers = Numbers(init: u32, theirs: u32)

  /** Each end has the other's initial number. */
  predicate Mirrored(n: Numbers, m: Numbers) {
    n.init == m.theirs && n.theirs == m.init
  }

  /** An IP packet with a TCP segment: the fields of both headers as they are in memory, and the data. */
  datatype Packet = Packet(totLen: u16, check: u16, saddr: u32, daddr: u32, sport: u16, dport: u16,
                           seqno: u32, ackno: u32, flags: byte, win: u16, sum: u16, payload: seq<byte>) {
    function IpHeader(): (s: seq<byte>)
      ensures |s| == IP_HDR
    {
      [0x45, 0] + Memory16(totLen) + Memory16(Swap16(IP_ID)) + [0, 0, DEFAULT_TTL, IPPROTO_TCP]
      + Memory16(check) + Memory32(saddr) + Memory32(daddr)
    }

    /** The pseudoheader and the TCP header up to the checksum. */
    function BeforeSum(): (s: seq<byte>)
      ensures |s| == 28
    {
      Memory32(saddr) + Memory32(daddr) + [0, IPPROTO_TCP] + Memory16(U16(Swap16(U16(TCP_HDR + |payload|))))
      + Memory16(sport) + Memory16(dport) + Memory32(seqno) + Memory32(ackno) + [0x50, flags] + Memory16(win)
    }

    /** The bytes that the TCP checksum covers. */
    function PseudoSegment(): (s: seq<byte>)
      ensures |s| == 32 + |payload|
    {
      BeforeSum() + Memory16(sum) + [0, 0] + payload
    }
  }

  /** A checksum to which the error of another one, correct minus given, is added. */
  function Adjusted(base: int, correct: int, given: int): u16 {
    U16(base + (correct - given))
  }

  /** `cksum_tcp` once the checksum field is cleared. */
  function TcpCksum(p: Packet): u16 {
    Cksum(p.(sum := 0).PseudoSegment())
  }

  function WithAck(flags: byte): byte {
    if flags / TH_ACK % 2 == 1 then flags else if flags + TH_ACK < 0x100 then flags + TH_ACK else flags
  }

  /** `create_datagram`, with the TCP header and the data still empty. */
  function NewPacket(route: Route, len: nat): Packet {
    var p := Packet(Swap16(U16(IP_HDR + len)), 0, route.saddr, route.daddr, 0, 0, 0, 0, 0, 0, 0, []);
    p.(check := Cksum(p.IpHeader()))
  }

  /** A packet of the handshake: flags and numbers, no data, and the checksum not yet set. */
  function BareControl(route: Route, seqno: u32, ackno: u32, flags: byte, window: u16): Packet {
    NewPacket(route, TCP_HDR).(sport := route.sport, dport := route.dport, seqno := Swap32(seqno), ackno := Swap32(ackno),
                               flags := flags, win := Swap16(window))
  }

  /** `create_tcp_seg` without data. */
  function ControlPacket(route: Route, seqno: u32, ackno: u32, flags: byte, window: u16): Packet {
    var p := BareControl(route, seqno, ackno, flags, window);
    p.(sum := TcpCksum(p))
  }

  /** The packet of a segment before its checksum is set; `addAck` when it goes to the web. */
  function Unsummed(n: Numbers, route: Route, r: RawSegment, addAck: bool): Packet {
    NewPacket(route, TCP_HDR + |r.data|).(
      sport := route.sport, dport := route.dport,
      seqno := Swap32(U32(Swap32(r.seqno) + n.init)),
      ackno := Swap32(U32(Swap32(r.ackno) + n.theirs)),
      flags := if addAck then WithAck(r.flags % 0x100) else r.flags % 0x100,
      win := r.window, payload := r.data)
  }

  /** `convert_to_datagram`. */
  function ToPacket(n: Numbers, route: Route, r: RawSegment, addAck: bool): Packet {
    var p := Unsummed(n, route, r, addAck);
    p.(sum := Adjusted(TcpCksum(p), Cksum(r.Zeroed().Image()), r.cksum))
  }

  /** The length of the data in a packet, from its IP header. */
  function DataLen(p: Packet): u16 { U16(Swap16(p.totLen) - FULL_HDR) }

  /** The segment of a packet before its checksum is set. */
  function Unchecked(n: Numbers, p: Packet): RawSegment
    requires DataLen(p) <= |p.payload|
  {
    RawSegment(Swap32(U32(Swap32(p.seqno) - n.theirs)), Swap32(U32(Swap32(p.ackno) - n.init)),
               Swap16(U16(DataLen(p) + HDR)), p.flags, p.win, 0, p.payload[..DataLen(p)])
  }

  /** `convert_to_ctcp`. */
  function ToSegment(n: Numbers, p: Packet): RawSegment
    requires DataLen(p) <= |p.payload|
  {
    var r := Unchecked(n, p);
    r.(cksum := Adjusted(Cksum(r.Image()), TcpCksum(p.(payload := p.payload[..DataLen(p)])), p.sum))
  }

  /** What follows the packet in its buffer is not looked at. */
  lemma PacketPaddingIgnored(n: Numbers, p: Packet, padding: seq<byte>)
    requires DataLen(p) == |p.payload|
    ensures DataLen(p.(payload := p.payload + padding)) <= |p.payload + padding|
    ensures ToSegment(n, p.(payload := p.payload + padding)) == ToSegment(n, p)
  {
    hide Cksum, Swap16, Swap32;
    var padded := p.(payload := p.payload + padding);
    assert padded.payload[..DataLen(p)] == p.payload[..DataLen(p)];
    assert padded.(payload := padded.payload[..DataLen(p)]) == p.(payload := p.payload[..DataLen(p)]);
  }

  /** A segment crosses the network from the end with numbers `n` to the end with numbers `m`. */
  function Crossed(n: Numbers, m: Numbers, route: Route, r: RawSegment, addAck: bool): RawSegment
    requires |r.data| <= MAX_PAYLOAD
  {
    PacketLength(n, route, r, addAck);
    ToSegment(m, ToPacket(n, route, r, addAck))
  }

  lemma PacketLength(n: Numbers, route: Route, r: RawSegment, addAck: bool)
    requires |r.data| <= MAX_PAYLOAD
    ensures DataLen(ToPacket(n, route, r, addAck)) == |r.data|
  {
    hide Cksum, Swap16, Swap32;
    Swap16Twice(FULL_HDR + |r.data|);
    assert NewPacket(route, TCP_HDR + |r.data|).totLen == Swap16(FULL_HDR + |r.data|);
  }

  lemma RelativeNumber(x: u32, base: u32)
    ensures Swap32(U32(Swap32(Swap32(U32(Swap32(x) + base))) - base)) == x
  {
    Swap32Twice(U32(Swap32(x) + base));
    Swap32Twice(x);
    SubtractAdded(Swap32(x), base);
  }

  lemma SubtractAdded(y: u32, base: u32)
    ensures U32(U32(y + base) - base) == y
  {
  }

  lemma DifferenceCarried(t: u16, c: u16, c': u16, k: u16)
    ensures U16(c' + (t - U16(t + (c - k)))) == U16(c' + (k - c))
  {
  }

  /** What arrives: everything but the flags beyond the low byte, a wrong length field, and the added ACK. */
  lemma CrossedIs(n: Numbers, m: Numbers, route: Route, r: RawSegment, addAck: bool)
    requires Mirrored(n, m) && |r.data| <= MAX_PAYLOAD
    ensures var r' := Crossed(n, m, route, r, addAck);
      && r'.Zeroed() == r.(len := Swap16(U16(HDR + |r.data|)), cksum := 0,
                           flags := if addAck then WithAck(r.flags % 0x100) else r.flags % 0x100)
      && r'.cksum == U16(Cksum(r'.Zeroed().Image()) + (r.cksum - Cksum(r.Zeroed().Image())))
  {
    hide Cksum, Swap32, Swap16;
    var p := ToPacket(n, route, r, addAck);
    PacketLength(n, route, r, addAck);
    RelativeNumber(r.seqno, n.init);
    RelativeNumber(r.ackno, n.theirs);
    assert p.payload[..DataLen(p)] == r.data;
    assert p.(payload := p.payload[..DataLen(p)]) == p;
    assert p.(sum := 0) == Unsummed(n, route, r, addAck).(sum := 0);
    var c, c' := Cksum(r.Zeroed().Image()), Cksum(Unchecked(m, p).Image());
    DifferenceCarried(TcpCksum(p), c, c', r.cksum);
    assert Crossed(n, m, route, r, addAck).Zeroed() == Unchecked(m, p);
  }

  /** On Unix sockets exactly the segments with a true length field and only low flags come back as they were. */
  lemma RoundTripIff(n: Numbers, m: Numbers, route: Route, r: RawSegment)
    requires Mirrored(n, m) && |r.data| <= MAX_PAYLOAD
    ensures Crossed(n, m, route, r, false) == r <==> r.Whole() && r.flags < 0x100
  {
    hide Cksum, Swap16, Crossed;
    CrossedIs(n, m, route, r, false);
    var r' := Crossed(n, m, route, r, false);
    Swap16Twice(r.len);
    Swap16Twice(HDR + |r.data|);
    if r.Whole() && r.flags < 0x100 {
      assert r'.Zeroed() == r.Zeroed();
      assert r'.cksum == r.cksum;
    }
    if r' == r {
      assert r.len == r'.Zeroed().len && r.flags == r'.Zeroed().flags;
    }
  }

  /** The checksum is right on arrival exactly when it was right on departure, an added ACK notwithstanding. */
  lemma ValidityCrosses(n: Numbers, m: Numbers, route: Route, r: RawSegment, addAck: bool, len: nat)
    requires Mirrored(n, m) && HDR + |r.data| <= len < U16_MOD - FULL_HDR
    ensures Accepts(Crossed(n, m, route, r, addAck), len) <==> r.cksum == Cksum(r.Zeroed().Image())
  {
    hide Cksum, Swap16, Crossed;
    CrossedIs(n, m, route, r, addAck);
    var r' := Crossed(n, m, route, r, addAck);
    Swap16Twice(HDR + |r.data|);
    assert r'.Whole() && |r'.data| == |r.data| by {
      assert r'.len == r'.Zeroed().len && r'.data == r'.Zeroed().data;
    }
    AcceptsWhole(r', len);
    SameDifference(Cksum(r'.Zeroed().Image()), Cksum(r.Zeroed().Image()), r.cksum);
  }

  lemma SameDifference(c': u16, c: u16, k: u16)
    ensures U16(c' + (k - c)) == c' <==> k == c
  {
  }

  /** The flags as `struct tcphdr` has them. */
  function NetworkFlags(fin: bool, ack: bool): byte {
    (if fin then 0x01 else 0) + (if ack then TH_ACK else 0)
  }

  lemma EncodedFlags(s: Segment)
    ensures Encode(s).flags == NetworkFlags(s.fin, s.ack)
  {
    hide Cksum, RawSegment.Image;
    SwappedFlags(s.fin, s.ack);
    assert Encode(s).flags == Swap32(FlagsOf(s.fin, s.ack));
  }

  lemma SwappedFlags(fin: bool, ack: bool)
    ensures Swap32(FlagsOf(fin, ack)) == NetworkFlags(fin, ack)
  {
    FlagValues();
    assert Swap32(0x1100_0000) == 0x11;
    Swap32Twice(0x01);
    Swap32Twice(0x10);
  }

  /** A segment built by `_segment_send` arrives as it was sent, but for an ACK flag added on the way. */
  lemma SegmentCrosses(n: Numbers, m: Numbers, route: Route, s: Segment, addAck: bool, len: nat)
    requires Mirrored(n, m) && s.Sized() && s.len <= len < U16_MOD - FULL_HDR
    ensures var r' := Crossed(n, m, route, Encode(s), addAck);
      && Decode(r') == s.(ack := s.ack || addAck)
      && Accepts(r', len)
      && (!addAck ==> r' == Encode(s))
  {
    hide Cksum, Encode, Crossed, Decode, Swap16, Accepts;
    var r := Encode(s);
    EncodedFlags(s);
    DecodeEncode(s);
    ZeroedEncode(s);
    EncodeKeepsData(s);
    Swap16Twice(r.len);
    ValidityCrosses(n, m, route, r, addAck, len);
    RoundTripIff(n, m, route, r);
    CrossedIs(n, m, route, r, addAck);
    var r' := Crossed(n, m, route, r, addAck);
    DecodeFields(s, r', addAck);
  }

  lemma EncodeKeepsData(s: Segment)
    ensures Encode(s).data == s.data
  {
  }

  lemma DecodeFields(s: Segment, r': RawSegment, addAck: bool)
    requires s.Sized()
    requires r'.Zeroed() == Encode(s).(cksum := 0, flags := NetworkFlags(s.fin, s.ack || addAck))
    ensures Decode(r') == s.(ack := s.ack || addAck)
  {
    var t := s.(ack := s.ack || addAck);
    EncodedFlags(t);
    DecodeEncode(t);
    assert r'.Zeroed() == Encode(t).(cksum := 0);
    assert r' == Encode(t).(cksum := r'.cksum);
  }

  /**
   Corruption is caught end to end: of a segment that was sent, whichever bit `conn_send` flips, what
   arrives is refused, and without the flip it is accepted.
   */
  lemma CorruptionCaught(n: Numbers, m: Numbers, route: Route, s: Segment, addAck: bool, bit: nat, len: nat)
    requires Mirrored(n, m) && s.Sized() && s.len <= len < U16_MOD - FULL_HDR
    requires (HDR - 4) * 8 <= bit < (HDR - 4) * 8 + ((|s.data| + 4) * 8 - 1)
    ensures !Accepts(Crossed(n, m, route, FlipBit(Encode(s), bit), addAck), len)
    ensures Accepts(Crossed(n, m, route, Encode(s), addAck), len)
  {
    var r := Encode(s);
    var f := FlipBit(r, bit);
    DecodeEncode(s);
    EncodeAccepted(s, len);
    FlipBitRejected(r, bit, len);
    assert f.Whole();
    AcceptsWhole(f, len);
    ValidityCrosses(n, m, route, f, addAck, len);
    SegmentCrosses(n, m, route, s, addAck, len);
  }

  /** A TCP receiver finds the checksum of the packet right exactly when the segment's own checksum is right. */
  lemma TcpChecksumIff(n: Numbers, route: Route, r: RawSegment, addAck: bool)
    requires |r.data| <= MAX_PAYLOAD
    ensures var p := ToPacket(n, route, r, addAck);
      p.sum != 0 && WordSum(p.PseudoSegment()) % ONES == 0 <==> r.cksum == Cksum(r.Zeroed().Image())
  {
    hide Cksum, WordSum;
    var p := ToPacket(n, route, r, addAck);
    var z := p.(sum := 0).PseudoSegment();
    assert z[28] == 0 && z[29] == 0 && Store16(z, 28, p.sum) == p.PseudoSegment();
    StoredCksumIff(z, 28, p.sum);
    assert p.(sum := 0) == Unsummed(n, route, r, addAck).(sum := 0);
    SameSum(TcpCksum(p), Cksum(r.Zeroed().Image()), r.cksum);
  }

  lemma SameSum(t: u16, c: u16, k: u16)
    ensures U16(t + (c - k)) == t <==> k == c
  {
  }

  /** The IP header that is made verifies. */
  lemma IpHeaderVerifies(route: Route, len: nat)
    ensures WordSum(NewPacket(route, len).IpHeader()) % ONES == 0
  {
    hide Cksum, WordSum;
    var p := NewPacket(route, len);
    var z := p.(check := 0).IpHeader();
    assert z[10] == 0 && z[11] == 0 && Store16(z, 10, p.check) == p.IpHeader();
    StoredCksumIff(z, 10, p.check);
    assert p.(check := 0) == Packet(Swap16(U16(IP_HDR + len)), 0, route.saddr, route.daddr, 0, 0, 0, 0, 0, 0, 0, []);
  }

  // ---------- the packets on the wire ----------

  /** The IP header as RFC 791 lays it out. */
  lemma IpHeaderOnTheWire(p: Packet)
    ensures var h := p.IpHeader();
      && h[0] == 0x45 && h[1] == 0
      && h[2..4] == Memory16(p.totLen)
      && Network16(h, 4) == 144
      && h[6] == 0 && h[7] == 0 && h[8] == 64 && h[9] == 6
      && h[10..12] == Memory16(p.check)
      && h[12..16] == Memory32(p.saddr) && h[16..20] == Memory32(p.daddr)
  {
    Sizes(p.saddr, p.daddr, 0, p.totLen);
    Sizes(0, 0, 0, p.check);
    Sizes(0, 0, 0, Swap16(IP_ID));
    ReadMemory16(IP_ID);
    hide Memory16, Memory32, Swap16;
    var h := p.IpHeader();
    assert h[4..6] == Memory16(Swap16(IP_ID));
    assert Network16(h, 4) == Network16(h[4..6], 0);
  }

  /** The pseudoheader, the TCP header and the data as RFC 793 lays them out. */
  lemma PseudoSegmentOnTheWire(p: Packet)
    ensures var t := p.PseudoSegment();
      && t[0..4] == Memory32(p.saddr) && t[4..8] == Memory32(p.daddr)
      && t[8] == 0 && t[9] == 6
      && Network16(t, 10) == U16(20 + |p.payload|)
      && t[12..14] == Memory16(p.sport) && t[14..16] == Memory16(p.dport)
      && t[16..20] == Memory32(p.seqno) && t[20..24] == Memory32(p.ackno)
      && t[24] == 0x50 && t[25] == p.flags
      && t[26..28] == Memory16(p.win) && t[28..30] == Memory16(p.sum) && t[30] == 0 && t[31] == 0
      && t[32..] == p.payload
  {
    var len := U16(TCP_HDR + |p.payload|);
    BeforeSumParts(p);
    Sizes(0, 0, 0, p.sum);
    ReadMemory16(len);
    hide Memory16, Memory32, Swap16, U16, Packet.BeforeSum;
    var t, front := p.PseudoSegment(), p.BeforeSum();
    assert t == front + Memory16(p.sum) + [0, 0] + p.payload;
    assert t[..28] == front;
    assert forall i, j :: 0 <= i <= j <= 28 ==> t[i..j] == front[i..j];
    assert Network16(t, 10) == Network16(front[10..12], 0);
  }

  lemma BeforeSumParts(p: Packet)
    ensures var t := p.BeforeSum();
      && t[0..4] == Memory32(p.saddr) && t[4..8] == Memory32(p.daddr)
      && t[8] == 0 && t[9] == IPPROTO_TCP
      && t[10..12] == Memory16(Swap16(U16(TCP_HDR + |p.payload|)))
      && t[12..14] == Memory16(p.sport) && t[14..16] == Memory16(p.dport)
      && t[16..20] == Memory32(p.seqno) && t[20..24] == Memory32(p.ackno)
      && t[24] == 0x50 && t[25] == p.flags
      && t[26..28] == Memory16(p.win)
  {
    var len := Swap16(U16(TCP_HDR + |p.payload|));
    assert U16(len) == len;
    Sizes(p.saddr, p.daddr, 0, len);
    Sizes(p.seqno, p.ackno, 0, p.win);
    Sizes(0, 0, 0, p.sport);
    Sizes(0, 0, 0, p.dport);
    hide Memory16, Memory32, Swap16, U16;
  }

  /**
   A segment that was sent, as the network sees it: between the addresses and ports of the route, with
   absolute numbers counted from the initial number of either side, its own flags but for an added ACK,
   its window and its data.
   */
  lemma PacketOnTheWire(n: Numbers, route: Route, s: Segment, addAck: bool)
    requires |s.data| <= MAX_PAYLOAD
    ensures var p := ToPacket(n, route, Encode(s), addAck);
      var h, t := p.IpHeader(), p.PseudoSegment();
      && Network16(h, 2) == 40 + |s.data| && WordSum(h) % ONES == 0
      && h[12..16] == Memory32(route.saddr) && h[16..20] == Memory32(route.daddr)
      && t[12..14] == Memory16(route.sport) && t[14..16] == Memory16(route.dport)
      && Network32(t, 16) == U32(n.init + s.seqno)
      && Network32(t, 20) == U32(n.theirs + s.ackno)
      && t[25] == NetworkFlags(s.fin, s.ack || addAck)
      && Network16(t, 26) == 1440
      && t[32..] == s.data
  {
    var p := ToPacket(n, route, Encode(s), addAck);
    PacketFields(n, route, s, addAck);
    IpHeaderOnTheWire(p);
    PseudoSegmentOnTheWire(p);
    ReadMemory16(FULL_HDR + |s.data|);
    ReadMemory16(MAX_DATA);
    ReadMemory32(U32(n.init + s.seqno));
    ReadMemory32(U32(n.theirs + s.ackno));
    IpHeaderVerifies(route, TCP_HDR + |s.data|);
    hide ToPacket, Encode, Memory16, Memory32, Swap16, Swap32, U32, WordSum, Packet.IpHeader, Packet.PseudoSegment;
    var h, t := p.IpHeader(), p.PseudoSegment();
    assert Network16(h, 2) == Network16(h[2..4], 0) && Network16(t, 26) == Network16(t[26..28], 0);
    assert Network32(t, 16) == Network32(t[16..20], 0) && Network32(t, 20) == Network32(t[20..24], 0);
  }

  lemma PacketFields(n: Numbers, route: Route, s: Segment, addAck: bool)
    requires |s.data| <= MAX_PAYLOAD
    ensures var p := ToPacket(n, route, Encode(s), addAck);
      && p.totLen == Swap16(FULL_HDR + |s.data|) && p.IpHeader() == NewPacket(route, TCP_HDR + |s.data|).IpHeader()
      && p.saddr == route.saddr && p.daddr == route.daddr && p.sport == route.sport && p.dport == route.dport
      && p.seqno == Swap32(U32(n.init + s.seqno)) && p.ackno == Swap32(U32(n.theirs + s.ackno))
      && p.flags == NetworkFlags(s.fin, s.ack || addAck)
      && p.win == Swap16(MAX_DATA) && p.payload == s.data
  {
    EncodeFields(s);
    EncodedFlags(s);
    Swap32Twice(s.seqno);
    Swap32Twice(s.ackno);
    hide Encode, Swap16, Swap32, Cksum, U32;
  }

  /** A packet of the handshake: its numbers, flags and window in network order, and a right checksum. */
  lemma ControlOnTheWire(route: Route, seqno: u32, ackno: u32, flags: byte, window: u16)
    ensures var p := ControlPacket(route, seqno, ackno, flags, window);
      var h, t := p.IpHeader(), p.PseudoSegment();
      && Network16(h, 2) == 40 && WordSum(h) % ONES == 0
      && h[12..16] == Memory32(route.saddr) && h[16..20] == Memory32(route.daddr)
      && t[12..14] == Memory16(route.sport) && t[14..16] == Memory16(route.dport)
      && Network32(t, 16) == seqno && Network32(t, 20) == ackno
      && t[25] == flags && Network16(t, 26) == window && |t| == 32
      && p.sum != 0 && WordSum(t) % ONES == 0
  {
    var p := ControlPacket(route, seqno, ackno, flags, window);
    ControlFields(route, seqno, ackno, flags, window);
    IpHeaderOnTheWire(p);
    PseudoSegmentOnTheWire(p);
    IpHeaderVerifies(route, TCP_HDR);
    ReadMemory16(FULL_HDR);
    ReadMemory16(window);
    ReadMemory32(seqno);
    ReadMemory32(ackno);
    SumVerifies(p);
    hide ControlPacket, Memory16, Memory32, Swap16, Swap32, WordSum, Packet.IpHeader, Packet.PseudoSegment;
    var h, t := p.IpHeader(), p.PseudoSegment();
    assert Network16(h, 2) == Network16(h[2..4], 0) && Network16(t, 26) == Network16(t[26..28], 0);
    assert Network32(t, 16) == Network32(t[16..20], 0) && Network32(t, 20) == Network32(t[20..24], 0);
  }

  lemma ControlFields(route: Route, seqno: u32, ackno: u32, flags: byte, window: u16)
    ensures var p := ControlPacket(route, seqno, ackno, flags, window);
      && p.totLen == Swap16(FULL_HDR) && p.IpHeader() == NewPacket(route, TCP_HDR).IpHeader()
      && p.saddr == route.saddr && p.daddr == route.daddr && p.sport == route.sport && p.dport == route.dport
      && p.seqno == Swap32(seqno) && p.ackno == Swap32(ackno) && p.flags == flags && p.win == Swap16(window)
      && p.payload == [] && p.sum == TcpCksum(p.(sum := 0))
  {
    hide Swap16, Swap32, Cksum, Packet.PseudoSegment;
    var p := BareControl(route, seqno, ackno, flags, window);
    assert p.(sum := 0) == p;
  }

  /** A packet whose checksum is computed over itself verifies. */
  lemma SumVerifies(p: Packet)
    requires p.sum == TcpCksum(p.(sum := 0))
    ensures p.sum != 0 && WordSum(p.PseudoSegment()) % ONES == 0
  {
    hide Cksum, WordSum;
    var z := p.(sum := 0).PseudoSegment();
    assert z[28] == 0 && z[29] == 0 && Store16(z, 28, p.sum) == p.PseudoSegment();
    StoredCksumIff(z, 28, p.sum);
    assert p.(sum := 0).(sum := 0) == p.(sum := 0);
  }
}

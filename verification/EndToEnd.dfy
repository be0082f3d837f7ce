/** One segment from `conn_send` at one host to `ctcp_receive` at the other, through both conversions. */
module EndToEnd {
  import opened Bytes
  import opened Checksum
  import opened OutputQueue
  import opened Segments
  import opened Connections
  import opened Conversion
  import opened Datagrams
  import opened CtcpStates
  import H = HostModel

  /** The bits that `conn_send` may flip in a segment with this much data. */
  predicate Flippable(dataLen: nat, bit: nat) {
    (HDR - 4) * 8 <= bit < (HDR - 4) * 8 + ((dataLen + 4) * 8 - 1)
  }

  /** The copy that `conn_send` made is perhaps corrupted and becomes a packet; the peer makes a segment of it. */
  method Cross(src: Conn, dst: Conn, route: Route, copy: CtcpSegment, ghost s: Segment, addAck: bool, flip: Option<nat>)
    returns (segment: CtcpSegment)
    requires copy.Raw() == Encode(s) && s.Sized() && |s.data| <= MAX_DATA && |copy.data| == |s.data|
    requires Mirrored(Numbers(src.initSeqno, src.theirInitSeqno), Numbers(dst.initSeqno, dst.theirInitSeqno))
    requires flip.Some? ==> Flippable(|s.data|, flip.value)
    modifies copy
    ensures fresh(segment) && Swap16(segment.len) == HDR + |segment.data| == s.len
    ensures Accepts(segment.Raw(), s.len) <==> flip.None?
    ensures flip.None? ==> Decode(segment.Raw()) == s.(ack := s.ack || addAck)
  {
    hide Encode, Accepts, Decode, Crossed, FlipBit, ToPacket, ToSegment;
    ghost var n, m := Numbers(src.initSeqno, src.theirInitSeqno), Numbers(dst.initSeqno, dst.theirInitSeqno);
    if flip.Some? {
      copy.Flip(flip.value);
      CorruptionCaught(n, m, route, s, addAck, flip.value, s.len);
    } else {
      SegmentCrosses(n, m, route, s, addAck, s.len);
    }
    ghost var r := copy.Raw();
    var d := ConvertToDatagram(src, route, copy, addAck);
    PacketLength(n, route, r, addAck);
    PacketPayload(n, route, r, addAck);
    segment := ConvertToCtcp(dst, d);
    assert segment.Raw() == Crossed(n, m, route, r, addAck) by { CrossedUnfolds(n, m, route, r, addAck); }
    CrossedLength(n, m, route, r, addAck);
  }

  lemma PacketPayload(n: Numbers, route: Route, r: RawSegment, addAck: bool)
    ensures ToPacket(n, route, r, addAck).payload == r.data
  {
  }

  lemma CrossedUnfolds(n: Numbers, m: Numbers, route: Route, r: RawSegment, addAck: bool)
    requires |r.data| <= MAX_PAYLOAD
    ensures var p := ToPacket(n, route, r, addAck);
      DataLen(p) <= |p.payload| && Crossed(n, m, route, r, addAck) == ToSegment(m, p)
  {
    hide ToPacket, ToSegment;
    PacketLength(n, route, r, addAck);
    PacketPayload(n, route, r, addAck);
  }

  lemma SmallLength(n: nat)
    ensures n <= MAX_DATA ==> U16(HDR + n) == HDR + n
  {
  }

  lemma CrossedLength(n: Numbers, m: Numbers, route: Route, r: RawSegment, addAck: bool)
    requires Mirrored(n, m) && |r.data| <= MAX_DATA
    ensures var r' := Crossed(n, m, route, r, addAck);
      |r'.data| == |r.data| && Swap16(r'.len) == HDR + |r.data|
  {
    hide Crossed, Cksum, Swap16, RawSegment.Image, U16;
    CrossedIs(n, m, route, r, addAck);
    Swap16Twice(HDR + |r.data|);
    SmallLength(|r.data|);
    var r' := Crossed(n, m, route, r, addAck);
    assert r'.data == r'.Zeroed().data && r'.len == r'.Zeroed().len;
  }

  /**
   What one send does at the other end: the peer takes the very segment that was sent, with the flag
   that the conversion may add, and when a bit was flipped on the way it takes nothing.
   */
  method SendAndReceive(src: Conn, dst: CtcpState, route: Route, copy: CtcpSegment, ghost s: Segment, addAck: bool,
                        flip: Option<nat>, w: WriteResult, ok1: bool, ok2: bool)
    requires copy.Raw() == Encode(s) && s.Sized() && |s.data| <= MAX_DATA && |copy.data| == |s.data|
    requires Mirrored(Numbers(src.initSeqno, src.theirInitSeqno), Numbers(dst.conn.initSeqno, dst.conn.theirInitSeqno))
    requires flip.Some? ==> Flippable(|s.data|, flip.value)
    requires dst.Valid() && !dst.conn.deleteMe
    requires dst.sentSegmentAttr != null ==> dst.sentSegmentAttr.segment != copy
    modifies copy, dst, dst.conn, dst.conn.chunks
    ensures dst.Valid()
    ensures dst.Did(if flip.Some? then H.Effect(old(dst.Abs()), [])
                    else H.Step(old(dst.Abs()), H.ReceiveEvent(s.(ack := s.ack || addAck), w, ok1, ok2)))
  {
    hide Encode, Accepts, Decode, H.Receive, Conn.Valid;
    var segment := Cross(src, dst.conn, route, copy, s, addAck, flip);
    dst.Receive(segment, HDR + |segment.data|, w, ok1, ok2);
  }
}

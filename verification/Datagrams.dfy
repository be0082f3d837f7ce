/** Packets as buffers that are filled field by field, and the handshake that sets the sequence numbers up. */
module Datagrams {
  import opened Bytes
  import opened Checksum
  import opened Segments
  import opened Connections
  import opened Conversion

  /** A buffer that holds an `iphdr`, a `tcphdr` and data. */
  class Datagram {
    var totLen: u16
    var check: u16
    const saddr: u32
    const daddr: u32
    var sport: u16
    var dport: u16
    var seqno: u32
    var ackno: u32
    var flags: byte
    var win: u16
    var sum: u16
    var payload: seq<byte>

    function Value(): Packet
      reads this
    {
      Packet(totLen, check, saddr, daddr, sport, dport, seqno, ackno, flags, win, sum, payload)
    }

    /** `create_datagram`. */
    constructor (route: Route, len: nat)
      ensures Value() == NewPacket(route, len)
    {
      totLen, check := Swap16(U16(IP_HDR + len)), 0;
      saddr, daddr := route.saddr, route.daddr;
      sport, dport, seqno, ackno, flags, win, sum := 0, 0, 0, 0, 0, 0, 0;
      payload := [];
      new;
      var c := ComputeCksum(Value().IpHeader());
      check := c;
    }

    /** `cksum_tcp`, for a packet whose data is `len` bytes long. */
    method CksumTcp(len: nat) returns (result: u16)
      requires sum == 0 && len <= |payload| && len <= MAX_PAYLOAD
      ensures result == TcpCksum(Value().(payload := payload[..len]))
    {
      hide Cksum;
      ghost var p := Value().(payload := payload[..len]);
      assert p.(sum := 0) == p;
      result := ComputeCksum(Value().(payload := payload[..len]).PseudoSegment());
    }
  }

  /** The part of `convert_to_datagram` that fills everything but the TCP checksum. */
  method FillDatagram(dst: Conn, route: Route, segment: CtcpSegment, addAck: bool) returns (d: Datagram)
    ensures fresh(d)
    ensures d.Value() == Unsummed(Numbers(dst.initSeqno, dst.theirInitSeqno), route, segment.Raw(), addAck)
  {
    hide Cksum, Packet.IpHeader, U16, U32, WithAck, Swap16, Swap32;
    var dataLen := |segment.data|;
    d := new Datagram(route, TCP_HDR + dataLen);
    d.payload := segment.data;
    d.sport, d.dport := route.sport, route.dport;
    d.seqno := Swap32(U32(Swap32(segment.seqno) + dst.initSeqno));
    d.ackno := Swap32(U32(Swap32(segment.ackno) + dst.theirInitSeqno));
    d.flags := segment.flags % 0x100;
    if addAck {
      d.flags := WithAck(d.flags);
    }
    d.win := segment.window;
    d.sum := 0;
  }

  /** `convert_to_datagram`; the segment's checksum is cleared for a moment and put back. */
  method ConvertToDatagram(dst: Conn, route: Route, segment: CtcpSegment, addAck: bool) returns (d: Datagram)
    requires |segment.data| <= MAX_PAYLOAD
    modifies segment`cksum
    ensures fresh(d) && segment.Raw() == old(segment.Raw())
    ensures d.Value() == ToPacket(Numbers(dst.initSeqno, dst.theirInitSeqno), route, segment.Raw(), addAck)
  {
    ghost var r := segment.Raw();
    d := FillDatagram(dst, route, segment, addAck);
    assert d.sum == 0 && d.payload == segment.data;
    hide Unsummed, TcpCksum, Cksum, RawSegment.Image;
    var sum := segment.cksum;
    segment.cksum := 0;
    assert segment.Raw() == r.Zeroed();
    var correct := ComputeCksum(segment.Raw().Image());
    segment.cksum := sum;
    assert d.Value().(payload := d.payload[..|segment.data|]) == d.Value();
    var tcp := d.CksumTcp(|segment.data|);
    d.sum := Adjusted(tcp, correct, sum);
  }

  /** `convert_to_ctcp`; the checksum of the packet is cleared. */
  method ConvertToCtcp(src: Conn, d: Datagram) returns (segment: CtcpSegment)
    requires DataLen(d.Value()) <= |d.payload| && DataLen(d.Value()) <= MAX_PAYLOAD
    modifies d`sum
    ensures fresh(segment)
    ensures segment.Raw() == ToSegment(Numbers(src.initSeqno, src.theirInitSeqno), old(d.Value()))
  {
    hide Cksum, Swap16, Swap32;
    ghost var n, p := Numbers(src.initSeqno, src.theirInitSeqno), d.Value();
    var dataLen := DataLen(d.Value());
    var len := U16(dataLen + HDR);
    segment := new CtcpSegment(len);
    segment.seqno := Swap32(U32(Swap32(d.seqno) - src.theirInitSeqno));
    segment.ackno := Swap32(U32(Swap32(d.ackno) - src.initSeqno));
    segment.len := Swap16(len);
    segment.flags := d.flags;
    segment.window := d.win;
    segment.cksum := 0;
    segment.data := d.payload[..dataLen];
    assert segment.Raw() == Unchecked(n, p);
    hide Unchecked, RawSegment.Image;
    var c := ComputeCksum(segment.Raw().Image());
    var sum := d.sum;
    d.sum := 0;
    var correct := d.CksumTcp(dataLen);
    assert d.Value().(payload := d.payload[..dataLen]).(sum := 0) == p.(payload := p.payload[..dataLen]).(sum := 0);
    segment.cksum := Adjusted(c, correct, sum);
  }

  /** The part of `create_tcp_seg` that fills everything but the TCP checksum. */
  method FillControl(dst: Conn, route: Route, flags: byte, window: u16) returns (d: Datagram)
    ensures fresh(d) && d.sum == 0 && d.payload == []
    ensures d.Value() == BareControl(route, dst.nextSeqno, dst.ackno, flags, window)
  {
    hide Cksum, Swap16, Swap32;
    d := new Datagram(route, TCP_HDR);
    d.sport, d.dport := route.sport, route.dport;
    d.seqno := Swap32(dst.nextSeqno);
    d.ackno := Swap32(dst.ackno);
    d.flags := flags;
    d.win := Swap16(window);
    d.sum := 0;
  }

  /** `create_tcp_seg` without data: a packet of the handshake. */
  method CreateTcpSeg(dst: Conn, route: Route, flags: byte, window: u16) returns (d: Datagram)
    modifies dst`seqno, dst`nextSeqno
    ensures fresh(d) && d.Value() == ControlPacket(route, old(dst.nextSeqno), dst.ackno, flags, window)
    ensures dst.seqno == dst.nextSeqno == old(dst.nextSeqno)
  {
    hide BareControl, TcpCksum, Cksum, Swap16, Swap32;
    d := FillControl(dst, route, flags, window);
    assert d.payload[..0] == [];
    assert d.Value().(payload := []) == d.Value();
    var sum := d.CksumTcp(0);
    d.sum := sum;
    dst.seqno := dst.nextSeqno;
    dst.nextSeqno := U32(dst.nextSeqno + 0);
  }

  /** The connection part of `tcp_new_connection`, with the SYN-ACK that it sends. */
  method TcpNewConnection(syn: Datagram, random: u32, route: Route, window: u16) returns (conn: Conn, synack: Datagram)
    ensures fresh(conn) && conn.initSeqno == conn.nextSeqno == conn.seqno == random
    ensures conn.theirInitSeqno == Swap32(syn.seqno) && conn.ackno == U32(Swap32(syn.seqno) + 1)
    ensures fresh(synack) && synack.Value() == ControlPacket(route, random, conn.ackno, TH_SYN + TH_ACK, window)
  {
    hide Swap32, ControlPacket;
    conn := new Conn(random);
    conn.theirInitSeqno := Swap32(syn.seqno);
    conn.ackno := U32(conn.theirInitSeqno + 1);
    synack := CreateTcpSeg(conn, route, TH_SYN + TH_ACK, window);
  }

  /** `tcp_handshake` when it gets its SYN-ACK, with the ACK that it sends. */
  method AnswerSynAck(conn: Conn, synack: Datagram, route: Route, window: u16) returns (ack: Datagram)
    modifies conn`seqno, conn`nextSeqno, conn`theirInitSeqno, conn`ackno
    ensures conn.theirInitSeqno == Swap32(synack.seqno) && conn.ackno == U32(Swap32(synack.seqno) + 1)
    ensures conn.seqno == conn.nextSeqno == U32(old(conn.nextSeqno) + 1)
    ensures fresh(ack) && ack.Value() == ControlPacket(route, conn.nextSeqno, conn.ackno, TH_ACK, window)
  {
    hide Swap32, ControlPacket;
    conn.nextSeqno := U32(conn.nextSeqno + 1);
    conn.theirInitSeqno := Swap32(synack.seqno);
    conn.ackno := U32(Swap32(synack.seqno) + 1);
    ack := CreateTcpSeg(conn, route, TH_ACK, window);
  }

  /** The packet of a segment has the numbers of another packet. */
  predicate GoesOn(n: Numbers, route: Route, before: Packet, s: Segment, addAck: bool) {
    var p := ToPacket(n, route, Encode(s), addAck);
    p.seqno == before.seqno && p.ackno == before.ackno
  }

  /**
   The handshake between a client and a server, whatever initial numbers they draw: SYN, SYN-ACK and ACK
   carry these numbers, each end gets to know the other's, and the last ACK has the relative numbers 1
   and 1; the first segment of the client goes on from there.
   */
  method Handshake(clientRandom: u32, serverRandom: u32, toServer: Route, toClient: Route, window: u16)
    returns (client: Conn, server: Conn, syn: Datagram, synack: Datagram, ack: Datagram)
    ensures fresh(client) && fresh(server)
    ensures client.initSeqno == clientRandom && server.initSeqno == serverRandom
    ensures Mirrored(Numbers(client.initSeqno, client.theirInitSeqno), Numbers(server.initSeqno, server.theirInitSeqno))
    ensures syn.flags == 0x02 && Swap32(syn.seqno) == clientRandom
    ensures synack.flags == 0x12 && Swap32(synack.seqno) == serverRandom && Swap32(synack.ackno) == U32(clientRandom + 1)
    ensures ack.flags == 0x10
    ensures Swap32(ack.seqno) == U32(server.theirInitSeqno + 1) && Swap32(ack.ackno) == U32(server.initSeqno + 1)
    ensures forall s: Segment, addAck: bool :: s.seqno == 1 && s.ackno == 1 && |s.data| <= MAX_PAYLOAD ==>
              GoesOn(Numbers(client.initSeqno, client.theirInitSeqno), toServer, ack.Value(), s, addAck)
  {
    hide Swap32, TcpCksum, NewPacket, ToPacket, Encode, U32;
    client := new Conn(clientRandom);
    syn := CreateTcpSeg(client, toServer, TH_SYN, window);
    server, synack := TcpNewConnection(syn, serverRandom, toClient, window);
    ack := AnswerSynAck(client, synack, toServer, window);
    Swap32Twice(clientRandom);
    Swap32Twice(serverRandom);
    Swap32Twice(U32(clientRandom + 1));
    Swap32Twice(U32(serverRandom + 1));
    forall s: Segment, addAck: bool | s.seqno == 1 && s.ackno == 1 && |s.data| <= MAX_PAYLOAD
      ensures GoesOn(Numbers(client.initSeqno, client.theirInitSeqno), toServer, ack.Value(), s, addAck)
    {
      PacketFields(Numbers(client.initSeqno, client.theirInitSeqno), toServer, s, addAck);
    }
  }
}

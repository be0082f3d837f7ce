/** `ctcp_state` on the heap, and the functions of `ctcp.c` that update it in place. */
module CtcpStates {
  import opened Bytes
  import opened OutputQueue
  import opened Segments
  import opened Connections
  import H = HostModel

  /** `ctcp_segment_attr_t`. */
  class SegmentAttr {
    var noOfTimes: u16
    var time: u16
    const segment: CtcpSegment
    /** The segment that the struct was built from. */
    ghost const value: Segment

    constructor (segment: CtcpSegment, ghost value: Segment)
      ensures this.segment == segment && this.value == value && noOfTimes == time == 0
    {
      this.segment, this.value := segment, value;
      noOfTimes, time := 0, 0;
    }
  }

  class CtcpState {
    const conn: Conn
    var connState: H.ConnState
    var seqno: u32
    var ackno: u32
    var receivedSegment: CtcpSegment?
    var sentSegmentAttr: SegmentAttr?
    var tdState: H.TdState
    var tim: u16
    const timer: u16
    const rtTimeout: u16

    ghost predicate Valid()
      reads this`sentSegmentAttr, conn`chunks, conn`rests, conn`outQueue, conn`outQueueTail, conn.chunks
      reads if sentSegmentAttr == null then {} else {sentSegmentAttr.segment}
    {
      && conn.Valid()
      && (sentSegmentAttr != null ==>
            sentSegmentAttr.value.Sized() && sentSegmentAttr.segment.Raw() == Encode(sentSegmentAttr.value))
    }

    ghost function Abs(): H.Host
      reads this, conn, sentSegmentAttr
    {
      H.Host(connState, tdState, seqno, ackno,
             if sentSegmentAttr == null then None
             else Some(H.Saved(sentSegmentAttr.noOfTimes, sentSegmentAttr.time, sentSegmentAttr.value)),
             tim, timer, rtTimeout, conn.readEof, conn.Queue(), conn.deleteMe)
    }

    /** The state is now that of `e`, and the wire has taken the segments of `e`. */
    twostate predicate Did(e: H.Effect)
      reads this, conn, sentSegmentAttr
    {
      Abs() == e.host && conn.sent == old(conn.sent) + e.sent
    }

    /** `ctcp_init`. */
    constructor (conn: Conn, timer: u16, rtTimeout: u16)
      requires conn.Valid() && conn.Queue() == EMPTY && !conn.readEof && !conn.deleteMe
      ensures Valid() && this.conn == conn && Abs() == H.InitialHost(timer, rtTimeout)
      ensures sentSegmentAttr == null && receivedSegment == null
    {
      this.conn := conn;
      ackno, seqno, tim := 1, 1, 0;
      tdState := H.NotTeardown;
      this.timer, this.rtTimeout := timer, rtTimeout;
      connState := H.DataTransfer;
      sentSegmentAttr, receivedSegment := null, null;
    }

    /** `ctcp_destroy`, as far as this connection goes. */
    method Destroy()
      requires Valid()
      modifies conn`deleteMe
      ensures Valid() && Abs() == old(Abs()).(deleted := true)
    {
      conn.deleteMe := true;
    }

    /** `_destroy_acked_segment`. */
    method DestroyAckedSegment()
      requires Valid()
      modifies this`sentSegmentAttr
      ensures Valid() && Abs() == old(Abs()).(saved := None)
    {
      if sentSegmentAttr != null {
        sentSegmentAttr := null;
      }
    }

    /** The bookkeeping of `_segment_send` once the segment is on the wire. */
    method CountAndSave(fin: bool, data: DataBuf, segment: CtcpSegment, ghost value: Segment)
      requires Valid() && value.Sized() && segment.Raw() == Encode(value)
      modifies this`seqno, this`sentSegmentAttr
      ensures Valid() && Abs() == H.CountAndSave(old(Abs()), fin, data, value)
      ensures sentSegmentAttr == old(sentSegmentAttr) || fresh(sentSegmentAttr)
    {
      hide Conn.Valid, Encode;
      if fin {
        seqno := U32(seqno + 1);
      } else {
        seqno := U32(seqno + |data|);
      }
      if |data| > 0 || fin {
        sentSegmentAttr := new SegmentAttr(segment, value);
      }
    }

    /** `_segment_send`. */
    method SegmentSend(fin: bool, ack: bool, data: DataBuf, ok: bool) returns (r: int)
      requires Valid() && !conn.deleteMe
      modifies this`seqno, this`sentSegmentAttr, conn`sent
      ensures Valid() && Did(H.SegmentSend(old(Abs()), fin, ack, data, ok))
      ensures r < 0 <==> !ok
      ensures sentSegmentAttr == old(sentSegmentAttr) || fresh(sentSegmentAttr)
    {
      hide Conn.Valid, Encode, H.CountAndSave;
      ghost var value := H.NewSegment(Abs(), fin, ack, data);
      var segment := BuildSegment(seqno, ackno, fin, ack, data);
      var sent := conn.Send(segment, value, ok);
      if sent < 0 {
        return -1;
      }
      CountAndSave(fin, data, segment, value);
      r := HDR + |data|;
    }

    /** `ctcp_read`. */
    method Read(input: InputResult, ok: bool)
      requires Valid() && !conn.deleteMe
      modifies this`seqno, this`connState, this`sentSegmentAttr, conn`readEof, conn`sent
      ensures Valid() && Did(H.Read(old(Abs()), input, ok))
    {
      hide Conn.Valid, Encode, H.SegmentSend;
      ghost var h := Abs();
      if sentSegmentAttr == null {
        var result := conn.Input(input);
        if result.Eof? {
          assert Abs() == h.(readEof := true);
          var r := SegmentSend(true, false, [], ok);
          if r < 0 {
            return;
          }
          connState := H.TearDown;
        } else {
          assert Abs() == h;
          var r := SegmentSend(false, true, result.buf, ok);
        }
      }
    }

    /** `conn_drain` on this connection. */
    method Drain(ws: seq<WriteResult>)
      requires Valid() && !conn.deleteMe
      modifies conn`outQueue, conn`outQueueTail, conn`chunks, conn`rests, conn`written, conn`wroteErr, conn.chunks
      ensures Valid() && Did(H.Step(old(Abs()), H.DrainEvent(ws)))
    {
      hide Conn.Valid, Encode, Drained;
      conn.Drain(ws);
    }

    /** The retransmission part of `retransmission_handler`. */
    method Retransmit(ok: bool)
      requires Valid() && !conn.deleteMe
      modifies this`sentSegmentAttr, conn`sent, sentSegmentAttr
      ensures Valid() && Did(H.TickSaved(old(Abs()), ok))
    {
      hide Conn.Valid, Encode;
      var segmentAttr := sentSegmentAttr;
      if segmentAttr != null {
        segmentAttr.time := U16(segmentAttr.time + timer);
        if segmentAttr.time >= rtTimeout {
          var r := conn.Send(segmentAttr.segment, segmentAttr.value, ok);
          segmentAttr.noOfTimes := U16(segmentAttr.noOfTimes + 1);
          if segmentAttr.noOfTimes >= H.MAX_RETRIES {
            DestroyAckedSegment();
          }
        }
      }
    }

    /** `retransmission_handler`. */
    method RetransmissionHandler(ok: bool)
      requires Valid() && !conn.deleteMe
      modifies this`tim, this`sentSegmentAttr, conn`deleteMe, conn`sent, sentSegmentAttr
      ensures Valid() && Did(H.Tick(old(Abs()), ok))
    {
      hide Conn.Valid, Encode, H.TickSaved;
      match tdState {
        case NotTeardown =>
        case WaitDestroy =>
          tim := U16(tim + timer);
          if tim >= rtTimeout * 50 {
            Destroy();
            return;
          }
        case Destroyed =>
      }
      assert Abs() == H.TickLinger(old(Abs()));
      Retransmit(ok);
    }

    /** `conn_output` on this connection. */
    method PassOn(data: seq<byte>, w: WriteResult) returns (r: int)
      requires Valid() && !conn.deleteMe
      modifies conn`outQueue, conn`outQueueTail, conn`chunks, conn`rests, conn`written, conn`wroteEof, conn`wroteErr
      modifies conn.chunks
      ensures Valid() && Abs() == old(Abs()).(outq := Put(old(Abs()).outq, data, w).0)
      ensures r == Put(old(Abs()).outq, data, w).1
    {
      hide Conn.Valid, Encode, Put;
      r := conn.Output(data, w);
    }

    /** The part of `ctcp_output` that hands the data over and acknowledges it. */
    method Deliver(data: seq<byte>, end: u32, w: WriteResult, ok: bool)
      requires Valid() && !conn.deleteMe
      modifies this`seqno, this`ackno, this`sentSegmentAttr
      modifies conn`outQueue, conn`outQueueTail, conn`chunks, conn`rests, conn`written, conn`wroteEof, conn`wroteErr
      modifies conn`deleteMe, conn`sent, conn.chunks
      ensures Valid() && Did(H.Deliver(old(Abs()), data, end, w, ok))
    {
      hide Conn.Valid, Encode, Put, H.SegmentSend;
      ghost var h := Abs();
      var r := PassOn(data, w);
      if r < 0 {
        Destroy();
        return;
      }
      ackno := end;
      assert Abs() == h.(outq := Put(h.outq, data, w).0, ackno := end);
      var sent := SegmentSend(false, true, [], ok);
      DestroyAckedSegment();
    }

    /** A bare ACK moves `ackno` to its own number and releases the saved segment. */
    method TakeAck(peerSeqno: u32)
      requires Valid()
      modifies this`ackno, this`sentSegmentAttr
      ensures Valid() && Abs() == old(Abs()).(ackno := peerSeqno, saved := None)
    {
      ackno := peerSeqno;
      DestroyAckedSegment();
    }

    /** `ctcp_output`; `s` is what the received segment says. */
    method Output(w: WriteResult, ok: bool, ghost s: Segment)
      requires Valid() && !conn.deleteMe && receivedSegment != null
      requires s == View(receivedSegment.Raw()) && s.len <= HDR + |receivedSegment.data|
      modifies this`seqno, this`ackno, this`sentSegmentAttr
      modifies conn`outQueue, conn`outQueueTail, conn`chunks, conn`rests, conn`written, conn`wroteEof, conn`wroteErr
      modifies conn`deleteMe, conn`sent, conn.chunks
      ensures Valid() && Did(H.Output(old(Abs()), s, w, ok))
    {
      hide Conn.Valid, Encode, H.Deliver, Outq.Space;
      var datalen := U32(receivedSegment.len - HDR);
      assert s.len == receivedSegment.len && s.seqno == receivedSegment.seqno;
      assert datalen <= MAX_BUF_SPACE ==> datalen <= |receivedSegment.data| && s.data == receivedSegment.data[..datalen];
      hide View, Has;
      var available := conn.Bufspace();
      hide Valid;
      if available == 0 {
        return;
      }
      if available >= datalen {
        if datalen == 0 {
          TakeAck(receivedSegment.seqno);
        } else {
          Deliver(receivedSegment.data[..datalen], U32(receivedSegment.seqno + datalen), w, ok);
        }
      }
    }

    /** The two answers to a FIN segment in `DATA_TRANSFER`. */
    method SendAckThenFin(ok1: bool, ok2: bool)
      requires Valid() && !conn.deleteMe
      modifies this`seqno, this`sentSegmentAttr, conn`sent
      ensures Valid() && Did(H.SendAckThenFin(old(Abs()), ok1, ok2))
    {
      hide Conn.Valid, Encode, H.SegmentSend;
      var r := SegmentSend(false, true, [], ok1);
      r := SegmentSend(true, false, [], ok2);
    }

    /** `ctcp_receive` in `DATA_TRANSFER`, on a FIN segment that is not old. */
    method ReceiveFin(ghost s: Segment, peerSeqno: u32, ok1: bool, ok2: bool)
      requires Valid() && !conn.deleteMe && s.seqno == peerSeqno
      modifies this`seqno, this`ackno, this`sentSegmentAttr, this`connState
      modifies conn`outQueue, conn`outQueueTail, conn`chunks, conn`rests, conn`written, conn`wroteEof, conn`wroteErr
      modifies conn`sent, conn.chunks
      ensures Valid() && Did(H.ReceiveFin(old(Abs()), s, ok1, ok2))
    {
      hide Conn.Valid, Encode, Put, H.SendAckThenFin;
      ghost var h := Abs();
      var r := PassOn([], Again);
      ackno := U32(peerSeqno + 1);
      assert Abs() == h.(outq := Put(h.outq, [], Again).0, ackno := U32(s.seqno + 1));
      SendAckThenFin(ok1, ok2);
      connState := H.WaitLastAck;
    }

    /** The answer to a FIN segment outside `DATA_TRANSFER`. */
    method AckFin(peerSeqno: u32, ok: bool)
      requires Valid() && !conn.deleteMe
      modifies this`seqno, this`ackno, this`sentSegmentAttr, conn`sent
      ensures Valid() && Did(H.AckFin(old(Abs()), peerSeqno, ok))
    {
      hide Conn.Valid, Encode, H.SegmentSend;
      ackno := U32(peerSeqno + 1);
      var r := SegmentSend(false, true, [], ok);
    }

    /** `ctcp_receive` in `DATA_TRANSFER`. */
    method ReceiveInDataTransfer(segment: CtcpSegment, ghost s: Segment, w: WriteResult, ok1: bool, ok2: bool)
      requires Valid() && !conn.deleteMe
      requires s == View(segment.Raw()) && s.len <= HDR + |segment.data|
      modifies this`seqno, this`ackno, this`sentSegmentAttr, this`receivedSegment, this`connState
      modifies conn`outQueue, conn`outQueueTail, conn`chunks, conn`rests, conn`written, conn`wroteEof, conn`wroteErr
      modifies conn`deleteMe, conn`sent, conn.chunks
      ensures Valid() && Did(H.ReceiveInDataTransfer(old(Abs()), s, w, ok1, ok2))
    {
      hide Conn.Valid, Encode, H.Output, H.ReceiveFin;
      var fin, ack := Has(segment.flags, FIN), Has(segment.flags, ACK);
      assert s.fin == fin && s.ack == ack && s.seqno == segment.seqno && s.len == segment.len;
      hide View, Has;
      if segment.seqno < ackno {
        return;
      }
      if fin {
        ReceiveFin(s, segment.seqno, ok1, ok2);
      } else if ack {
        if segment.len == HDR {
          TakeAck(segment.seqno);
        } else {
          receivedSegment := segment;
          Output(w, ok1, s);
        }
      }
    }

    /** `ctcp_receive` on a valid segment that is already in host byte order. */
    method Dispatch(segment: CtcpSegment, ghost s: Segment, w: WriteResult, ok1: bool, ok2: bool)
      requires Valid() && !conn.deleteMe
      requires s == View(segment.Raw()) && s.len <= HDR + |segment.data|
      modifies this`seqno, this`ackno, this`sentSegmentAttr, this`receivedSegment, this`connState, this`tdState, this`tim
      modifies conn`outQueue, conn`outQueueTail, conn`chunks, conn`rests, conn`written, conn`wroteEof, conn`wroteErr
      modifies conn`deleteMe, conn`sent, conn.chunks
      ensures Valid() && Did(H.Receive(old(Abs()), s, w, ok1, ok2))
    {
      hide Valid, Conn.Valid, Encode, H.ReceiveInDataTransfer, H.AckFin, U32;
      var fin, ack := Has(segment.flags, FIN), Has(segment.flags, ACK);
      assert s.fin == fin && s.ack == ack && s.seqno == segment.seqno;
      hide View, Has;
      match connState {
        case WaitInput =>
        case DataTransfer =>
          ReceiveInDataTransfer(segment, s, w, ok1, ok2);
        case TearDown =>
          if ack {
            connState := if fin then H.WaitLastAck else H.WaitLastFin;
          } else if fin {
            AckFin(segment.seqno, ok1);
            Destroy();
          }
        case WaitLastFin =>
          if fin {
            AckFin(segment.seqno, ok1);
            tim := 0;
            tdState := H.WaitDestroy;
          }
        case WaitLastAck =>
          if ack {
            Destroy();
          }
      }
    }

    /** `ctcp_receive`: a segment that is not valid changes nothing at this host, a valid one is an event of it. */
    method Receive(segment: CtcpSegment, len: nat, w: WriteResult, ok1: bool, ok2: bool)
      requires Valid() && !conn.deleteMe
      requires Swap16(segment.len) <= HDR + |segment.data|
      requires sentSegmentAttr != null ==> sentSegmentAttr.segment != segment
      modifies this`seqno, this`ackno, this`sentSegmentAttr, this`receivedSegment, this`connState, this`tdState, this`tim
      modifies conn`outQueue, conn`outQueueTail, conn`chunks, conn`rests, conn`written, conn`wroteEof, conn`wroteErr
      modifies conn`deleteMe, conn`sent, conn.chunks, segment
      ensures Valid()
      ensures Did(if Accepts(old(segment.Raw()), len)
                  then H.Step(old(Abs()), H.ReceiveEvent(Arrived(old(segment.Raw()), len), w, ok1, ok2))
                  else H.Effect(old(Abs()), []))
    {
      hide Conn.Valid, Encode, Accepts, H.Receive;
      ghost var raw := segment.Raw();
      var valid := segment.IsValid(len);
      if !valid {
        return;
      }
      segment.Ntoh();
      assert View(segment.Raw()) == Decode(raw);
      Dispatch(segment, Decode(raw), w, ok1, ok2);
    }
  }
}

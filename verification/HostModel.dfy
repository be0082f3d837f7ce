/**
 One host of the protocol as a value: every function of `ctcp.c` that moves `ctcp_state` is a
 function here from the old state and the outcomes of its system calls to the new state and the
 segments put on the wire.
 */
module HostModel {
  import opened Bytes
  import opened OutputQueue
  import opened Segments
  import opened Connections

  datatype ConnState = WaitInput | DataTransfer | TearDown | WaitLastAck | WaitLastFin
  datatype TdState = NotTeardown | WaitDestroy | Destroyed

  /** `segment_attr`: a segment kept for retransmission. */
  datatype Saved = Saved(noOfTimes: u16, time: u16, segment: Segment)

  /** `ctcp_state` together with the fields of its `conn`; `deleted` once `ctcp_destroy` has run. */
  datatype Host = Host(
    connState: ConnState, tdState: TdState, seqno: u32, ackno: u32, saved: Option<Saved>,
    tim: u16, timer: u16, rtTimeout: u16, readEof: bool, outq: Outq, deleted: bool)

  datatype Effect = Effect(host: Host, sent: seq<Segment>)

  /** Retransmissions before a segment is given up. */
  const MAX_RETRIES := 5

  /** `ctcp_init`. */
  function InitialHost(timer: u16, rtTimeout: u16): Host {
    Host(DataTransfer, NotTeardown, 1, 1, None, 0, timer, rtTimeout, false, EMPTY, false)
  }

  function NewSegment(h: Host, fin: bool, ack: bool, data: DataBuf): Segment {
    Segment(h.seqno, h.ackno, HDR + |data|, fin, ack, data)
  }

  /** The bookkeeping for a segment that is on the wire. */
  function CountAndSave(h: Host, fin: bool, data: DataBuf, segment: Segment): Host {
    h.(seqno := U32(h.seqno + if fin then 1 else |data|),
       saved := if data != [] || fin then Some(Saved(0, 0, segment)) else h.saved)
  }

  /** `_segment_send`; nothing changes when `conn_send` fails. */
  function SegmentSend(h: Host, fin: bool, ack: bool, data: DataBuf, ok: bool): Effect {
    var segment := NewSegment(h, fin, ack, data);
    if ok then Effect(CountAndSave(h, fin, data, segment), [segment]) else Effect(h, [])
  }

  function SendAck(h: Host, ok: bool): Effect { SegmentSend(h, false, true, [], ok) }

  function SendFin(h: Host, ok: bool): Effect { SegmentSend(h, true, false, [], ok) }

  /** `ctcp_read`. */
  function Read(h: Host, input: InputResult, ok: bool): Effect {
    if h.saved.Some? then Effect(h, [])
    else if h.readEof || input.Eof? then
      var e := SendFin(h.(readEof := true), ok);
      if ok then Effect(e.host.(connState := TearDown), e.sent) else e
    else SegmentSend(h, false, true, input.buf, ok)
  }

  /** The data of a segment that ends before `end` is handed over and acknowledged. */
  function Deliver(h: Host, data: seq<byte>, end: u32, w: WriteResult, ok: bool): Effect {
    var (q, r) := Put(h.outq, data, w);
    if r < 0 then Effect(h.(outq := q, deleted := true), [])
    else
      var e := SendAck(h.(outq := q, ackno := end), ok);
      Effect(e.host.(saved := None), e.sent)
  }

  /** `ctcp_output` on a received segment. */
  function Output(h: Host, s: Segment, w: WriteResult, ok: bool): Effect {
    var datalen := U32(s.len - HDR);
    if h.outq.Space() == 0 || h.outq.Space() < datalen then Effect(h, [])
    else if datalen == 0 then Effect(h.(ackno := s.seqno, saved := None), [])
    else Deliver(h, s.data, U32(s.seqno + datalen), w, ok)
  }

  /** The two answers to a FIN segment in `DATA_TRANSFER`. */
  function SendAckThenFin(h: Host, ok1: bool, ok2: bool): Effect {
    var e1 := SendAck(h, ok1);
    var e2 := SendFin(e1.host, ok2);
    Effect(e2.host, e1.sent + e2.sent)
  }

  /** `ctcp_receive` in `DATA_TRANSFER`, on a FIN segment that is not old. */
  function ReceiveFin(h: Host, s: Segment, ok1: bool, ok2: bool): Effect {
    var e := SendAckThenFin(h.(outq := Put(h.outq, [], Again).0, ackno := U32(s.seqno + 1)), ok1, ok2);
    Effect(e.host.(connState := WaitLastAck), e.sent)
  }

  function ReceiveInDataTransfer(h: Host, s: Segment, w: WriteResult, ok1: bool, ok2: bool): Effect {
    if s.seqno < h.ackno then Effect(h, [])
    else if s.fin then ReceiveFin(h, s, ok1, ok2)
    else if s.ack then
      if s.len == HDR then Effect(h.(ackno := s.seqno, saved := None), [])
      else Output(h, s, w, ok1)
    else Effect(h, [])
  }

  /** The answer to a FIN segment outside `DATA_TRANSFER`. */
  function AckFin(h: Host, peerSeqno: u32, ok: bool): Effect {
    SendAck(h.(ackno := U32(peerSeqno + 1)), ok)
  }

  function ReceiveInTearDown(h: Host, s: Segment, ok: bool): Effect {
    if s.ack then Effect(h.(connState := if s.fin then WaitLastAck else WaitLastFin), [])
    else if s.fin then
      var e := AckFin(h, s.seqno, ok);
      Effect(e.host.(deleted := true), e.sent)
    else Effect(h, [])
  }

  function ReceiveInWaitLastFin(h: Host, s: Segment, ok: bool): Effect {
    if s.fin then
      var e := AckFin(h, s.seqno, ok);
      Effect(e.host.(tim := 0, tdState := WaitDestroy), e.sent)
    else Effect(h, [])
  }

  /** `ctcp_receive` on a segment that passed `_is_segment_valid`. */
  function Receive(h: Host, s: Segment, w: WriteResult, ok1: bool, ok2: bool): Effect {
    match h.connState
    case WaitInput => Effect(h, [])
    case DataTransfer => ReceiveInDataTransfer(h, s, w, ok1, ok2)
    case TearDown => ReceiveInTearDown(h, s, ok1)
    case WaitLastFin => ReceiveInWaitLastFin(h, s, ok1)
    case WaitLastAck => Effect(if s.ack then h.(deleted := true) else h, [])
  }

  /** The linger clock of `retransmission_handler`. */
  function TickLinger(h: Host): Host {
    if h.tdState == WaitDestroy then
      var tim := U16(h.tim + h.timer);
      h.(tim := tim, deleted := tim >= 50 * h.rtTimeout)
    else h
  }

  /** The retransmission part of `retransmission_handler`. */
  function TickSaved(h: Host, ok: bool): Effect {
    if h.saved.None? then Effect(h, [])
    else
      var s := h.saved.value;
      var time := U16(s.time + h.timer);
      if time < h.rtTimeout then Effect(h.(saved := Some(s.(time := time))), [])
      else
        var n := U16(s.noOfTimes + 1);
        Effect(h.(saved := if n >= MAX_RETRIES then None else Some(Saved(n, time, s.segment))),
               if ok then [s.segment] else [])
  }

  /** `retransmission_handler`; `ok` says whether its `conn_send` succeeds, which it does not look at. */
  function Tick(h: Host, ok: bool): Effect {
    var h1 := TickLinger(h);
    if h1.deleted then Effect(h1, []) else TickSaved(h1, ok)
  }

  /** Everything that can happen at a host, with the outcomes of the system calls made. */
  datatype Event =
    | ReadEvent(input: InputResult, ok: bool)
    | ReceiveEvent(segment: Framed, w: WriteResult, ok1: bool, ok2: bool)
    | TickEvent(ok: bool)
    | DrainEvent(ws: seq<WriteResult>)

  /** Nothing happens at a host that is gone. */
  function Step(h: Host, e: Event): Effect {
    if h.deleted then Effect(h, [])
    else
      match e
      case ReadEvent(input, ok) => Read(h, input, ok)
      case ReceiveEvent(s, w, ok1, ok2) => Receive(h, s, w, ok1, ok2)
      case TickEvent(ok) => Tick(h, ok)
      case DrainEvent(ws) => Effect(h.(outq := Drained(h.outq, ws)), [])
  }
}

/** What one event can do to a host, case by case: the facts about `HostModel` that the theorems over runs use. */
module Outcomes {
  import opened Bytes
  import opened OutputQueue
  import opened Segments
  import opened Connections
  import opened HostModel
  import opened Lives

  /** The first sequence number after a segment. */
  function End(s: Segment): nat {
    s.seqno + |s.data| + if s.fin then 1 else 0
  }

  function AckOf(h: Host, ackno: u32): Segment {
    Segment(h.seqno, ackno, HDR, false, true, [])
  }

  function FinOf(h: Host, ackno: u32): Segment {
    Segment(h.seqno, ackno, HDR, true, false, [])
  }

  predicate Ignored(h: Host, f: Effect) {
    f == Effect(h, [])
  }

  /** A bare ACK moves `ackno` and releases the saved segment. */
  predicate TookAck(h: Host, s: Segment, f: Effect) {
    f == Effect(h.(ackno := s.seqno, saved := None), [])
  }

  /** Data is handed over whole, acknowledged up to its end, and the saved segment is released. */
  predicate Delivered(h: Host, s: Segment, f: Effect, ok: bool) {
    && End(s) < U32_MOD
    && f.host == h.(ackno := End(s), saved := None, outq := f.host.outq)
    && f.host.outq.All() == h.outq.All() + s.data
    && f.sent == (if ok then [AckOf(h, End(s))] else [])
  }

  /** `conn_output` fails on the data: the host is destroyed. */
  predicate Broke(h: Host, s: Segment, w: WriteResult, f: Effect) {
    && Put(h.outq, s.data, w).1 < 0
    && f.host == h.(outq := f.host.outq, deleted := true)
    && f.host.outq.All() == h.outq.All()
    && f.sent == []
  }

  /** A FIN in `DATA_TRANSFER`: EOF goes out, an ACK and a FIN go back. */
  predicate ClosedByPeer(h: Host, s: Segment, f: Effect, ok1: bool, ok2: bool) {
    && s.seqno + 1 < U32_MOD
    && f.host == h.(ackno := s.seqno + 1, connState := WaitLastAck, outq := h.outq.(wroteEof := true),
                    seqno := if ok2 then U32(h.seqno + 1) else h.seqno,
                    saved := if ok2 then Some(Saved(0, 0, FinOf(h, s.seqno + 1))) else h.saved)
    && f.sent == (if ok1 then [AckOf(h, s.seqno + 1)] else []) + (if ok2 then [FinOf(h, s.seqno + 1)] else [])
  }

  lemma OutputIs(h: Host, s: Segment, w: WriteResult, ok: bool)
    requires !h.outq.wroteEof && h.outq.NoEmptyChunk()
    requires s.Sized() && End(s) < U32_MOD && s.data != [] && !s.fin
    ensures var f := Output(h, s, w, ok); Ignored(h, f) || Delivered(h, s, f, ok) || Broke(h, s, w, f)
  {
    hide Put, Outq.Space, Outq.All, U32;
    PutFacts(h.outq, s.data, w);
    SmallU32(|s.data|);
    SmallU32(End(s));
    SmallU32(h.seqno);
    assert s.len - HDR == |s.data|;
  }

  lemma ReceiveFinIs(h: Host, s: Segment, ok1: bool, ok2: bool)
    requires !h.outq.wroteEof && h.outq.NoEmptyChunk() && s.seqno + 1 < U32_MOD
    ensures ClosedByPeer(h, s, ReceiveFin(h, s, ok1, ok2), ok1, ok2)
  {
    hide Put, U32;
    PutFacts(h.outq, [], Again);
    SmallU32(s.seqno + 1);
    SmallU32(h.seqno);
  }

  lemma ReceiveInDataTransferIs(h: Host, s: Segment, w: WriteResult, ok1: bool, ok2: bool)
    requires h.connState == DataTransfer && !h.outq.wroteEof && h.outq.NoEmptyChunk()
    requires s.Sized() && End(s) < U32_MOD && (s.fin ==> s.data == [])
    ensures var f := Receive(h, s, w, ok1, ok2);
      if s.seqno < h.ackno then Ignored(h, f)
      else if s.fin then ClosedByPeer(h, s, f, ok1, ok2)
      else if !s.ack then Ignored(h, f)
      else if s.data == [] then TookAck(h, s, f)
      else Ignored(h, f) || Delivered(h, s, f, ok1) || Broke(h, s, w, f)
  {
    hide Output, ReceiveFin, Delivered, Broke, ClosedByPeer;
    if s.fin {
      ReceiveFinIs(h, s, ok1, ok2);
    } else if s.data != [] {
      OutputIs(h, s, w, ok1);
    }
  }

  /** Outside `DATA_TRANSFER` a FIN may move `ackno` and is answered by an ACK; data is never taken. */
  predicate AnsweredFin(h: Host, s: Segment, h': Host, sent: seq<Segment>, ok: bool) {
    && s.seqno + 1 < U32_MOD
    && h'.ackno == s.seqno + 1
    && sent == (if ok then [AckOf(h, s.seqno + 1)] else [])
  }

  lemma ReceiveElsewhereIs(h: Host, s: Segment, w: WriteResult, ok1: bool, ok2: bool)
    requires h.connState != DataTransfer && End(s) < U32_MOD
    ensures var f := Receive(h, s, w, ok1, ok2);
      var h' := f.host;
      && h'.seqno == h.seqno && h'.saved == h.saved && h'.outq == h.outq && h'.readEof == h.readEof
      && h'.connState != DataTransfer
      && (if s.fin && (h.connState == WaitLastFin || (h.connState == TearDown && !s.ack)) then AnsweredFin(h, s, h', f.sent, ok1)
          else h'.ackno == h.ackno && f.sent == [])
      && (h'.connState == h.connState
          || (h.connState == TearDown && s.ack && h'.connState == if s.fin then WaitLastAck else WaitLastFin))
      && (h'.deleted ==> h.deleted || (h.connState == TearDown && s.fin && !s.ack) || (h.connState == WaitLastAck && s.ack))
      && (h'.tdState == h.tdState || (h'.tdState == WaitDestroy && h.connState == WaitLastFin && s.fin))
  {
    hide Swap32;
  }

  /** `ctcp_read`: nothing, a FIN that starts the teardown, or a segment with what was read. */
  lemma ReadIs(h: Host, input: InputResult, ok: bool)
    ensures var f := Read(h, input, ok);
      if h.saved.Some? then Ignored(h, f)
      else if h.readEof || input.Eof? then
        f == if ok then Effect(h.(readEof := true, connState := TearDown, seqno := U32(h.seqno + 1),
                                  saved := Some(Saved(0, 0, FinOf(h, h.ackno)))), [FinOf(h, h.ackno)])
             else Effect(h.(readEof := true), [])
      else if !ok then Ignored(h, f)
      else
        var s := Segment(h.seqno, h.ackno, HDR + |input.buf|, false, true, input.buf);
        f == Effect(h.(seqno := U32(h.seqno + |input.buf|),
                       saved := if input.buf == [] then None else Some(Saved(0, 0, s))), [s])
  {
    hide Swap32;
  }

  /** A tick resends at most the saved segment, and keeps it or drops it. */
  lemma TickIs(h: Host, ok: bool)
    ensures var f := Tick(h, ok);
      && f.host.seqno == h.seqno && f.host.ackno == h.ackno && f.host.outq == h.outq
      && f.host.connState == h.connState && f.host.tdState == h.tdState && f.host.readEof == h.readEof
      && (f.sent == [] || (h.saved.Some? && f.sent == [h.saved.value.segment]))
      && (f.host.saved.Some? ==> h.saved.Some? && f.host.saved.value.segment == h.saved.value.segment)
      && (f.host.deleted ==> h.deleted || h.tdState == WaitDestroy)
  {
    hide U16;
  }

  /** A tick whose send fails counts like one whose send succeeds; a tick that destroys the host sends nothing. */
  lemma TickSends(h: Host, ok: bool)
    ensures Tick(h, ok).host == Tick(h, true).host
    ensures Tick(h, ok).sent == if ok then Tick(h, true).sent else []
    ensures Tick(h, ok).host.deleted && !h.deleted ==> Tick(h, ok).sent == [] && Tick(h, ok).host.saved == h.saved
    ensures h.tdState != WaitDestroy ==> Tick(h, ok).host.tim == h.tim
  {
    hide U16;
  }

  /** A drain that is allowed to write everything does so, and touches nothing else. */
  lemma DrainEventWrites(h: Host, ws: seq<WriteResult>)
    requires !h.deleted && !h.outq.wroteErr && |ws| >= |h.outq.queue|
    requires forall i :: 0 <= i < |h.outq.queue| ==> TakesChunk(h.outq, ws, i)
    ensures Step(h, DrainEvent(ws)) ==
            Effect(h.(outq := Outq(h.outq.All(), [], h.outq.wroteEof, h.outq.wroteEof)), [])
  {
    hide Drained, Outq.All;
    DrainEmpties(h.outq, ws);
  }

  // ---------- reception, exactly ----------

  /** The data has been passed to `conn_output`; it is acknowledged up to its end, and the saved segment is released. */
  predicate HandedOver(h: Host, s: Segment, w: WriteResult, f: Effect, ok: bool) {
    var end := U32(s.seqno + |s.data|);
    && f.host == h.(ackno := end, saved := None, outq := Put(h.outq, s.data, w).0)
    && f.host.outq.All() == h.outq.All() + s.data
    && f.sent == (if ok then [AckOf(h, end)] else [])
  }

  /** A FIN in `DATA_TRANSFER`, whatever its number. */
  predicate ClosedUpTo(h: Host, f: Effect, ok1: bool, ok2: bool, end: u32) {
    && f.host == h.(ackno := end, connState := WaitLastAck, outq := h.outq.(wroteEof := true),
                    seqno := if ok2 then U32(h.seqno + 1) else h.seqno,
                    saved := if ok2 then Some(Saved(0, 0, FinOf(h, end))) else h.saved)
    && f.sent == (if ok1 then [AckOf(h, end)] else []) + (if ok2 then [FinOf(h, end)] else [])
  }

  /**
   When data is taken: exactly when it fits into what is left of the 8192 bytes, and the host is destroyed
   instead if there was an error before or nothing is queued and `write` fails. A length field that does
   not cover a header never fits.
   */
  lemma DataTakenIff(h: Host, s: Framed, w: WriteResult, ok1: bool, ok2: bool)
    requires h.connState == DataTransfer && !h.outq.wroteEof && h.outq.NoEmptyChunk()
    requires s.seqno >= h.ackno && !s.fin && s.ack && s.len != HDR
    ensures var f := Receive(h, s, w, ok1, ok2);
      if s.len < 20 || |s.data| > 8192 - |h.outq.Pending()| then Ignored(h, f)
      else if h.outq.wroteErr || (h.outq.queue == [] && w.Failed?) then
        f == Effect(h.(outq := h.outq.(wroteErr := true), deleted := true), [])
      else HandedOver(h, s, w, f, ok1)
  {
    hide Put, Outq.All, Outq.Pending, U32, NewSegment, CountAndSave;
    var f := Receive(h, s, w, ok1, ok2);
    if s.len < HDR {
      ShortLength(s.len);
      assert f == Output(h, s, w, ok1);
    } else {
      assert s.Sized() && s.len - HDR == |s.data|;
      SmallU32(|s.data|);
      PutIs(h.outq, s.data, w);
      PutFails(h.outq, s.data, w);
      AckSent(h.(outq := Put(h.outq, s.data, w).0, ackno := U32(s.seqno + |s.data|)), ok1);
    }
  }

  lemma ShortLength(len: u16)
    ensures len < HDR ==> U32(len - HDR) > MAX_BUF_SPACE
  {
  }

  lemma AckSent(h: Host, ok: bool)
    ensures SendAck(h, ok) == Effect(h, if ok then [AckOf(h, h.ackno)] else [])
  {
  }

  /** All other segments in `DATA_TRANSFER`. */
  lemma OthersInTransfer(h: Host, s: Segment, w: WriteResult, ok1: bool, ok2: bool)
    requires h.connState == DataTransfer && !h.outq.wroteEof
    ensures var f := Receive(h, s, w, ok1, ok2);
      && (s.seqno < h.ackno ==> Ignored(h, f))
      && (s.seqno >= h.ackno && s.fin ==> ClosedUpTo(h, f, ok1, ok2, U32(s.seqno + 1)))
      && (s.seqno >= h.ackno && !s.fin && !s.ack ==> Ignored(h, f))
      && (s.seqno >= h.ackno && !s.fin && s.ack && s.len == HDR ==> TookAck(h, s, f))
  {
    hide Output, U32, Outq.All;
    SmallU32(h.seqno);
    EofPut(h.outq);
  }

  lemma EofPut(q: Outq)
    requires !q.wroteEof
    ensures Put(q, [], Again).0 == q.(wroteEof := true)
  {
  }

  /**
   Reception outside `DATA_TRANSFER`, state by state. A host that has closed goes on by an ACK, to wait for
   the last ACK if the segment is a FIN too, and ends on a bare FIN; the last FIN starts the linger; the last
   ACK ends the connection. Every FIN acted on is acknowledged, and nothing else changes anything.
   */
  lemma ReceiveElsewhereExactly(h: Host, s: Segment, w: WriteResult, ok1: bool, ok2: bool)
    requires h.connState != DataTransfer
    ensures var f := Receive(h, s, w, ok1, ok2);
      var end := U32(s.seqno + 1);
      var answer := if ok1 then [AckOf(h, end)] else [];
      match h.connState
      case TearDown =>
        if s.ack then f == Effect(h.(connState := if s.fin then WaitLastAck else WaitLastFin), [])
        else if s.fin then f == Effect(h.(ackno := end, deleted := true), answer)
        else Ignored(h, f)
      case WaitLastFin =>
        if s.fin then f == Effect(h.(ackno := end, tim := 0, tdState := WaitDestroy), answer) else Ignored(h, f)
      case WaitLastAck => f == Effect(if s.ack then h.(deleted := true) else h, [])
      case _ => Ignored(h, f)
  {
    hide SendAck, U32;
    AckSent(h.(ackno := U32(s.seqno + 1)), ok1);
  }
}

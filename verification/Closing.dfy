/**
 The state in which a host is destroyed, whatever its peer and the network do: what it has not
 written, and whether it has read its input to the end.
 */
module Closings {
  import opened Bytes
  import opened OutputQueue
  import opened Segments
  import opened HostModel
  import opened Lives

  // ---------- output that is never written ----------

  /** What destroys a host writes nothing and queues nothing. */
  predicate LeavesOutput(h: Host, h': Host) {
    h'.outq == h.outq || h'.outq == h.outq.(wroteErr := true)
  }

  lemma ReceiveDestroys(h: Host, s: Framed, w: WriteResult, ok1: bool, ok2: bool)
    requires !h.deleted && Receive(h, s, w, ok1, ok2).host.deleted
    ensures LeavesOutput(h, Receive(h, s, w, ok1, ok2).host)
  {
    hide Put, Outq.Space, U32, SegmentSend;
    PutFails(h.outq, s.data, w);
    SendKeepsQueue(h.(outq := Put(h.outq, s.data, w).0, ackno := U32(s.seqno + U32(s.len - HDR))), false, true, [], ok1);
    var h1 := h.(outq := Put(h.outq, [], Again).0, ackno := U32(s.seqno + 1));
    SendKeepsQueue(h1, false, true, [], ok1);
    SendKeepsQueue(SendAck(h1, ok1).host, true, false, [], ok2);
    SendKeepsQueue(h.(ackno := U32(s.seqno + 1)), false, true, [], ok1);
  }

  lemma DestroyLeavesOutput(h: Host, e: Event)
    requires !h.deleted && Step(h, e).host.deleted
    ensures LeavesOutput(h, Step(h, e).host)
  {
    hide Receive, Drained, U16, SegmentSend;
    match e {
      case ReadEvent(input, ok) =>
        SendKeepsQueue(h.(readEof := true), true, false, [], ok);
        if input.Chars? {
          SendKeepsQueue(h, false, true, input.buf, ok);
        }
      case ReceiveEvent(s, w, ok1, ok2) =>
        ReceiveDestroys(h, s, w, ok1, ok2);
      case TickEvent(ok) =>
      case DrainEvent(ws) =>
    }
  }

  lemma {:induction false} DeadForever(l: Life, events: seq<Event>)
    requires l.h.deleted
    ensures Run(l, events).h == l.h
    decreases |events|
  {
    if events != [] {
      DeadForever(Next(l, events[0]), events[1..]);
    }
  }

  /**
   When all output of a destroyed host gets written, over every run: a host that `e` destroys never
   writes what is queued at that moment, so its output is written for ever if and only if its queue was
   empty, that is, if `conn_bufspace` reported all its space; `ctcp_destroy` is not made to wait for that.
   */
  lemma AllWrittenIff(timer: u16, rtTimeout: u16, before: seq<Event>, e: Event, after: seq<Event>)
    ensures var l := Run(Born(timer, rtTimeout), before);
      var end := Run(Next(l, e), after);
      !l.h.deleted && Next(l, e).h.deleted ==>
        && end.h.outq.written == l.h.outq.written && end.h.outq.All() == l.h.outq.All()
        && (end.h.outq.written == end.h.outq.All() <==> l.h.outq.Space() == 8192)
  {
    hide Run, Next, Step, Outq.All, Outq.Pending;
    var l := Run(Born(timer, rtTimeout), before);
    NextHost(l, e);
    if !l.h.deleted && Next(l, e).h.deleted {
      DestroyLeavesOutput(l.h, e);
      DeadForever(Next(l, e), after);
      AllIsWritten(l.h.outq);
      BufferBound(timer, rtTimeout, before);
      assert l.h.outq.Space() == MAX_BUF_SPACE <==> l.h.outq.Pending() == [];
    }
  }

  // ---------- the end of the input ----------

  /** A host that closed by itself has read its input to the end; one that only answered a FIN has not. */
  predicate InputInv(h: Host, answersOnly: bool) {
    && (h.connState == TearDown || h.connState == WaitLastFin ==> h.readEof)
    && (answersOnly && (h.connState == DataTransfer || h.connState == WaitLastAck) ==> !h.readEof)
  }

  /** No FIN that is received carries an ACK flag, as on Unix sockets. */
  predicate BareFin(e: Event) {
    e.ReceiveEvent? ==> !(e.segment.fin && e.segment.ack)
  }

  predicate BareFins(events: seq<Event>) {
    forall i :: 0 <= i < |events| ==> BareFin(events[i])
  }

  lemma ReceiveKeepsInput(h: Host, s: Framed, w: WriteResult, ok1: bool, ok2: bool)
    ensures var h' := Receive(h, s, w, ok1, ok2).host;
      && h'.readEof == h.readEof
      && (h'.connState == h.connState || (h.connState == DataTransfer && h'.connState == WaitLastAck)
          || (h.connState == TearDown && h'.connState == WaitLastFin)
          || (h.connState == TearDown && h'.connState == WaitLastAck && s.fin && s.ack))
  {
    hide Put, Outq.Space, U32, SegmentSend;
    SendKeepsQueue(h.(outq := Put(h.outq, s.data, w).0, ackno := U32(s.seqno + U32(s.len - HDR))), false, true, [], ok1);
    var h1 := h.(outq := Put(h.outq, [], Again).0, ackno := U32(s.seqno + 1));
    SendKeepsQueue(h1, false, true, [], ok1);
    SendKeepsQueue(SendAck(h1, ok1).host, true, false, [], ok2);
    SendKeepsQueue(h.(ackno := U32(s.seqno + 1)), false, true, [], ok1);
  }

  lemma InputStep(h: Host, e: Event, answersOnly: bool)
    requires InputInv(h, answersOnly) && SendsSucceed(e) && (answersOnly ==> BareFin(e))
    ensures InputInv(Step(h, e).host, answersOnly)
  {
    hide Receive, Drained, U16, SegmentSend;
    match e {
      case ReadEvent(input, ok) =>
        SendKeepsQueue(h.(readEof := true), true, false, [], ok);
        if input.Chars? {
          SendKeepsQueue(h, false, true, input.buf, ok);
        }
      case ReceiveEvent(s, w, ok1, ok2) =>
        ReceiveKeepsInput(h, s, w, ok1, ok2);
      case TickEvent(ok) =>
      case DrainEvent(ws) =>
    }
  }

  lemma {:induction false} InputRun(l: Life, events: seq<Event>, answersOnly: bool)
    requires InputInv(l.h, answersOnly) && AllSendsSucceed(events) && (answersOnly ==> BareFins(events))
    ensures InputInv(Run(l, events).h, answersOnly)
    decreases |events|
  {
    hide Next, InputInv, SendsSucceed, BareFin;
    if events == [] {
    } else {
      InputStep(l.h, events[0], answersOnly);
      NextHost(l, events[0]);
      InputRun(Next(l, events[0]), events[1..], answersOnly);
    }
  }

  /**
   When a destroyed host has read its input to the end, over every run with successful sends, failures of
   `conn_output` apart: always, unless it is in `WAIT_LAST_ACK`; and there, when no FIN carries an ACK
   flag, never.
   */
  lemma InputEndedIff(timer: u16, rtTimeout: u16, events: seq<Event>)
    requires AllSendsSucceed(events)
    ensures var l := Run(Born(timer, rtTimeout), events);
      l.h.deleted && !l.outputFailed ==>
        && (l.h.connState != WaitLastAck ==> l.h.readEof)
        && (BareFins(events) ==> (l.h.readEof <==> l.h.connState != WaitLastAck))
  {
    hide Run, BareFins;
    CloseRun(Born(timer, rtTimeout), events);
    InputRun(Born(timer, rtTimeout), events, false);
    if BareFins(events) {
      InputRun(Born(timer, rtTimeout), events, true);
    }
  }
}

/**
 The life of one host, whatever its peer and the network do: closing, retransmission and linger.
 The events of a run are arbitrary, and so are the segments received in it.
 */
module Lives {
  import opened Bytes
  import opened OutputQueue
  import opened Segments
  import opened Connections
  import opened HostModel

  /**
   A host with its history: whether it has sent a FIN and acted on one, how often it has output EOF,
   whether a failed output ended it; the ticks since its saved segment was first sent, how often that
   segment was sent and the ticks since it was last sent; the ticks since the last FIN that started the
   linger clock.
   */
  datatype Life = Life(h: Host, sentFin: bool, seenFin: bool, eofs: nat, outputFailed: bool,
                       age: nat, sends: nat, quiet: nat, lingerAge: nat)

  function Born(timer: u16, rtTimeout: u16): Life {
    Life(InitialHost(timer, rtTimeout), false, false, 0, false, 0, 0, 0, 0)
  }

  predicate AnyFin(segments: seq<Segment>) {
    exists i :: 0 <= i < |segments| && segments[i].fin
  }

  /** A FIN segment is received and acted on. */
  predicate ActsOnFin(h: Host, e: Event) {
    e.ReceiveEvent? && e.segment.fin && !h.deleted &&
    match h.connState
    case DataTransfer => e.segment.seqno >= h.ackno
    case TearDown => true
    case WaitLastFin => true
    case _ => false
  }

  predicate OutputsEof(h: Host, e: Event) {
    ActsOnFin(h, e) && h.connState == DataTransfer
  }

  predicate RestartsLinger(h: Host, e: Event) {
    ActsOnFin(h, e) && h.connState == WaitLastFin
  }

  /** `conn_output` refuses the data of a segment received in `DATA_TRANSFER`. */
  predicate OutputFails(h: Host, e: Event) {
    !h.deleted && h.connState == DataTransfer && e.ReceiveEvent? && Put(h.outq, e.segment.data, e.w).1 < 0
  }

  /** A segment is saved in place of none or another one. */
  predicate SavesAnew(h: Host, h': Host, e: Event) {
    !e.TickEvent? && h'.saved.Some? && h'.saved != h.saved
  }

  function Next(l: Life, e: Event): Life {
    var f := Step(l.h, e);
    var anew := SavesAnew(l.h, f.host, e);
    Life(f.host,
         l.sentFin || AnyFin(f.sent),
         l.seenFin || ActsOnFin(l.h, e),
         l.eofs + (if OutputsEof(l.h, e) then 1 else 0),
         l.outputFailed || (OutputFails(l.h, e) && f.host.deleted),
         if anew then 0 else if e.TickEvent? then l.age + 1 else l.age,
         if anew then 1 else if e.TickEvent? then l.sends + |f.sent| else l.sends,
         if anew || (e.TickEvent? && f.sent != []) then 0 else if e.TickEvent? then l.quiet + 1 else l.quiet,
         if RestartsLinger(l.h, e) then 0 else if e.TickEvent? then l.lingerAge + 1 else l.lingerAge)
  }

  lemma NextHost(l: Life, e: Event)
    ensures Next(l, e).h == Step(l.h, e).host
  {
  }

  function Run(l: Life, events: seq<Event>): Life
    decreases |events|
  {
    if events == [] then l else Run(Next(l, events[0]), events[1..])
  }

  lemma {:induction false} RunConcat(l: Life, before: seq<Event>, after: seq<Event>)
    ensures Run(l, before + after) == Run(Run(l, before), after)
    decreases |before|
  {
    hide Next;
    if before == [] {
      assert before + after == after;
    } else {
      assert (before + after)[0] == before[0] && (before + after)[1..] == before[1..] + after;
      RunConcat(Next(l, before[0]), before[1..], after);
    }
  }

  /** That many ticks in a row. */
  function Ticks(n: nat): seq<Event> {
    seq(n, _ => TickEvent(true))
  }

  lemma TicksSnoc(l: Life, n: nat)
    ensures Run(l, Ticks(n + 1)) == Next(Run(l, Ticks(n)), TickEvent(true))
  {
    hide Next;
    assert Ticks(n + 1) == Ticks(n) + [TickEvent(true)];
    RunConcat(l, Ticks(n), [TickEvent(true)]);
    assert [TickEvent(true)][1..] == [];
  }

  lemma SendKeepsClocks(h: Host, fin: bool, ack: bool, data: DataBuf, ok: bool)
    ensures KeepsSaved(h, SegmentSend(h, fin, ack, data, ok).host)
  {
  }

  /** A saved segment is left alone, released, or a new one is saved; the configuration stays. */
  predicate KeepsSaved(h: Host, h': Host) {
    && h'.timer == h.timer && h'.rtTimeout == h.rtTimeout
    && (h'.saved == h.saved || h'.saved.None? || (h'.saved.value.time == 0 && h'.saved.value.noOfTimes == 0))
  }

  lemma KeepsSavedInDataTransfer(h: Host, s: Segment, w: WriteResult, ok1: bool, ok2: bool)
    ensures KeepsSaved(h, ReceiveInDataTransfer(h, s, w, ok1, ok2).host)
  {
    hide Drained, Put, U16, U32, SegmentSend;
    var h1 := h.(outq := Put(h.outq, [], Again).0, ackno := U32(s.seqno + 1));
    SendKeepsClocks(h1, false, true, [], ok1);
    SendKeepsClocks(SendAck(h1, ok1).host, true, false, [], ok2);
    var h2 := h.(outq := Put(h.outq, s.data, w).0, ackno := U32(s.seqno + U32(s.len - HDR)));
    SendKeepsClocks(h2, false, true, [], ok1);
  }

  lemma KeepsSavedElsewhere(h: Host, e: Event)
    requires !e.TickEvent?
    ensures KeepsSaved(h, Step(h, e).host)
  {
    hide Drained, Put, U16, U32, SegmentSend, ReceiveInDataTransfer;
    match e {
      case ReadEvent(input, ok) =>
        SendKeepsClocks(h.(readEof := true), true, false, [], ok);
        if input.Chars? {
          SendKeepsClocks(h, false, true, input.buf, ok);
        }
      case ReceiveEvent(s, w, ok1, ok2) =>
        KeepsSavedInDataTransfer(h, s, w, ok1, ok2);
        SendKeepsClocks(h.(ackno := U32(s.seqno + 1)), false, true, [], ok1);
      case DrainEvent(ws) =>
    }
  }

  lemma ConfigStep(h: Host, e: Event)
    ensures var h' := Step(h, e).host; h'.timer == h.timer && h'.rtTimeout == h.rtTimeout
  {
    hide Read, Receive, Drained, U16;
    if !e.TickEvent? {
      KeepsSavedElsewhere(h, e);
    }
  }

  lemma {:induction false} ConfigRun(l: Life, events: seq<Event>)
    ensures var l' := Run(l, events); l'.h.timer == l.h.timer && l'.h.rtTimeout == l.h.rtTimeout
    decreases |events|
  {
    if events == [] {
    } else {
      ConfigStep(l.h, events[0]);
      ConfigRun(Next(l, events[0]), events[1..]);
    }
  }

  lemma TicksStart()
    ensures Ticks(0) == []
  {
  }

  /** Every send of the event succeeds. */
  predicate SendsSucceed(e: Event) {
    match e
    case ReadEvent(_, ok) => ok
    case ReceiveEvent(_, _, ok1, ok2) => ok1 && ok2
    case TickEvent(ok) => ok
    case DrainEvent(_) => true
  }

  predicate AllSendsSucceed(events: seq<Event>) {
    forall i :: 0 <= i < |events| ==> SendsSucceed(events[i])
  }

  // ---------- closing ----------

  /** How far the two FINs have come in each state. */
  predicate CloseInv(l: Life) {
    && l.h.connState != WaitInput
    && (l.h.connState == DataTransfer ==>
          && !l.sentFin && !l.seenFin && l.h.tdState == NotTeardown
          && (l.h.saved.Some? ==> !l.h.saved.value.segment.fin))
    && (l.h.connState == TearDown || l.h.connState == WaitLastFin ==> l.sentFin)
    && (l.h.connState == WaitLastAck ==> l.sentFin && l.seenFin)
    && (l.h.tdState == WaitDestroy ==> l.sentFin && l.seenFin)
    && (l.h.deleted && l.h.connState == DataTransfer <==> l.outputFailed)
    && (l.h.deleted && !l.outputFailed ==> l.sentFin && l.seenFin)
  }

  lemma AnyFinLast(s: seq<Segment>, t: Segment)
    requires t.fin
    ensures AnyFin(s + [t])
  {
    assert (s + [t])[|s|].fin;
  }

  lemma CloseOnRead(l: Life, e: Event)
    requires CloseInv(l) && SendsSucceed(e) && e.ReadEvent? && !l.h.deleted
    ensures CloseInv(Next(l, e))
  {
    hide U32;
    var h, f := l.h, Step(l.h, e);
    AnyFinLast([], NewSegment(h, true, false, []));
    assert AnyFin(f.sent) ==> f.host.connState == TearDown;
    assert h.saved.None? && (h.readEof || e.input.Eof?) ==> f.sent == [NewSegment(h, true, false, [])];
  }

  lemma CloseOnReceive(l: Life, e: Event)
    requires CloseInv(l) && SendsSucceed(e) && e.ReceiveEvent? && !l.h.deleted
    ensures CloseInv(Next(l, e))
  {
    hide Put, U32;
    var h, s := l.h, e.segment;
    if OutputsEof(h, e) {
      var e1 := SendAck(h.(outq := Put(h.outq, [], Again).0, ackno := U32(s.seqno + 1)), e.ok1);
      AnyFinLast(e1.sent, NewSegment(e1.host, true, false, []));
    }
  }

  lemma CloseStep(l: Life, e: Event)
    requires CloseInv(l) && SendsSucceed(e)
    ensures CloseInv(Next(l, e))
  {
    hide Read, Receive, Drained, Put, U16, U32;
    if !l.h.deleted && e.ReadEvent? {
      CloseOnRead(l, e);
    } else if !l.h.deleted && e.ReceiveEvent? {
      CloseOnReceive(l, e);
    }
  }

  lemma {:induction false} CloseRun(l: Life, events: seq<Event>)
    requires CloseInv(l) && AllSendsSucceed(events)
    ensures CloseInv(Run(l, events))
    decreases |events|
  {
    if events == [] {
    } else {
      assert SendsSucceed(events[0]);
      CloseStep(l, events[0]);
      CloseRun(Next(l, events[0]), events[1..]);
    }
  }

  /**
   A host is destroyed only after it has sent a FIN and acted on one, unless `conn_output` failed on the
   data of the segment that ended it; and such a failure is the only thing that destroys a host in
   `DATA_TRANSFER`.
   */
  lemma DestroyedOnlyWhenBothClosed(timer: u16, rtTimeout: u16, events: seq<Event>)
    requires AllSendsSucceed(events)
    ensures var l := Run(Born(timer, rtTimeout), events);
      && (l.h.deleted && !l.outputFailed ==> l.sentFin && l.seenFin)
      && (l.h.deleted && l.h.connState == DataTransfer <==> l.outputFailed)
  {
    CloseRun(Born(timer, rtTimeout), events);
  }

  /** EOF goes out with the one step that leaves `DATA_TRANSFER` on a FIN. */
  predicate EofInv(l: Life) {
    && l.h.outq.NoEmptyChunk()
    && l.eofs <= 1
    && (l.h.outq.wroteEof <==> l.eofs == 1)
    && (l.eofs == 1 ==> l.h.connState != DataTransfer)
  }

  /** What the FIN branch of `DATA_TRANSFER` does to the output queue. */
  lemma QueueOnFin(h: Host, s: Segment, ok1: bool, ok2: bool)
    requires h.outq.NoEmptyChunk() && !h.outq.wroteEof
    ensures var h' := ReceiveFin(h, s, ok1, ok2).host;
      h'.outq == h.outq.(wroteEof := true) && h'.connState == WaitLastAck
  {
    hide Put, SegmentSend, U32, Outq.NoEmptyChunk;
    PutFacts(h.outq, [], Again);
    var h1 := h.(outq := Put(h.outq, [], Again).0, ackno := U32(s.seqno + 1));
    SendKeepsQueue(h1, false, true, [], ok1);
    SendKeepsQueue(SendAck(h1, ok1).host, true, false, [], ok2);
  }

  /** What `ctcp_output` does to the output queue. */
  lemma QueueOnOutput(h: Host, s: Framed, w: WriteResult, ok: bool)
    requires h.outq.NoEmptyChunk()
    ensures var h' := Output(h, s, w, ok).host;
      && h'.outq.NoEmptyChunk() && h.outq.written <= h'.outq.written
      && h'.outq.wroteEof == h.outq.wroteEof && h'.connState == h.connState
  {
    hide Put, Outq.Space, SegmentSend, U32, Outq.NoEmptyChunk;
    PutFacts(h.outq, s.data, w);
    SendKeepsQueue(h.(outq := Put(h.outq, s.data, w).0, ackno := U32(s.seqno + U32(s.len - HDR))), false, true, [], ok);
    FramedLength(s);
  }

  /** What reception can do to the output queue. */
  lemma QueueOnReceive(h: Host, s: Framed, w: WriteResult, ok1: bool, ok2: bool)
    requires h.outq.NoEmptyChunk() && (h.connState == DataTransfer ==> !h.outq.wroteEof)
    ensures var h' := Receive(h, s, w, ok1, ok2).host;
      && h'.outq.NoEmptyChunk()
      && h.outq.written <= h'.outq.written
      && (h.connState != DataTransfer ==> h'.outq == h.outq && h'.connState != DataTransfer)
      && (h.connState == DataTransfer ==>
            if s.seqno >= h.ackno && s.fin then h'.outq == h.outq.(wroteEof := true) && h'.connState == WaitLastAck
            else h'.outq.wroteEof == h.outq.wroteEof && h'.connState == DataTransfer)
  {
    hide Output, ReceiveFin, SegmentSend, U32;
    if h.connState == DataTransfer {
      QueueOnFin(h, s, ok1, ok2);
      QueueOnOutput(h, s, w, ok1);
    } else {
      SendKeepsQueue(h.(ackno := U32(s.seqno + 1)), false, true, [], ok1);
    }
  }

  /** Data that passes the space test of `ctcp_output` has the length it says. */
  lemma FramedLength(s: Framed)
    ensures 0 != U32(s.len - HDR) <= MAX_BUF_SPACE ==> s.data != [] && |s.data| == U32(s.len - HDR)
  {
  }

  lemma SendKeepsQueue(h: Host, fin: bool, ack: bool, data: DataBuf, ok: bool)
    ensures var h' := SegmentSend(h, fin, ack, data, ok).host;
      h'.outq == h.outq && h'.connState == h.connState && h'.deleted == h.deleted && h'.readEof == h.readEof
  {
  }

  /** After `DATA_TRANSFER` nothing is added to the output, and there is no way back. */
  lemma EofStep(l: Life, e: Event)
    requires EofInv(l)
    ensures var l' := Next(l, e);
      && EofInv(l')
      && l.h.outq.written <= l'.h.outq.written
      && (l.h.connState != DataTransfer ==>
            l'.h.connState != DataTransfer && l'.h.outq.All() == l.h.outq.All() && l'.eofs == l.eofs)
  {
    hide Drained, Put, Outq.All, U16, U32, Receive;
    var h := l.h;
    match e {
      case ReadEvent(input, ok) =>
      case ReceiveEvent(s, w, ok1, ok2) =>
        QueueOnReceive(h, s, w, ok1, ok2);
      case TickEvent(ok) =>
      case DrainEvent(ws) =>
        DrainConserves(h.outq, ws);
    }
  }

  lemma PutFacts(q: Outq, buf: seq<byte>, w: WriteResult)
    requires q.NoEmptyChunk()
    ensures var (q', r) := Put(q, buf, w);
      && q'.NoEmptyChunk()
      && q.written <= q'.written
      && (buf != [] ==> q'.wroteEof == q.wroteEof)
      && (buf == [] && !q.wroteEof ==> q' == q.(wroteEof := true))
      && (r == -1 || r == 0 || r == |buf|)
      && (r == -1 ==> q'.All() == q.All())
      && (r >= 0 && !q.wroteEof && buf != [] && q.Space() > 0 ==> q'.All() == q.All() + buf)
  {
    PutAllOrNothing(q, buf, w);
  }

  lemma {:induction false} EofRun(l: Life, events: seq<Event>)
    requires EofInv(l)
    ensures var l' := Run(l, events);
      && EofInv(l')
      && l.h.outq.written <= l'.h.outq.written
      && (l.h.connState != DataTransfer ==>
            l'.h.connState != DataTransfer && l'.h.outq.All() == l.h.outq.All() && l'.eofs == l.eofs)
    decreases |events|
  {
    if events == [] {
    } else {
      EofStep(l, events[0]);
      EofRun(Next(l, events[0]), events[1..]);
    }
  }

  /**
   Over every run: once `DATA_TRANSFER` is left it is never entered again, and no data is added to the
   output from then on; what has been written stays written.
   */
  lemma OutputEndsWithEof(timer: u16, rtTimeout: u16, before: seq<Event>, after: seq<Event>)
    ensures var l := Run(Born(timer, rtTimeout), before);
      var l' := Run(l, after);
      && l.h.outq.written <= l'.h.outq.written
      && (l.h.connState != DataTransfer ==>
            l'.h.connState != DataTransfer && l'.h.outq.All() == l.h.outq.All() && l'.eofs == l.eofs)
  {
    hide Run, EofInv, Outq.All;
    EofStart(timer, rtTimeout);
    EofRun(Born(timer, rtTimeout), before);
    EofRun(Run(Born(timer, rtTimeout), before), after);
  }

  lemma EofStart(timer: u16, rtTimeout: u16)
    ensures EofInv(Born(timer, rtTimeout)) && Bounded(Born(timer, rtTimeout).h.outq)
  {
  }

  /**
   Once EOF has been output, whatever happens then: it is not output again, the data output stays what
   it was, and what is still pending can only be written.
   */
  lemma NoDataAfterEof(timer: u16, rtTimeout: u16, before: seq<Event>, after: seq<Event>)
    ensures var l := Run(Born(timer, rtTimeout), before);
      var l' := Run(l, after);
      && l.eofs <= 1
      && (l.eofs == 1 ==>
            l'.eofs == 1 && l'.h.connState != DataTransfer && l'.h.outq.All() == l.h.outq.All()
            && l.h.outq.written <= l'.h.outq.written)
  {
    EofRun(Born(timer, rtTimeout), before);
    EofRun(Run(Born(timer, rtTimeout), before), after);
  }

  // ---------- the output buffer ----------

  predicate Bounded(q: Outq) {
    q.NoEmptyChunk() && |q.Pending()| <= MAX_BUF_SPACE
  }

  lemma PutBounded(q: Outq, buf: seq<byte>, w: WriteResult)
    requires Bounded(q) && |buf| <= q.Space()
    ensures Bounded(Put(q, buf, w).0)
  {
    PutAllOrNothing(q, buf, w);
  }

  /** `ctcp_output` passes a buffer on only if it fits. */
  lemma OutputBounded(h: Host, s: Framed, w: WriteResult, ok: bool)
    requires Bounded(h.outq)
    ensures Bounded(Output(h, s, w, ok).host.outq)
  {
    hide Put, Outq.Space, SegmentSend, U32, Outq.NoEmptyChunk, Outq.Pending;
    if |s.data| <= h.outq.Space() {
      PutBounded(h.outq, s.data, w);
    }
    SendKeepsQueue(h.(outq := Put(h.outq, s.data, w).0, ackno := U32(s.seqno + U32(s.len - HDR))), false, true, [], ok);
    FramedLength(s);
  }

  lemma FinBounded(h: Host, s: Segment, ok1: bool, ok2: bool)
    requires Bounded(h.outq)
    ensures Bounded(ReceiveFin(h, s, ok1, ok2).host.outq)
  {
    hide Put, Outq.Space, SegmentSend, U32, Outq.NoEmptyChunk, Outq.Pending;
    PutBounded(h.outq, [], Again);
    var h1 := h.(outq := Put(h.outq, [], Again).0, ackno := U32(s.seqno + 1));
    SendKeepsQueue(h1, false, true, [], ok1);
    SendKeepsQueue(SendAck(h1, ok1).host, true, false, [], ok2);
  }

  lemma ReceiveBounded(h: Host, s: Framed, w: WriteResult, ok1: bool, ok2: bool)
    requires Bounded(h.outq)
    ensures Bounded(Receive(h, s, w, ok1, ok2).host.outq)
  {
    hide Output, ReceiveFin, SegmentSend, U32, Bounded;
    FinBounded(h, s, ok1, ok2);
    OutputBounded(h, s, w, ok1);
    SendKeepsQueue(h.(ackno := U32(s.seqno + 1)), false, true, [], ok1);
  }

  lemma BufferStep(l: Life, e: Event)
    requires Bounded(l.h.outq)
    ensures Bounded(Next(l, e).h.outq)
  {
    hide Drained, Put, Receive, U16, U32, Outq.All;
    match e {
      case ReadEvent(input, ok) =>
      case ReceiveEvent(s, w, ok1, ok2) => ReceiveBounded(l.h, s, w, ok1, ok2);
      case TickEvent(ok) =>
      case DrainEvent(ws) => DrainConserves(l.h.outq, ws);
    }
  }

  lemma {:induction false} BoundedRun(l: Life, events: seq<Event>)
    requires Bounded(l.h.outq)
    ensures Bounded(Run(l, events).h.outq)
    decreases |events|
  {
    if events == [] {
    } else {
      BufferStep(l, events[0]);
      BoundedRun(Next(l, events[0]), events[1..]);
    }
  }

  /** The buffer bound, over every run: at most 8192 bytes are pending, and the space reported is exactly the rest. */
  lemma BufferBound(timer: u16, rtTimeout: u16, events: seq<Event>)
    ensures var q := Run(Born(timer, rtTimeout), events).h.outq;
      |q.Pending()| <= 8192 && q.Space() == 8192 - |q.Pending()|
  {
    hide Run;
    EofStart(timer, rtTimeout);
    BoundedRun(Born(timer, rtTimeout), events);
  }
}

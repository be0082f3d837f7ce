/**
 What the FIN that ends a connection says, over any channel of Unix sockets: whether the host that sent
 it had by then acted on the FIN of the host that it ends.
 */
module FinAcks {
  import opened Bytes
  import opened OutputQueue
  import opened Segments
  import opened HostModel
  import opened Lives
  import opened Outcomes
  import opened Worlds
  import opened Completeness

  /** No FIN goes out with an ACK flag. */
  predicate BareFins(x: Side) {
    !x.web && forall s :: s in x.sent ==> !(s.fin && s.ack)
  }

  /** A number up to which no FIN was sent. */
  predicate BelowFins(sent: set<Segment>, n: nat) {
    forall f :: f in sent && f.fin ==> n <= f.seqno
  }

  /** A number that follows that of a FIN. */
  predicate AfterFin(sent: set<Segment>, n: nat) {
    n >= 1 && FinNumber(sent, n - 1)
  }

  /** What `x` acknowledges of the FINs of `y`: none before it acts on one, and one from then on. */
  predicate FinInv(x: Side, y: Side) {
    && BareFins(x)
    && x.late <= x.sent
    && (if x.life.seenFin then x.H().connState != DataTransfer && AfterFin(y.sent, x.H().ackno)
        else x.late == {} && BelowFins(y.sent, x.H().ackno))
    && (forall s :: s in x.sent && s.fin && s !in x.late ==> BelowFins(y.sent, s.ackno))
    && (forall s :: s in x.late ==> AfterFin(y.sent, s.ackno))
  }

  // ---------- what one event does ----------

  /** What one event does to `ackno`, and what it puts on the wire. */
  predicate Moves(x: Side, x': Side, e: Event) {
    && (x'.life.seenFin <==> x.life.seenFin || ActsOnFin(x.H(), e))
    && (ActsOnFin(x.H(), e) ==> x'.H().ackno == e.segment.seqno + 1 && x'.H().connState != DataTransfer)
    && (!ActsOnFin(x.H(), e) && x'.H().connState != DataTransfer ==> x'.H().ackno == x.H().ackno)
    && (x'.H().connState == DataTransfer ==> x.H().connState == DataTransfer)
    && x.sent <= x'.sent && x'.web == x.web
    && (forall s :: s in x'.sent && s !in x.sent ==> s.ackno == x'.H().ackno && !(s.fin && s.ack))
    && x'.late == (if x'.life.seenFin then x.late + (x'.sent - x.sent) else x.late)
  }

  predicate Takes(x: Side, e: Event) {
    Ready(x, e) && !x.web && !x.H().deleted && (e.ReceiveEvent? ==> !(e.segment.fin && e.segment.ack))
  }

  lemma LateRecorded(x: Side, e: Event)
    ensures var x' := Advance(x, e);
      && x'.late == (if x'.life.seenFin then x.late + (x'.sent - x.sent) else x.late)
      && (x'.life.seenFin <==> x.life.seenFin || ActsOnFin(x.H(), e))
      && x'.H() == Step(x.H(), e).host && x'.web == x.web && x.sent <= x'.sent
  {
    Recorded(x, e);
    hide Step, ArrivingAll, Advance;
    var more := ArrivingAll(Step(x.H(), e).sent, x.web);
    assert x.late + (more - x.sent) == x.late + ((x.sent + more) - x.sent);
  }

  lemma ReadMoves(x: Side, e: Event)
    requires Takes(x, e) && e.ReadEvent?
    ensures Moves(x, Advance(x, e), e)
  {
    hide Read, Advance, U32, SenderInv, EofInv;
    var h, f := x.H(), Step(x.H(), e);
    LateRecorded(x, e);
    assert f == Read(h, e.input, e.ok);
    ReadIs(h, e.input, e.ok);
    NumbersAgree(x);
    SmallU32(h.seqno);
    hide Step;
    if f.sent == [] {
      SentNothing(x, e);
    } else {
      SentOne(x, e, f.sent[0], if f.sent[0].fin then 1 else |f.sent[0].data|);
    }
  }

  lemma TickMoves(x: Side, e: Event)
    requires Takes(x, e) && e.TickEvent?
    ensures Moves(x, Advance(x, e), e)
  {
    hide Advance, Tick, SenderInv, EofInv;
    LateRecorded(x, e);
    TickIs(x.H(), e.ok);
    TickOutcome(x, e);
  }

  lemma ReceiveMoves(x: Side, e: Event)
    requires Takes(x, e) && e.ReceiveEvent?
    ensures Moves(x, Advance(x, e), e)
  {
    hide Step, Advance, U32, SenderInv, EofInv;
    var h, f := x.H(), Step(x.H(), e);
    LateRecorded(x, e);
    ReceiveState(x, e);
    ReceiveAckno(x, e);
    EofParts(x.life);
    var acked, closed := ReceiveAnswers(h, e);
    NumbersAgree(x);
    var ack, fin := AckOf(h, f.host.ackno), FinOf(h, f.host.ackno);
    assert f.sent == (if acked && closed then [ack, fin] else if acked then [ack] else if closed then [fin] else []);
    assert f.host.seqno == (if closed then U32(h.seqno + 1) else h.seqno);
    hide Ready, Answers, ActsOnFin;
    AnswersKept(x, e, ack, fin, acked, closed);
  }

  /** How reception moves `ackno` on a host that is closing or closed. */
  lemma ReceiveAckno(x: Side, e: Event)
    requires Takes(x, e) && e.ReceiveEvent?
    ensures var h, h' := x.H(), Step(x.H(), e).host;
      && (ActsOnFin(h, e) ==> h'.ackno == e.segment.seqno + 1 && h'.connState != DataTransfer)
      && (!ActsOnFin(h, e) && h'.connState != DataTransfer ==> h'.ackno == h.ackno)
  {
    hide Receive, Advance, U32, Swap32, Outq.All, Outq.NoEmptyChunk, SenderInv, EofInv;
    var h := x.H();
    EofParts(x.life);
    if h.connState == DataTransfer {
      ReceiveInDataTransferIs(h, e.segment, e.w, e.ok1, e.ok2);
    } else {
      ReceiveElsewhereIs(h, e.segment, e.w, e.ok1, e.ok2);
    }
  }

  lemma OtherMoves(x: Side, e: Event)
    requires x.H().deleted || e.DrainEvent?
    ensures Moves(x, Advance(x, e), e)
  {
    hide Drained, Advance, U32;
    LateRecorded(x, e);
    SentNothing(x, e);
  }

  lemma EventMoves(x: Side, e: Event)
    requires Ready(x, e) && BareFins(x) && (e.ReceiveEvent? ==> !(e.segment.fin && e.segment.ack))
    ensures Moves(x, Advance(x, e), e)
  {
    hide Advance, Ready, Moves;
    if x.H().deleted {
      OtherMoves(x, e);
    } else {
      match e
      case ReadEvent(_, _) => ReadMoves(x, e);
      case ReceiveEvent(_, _, _, _) => ReceiveMoves(x, e);
      case TickEvent(_) => TickMoves(x, e);
      case DrainEvent(_) => OtherMoves(x, e);
    }
  }

  // ---------- the invariant ----------

  lemma BoundBelowTop(log: seq<Segment>, n: nat)
    requires Chunks(log) && Tiled(log) && AtBound(log, n)
    ensures n <= Top(log)
  {
    var i :| 0 <= i <= |log| && Bound(log, i) == n;
    BoundGrows(log, i, |log|);
  }

  /** While it transfers data, a host acknowledges no FIN. */
  lemma TransferBelowFins(x: Side, y: Side)
    requires Book(x, y) && Book(y, x) && SenderInv(y) && x.H().connState == DataTransfer
    ensures BelowFins(y.sent, x.H().ackno)
  {
    SenderChunks(y);
    assert Tiling(y) && Accounting(y, x);
    BoundBelowTop(y.log, x.H().ackno);
  }

  /** The host that acknowledges goes on. */
  lemma OwnStep(x: Side, y: Side, e: Event)
    requires Ready(x, e) && FinInv(x, y) && BareFins(y) && (e.ReceiveEvent? ==> e.segment in y.sent)
    requires Advance(x, e).H().connState == DataTransfer ==> BelowFins(y.sent, Advance(x, e).H().ackno)
    ensures FinInv(Advance(x, e), y)
  {
    EventMoves(x, e);
    hide Advance, Ready, BelowFins, FinNumber;
    var x' := Advance(x, e);
    if ActsOnFin(x.H(), e) {
      FinIsNumbered(y.sent, e.segment);
    }
  }

  lemma FinIsNumbered(sent: set<Segment>, f: Segment)
    requires f in sent && f.fin
    ensures AfterFin(sent, f.seqno + 1)
  {
  }

  /** The host whose FINs are acknowledged goes on. */
  lemma PeerStep(x: Side, y: Side, e: Event)
    requires Ready(y, e) && FinInv(x, y) && ReceiverInv(y, x) && SenderInv(x)
    ensures FinInv(x, Advance(y, e))
  {
    EventOutcome(y, e);
    var y' := Advance(y, e);
    assert x.H().ackno <= y.next && forall s :: s in x.sent ==> s.ackno <= y.next;
    hide Advance, Ready, ReceiverInv, SenderInv, Outcome;
    forall n: nat | n <= y.next && BelowFins(y.sent, n)
      ensures BelowFins(y'.sent, n)
    {
    }
    forall n: nat | AfterFin(y.sent, n)
      ensures AfterFin(y'.sent, n)
    {
      var f :| f in y.sent && f.fin && f.seqno == n - 1;
      assert f in y'.sent;
    }
    hide BelowFins, AfterFin;
  }

  /** Both hosts, and all that is known of them. */
  ghost predicate Known(x: Side, y: Side) {
    SenderInv(x) && ReceiverInv(x, y) && Book(x, y) && FinInv(x, y)
  }

  ghost predicate BothKnown(w: World) {
    Known(w.a, w.b) && Known(w.b, w.a)
  }

  lemma HostStep(x: Side, y: Side, e: Event)
    requires Known(x, y) && Known(y, x) && (e.ReceiveEvent? ==> e.segment in y.sent)
    requires y.next < U32_MOD && Advance(x, e).next < U32_MOD
    requires SenderInv(Advance(x, e)) && ReceiverInv(Advance(x, e), y) && ReceiverInv(y, Advance(x, e))
    ensures Known(Advance(x, e), y) && Known(y, Advance(x, e))
  {
    hide Advance, SenderInv, ReceiverInv, Book;
    InvParts(x, y, e);
    BookStep(x, y, e);
    if Advance(x, e).H().connState == DataTransfer {
      TransferBelowFins(Advance(x, e), y);
    }
    assert BareFins(y);
    hide FinInv, BareFins, BelowFins, Ready;
    OwnStep(x, y, e);
    PeerStep(y, x, e);
  }

  lemma KnownStep(w: World, act: Action)
    requires Inv(w) && BothKnown(w) && Enabled(w, act) && Unwrapped(w) && Unwrapped(Apply(w, act))
    ensures BothKnown(Apply(w, act))
  {
    hide Advance, SenderInv, ReceiverInv, Known;
    InvStep(w, act);
    if act.who == A {
      HostStep(w.a, w.b, act.event);
    } else {
      HostStep(w.b, w.a, act.event);
    }
  }

  lemma {:induction false} KnownRun(w: World, acts: seq<Action>)
    requires Inv(w) && BothKnown(w) && Legal(w, acts) && Unwrapped(Exec(w, acts))
    ensures BothKnown(Exec(w, acts))
    decreases |acts|
  {
    hide Advance, Inv, BothKnown;
    if acts == [] {
    } else {
      NextGrows(w, acts);
      NextGrows(Apply(w, acts[0]), acts[1..]);
      InvStep(w, acts[0]);
      KnownStep(w, acts[0]);
      KnownRun(Apply(w, acts[0]), acts[1..]);
    }
  }

  lemma KnownStart(ca: Config, cb: Config)
    requires !ca.web && !cb.web
    ensures BothKnown(Start(ca, cb))
  {
    InvStart(ca, cb);
    BookStart(ca, cb);
    hide SenderOk, ReceiverInv, Book;
  }

  // ---------- the FIN that ends a connection ----------

  /** `s` acknowledges a FIN. */
  predicate AcknowledgesFin(sent: set<Segment>, s: Segment) {
    exists f :: f in sent && f.fin && f.seqno < s.ackno
  }

  /** What a FIN does to a host that has closed, and what it tells that host. */
  predicate FinTells(x: Side, y: Side, s: Framed, wr: WriteResult, ok1: bool, ok2: bool) {
    s in x.sent && s.fin ==>
      var h, h' := y.H(), Step(y.H(), ReceiveEvent(s, wr, ok1, ok2)).host;
      && (!h.deleted && h.connState == TearDown ==> h'.deleted)
      && (!h.deleted && h.connState == WaitLastFin ==> h'.tdState == WaitDestroy && h'.tim == 0)
      && (s in x.late <==> AcknowledgesFin(y.sent, s))
      && (s in x.late ==> x.life.seenFin)
  }

  lemma FinEnds(h: Host, s: Framed, wr: WriteResult, ok1: bool, ok2: bool)
    requires s.fin && !s.ack && !h.deleted
    ensures var h' := Step(h, ReceiveEvent(s, wr, ok1, ok2)).host;
      && (h.connState == TearDown ==> h'.deleted)
      && (h.connState == WaitLastFin ==> h'.tdState == WaitDestroy && h'.tim == 0)
  {
    hide SegmentSend;
  }

  lemma KnownTells(x: Side, y: Side, s: Framed, wr: WriteResult, ok1: bool, ok2: bool)
    requires FinInv(x, y)
    ensures FinTells(x, y, s, wr, ok1, ok2)
  {
    hide Step;
    if s in x.sent && s.fin {
      if !y.H().deleted {
        FinEnds(y.H(), s, wr, ok1, ok2);
      }
      if s in x.late {
        var f :| f in y.sent && f.fin && f.seqno == s.ackno - 1;
      } else {
        assert BelowFins(y.sent, s.ackno);
      }
    }
  }

  /**
   When the FIN that ends a connection comes from a peer that knows of its end, over any channel and
   whether or not sends succeed: the FIN that destroys a host in `TEAR_DOWN`, or starts the linger of one
   in `WAIT_LAST_FIN`, was first sent after the peer had acted on that host's own FIN if and only if its
   acknowledgment number is beyond that FIN's number, which `ctcp_receive` does not test.
   */
  lemma LastFinIff(ca: Config, cb: Config, acts: seq<Action>, s: Framed, wr: WriteResult, ok1: bool, ok2: bool)
    requires !ca.web && !cb.web && Legal(Start(ca, cb), acts) && Unwrapped(Exec(Start(ca, cb), acts))
    ensures var w := Exec(Start(ca, cb), acts);
      FinTells(w.a, w.b, s, wr, ok1, ok2) && FinTells(w.b, w.a, s, wr, ok1, ok2)
  {
    hide Exec, Legal, Start, Inv, FinTells, FinInv, Book, SenderInv, ReceiverInv;
    InvStart(ca, cb);
    KnownStart(ca, cb);
    KnownRun(Start(ca, cb), acts);
    var w := Exec(Start(ca, cb), acts);
    KnownTells(w.a, w.b, s, wr, ok1, ok2);
    KnownTells(w.b, w.a, s, wr, ok1, ok2);
  }
}

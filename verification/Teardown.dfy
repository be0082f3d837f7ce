/**
 Teardown between two hosts on Unix sockets, where no flag is added on the way, when sends succeed.
 A host in `WAIT_LAST_ACK` is destroyed by any segment with an ACK flag.
 */
module Teardown {
  import opened Bytes
  import opened OutputQueue
  import opened Segments
  import opened HostModel
  import opened Lives
  import opened Outcomes
  import opened Worlds

  /** A host that sent its FIN at the end of its input; it sends no more data. */
  predicate ClosedFirst(x: Side) {
    && x.H().readEof
    && (x.H().connState == TearDown || x.H().connState == WaitLastFin)
    && (x.H().saved.Some? ==> x.H().saved.value.segment.fin)
  }

  /** What host `x`, with peer `y`, has sent, by itself. */
  predicate CloserInv(x: Side) {
    && !x.web
    && CloseInv(x.life)
    && (forall s :: s in x.sent ==> !(s.fin && s.ack))
    && (forall s :: s in x.sent && s.fin ==> x.life.sentFin)
    && x.late <= x.sent
    && (!x.life.seenFin ==> x.late == {})
    && (x.life.sentFin && !x.life.seenFin ==>
          ClosedFirst(x) && forall f, s :: f in x.sent && s in x.sent && f.fin && s.ack ==> s.seqno <= f.seqno)
    && (x.H().connState == WaitLastAck ==> x.H().tdState == NotTeardown)
  }

  /** The ACKs that `x` has sent, seen from `y` in `WAIT_LAST_ACK`: their numbers tell the late ones. */
  predicate LateInv(x: Side, y: Side) {
    && (x.life.seenFin ==> y.life.sentFin)
    && (y.H().connState == WaitLastAck ==>
          && ClosedFirst(x) && x.next >= y.H().ackno
          && forall s :: s in x.sent && s.ack ==> (s.seqno >= y.H().ackno <==> s in x.late))
  }

  predicate TeardownInv(w: World) {
    CloserInv(w.a) && CloserInv(w.b) && LateInv(w.a, w.b) && LateInv(w.b, w.a)
  }

  /** What one event adds to what a host has sent. */
  function Added(x: Side, e: Event): set<Segment> {
    ArrivingAll(Step(x.H(), e).sent, x.web)
  }

  /** The segments of one event, in the terms of this proof. */
  predicate SendsAsCloser(x: Side, e: Event) {
    var x', added := Advance(x, e), Added(x, e);
    && (forall s :: s in added ==> !(s.fin && s.ack) && (s.fin ==> x'.life.sentFin))
    && (forall s :: s in added && s !in x.sent ==> s.seqno >= x.next)
    && (ClosedFirst(x) ==> ClosedFirst(x') && (forall s :: s in added && s.ack ==> s.seqno >= x.next && x'.life.seenFin))
    && (x'.life.sentFin && !x'.life.seenFin ==> ClosedFirst(x') && forall s :: s in added ==> s.fin)
    && (x'.H().connState == WaitLastAck ==> x'.H().tdState == NotTeardown)
  }

  /** The parts of a host's records that matter here. */
  lemma Parts(x: Side, e: Event)
    ensures var x' := Advance(x, e);
      && x'.H() == Step(x.H(), e).host
      && x'.sent == x.sent + Added(x, e)
      && x'.late == (if x'.life.seenFin then x.late + (Added(x, e) - x.sent) else x.late)
      && x'.life.sentFin == (x.life.sentFin || AnyFin(Step(x.H(), e).sent))
      && x'.life.seenFin == (x.life.seenFin || ActsOnFin(x.H(), e))
      && x'.web == x.web && x'.next >= x.next
  {
    hide Step;
  }

  predicate Ready(x: Side, e: Event) {
    && SenderInv(x) && CloserInv(x) && EofInv(x.life) && Receivable(e) && SendsSucceed(e) && !x.H().deleted
    && (e.ReceiveEvent? ==> !(e.segment.fin && e.segment.ack))
  }

  lemma ReadSends(x: Side, e: Event)
    requires Ready(x, e) && e.ReadEvent?
    ensures SendsAsCloser(x, e)
  {
    hide Read, Advance, U32, EofInv, SenderOk;
    var h, f := x.H(), Step(x.H(), e);
    CloseStep(x.life, e);
    Parts(x, e);
    assert f == Read(h, e.input, e.ok);
    ReadIs(h, e.input, e.ok);
    NumbersAgree(x);
    var t := if f.sent == [] then FinOf(h, 0) else f.sent[0];
    ArrivingAllIs(t, t, x.web);
  }

  lemma TickSends(x: Side, e: Event)
    requires Ready(x, e) && e.TickEvent?
    ensures SendsAsCloser(x, e)
  {
    hide Tick, Advance, U32, EofInv;
    var h, f := x.H(), Step(x.H(), e);
    CloseStep(x.life, e);
    Parts(x, e);
    assert f == Tick(h, e.ok);
    TickIs(h, e.ok);
    if h.saved.Some? {
      SavedIsSent(x);
    }
    hide SenderInv, Step;
    var t := if f.sent == [] then FinOf(h, 0) else f.sent[0];
    ArrivingAllIs(t, t, x.web);
  }

  lemma ClosingSends(x: Side, e: Event)
    requires Ready(x, e) && x.H().connState == DataTransfer && ActsOnFin(x.H(), e)
    ensures SendsAsCloser(x, e)
  {
    hide Receive, Advance, U32, EofInv, SenderOk, Outq.All, Delivered, Broke;
    var h, f := x.H(), Step(x.H(), e);
    Parts(x, e);
    EofParts(x.life);
    ReceiveInDataTransferIs(h, e.segment, e.w, e.ok1, e.ok2);
    NumbersAgree(x);
    assert h.tdState == NotTeardown;
    assert ClosedByPeer(h, e.segment, f, true, true);
    hide Step, CloseInv;
    ArrivingAllIs(f.sent[0], f.sent[1], x.web);
    assert f.sent == [f.sent[0], f.sent[1]];
    AnyFinLast([f.sent[0]], f.sent[1]);
  }

  lemma TransferSends(x: Side, e: Event)
    requires Ready(x, e) && e.ReceiveEvent? && x.H().connState == DataTransfer && !ActsOnFin(x.H(), e)
    ensures SendsAsCloser(x, e)
  {
    hide Receive, Advance, U32, EofInv, SenderOk, Outq.All, ClosedByPeer;
    var h, f := x.H(), Step(x.H(), e);
    Parts(x, e);
    EofParts(x.life);
    ReceiveInDataTransferIs(h, e.segment, e.w, e.ok1, e.ok2);
    NumbersAgree(x);
    assert !x.life.sentFin && !x.life.seenFin;
    hide CloseInv;
    ArrivingAllIs(AckOf(h, f.host.ackno), AckOf(h, f.host.ackno), x.web);
  }

  lemma ReceiveSendsElsewhere(x: Side, e: Event)
    requires Ready(x, e) && e.ReceiveEvent? && x.H().connState != DataTransfer
    ensures SendsAsCloser(x, e)
  {
    hide Receive, Advance, U32, EofInv, SenderOk, Outq.All;
    var h, f, s := x.H(), Step(x.H(), e), e.segment;
    CloseStep(x.life, e);
    Parts(x, e);
    ReceiveElsewhereIs(h, s, e.w, e.ok1, e.ok2);
    NumbersAgree(x);
    ArrivingAllIs(AckOf(h, f.host.ackno), AckOf(h, f.host.ackno), x.web);
  }

  lemma EventSendsAsCloser(x: Side, e: Event)
    requires Ready(x, e)
    ensures SendsAsCloser(x, e)
  {
    match e
    case ReadEvent(_, _) => ReadSends(x, e);
    case ReceiveEvent(_, _, _, _) =>
      if x.H().connState != DataTransfer {
        ReceiveSendsElsewhere(x, e);
      } else if ActsOnFin(x.H(), e) {
        ClosingSends(x, e);
      } else {
        TransferSends(x, e);
      }
    case TickEvent(_) => TickSends(x, e);
    case DrainEvent(_) =>
      CloseStep(x.life, e);
      Parts(x, e);
      hide Advance, Drained;
      ArrivingAllIs(FinOf(x.H(), 0), FinOf(x.H(), 0), x.web);
  }

  /** A step of a host that has not acted on a FIN keeps its ACKs below its FINs. */
  lemma CloserStep(x: Side, e: Event)
    requires Ready(x, e)
    ensures CloserInv(Advance(x, e))
  {
    EventSendsAsCloser(x, e);
    CloseStep(x.life, e);
    Parts(x, e);
    NextHost(x.life, e);
    assert forall s :: s in x.sent ==> Sendable(x.next, x.log, s);
    hide Advance, Step, EofInv, Next, CloseInv, SenderOk;
  }

  /** The host `y` that waits for its last ACK while its peer goes on. */
  lemma LatePeerStep(x: Side, y: Side, e: Event)
    requires Ready(x, e) && LateInv(x, y)
    requires e.ReceiveEvent? ==> e.segment in y.sent
    requires CloserInv(y)
    ensures LateInv(Advance(x, e), y)
  {
    EventSendsAsCloser(x, e);
    Parts(x, e);
    hide Advance, Step, EofInv, Next, CloseInv, SenderOk;
  }

  /** What makes a host wait for its last ACK: a FIN, while it transfers data. */
  predicate EntersLastAck(y: Side, e: Event) {
    y.H().connState == DataTransfer && ActsOnFin(y.H(), e) && Step(y.H(), e).host.ackno == e.segment.seqno + 1
  }

  lemma LastAckIsEntered(y: Side, e: Event)
    requires EofInv(y.life) && Receivable(e) && y.H().connState != WaitInput
    requires e.ReceiveEvent? ==> !(e.segment.fin && e.segment.ack)
    ensures Step(y.H(), e).host.connState == WaitLastAck ==>
              EntersLastAck(y, e) || (y.H().connState == WaitLastAck && Step(y.H(), e).host.ackno == y.H().ackno)
  {
    hide Read, Receive, Tick, Drained, U32, Swap32, Outq.All, Outq.NoEmptyChunk;
    var h := y.H();
    if !h.deleted {
      match e {
        case ReadEvent(input, ok) => ReadIs(h, input, ok);
        case ReceiveEvent(s, w, ok1, ok2) =>
          if h.connState == DataTransfer {
            ReceiveInDataTransferIs(h, s, w, ok1, ok2);
          } else {
            ReceiveElsewhereIs(h, s, w, ok1, ok2);
          }
        case TickEvent(ok) => TickIs(h, ok);
        case DrainEvent(_) =>
      }
    }
  }

  /** The host `y` itself goes on. */
  lemma LateOwnStep(x: Side, y: Side, e: Event)
    requires SenderInv(x) && CloserInv(x) && Ready(y, e) && LateInv(x, y) && y.H().connState != WaitInput
    requires e.ReceiveEvent? ==> e.segment in x.sent
    ensures LateInv(x, Advance(y, e))
  {
    LastAckIsEntered(y, e);
    Parts(y, e);
    assert CloseInv(y.life);
    if EntersLastAck(y, e) {
      assert Sendable(x.next, x.log, e.segment);
      assert !y.life.sentFin && !x.life.seenFin && x.life.sentFin;
    }
    hide Advance, Step, EofInv, Next, CloseInv, SenderOk, ActsOnFin;
  }

  lemma LateIdle(x: Side, e: Event)
    requires x.H().deleted && (e.ReceiveEvent? ==> Receivable(e))
    ensures Advance(x, e).H() == x.H() && Advance(x, e).sent == x.sent && Advance(x, e).late == x.late
    ensures Advance(x, e).life.sentFin == x.life.sentFin && Advance(x, e).life.seenFin == x.life.seenFin
    ensures Advance(x, e).next >= x.next && Advance(x, e).web == x.web
  {
    Parts(x, e);
    ArrivingAllIs(FinOf(x.H(), 0), FinOf(x.H(), 0), x.web);
    assert x.sent + {} == x.sent && x.late + ({} - x.sent) == x.late;
  }

  /** Host `x` acts, and `y` is its peer. */
  lemma HostStep(x: Side, y: Side, e: Event)
    requires SenderInv(x) && SenderInv(y) && EofInv(x.life) && x.H().connState != WaitInput
    requires CloserInv(x) && CloserInv(y) && LateInv(x, y) && LateInv(y, x)
    requires Receivable(e) && SendsSucceed(e) && (e.ReceiveEvent? ==> e.segment in y.sent)
    ensures CloserInv(Advance(x, e)) && LateInv(Advance(x, e), y) && LateInv(y, Advance(x, e))
  {
    if x.H().deleted {
      IdleStep(x, y, e);
    } else {
      assert Ready(x, e);
      hide Advance, Ready, SenderInv, EofInv, CloserInv, LateInv;
      CloserStep(x, e);
      LatePeerStep(x, y, e);
      LateOwnStep(y, x, e);
    }
  }

  lemma IdleStep(x: Side, y: Side, e: Event)
    requires CloserInv(x) && LateInv(x, y) && LateInv(y, x) && x.H().deleted && Receivable(e) && SendsSucceed(e)
    ensures CloserInv(Advance(x, e)) && LateInv(Advance(x, e), y) && LateInv(y, Advance(x, e))
  {
    hide Advance, Step;
    LateIdle(x, e);
    CloseStep(x.life, e);
    Recorded(x, e);
    hide CloseInv;
  }

  lemma SegmentsReceivable(w: World, act: Action)
    requires Inv(w) && Enabled(w, act) && Unwrapped(w)
    ensures Receivable(act.event)
  {
    var y, e := (if act.who == A then w.b else w.a), act.event;
    assert e.ReceiveEvent? ==> Sendable(y.next, y.log, e.segment);
  }

  lemma TeardownStep(w: World, act: Action)
    requires Inv(w) && TeardownInv(w) && Enabled(w, act) && Unwrapped(w) && SendsSucceed(act.event)
    ensures TeardownInv(Apply(w, act))
  {
    SegmentsReceivable(w, act);
    hide Advance, SenderInv, EofInv, CloserInv, LateInv, Receivable;
    if act.who == A {
      HostStep(w.a, w.b, act.event);
    } else {
      HostStep(w.b, w.a, act.event);
    }
  }

  /** Both hosts are on Unix sockets. */
  predicate Unix(ca: Config, cb: Config) {
    !ca.web && !cb.web
  }

  predicate AllSucceed(acts: seq<Action>) {
    forall i :: 0 <= i < |acts| ==> SendsSucceed(acts[i].event)
  }

  lemma {:induction false} TeardownRun(w: World, acts: seq<Action>)
    requires Inv(w) && TeardownInv(w) && Legal(w, acts) && AllSucceed(acts) && Unwrapped(Exec(w, acts))
    ensures TeardownInv(Exec(w, acts))
    decreases |acts|
  {
    hide Advance, Inv, TeardownInv;
    if acts == [] {
    } else {
      assert SendsSucceed(acts[0].event);
      NextGrows(w, acts);
      NextGrows(Apply(w, acts[0]), acts[1..]);
      InvStep(w, acts[0]);
      TeardownStep(w, acts[0]);
      TeardownRun(Apply(w, acts[0]), acts[1..]);
    }
  }

  lemma TeardownStart(ca: Config, cb: Config)
    requires Unix(ca, cb)
    ensures Inv(Start(ca, cb)) && TeardownInv(Start(ca, cb))
  {
    InvStart(ca, cb);
  }

  /** `s` is an ACK of `x` at a host `y` in `WAIT_LAST_ACK`: its number tells whether `x` had acted on the FIN of `y`. */
  predicate LastAckTells(x: Side, y: Side, s: Segment) {
    y.H().connState == WaitLastAck && s in x.sent && s.ack ==>
      && (s in x.late <==> s.seqno >= y.H().ackno)
      && (s in x.late ==> x.life.seenFin && y.life.sentFin)
  }

  lemma LastAcksTell(w: World, s: Segment)
    requires TeardownInv(w)
    ensures LastAckTells(w.a, w.b, s) && LastAckTells(w.b, w.a, s)
  {
  }

  /**
   When the last ACK is what it is taken for, over any channel: an ACK that reaches a host in
   `WAIT_LAST_ACK` was sent after the peer had acted on that host's FIN if and only if its number is
   not below the host's `ackno`, which `ctcp_receive` does not test in that state.
   */
  lemma LastAckIff(ca: Config, cb: Config, acts: seq<Action>, s: Segment)
    requires Unix(ca, cb) && Legal(Start(ca, cb), acts) && AllSucceed(acts) && Unwrapped(Exec(Start(ca, cb), acts))
    ensures var w := Exec(Start(ca, cb), acts); LastAckTells(w.a, w.b, s) && LastAckTells(w.b, w.a, s)
  {
    hide Legal, Exec, AllSucceed, Inv, LastAckTells;
    TeardownStart(ca, cb);
    TeardownRun(Start(ca, cb), acts);
    LastAcksTell(Exec(Start(ca, cb), acts), s);
  }
}

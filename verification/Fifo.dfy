/** Teardown over channels that keep the order of segments and may lose them. */
module Fifo {
  import opened Bytes
  import opened OutputQueue
  import opened Segments
  import opened HostModel
  import opened Lives
  import opened Outcomes
  import opened Worlds
  import opened Teardown

  /** Both hosts, and the segments on their way to each. */
  datatype Link = Link(w: World, toA: seq<Segment>, toB: seq<Segment>)

  datatype Move =
    | Happens(who: Who, event: Event)
    | Arrives(who: Who, wr: WriteResult)
    | Lost(who: Who, i: nat)

  function Queue(n: Link, who: Who): seq<Segment> {
    if who == A then n.toA else n.toB
  }

  /** Only the first segment of a queue can arrive. */
  predicate Possible(n: Link, m: Move) {
    match m
    case Happens(_, e) => !e.ReceiveEvent? && SendsSucceed(e)
    case Arrives(who, _) => Queue(n, who) != [] && Queue(n, who)[0].Sized()
    case Lost(who, i) => i < |Queue(n, who)|
  }

  /** Host `who` acts, and what it sends joins the queue of its peer. */
  function Acts(n: Link, who: Who, e: Event): Link {
    if who == A then
      Link(n.w.(a := Advance(n.w.a, e)), n.toA, n.toB + Arrivals(Step(n.w.a.H(), e).sent, n.w.a.web))
    else
      Link(n.w.(b := Advance(n.w.b, e)), n.toA + Arrivals(Step(n.w.b.H(), e).sent, n.w.b.web), n.toB)
  }

  function WithQueue(n: Link, who: Who, q: seq<Segment>): Link {
    if who == A then n.(toA := q) else n.(toB := q)
  }

  function Moved(n: Link, m: Move): Link
    requires Possible(n, m)
  {
    match m
    case Happens(who, e) => Acts(n, who, e)
    case Arrives(who, wr) =>
      var q := Queue(n, who);
      Acts(WithQueue(n, who, q[1..]), who, ReceiveEvent(q[0], wr, true, true))
    case Lost(who, i) => WithQueue(n, who, Removed(Queue(n, who), i))
  }

  predicate Legal(n: Link, moves: seq<Move>)
    decreases |moves|
  {
    moves == [] || (Possible(n, moves[0]) && Legal(Moved(n, moves[0]), moves[1..]))
  }

  function Exec(n: Link, moves: seq<Move>): Link
    requires Legal(n, moves)
    decreases |moves|
  {
    if moves == [] then n else Exec(Moved(n, moves[0]), moves[1..])
  }

  function Start(ca: Config, cb: Config): Link {
    Link(Worlds.Start(ca, cb), [], [])
  }

  // ---------- the invariant ----------

  /** The segments `q` on their way from `x` to `y`: no ACK follows a FIN before `x` has acted on a FIN. */
  predicate QueueInv(x: Side, y: Side, q: seq<Segment>) {
    && (forall i :: 0 <= i < |q| ==> q[i] in x.sent)
    && (!x.life.seenFin ==> forall i, j :: 0 <= i < j < |q| && q[i].fin ==> !q[j].ack)
    && (!x.life.seenFin && y.H().connState == WaitLastAck ==> !y.H().deleted && forall i :: 0 <= i < |q| ==> !q[i].ack)
  }

  predicate LinkInv(n: Link) {
    Inv(n.w) && TeardownInv(n.w) && QueueInv(n.w.a, n.w.b, n.toB) && QueueInv(n.w.b, n.w.a, n.toA)
  }

  /** Host `x` acts: what it adds to the queue keeps it in order. */
  lemma SenderActs(x: Side, y: Side, q: seq<Segment>, e: Event)
    requires Ready(x, e) && LateInv(x, y) && QueueInv(x, y, q)
    ensures QueueInv(Advance(x, e), y, q + Arrivals(Step(x.H(), e).sent, x.web))
  {
    EventSendsAsCloser(x, e);
    Parts(x, e);
    var x' := Advance(x, e);
    var q' := q + Arrivals(Step(x.H(), e).sent, x.web);
    ArrivalsAdded(x, e);
    hide Advance, Step, EofInv, Next, CloseInv, SenderOk, Arrivals, Added;
    forall i | 0 <= i < |q'|
      ensures q'[i] in x.sent || q'[i] in Added(x, e)
    {
    }
    if !x'.life.seenFin {
      forall i, j | 0 <= i < j < |q'| && q'[i].fin
        ensures !q'[j].ack
      {
        assert i < |q| ==> q[i] in x.sent && x.life.sentFin;
        assert j >= |q| ==> q'[j] in Added(x, e);
      }
    }
  }

  lemma ArrivalsAdded(x: Side, e: Event)
    ensures var s := Arrivals(Step(x.H(), e).sent, x.web);
      forall i :: 0 <= i < |s| ==> s[i] in Added(x, e)
  {
    hide Step;
  }

  /** Waiting for the last ACK starts with a FIN and ends with an ACK. */
  lemma LastAckDeletion(y: Side, e: Event)
    requires Ready(y, e) && y.H().connState != WaitInput
    ensures var h' := Step(y.H(), e).host;
      h'.deleted && h'.connState == WaitLastAck ==>
        y.H().connState == WaitLastAck && e.ReceiveEvent? && e.segment.ack
  {
    hide Read, Receive, Tick, Drained, U32, Swap32, Outq.All, Outq.NoEmptyChunk, SenderOk;
    var h := y.H();
    match e {
      case ReadEvent(input, ok) => ReadIs(h, input, ok);
      case ReceiveEvent(s, w, ok1, ok2) =>
        if h.connState == DataTransfer {
          ReceiveInDataTransferIs(h, s, w, ok1, ok2);
        } else {
          ReceiveElsewhereIs(h, s, w, ok1, ok2);
        }
      case TickEvent(ok) => TickIs(h, ok);
      case DrainEvent(_) =>
    }
  }

  /** Host `y` acts on the first segment of its queue, or by itself. */
  lemma ReceiverActs(x: Side, y: Side, q: seq<Segment>, q': seq<Segment>, e: Event)
    requires Ready(y, e) && y.H().connState != WaitInput && QueueInv(x, y, q)
    requires if e.ReceiveEvent? then q != [] && q[0] == e.segment && q' == q[1..] else q' == q
    ensures QueueInv(x, Advance(y, e), q')
  {
    LastAckIsEntered(y, e);
    LastAckDeletion(y, e);
    Parts(y, e);
    hide Advance, Step, EofInv, Next, CloseInv, SenderOk;
  }

  lemma QueueIdle(x: Side, y: Side, q: seq<Segment>, q': seq<Segment>, x': Side, y': Side)
    requires QueueInv(x, y, q) && x'.sent == x.sent && x'.life.seenFin == x.life.seenFin && y'.H() == y.H()
    requires q' == q || (q != [] && q' == q[1..]) || exists i :: 0 <= i < |q| && q' == Removed(q, i)
    ensures QueueInv(x', y', q')
  {
    if q' != q && !(q != [] && q' == q[1..]) {
      var k :| 0 <= k < |q| && q' == Removed(q, k);
      assert forall i :: 0 <= i < |q'| ==> q'[i] == q[if i < k then i else i + 1];
    }
  }

  /** One host acts; `x` and `y` are that host and its peer, `qx` what is on its way to it, `qy` to its peer. */
  lemma ActsStep(x: Side, y: Side, qx: seq<Segment>, qx': seq<Segment>, qy: seq<Segment>, e: Event)
    requires SenderInv(x) && EofInv(x.life) && CloserInv(x) && LateInv(x, y) && x.H().connState != WaitInput
    requires Receivable(e) && SendsSucceed(e) && (e.ReceiveEvent? ==> !(e.segment.fin && e.segment.ack))
    requires QueueInv(x, y, qy) && QueueInv(y, x, qx)
    requires if e.ReceiveEvent? then qx != [] && qx[0] == e.segment && qx' == qx[1..] else qx' == qx
    ensures QueueInv(Advance(x, e), y, qy + Arrivals(Step(x.H(), e).sent, x.web)) && QueueInv(y, Advance(x, e), qx')
  {
    if x.H().deleted {
      LateIdle(x, e);
      assert qy + Arrivals([], x.web) == qy;
      QueueIdle(x, y, qy, qy, Advance(x, e), y);
      QueueIdle(y, x, qx, qx', y, Advance(x, e));
    } else {
      SenderActs(x, y, qy, e);
      ReceiverActs(y, x, qx, qx', e);
    }
  }

  /** A host acts by itself, or on the first segment on its way to it. */
  lemma HostActs(n: Link, n': Link, who: Who, e: Event)
    requires LinkInv(n) && SendsSucceed(e) && Unwrapped(n.w) && Unwrapped(n'.w)
    requires if e.ReceiveEvent? then
               var q := Queue(n, who);
               q != [] && q[0] == e.segment && n' == Acts(WithQueue(n, who, q[1..]), who, e)
             else n' == Acts(n, who, e)
    ensures LinkInv(n')
  {
    var w := n.w;
    assert n'.w == Apply(w, Action(who, e)) && Enabled(w, Action(who, e));
    InvStep(w, Action(who, e));
    TeardownStep(w, Action(who, e));
    var x, y := (if who == A then w.a else w.b), (if who == A then w.b else w.a);
    assert forall s :: s in y.sent ==> Sendable(y.next, y.log, s);
    assert SenderInv(x) && EofInv(x.life) && CloserInv(x) && LateInv(x, y) && x.H().connState != WaitInput;
    hide Inv, TeardownInv, SenderInv, EofInv, CloserInv, LateInv, Advance, Step, QueueInv, Arrivals;
    if who == A {
      ActsStep(w.a, w.b, n.toA, n'.toA, n.toB, e);
    } else {
      ActsStep(w.b, w.a, n.toB, n'.toB, n.toA, e);
    }
  }

  lemma MovedStep(n: Link, m: Move)
    requires LinkInv(n) && Possible(n, m) && Unwrapped(n.w) && Unwrapped(Moved(n, m).w)
    ensures LinkInv(Moved(n, m))
  {
    match m {
      case Happens(who, e) =>
        HostActs(n, Moved(n, m), who, e);
      case Arrives(who, wr) =>
        HostActs(n, Moved(n, m), who, ReceiveEvent(Queue(n, who)[0], wr, true, true));
      case Lost(who, i) =>
        var w := n.w;
        hide Inv, TeardownInv;
        QueueIdle(w.a, w.b, n.toB, Moved(n, m).toB, w.a, w.b);
        QueueIdle(w.b, w.a, n.toA, Moved(n, m).toA, w.b, w.a);
    }
  }

  lemma {:induction false} MovedUnwraps(n: Link, moves: seq<Move>)
    requires Legal(n, moves) && Unwrapped(Exec(n, moves).w)
    ensures Unwrapped(n.w)
    decreases |moves|
  {
    hide Advance;
    if moves != [] {
      MovedUnwraps(Moved(n, moves[0]), moves[1..]);
      match moves[0]
      case Happens(who, e) =>
        AdvanceGrows(n.w.a, e);
        AdvanceGrows(n.w.b, e);
      case Arrives(who, wr) =>
        AdvanceGrows(n.w.a, ReceiveEvent(Queue(n, who)[0], wr, true, true));
        AdvanceGrows(n.w.b, ReceiveEvent(Queue(n, who)[0], wr, true, true));
      case Lost(_, _) =>
    }
  }

  lemma {:induction false} LinkRun(n: Link, moves: seq<Move>)
    requires LinkInv(n) && Legal(n, moves) && Unwrapped(Exec(n, moves).w)
    ensures LinkInv(Exec(n, moves))
    decreases |moves|
  {
    hide LinkInv, Moved;
    if moves == [] {
    } else {
      MovedUnwraps(n, moves);
      MovedUnwraps(Moved(n, moves[0]), moves[1..]);
      MovedStep(n, moves[0]);
      LinkRun(Moved(n, moves[0]), moves[1..]);
    }
  }

  lemma LinkStart(ca: Config, cb: Config)
    requires Unix(ca, cb)
    ensures LinkInv(Start(ca, cb))
  {
    hide Inv, TeardownInv;
    TeardownStart(ca, cb);
  }

  lemma LastAcksAgree(n: Link)
    requires LinkInv(n)
    ensures var w := n.w;
      && (w.b.H().deleted && w.b.H().connState == WaitLastAck ==> w.b.life.sentFin && w.a.life.seenFin)
      && (w.a.H().deleted && w.a.H().connState == WaitLastAck ==> w.a.life.sentFin && w.b.life.seenFin)
  {
    hide Inv;
  }

  /**
   Teardown agreement: over channels that keep their order, a host destroyed in `WAIT_LAST_ACK` has
   a peer that has acted on its FIN.
   */
  lemma TeardownAgreement(ca: Config, cb: Config, moves: seq<Move>)
    requires Unix(ca, cb) && Legal(Start(ca, cb), moves) && Unwrapped(Exec(Start(ca, cb), moves).w)
    ensures var w := Exec(Start(ca, cb), moves).w;
      && (w.b.H().deleted && w.b.H().connState == WaitLastAck ==> w.b.life.sentFin && w.a.life.seenFin)
      && (w.a.H().deleted && w.a.H().connState == WaitLastAck ==> w.a.life.sentFin && w.b.life.seenFin)
  {
    hide Exec, Legal, Start, LinkInv, Advance;
    LinkStart(ca, cb);
    LinkRun(Start(ca, cb), moves);
    LastAcksAgree(Exec(Start(ca, cb), moves));
  }
}

/**
 Two hosts and everything they have put on the wire. A host may receive any segment that its peer
 ever sent, any number of times and in any order: this is loss, duplication, reordering and delay
 without bound. Corrupted segments are refused (`Conversion.CorruptionCaught`), that is, lost.
 */
module Worlds {
  import opened Bytes
  import opened OutputQueue
  import opened Segments
  import opened Connections
  import opened HostModel
  import opened Lives
  import opened Outcomes

  /**
   A host with what an observer recorded of it: the segments it put on the wire as they arrive, the
   data segments in the order in which they were first sent, the data segments it accepted, the
   sequence numbers it passed over by acting in `DATA_TRANSFER` on a segment ahead of its `ackno`, the
   sequence numbers it has used itself, and the segments it first sent after it had acted on a
   FIN. `web` when an ACK flag is added on the way.
   */
  datatype Side = Side(life: Life, sent: set<Segment>, log: seq<Segment>, accepted: seq<Segment>,
                       skipped: set<nat>, next: nat, late: set<Segment>, web: bool) {
    function H(): Host { life.h }

    /** It acted on a segment ahead of its `ackno`. */
    predicate Gap() { skipped != {} }
  }

  datatype World = World(a: Side, b: Side)
  datatype Who = A | B
  datatype Action = Action(who: Who, event: Event)

  function Arriving(s: Segment, web: bool): Segment {
    s.(ack := s.ack || web)
  }

  function ArrivingAll(segments: seq<Segment>, web: bool): set<Segment> {
    set i | 0 <= i < |segments| :: Arriving(segments[i], web)
  }

  /** The data segments among those that `ctcp_read` sends. */
  function DataSent(e: Event, sent: seq<Segment>): seq<Segment> {
    if e.ReadEvent? && sent != [] && sent[0].data != [] then [sent[0]] else []
  }

  predicate TakesData(h: Host, h': Host, e: Event) {
    e.ReceiveEvent? && |h'.outq.All()| > |h.outq.All()|
  }

  function Interval(lo: nat, hi: nat): (s: set<nat>)
    ensures forall n: nat :: n in s <==> lo <= n < hi
    decreases hi - lo
  {
    if lo >= hi then {} else {lo} + Interval(lo + 1, hi)
  }

  /** The sequence numbers between `ackno` and a segment that is acted on in `DATA_TRANSFER`. */
  function Skips(h: Host, h': Host, e: Event): set<nat> {
    if e.ReceiveEvent? && h.connState == DataTransfer && h'.ackno != h.ackno
    then Interval(h.ackno, e.segment.seqno)
    else {}
  }

  function Advance(x: Side, e: Event): Side {
    var f := Step(x.H(), e);
    var life := Next(x.life, e);
    Side(life,
         x.sent + ArrivingAll(f.sent, x.web),
         x.log + DataSent(e, f.sent),
         if TakesData(x.H(), f.host, e) then x.accepted + [e.segment] else x.accepted,
         x.skipped + Skips(x.H(), f.host, e),
         x.next + U32(f.host.seqno - x.H().seqno),
         if life.seenFin then x.late + (ArrivingAll(f.sent, x.web) - x.sent) else x.late,
         x.web)
  }

  /** The records after one event, one by one. */
  lemma Recorded(x: Side, e: Event)
    ensures var x', f := Advance(x, e), Step(x.H(), e);
      && x'.life == Next(x.life, e) && x'.H() == f.host && x'.web == x.web
      && x'.sent == x.sent + ArrivingAll(f.sent, x.web)
      && x'.log == x.log + DataSent(e, f.sent)
      && x'.accepted == (if TakesData(x.H(), f.host, e) then x.accepted + [e.segment] else x.accepted)
      && x'.skipped == x.skipped + Skips(x.H(), f.host, e)
      && x'.next == x.next + U32(f.host.seqno - x.H().seqno)
      && x'.late == (if x'.life.seenFin then x.late + (ArrivingAll(f.sent, x.web) - x.sent) else x.late)
  {
    hide Step, ArrivingAll, DataSent, TakesData, Skips;
  }

  function Apply(w: World, act: Action): World {
    if act.who == A then w.(a := Advance(w.a, act.event)) else w.(b := Advance(w.b, act.event))
  }

  /** Only segments that the peer has sent can be received. */
  predicate Enabled(w: World, act: Action) {
    act.event.ReceiveEvent? ==> act.event.segment in (if act.who == A then w.b.sent else w.a.sent)
  }

  predicate Legal(w: World, acts: seq<Action>)
    decreases |acts|
  {
    acts == [] || (Enabled(w, acts[0]) && Legal(Apply(w, acts[0]), acts[1..]))
  }

  function Exec(w: World, acts: seq<Action>): World
    decreases |acts|
  {
    if acts == [] then w else Exec(Apply(w, acts[0]), acts[1..])
  }

  datatype Config = Config(timer: u16, rtTimeout: u16, web: bool)

  function NewSide(c: Config): Side {
    Side(Born(c.timer, c.rtTimeout), {}, [], [], {}, 1, {}, c.web)
  }

  function Start(ca: Config, cb: Config): World {
    World(NewSide(ca), NewSide(cb))
  }

  /** Neither host has used up its 32-bit sequence numbers. */
  predicate Unwrapped(w: World) {
    w.a.next < U32_MOD && w.b.next < U32_MOD
  }

  // ---------- segments and sequence numbers ----------

  /** The chunks of a log follow each other without overlap. */
  predicate Ordered(log: seq<Segment>) {
    forall i, j :: 0 <= i < j < |log| ==> End(log[i]) <= log[j].seqno
  }

  predicate DataSegment(s: Segment) {
    0 < |s.data| <= MAX_DATA && !s.fin && s.ack && s.seqno >= 1
  }

  /** What a host that has used the numbers below `next` for the chunks of `log` may have put on the wire. */
  predicate Sendable(next: nat, log: seq<Segment>, s: Segment) {
    && 1 <= s.seqno && End(s) <= next
    && s.Sized() && |s.data| <= MAX_DATA
    && (s.data != [] ==> s in log)
    && (s.fin ==> s.data == [])
    && (s.fin || s.ack)
  }

  predicate SenderOk(next: nat, log: seq<Segment>, sent: set<Segment>, web: bool, seqno: u32, saved: Option<Saved>) {
    && 1 <= next && seqno == next
    && Ordered(log)
    && (forall i :: 0 <= i < |log| ==> DataSegment(log[i]) && End(log[i]) <= next)
    && (forall s :: s in sent ==> Sendable(next, log, s))
    && (saved.Some? ==> Arriving(saved.value.segment, web) in sent)
  }

  /** What a host and its records say about its own sending. */
  predicate SenderInv(x: Side) {
    SenderOk(x.next, x.log, x.sent, x.web, x.H().seqno, x.H().saved)
  }

  function DataOf(segments: seq<Segment>): seq<byte> {
    if segments == [] then [] else DataOf(segments[..|segments| - 1]) + segments[|segments| - 1].data
  }

  /** What host `y` has taken from its peer `x`. */
  predicate ReceiverInv(x: Side, y: Side) {
    && 1 <= y.H().ackno <= x.next
    && (forall s :: s in y.sent ==> 1 <= s.ackno <= x.next)
    && Ordered(y.accepted)
    && (forall i :: 0 <= i < |y.accepted| ==> y.accepted[i] in x.log)
    && (y.H().connState == DataTransfer ==>
          forall i :: 0 <= i < |y.accepted| ==> End(y.accepted[i]) <= y.H().ackno)
    && EofInv(y.life)
    && y.H().outq.All() == DataOf(y.accepted)
    && (y.H().connState != WaitInput)
  }

  predicate Inv(w: World) {
    SenderInv(w.a) && SenderInv(w.b) && ReceiverInv(w.a, w.b) && ReceiverInv(w.b, w.a)
  }

  // ---------- channels ----------

  function Arrivals(segments: seq<Segment>, web: bool): seq<Segment> {
    seq(|segments|, i requires 0 <= i < |segments| => Arriving(segments[i], web))
  }

  lemma ArrivalsAreSent(y: Side, e: Event)
    ensures forall i :: 0 <= i < |Step(y.H(), e).sent| ==>
              Arrivals(Step(y.H(), e).sent, y.web)[i] in Advance(y, e).sent
  {
    hide Step;
    var sent := Step(y.H(), e).sent;
    forall i | 0 <= i < |sent|
      ensures Arriving(sent[i], y.web) in ArrivingAll(sent, y.web)
    {
    }
  }

  // ---------- sending ----------

  lemma ArrivingAllIs(s: Segment, t: Segment, web: bool)
    ensures ArrivingAll([], web) == {}
    ensures ArrivingAll([s], web) == {Arriving(s, web)}
    ensures ArrivingAll([s, t], web) == {Arriving(s, web), Arriving(t, web)}
  {
    assert [s][0] == s;
    assert [s, t][0] == s && [s, t][1] == t;
  }

  lemma NumbersAgree(x: Side)
    requires SenderInv(x)
    ensures x.H().seqno == x.next
  {
  }

  /** An event that puts nothing on the wire. */
  lemma SentNothing(x: Side, e: Event)
    requires Step(x.H(), e).sent == [] && Step(x.H(), e).host.seqno == x.H().seqno
    ensures var x' := Advance(x, e);
      && x'.H() == Step(x.H(), e).host && x'.web == x.web
      && x'.sent == x.sent && x'.log == x.log && x'.next == x.next && x'.late == x.late
  {
    hide Step, Next, U32;
    Recorded(x, e);
    NumbersUsed(x.H().seqno, 0);
    SmallU32(x.H().seqno);
    ArrivingAllIs(FinOf(x.H(), 0), FinOf(x.H(), 0), x.web);
    assert x.log + [] == x.log && x.sent + {} == x.sent && x.late + ({} - x.sent) == x.late;
  }

  /** An event that puts one segment on the wire and uses `n` numbers. */
  lemma SentOne(x: Side, e: Event, t: Segment, n: nat)
    requires Step(x.H(), e).sent == [t] && n < U32_MOD && Step(x.H(), e).host.seqno == U32(x.H().seqno + n)
    ensures var x' := Advance(x, e);
      && x'.H() == Step(x.H(), e).host && x'.web == x.web
      && x'.sent == x.sent + {Arriving(t, x.web)} && x'.next == x.next + n
      && x'.log == x.log + (if e.ReadEvent? && t.data != [] then [t] else [])
  {
    hide Step, Next, U32;
    Recorded(x, e);
    NumbersUsed(x.H().seqno, n);
    ArrivingAllIs(t, t, x.web);
  }

  lemma SentTwo(x: Side, e: Event, s: Segment, t: Segment)
    requires Step(x.H(), e).sent == [s, t] && e.ReceiveEvent? && Step(x.H(), e).host.seqno == U32(x.H().seqno + 1)
    ensures var x' := Advance(x, e);
      && x'.H() == Step(x.H(), e).host && x'.next == x.next + 1 && x'.log == x.log
      && x'.sent == x.sent + {Arriving(s, x.web), Arriving(t, x.web)}
  {
    hide Step, Next, U32;
    Recorded(x, e);
    NumbersUsed(x.H().seqno, 1);
    ArrivingAllIs(s, t, x.web);
    assert x.log + [] == x.log;
  }

  /** A new segment takes the numbers that follow. */
  lemma Emit(next: nat, log: seq<Segment>, sent: set<Segment>, web: bool, saved: Option<Saved>, s: Segment,
             saved': Option<Saved>)
    requires next < U32_MOD && SenderOk(next, log, sent, web, next, saved)
    requires s.seqno == next && s.Sized() && End(s) < U32_MOD && |s.data| <= MAX_DATA
    requires (s.fin ==> s.data == []) && (s.fin || s.ack)
    requires saved' == saved || saved'.None? || saved'.value.segment == s
    ensures SenderOk(End(s), log + (if s.data != [] then [s] else []), sent + {Arriving(s, web)}, web, End(s), saved')
  {
    var log' := log + (if s.data != [] then [s] else []);
    forall t | t in sent
      ensures Sendable(End(s), log', t)
    {
      assert Sendable(next, log, t);
    }
    assert s.data != [] ==> log'[|log|] == s;
    assert log + [] == log;
  }

  /** The peer's segments as the invariant describes them. */
  predicate Receivable(e: Event) {
    e.ReceiveEvent? ==>
      && e.segment.Sized() && |e.segment.data| <= MAX_DATA && End(e.segment) < U32_MOD
      && (e.segment.fin ==> e.segment.data == []) && e.segment.seqno >= 1
  }

  lemma SenderRead(x: Side, input: InputResult, ok: bool)
    requires SenderInv(x) && !x.H().deleted && Advance(x, ReadEvent(input, ok)).next < U32_MOD
    ensures SenderInv(Advance(x, ReadEvent(input, ok)))
  {
    hide Read, Advance, U32, SenderOk;
    var h, e := x.H(), ReadEvent(input, ok);
    var f := Step(h, e);
    assert f == Read(h, input, ok);
    ReadIs(h, input, ok);
    assert h.seqno == x.next by { NumbersAgree(x); }
    SmallU32(h.seqno);
    hide Step;
    if f.sent == [] {
      SentNothing(x, e);
    } else {
      var s := f.sent[0];
      var n := if s.fin then 1 else |s.data|;
      SentOne(x, e, s, n);
      NumbersUsed(h.seqno, n);
      Emit(x.next, x.log, x.sent, x.web, h.saved, s, f.host.saved);
    }
    assert f.sent == [] ==> f.host.saved == h.saved;
  }

  lemma SenderTick(x: Side, ok: bool)
    requires SenderInv(x) && !x.H().deleted
    ensures SenderInv(Advance(x, TickEvent(ok)))
  {
    hide Tick, Advance, U32;
    var h, e := x.H(), TickEvent(ok);
    var f := Step(h, e);
    assert f == Tick(h, ok);
    TickIs(h, ok);
    SmallU32(h.seqno);
    hide Step;
    if f.sent == [] {
      SentNothing(x, e);
    } else {
      SentOne(x, e, f.sent[0], 0);
      assert x.log + [] == x.log && x.sent + {Arriving(f.sent[0], x.web)} == x.sent;
    }
  }

  /** What reception makes a host send: nothing, an ACK, a FIN, or an ACK and a FIN. */
  predicate Answers(h: Host, f: Effect, acked: bool, closed: bool) {
    var ack, fin := AckOf(h, f.host.ackno), FinOf(h, f.host.ackno);
    && f.sent == (if acked && closed then [ack, fin] else if acked then [ack] else if closed then [fin] else [])
    && f.host.seqno == (if closed then U32(h.seqno + 1) else h.seqno)
    && (if closed then f.host.saved == Some(Saved(0, 0, fin)) else f.host.saved == h.saved || f.host.saved.None?)
  }

  lemma ReceiveAnswers(h: Host, e: Event) returns (acked: bool, closed: bool)
    requires e.ReceiveEvent? && Receivable(e) && !h.deleted
    requires h.outq.NoEmptyChunk() && (h.connState == DataTransfer ==> !h.outq.wroteEof)
    ensures Answers(h, Step(h, e), acked, closed)
    ensures acked || closed ==> Step(h, e).host.ackno == End(e.segment)
    ensures closed ==> h.connState == DataTransfer && e.segment.fin
  {
    hide Receive, U32, Swap32, Outq.All;
    var s, f := e.segment, Step(h, e);
    SmallU32(h.seqno);
    if h.connState == DataTransfer {
      ReceiveInDataTransferIs(h, s, e.w, e.ok1, e.ok2);
      closed := f.host.connState != DataTransfer && e.ok2;
    } else {
      ReceiveElsewhereIs(h, s, e.w, e.ok1, e.ok2);
      closed := false;
    }
    acked := f.sent != [] && f.sent[0].ack;
  }

  lemma SenderReceive(x: Side, e: Event)
    requires SenderInv(x) && EofInv(x.life) && !x.H().deleted && e.ReceiveEvent? && Receivable(e)
    requires Advance(x, e).next < U32_MOD
    ensures SenderInv(Advance(x, e))
  {
    hide Step, Next, Advance, U32, Swap32, EofInv, TakesData, Skips, SenderOk, ArrivingAll;
    var h, f := x.H(), Step(x.H(), e);
    Recorded(x, e);
    var acked, closed := ReceiveAnswers(h, e) by { EofParts(x.life); }
    assert h.seqno == x.next by { NumbersAgree(x); }
    NumbersUsed(h.seqno, 0);
    NumbersUsed(h.seqno, 1);
    SmallU32(h.seqno);
    assert x.log + [] == x.log && x.sent + {} == x.sent;
    var t, fin := AckOf(h, f.host.ackno), FinOf(h, f.host.ackno);
    ArrivingAllIs(t, fin, x.web);
    ArrivingAllIs(fin, fin, x.web);
    EmitAnswers(x, h.saved, f.host.saved, t, fin, acked, closed);
    var a, b := {Arriving(t, x.web)}, {Arriving(fin, x.web)};
    assert x.sent + a + b == x.sent + {Arriving(t, x.web), Arriving(fin, x.web)};
    assert x.sent + a + {} == x.sent + a && x.sent + {} + b == x.sent + b;
  }

  lemma EofParts(l: Life)
    requires EofInv(l)
    ensures l.h.outq.NoEmptyChunk() && (l.h.connState == DataTransfer ==> !l.h.outq.wroteEof)
  {
  }

  /** An ACK, a FIN, both or neither. */
  lemma EmitAnswers(x: Side, saved: Option<Saved>, saved': Option<Saved>, t: Segment, fin: Segment, acked: bool, closed: bool)
    requires x.next < U32_MOD && SenderOk(x.next, x.log, x.sent, x.web, x.next, saved)
    requires t.seqno == x.next && t.Sized() && t.data == [] && !t.fin && t.ack
    requires fin.seqno == x.next && fin.Sized() && fin.data == [] && fin.fin && (closed ==> x.next + 1 < U32_MOD)
    requires if closed then saved'.Some? && saved'.value.segment == fin else saved' == saved || saved'.None?
    ensures var sent := x.sent + (if acked then {Arriving(t, x.web)} else {}) + (if closed then {Arriving(fin, x.web)} else {});
      var next := if closed then x.next + 1 else x.next;
      SenderOk(next, x.log, sent, x.web, next, saved')
  {
    var sent := x.sent + (if acked then {Arriving(t, x.web)} else {});
    var saved1 := if closed then saved else saved';
    assert x.log + [] == x.log;
    if acked {
      Emit(x.next, x.log, x.sent, x.web, saved, t, saved1);
    } else {
      assert sent == x.sent;
    }
    assert SenderOk(x.next, x.log, sent, x.web, x.next, saved1);
    hide SenderOk;
    if closed {
      Emit(x.next, x.log, sent, x.web, saved1, fin, saved');
    } else {
      assert sent + {} == sent;
    }
  }

  /** Sending keeps the records of the sender in order. */
  lemma SenderStep(x: Side, e: Event)
    requires SenderInv(x) && EofInv(x.life) && Receivable(e) && Advance(x, e).next < U32_MOD
    ensures SenderInv(Advance(x, e))
    ensures Advance(x, e).next >= x.next && x.log <= Advance(x, e).log
  {
    hide SenderInv, Read, Receive, Tick, Drained, U32;
    match e {
      case ReadEvent(input, ok) =>
        if !x.H().deleted { SenderRead(x, input, ok); } else { SenderIdle(x, e); }
      case TickEvent(ok) =>
        if !x.H().deleted { SenderTick(x, ok); } else { SenderIdle(x, e); }
      case ReceiveEvent(_, _, _, _) =>
        if !x.H().deleted { SenderReceive(x, e); } else { SenderIdle(x, e); }
      case DrainEvent(_) =>
        SenderIdle(x, e);
    }
  }

  lemma SenderIdle(x: Side, e: Event)
    requires SenderInv(x) && (x.H().deleted || e.DrainEvent?)
    ensures SenderInv(Advance(x, e))
  {
    hide Drained, Advance, U32;
    SentNothing(x, e);
  }

  // ---------- receiving ----------

  lemma DataOfSnoc(segments: seq<Segment>, s: Segment)
    ensures DataOf(segments + [s]) == DataOf(segments) + s.data
  {
    assert (segments + [s])[..|segments|] == segments;
  }

  /** The acknowledgment numbers that a host puts on the wire are its own, past or present. */
  lemma SentAcknos(y: Side, e: Event, bound: nat)
    requires SenderInv(y) && EofInv(y.life) && Receivable(e)
    requires forall s :: s in y.sent ==> 1 <= s.ackno <= bound
    requires 1 <= y.H().ackno <= bound && 1 <= Step(y.H(), e).host.ackno <= bound
    ensures forall s :: s in Advance(y, e).sent ==> 1 <= s.ackno <= bound
  {
    hide Read, Receive, Tick, Drained, U32, Swap32, Outq.All, Outq.NoEmptyChunk, SenderOk;
    var h, f := y.H(), Step(y.H(), e);
    if !h.deleted {
      match e {
        case ReadEvent(input, ok) => ReadIs(h, input, ok);
        case ReceiveEvent(s, _, _, _) => var acked, closed := ReceiveAnswers(h, e);
        case TickEvent(ok) =>
          TickIs(h, ok);
          if h.saved.Some? {
            SavedIsSent(y);
          }
        case DrainEvent(_) =>
      }
    }
    assert forall i :: 0 <= i < |f.sent| ==> 1 <= f.sent[i].ackno <= bound;
  }

  lemma SentIsSendable(x: Side, s: Segment)
    requires SenderInv(x) && s in x.sent
    ensures Sendable(x.next, x.log, s)
  {
  }

  lemma SavedIsSent(y: Side)
    requires SenderInv(y) && y.H().saved.Some?
    ensures Arriving(y.H().saved.value.segment, y.web) in y.sent
  {
  }

  /** What the event does to `ackno`, the output and the state of the receiving host. */
  predicate Took(x: Side, y: Side, e: Event) {
    var h, h' := y.H(), Step(y.H(), e).host;
    && h.ackno != 0
    && (h'.ackno != h.ackno ==> e.ReceiveEvent? && 1 <= h'.ackno <= End(e.segment))
    && (h.connState == DataTransfer ==> h'.ackno >= h.ackno)
    && (if TakesData(h, h', e) then
          h.connState == DataTransfer && DataSegment(e.segment) && e.segment.seqno >= h.ackno
          && h'.ackno == End(e.segment) && h'.outq.All() == h.outq.All() + e.segment.data
        else h'.outq.All() == h.outq.All())
    && (h'.connState == DataTransfer ==> h.connState == DataTransfer)
    && h'.connState != WaitInput
  }

  lemma EventTook(x: Side, y: Side, e: Event)
    requires ReceiverInv(x, y) && Receivable(e)
    ensures Took(x, y, e)
  {
    hide Read, Receive, Tick, Drained, U32, Swap32, Outq.All, Outq.NoEmptyChunk;
    var h := y.H();
    if !h.deleted {
      match e {
        case ReadEvent(input, ok) => ReadIs(h, input, ok);
        case ReceiveEvent(s, w, ok1, ok2) =>
          if h.connState == DataTransfer {
            ReceiveInDataTransferIs(h, s, w, ok1, ok2);
            EofChangesNothing(h.outq);
          } else {
            ReceiveElsewhereIs(h, s, w, ok1, ok2);
          }
        case TickEvent(ok) => TickIs(h, ok);
        case DrainEvent(ws) => DrainConserves(h.outq, ws);
      }
    }
  }

  lemma EofChangesNothing(q: Outq)
    ensures q.(wroteEof := true).All() == q.All()
  {
  }

  /** A host takes whole chunks of its peer, in order, and acknowledges only what the peer has sent. */
  lemma ReceiverStep(x: Side, y: Side, e: Event)
    requires SenderInv(x) && SenderInv(y) && ReceiverInv(x, y) && x.next < U32_MOD
    requires e.ReceiveEvent? ==> e.segment in x.sent
    ensures Receivable(e) && ReceiverInv(x, Advance(y, e))
  {
    assert e.ReceiveEvent? ==> Sendable(x.next, x.log, e.segment);
    EventTook(x, y, e);
    EofStep(y.life, e);
    SentAcknos(y, e, x.next);
    NextHost(y.life, e);
    hide SenderOk;
    if TakesData(y.H(), Step(y.H(), e).host, e) {
      TakesOne(x, y, Advance(y, e), e.segment);
    } else {
      TakesNone(x, y, Advance(y, e));
    }
  }

  lemma OrderedSnoc(taken: seq<Segment>, s: Segment)
    requires Ordered(taken) && forall i :: 0 <= i < |taken| ==> End(taken[i]) <= s.seqno
    ensures Ordered(taken + [s])
  {
  }

  lemma TakesOne(x: Side, y: Side, y': Side, s: Segment)
    requires ReceiverInv(x, y) && y.H().connState == DataTransfer && s in x.log && s.seqno >= y.H().ackno
    requires y'.accepted == y.accepted + [s] && 1 <= y'.H().ackno == End(s) <= x.next
    requires (forall t :: t in y'.sent ==> 1 <= t.ackno <= x.next) && EofInv(y'.life) && y'.H().connState != WaitInput
    requires y'.H().outq.All() == y.H().outq.All() + s.data
    ensures ReceiverInv(x, y')
  {
    hide Outq.All, EofInv;
    DataOfSnoc(y.accepted, s);
    OrderedSnoc(y.accepted, s);
    hide Ordered, DataOf;
  }

  lemma TakesNone(x: Side, y: Side, y': Side)
    requires ReceiverInv(x, y) && y'.accepted == y.accepted && 1 <= y'.H().ackno <= x.next
    requires y'.H().connState == DataTransfer ==> y.H().connState == DataTransfer && y'.H().ackno >= y.H().ackno
    requires (forall s :: s in y'.sent ==> 1 <= s.ackno <= x.next) && EofInv(y'.life) && y'.H().connState != WaitInput
    requires y'.H().outq.All() == y.H().outq.All()
    ensures ReceiverInv(x, y')
  {
    hide Outq.All, EofInv;
  }

  lemma PeerAdvances(x: Side, y: Side, e: Event)
    requires ReceiverInv(x, y) && x.log <= Advance(x, e).log && x.next <= Advance(x, e).next
    ensures ReceiverInv(Advance(x, e), y)
  {
    hide Step, EofInv, Outq.All, Next;
    var x' := Advance(x, e);
    forall i | 0 <= i < |y.accepted|
      ensures y.accepted[i] in x'.log
    {
      var k :| 0 <= k < |x.log| && x.log[k] == y.accepted[i];
      assert x'.log[k] == y.accepted[i];
    }
  }

  lemma InvStep(w: World, act: Action)
    requires Inv(w) && Enabled(w, act) && Unwrapped(w) && Unwrapped(Apply(w, act))
    ensures Inv(Apply(w, act))
  {
    hide Advance, SenderInv;
    if act.who == A {
      ReceiverStep(w.b, w.a, act.event);
      SenderStep(w.a, act.event);
      PeerAdvances(w.a, w.b, act.event);
    } else {
      ReceiverStep(w.a, w.b, act.event);
      SenderStep(w.b, act.event);
      PeerAdvances(w.b, w.a, act.event);
    }
  }

  lemma NextGrows(w: World, acts: seq<Action>)
    requires Unwrapped(Exec(w, acts))
    ensures Unwrapped(w)
    decreases |acts|
  {
    hide Advance;
    if acts != [] {
      NextGrows(Apply(w, acts[0]), acts[1..]);
      AdvanceGrows(w.a, acts[0].event);
      AdvanceGrows(w.b, acts[0].event);
    }
  }

  lemma AdvanceGrows(x: Side, e: Event)
    ensures Advance(x, e).next >= x.next
  {
  }

  lemma {:induction false} InvRun(w: World, acts: seq<Action>)
    requires Inv(w) && Legal(w, acts) && Unwrapped(Exec(w, acts))
    ensures Inv(Exec(w, acts))
    decreases |acts|
  {
    hide Advance, Inv;
    if acts == [] {
    } else {
      NextGrows(w, acts);
      NextGrows(Apply(w, acts[0]), acts[1..]);
      InvStep(w, acts[0]);
      InvRun(Apply(w, acts[0]), acts[1..]);
    }
  }

  lemma InvStart(ca: Config, cb: Config)
    ensures Inv(Start(ca, cb))
  {
  }
}

/** Runs that show what fails without the conditions of the delivery and teardown theorems. */
module Counterexamples {
  import opened Bytes
  import opened OutputQueue
  import opened Segments
  import opened Connections
  import opened HostModel
  import opened Lives
  import opened Outcomes
  import opened Worlds

  /** Two programs on Unix sockets, with the intervals they are shipped with. */
  const UNIX := Config(40, 200, false)

  function Data(seqno: u32, b: byte): Segment {
    Segment(seqno, 1, HDR + 1, false, true, [b])
  }

  function Get(s: Framed): Event {
    ReceiveEvent(s, Wrote(1), true, true)
  }

  /** A state that a legal run reaches. */
  predicate Reached(c: Config, acts: seq<Action>, w: World) {
    Legal(Start(c, c), acts) && Exec(Start(c, c), acts) == w
  }

  lemma {:induction false} OneMore(w: World, acts: seq<Action>, act: Action)
    requires Legal(w, acts) && Enabled(Exec(w, acts), act)
    ensures Legal(w, acts + [act]) && Exec(w, acts + [act]) == Apply(Exec(w, acts), act)
    decreases |acts|
  {
    hide Enabled, Apply;
    if acts == [] {
      assert [] + [act] == [act];
      assert [act][1..] == [];
    } else {
      assert (acts + [act])[0] == acts[0] && (acts + [act])[1..] == acts[1..] + [act];
      OneMore(Apply(w, acts[0]), acts[1..], act);
    }
  }

  /** One step further. */
  lemma Goes(c: Config, acts: seq<Action>, w: World, who: Who, e: Event) returns (acts': seq<Action>, w': World)
    requires Reached(c, acts, w) && Enabled(w, Action(who, e))
    ensures Reached(c, acts', w') && w' == Apply(w, Action(who, e)) && acts' == acts + [Action(who, e)]
  {
    hide Apply;
    OneMore(Start(c, c), acts, Action(who, e));
    acts' := acts + [Action(who, e)];
    w' := Apply(w, Action(who, e));
  }

  /** A host reads one byte. */
  lemma Reads(x: Side, b: byte)
    requires !x.H().deleted && x.H().connState == DataTransfer && x.H().saved.None? && !x.H().readEof
    requires x.H().seqno == x.next < 100 && !x.web
    ensures var s := Segment(x.H().seqno, x.H().ackno, HDR + 1, false, true, [b]);
      var x' := Advance(x, ReadEvent(Chars([b]), true));
      && s in x'.sent && x.sent <= x'.sent && x'.log == x.log + [s] && x'.accepted == x.accepted && x'.next == x.next + 1
      && x'.H() == x.H().(seqno := x.H().seqno + 1, saved := Some(Saved(0, 0, s)))
      && x'.web == x.web
      && x'.life.seenFin == x.life.seenFin
  {
    hide SavesAnew, OutputsEof;
    var s := Segment(x.H().seqno, x.H().ackno, HDR + 1, false, true, [b]);
    ReadIs(x.H(), Chars([b]), true);
    ArrivingAllIs(s, s, x.web);
  }

  /** A byte arrives and is output; the ACK goes out. */
  lemma Takes(x: Side, s: Segment)
    requires !x.H().deleted && x.H().connState == DataTransfer && !x.web
    requires x.H().outq == Outq(x.H().outq.written, [], false, false) && x.H().seqno == x.next
    requires s.Sized() && |s.data| == 1 && s.ack && !s.fin && x.H().ackno <= s.seqno < 100
    ensures var x' := Advance(x, Get(s));
      && AckOf(x.H(), s.seqno + 1) in x'.sent && x.sent <= x'.sent && x'.next == x.next
      && x'.accepted == x.accepted + [s] && x'.log == x.log
      && x'.H() == x.H().(ackno := s.seqno + 1, saved := None,
                          outq := Outq(x.H().outq.written + s.data, [], false, false))
      && x'.web == x.web
      && x'.life.seenFin == x.life.seenFin
  {
    var h := x.H();
    var ack := AckOf(h, s.seqno + 1);
    assert Flatten([]) == [];
    assert s.data[..1] == s.data;
    assert Step(h, Get(s)) ==
           Effect(h.(ackno := s.seqno + 1, saved := None, outq := Outq(h.outq.written + s.data, [], false, false)), [ack]);
    hide Step;
    ArrivingAllIs(ack, ack, x.web);
    assert x.log + [] == x.log;
  }

  /** A bare ACK arrives: whatever it acknowledges, the saved segment is released. */
  lemma Released(x: Side, s: Segment)
    requires !x.H().deleted && x.H().connState == DataTransfer && !x.web && x.H().seqno == x.next
    requires s.Sized() && s.data == [] && s.ack && !s.fin && x.H().ackno == s.seqno
    ensures var x' := Advance(x, Get(s));
      && x'.sent == x.sent && x'.next == x.next && x'.accepted == x.accepted && x'.log == x.log
      && x'.H() == x.H().(saved := None) && x'.web == x.web
      && x'.life.seenFin == x.life.seenFin
  {
    assert Step(x.H(), Get(s)) == Effect(x.H().(saved := None), []);
    hide Step;
    ArrivingAllIs(s, s, x.web);
    assert x.log + [] == x.log && x.sent + {} == x.sent;
  }

  /** The input ends: a FIN goes out. */
  lemma Closes(x: Side)
    requires !x.H().deleted && x.H().connState == DataTransfer && x.H().saved.None? && !x.web
    requires x.H().seqno == x.next < 100
    ensures var s := FinOf(x.H(), x.H().ackno);
      var x' := Advance(x, ReadEvent(Eof, true));
      && s in x'.sent && x.sent <= x'.sent && x'.next == x.next + 1 && x'.log == x.log && x'.web == x.web
      && x'.H() == x.H().(readEof := true, connState := TearDown, seqno := x.H().seqno + 1, saved := Some(Saved(0, 0, s)))
      && x'.life.seenFin == x.life.seenFin && x'.life.sentFin
  {
    hide Read, Advance, SavesAnew, OutputsEof;
    var s, e := FinOf(x.H(), x.H().ackno), ReadEvent(Eof, true);
    ReadIs(x.H(), Eof, true);
    assert Step(x.H(), e) == Read(x.H(), Eof, true);
    SmallU32(x.H().seqno + 1);
    Recorded(x, e);
    AnyFinLast([], s);
    SentOne(x, e, s, 1);
    assert x.log + [] == x.log && [] + [s] == [s];
  }

  /** The peer's FIN arrives. */
  lemma ClosedBy(x: Side, s: Segment)
    requires !x.H().deleted && x.H().connState == DataTransfer && !x.H().outq.wroteEof && x.H().outq.NoEmptyChunk()
    requires s.Sized() && s.data == [] && s.fin && x.H().ackno <= s.seqno < 100 && x.H().seqno == x.next < 100 && !x.web
    ensures var x' := Advance(x, Get(s));
      && x'.H().connState == WaitLastAck && !x'.H().deleted && x'.life.sentFin && x'.next == x.next + 1
      && x'.H().outq == x.H().outq.(wroteEof := true) && x'.H().readEof == x.H().readEof && x'.accepted == x.accepted
      && AckOf(x.H(), s.seqno + 1) in x'.sent && FinOf(x.H(), s.seqno + 1) in x'.sent
  {
    hide Receive, Advance, Next, Outq.All, Outq.NoEmptyChunk, U32, TakesData, Skips;
    var h, e := x.H(), Get(s);
    var ack, fin := AckOf(h, s.seqno + 1), FinOf(h, s.seqno + 1);
    ReceiveInDataTransferIs(h, s, Wrote(1), true, true);
    assert Step(h, e) == Receive(h, s, Wrote(1), true, true);
    assert Step(h, e).sent == [ack, fin] && Step(h, e).host.outq == h.outq.(wroteEof := true);
    hide Step;
    Recorded(x, e);
    SentTwo(x, e, ack, fin);
    FinIsSent(x, e, ack, fin);
    NothingTaken(x, e);
  }

  lemma FinIsSent(x: Side, e: Event, ack: Segment, fin: Segment)
    requires Step(x.H(), e).sent == [ack, fin] && fin.fin
    ensures Advance(x, e).life.sentFin
  {
    hide Step;
    AnyFinLast([ack], fin);
    assert [ack] + [fin] == [ack, fin];
  }

  lemma NothingTaken(x: Side, e: Event)
    requires Step(x.H(), e).host.outq == x.H().outq.(wroteEof := true)
    ensures Advance(x, e).accepted == x.accepted
  {
    hide Step;
    EofAddsNothing(x.H().outq);
  }

  lemma EofAddsNothing(q: Outq)
    ensures q.(wroteEof := true).All() == q.All()
  {
  }

  /** An ACK arrives at a host that has sent its FIN. */
  lemma FinAcked(x: Side, s: Segment)
    requires !x.H().deleted && x.H().connState == TearDown && x.H().seqno == x.next
    requires s.Sized() && s.ack && !s.fin
    ensures var x' := Advance(x, Get(s));
      && x'.H() == x.H().(connState := WaitLastFin) && x'.sent == x.sent && x'.next == x.next && x'.log == x.log
      && x'.web == x.web
  {
    hide Advance;
    SentNothing(x, Get(s));
  }

  /** The peer's FIN arrives at a host that waits for it. */
  lemma LastFin(x: Side, s: Segment)
    requires !x.H().deleted && x.H().connState == WaitLastFin && x.H().seqno == x.next < 100 && !x.web
    requires s.Sized() && s.fin && s.seqno < 100
    ensures var x' := Advance(x, Get(s));
      && AckOf(x.H(), s.seqno + 1) in x'.sent && x'.log == x.log && x'.next == x.next
      && !x'.H().deleted && x'.H().tdState == WaitDestroy && x'.life.seenFin
  {
    hide Advance, Outq.All;
    var e := Get(s);
    assert Step(x.H(), e).sent == [AckOf(x.H(), s.seqno + 1)];
    SentOne(x, e, AckOf(x.H(), s.seqno + 1), 0);
    Recorded(x, e);
    assert x.log + [] == x.log;
  }

  /** The peer's FIN arrives at a host that has just sent its own. */
  lemma CrossedBy(x: Side, s: Segment)
    requires !x.H().deleted && x.H().connState == TearDown && s.Sized() && s.fin && !s.ack
    ensures var x' := Advance(x, Get(s));
      x'.H().deleted && x'.H().connState == TearDown && (x.life.sentFin ==> x'.life.sentFin)
  {
    hide Outq.All, SavesAnew, OutputsEof;
  }

  predicate Simple(x: Side, seqno: u32, ackno: u32, written: seq<byte>) {
    && !x.H().deleted && x.H().connState == DataTransfer && !x.H().readEof && !x.web && !x.life.seenFin
    && x.H().seqno == x.next == seqno && x.H().ackno == ackno
    && x.H().outq == Outq(written, [], false, false)
  }

  lemma WrittenIsAll(x: Side, seqno: u32, ackno: u32, written: seq<byte>)
    requires Simple(x, seqno, ackno, written)
    ensures x.H().outq.All() == written && x.H().outq.NoEmptyChunk()
  {
    assert Flatten([]) == [];
  }

  lemma AtStart(c: Config)
    requires !c.web
    ensures var w := Start(c, c);
      && Reached(c, [], w) && Simple(w.a, 1, 1, []) && Simple(w.b, 1, 1, [])
      && w.a.H().saved.None? && w.b.H().saved.None? && w.a.log == [] && w.b.log == []
  {
  }

  /** A's first byte has been output and acknowledged. */
  predicate FirstByteDone(w: World) {
    && Simple(w.a, 2, 1, []) && w.a.H().saved.None? && w.a.log == [Data(1, 1)] && Data(1, 1) in w.a.sent
    && Simple(w.b, 1, 2, [1]) && AckOf(w.b.H(), 2) in w.b.sent
  }

  lemma FirstByte() returns (acts: seq<Action>, w: World)
    ensures Reached(UNIX, acts, w) && FirstByteDone(w)
    ensures forall i :: 0 <= i < |acts| ==> !acts[i].event.TickEvent?
  {
    hide Advance, Reached, Outq.All;
    AtStart(UNIX);
    acts, w := [], Start(UNIX, UNIX);
    Reads(w.a, 1);
    acts, w := Goes(UNIX, acts, w, A, ReadEvent(Chars([1]), true));
    Takes(w.b, Data(1, 1));
    acts, w := Goes(UNIX, acts, w, B, Get(Data(1, 1)));
    Released(w.a, AckOf(w.b.H(), 2));
    acts, w := Goes(UNIX, acts, w, A, Get(AckOf(w.b.H(), 2)));
  }

  /**
   Without the condition on duplicated ACKs the prefix theorem fails: an ACK that arrives twice
   releases the second chunk too, and the output skips it.
   */
  lemma DuplicatedAckSkipsData() returns (acts: seq<Action>, w: World)
    ensures Reached(UNIX, acts, w) && (forall i :: 0 <= i < |acts| ==> !acts[i].event.TickEvent?)
    ensures w.a.log == [Data(1, 1), Data(2, 2), Data(3, 3)] && w.b.H().outq.All() == [1, 3]
  {
    hide Advance, Reached, Outq.All;
    acts, w := FirstByte();
    var ack := AckOf(w.b.H(), 2);
    Reads(w.a, 2);
    acts, w := Goes(UNIX, acts, w, A, ReadEvent(Chars([2]), true));
    Released(w.a, ack);
    acts, w := Goes(UNIX, acts, w, A, Get(ack));
    Reads(w.a, 3);
    acts, w := Goes(UNIX, acts, w, A, ReadEvent(Chars([3]), true));
    Takes(w.b, Data(3, 3));
    acts, w := Goes(UNIX, acts, w, B, Get(Data(3, 3)));
    assert w.b.H().outq.written == [1, 3];
    WrittenIsAll(w.b, 1, 4, [1, 3]);
  }

  /**
   Without the order of segments, teardown agreement fails: an old data segment that arrives once
   more destroys a host in `WAIT_LAST_ACK` whose FIN has not been acted on.
   */
  lemma OldSegmentPassesForLastAck() returns (acts: seq<Action>, w: World)
    ensures Reached(UNIX, acts, w)
    ensures w.b.H().deleted && w.b.H().connState == WaitLastAck && w.b.life.sentFin && !w.a.life.seenFin
  {
    hide Advance, Reached, Outq.All;
    acts, w := FirstByte();
    WrittenIsAll(w.b, 1, 2, [1]);
    Closes(w.a);
    var fin := FinOf(w.a.H(), 1);
    acts, w := Goes(UNIX, acts, w, A, ReadEvent(Eof, true));
    ClosedBy(w.b, fin);
    acts, w := Goes(UNIX, acts, w, B, Get(fin));
    Dies(w.b, Data(1, 1));
    acts, w := Goes(UNIX, acts, w, B, Get(Data(1, 1)));
  }

  lemma Dies(x: Side, s: Segment)
    requires !x.H().deleted && x.H().connState == WaitLastAck && s.Sized() && s.ack
    ensures var x' := Advance(x, Get(s));
      && x'.H() == x.H().(deleted := true) && (x.life.sentFin ==> x'.life.sentFin)
      && x'.accepted == x.accepted
  {
    Recorded(x, Get(s));
  }

  /**
   With traffic in both directions the prefix theorem fails: data that arrives releases the chunk
   that a host has saved, although its peer may not have it.
   */
  lemma ArrivingDataReleasesChunk() returns (acts: seq<Action>, w: World)
    ensures Reached(UNIX, acts, w) && (forall i :: 0 <= i < |acts| ==> !acts[i].event.TickEvent?)
    ensures w.a.log == [Data(1, 1), Segment(2, 2, HDR + 1, false, true, [2])] && w.b.H().outq.All() == [2]
  {
    hide Advance, Reached, Outq.All;
    AtStart(UNIX);
    acts, w := [], Start(UNIX, UNIX);
    Reads(w.a, 1);
    acts, w := Goes(UNIX, acts, w, A, ReadEvent(Chars([1]), true));
    Reads(w.b, 9);
    acts, w := Goes(UNIX, acts, w, B, ReadEvent(Chars([9]), true));
    Takes(w.a, Data(1, 9));
    acts, w := Goes(UNIX, acts, w, A, Get(Data(1, 9)));
    Reads(w.a, 2);
    acts, w := Goes(UNIX, acts, w, A, ReadEvent(Chars([2]), true));
    var s := Segment(2, 2, HDR + 1, false, true, [2]);
    Takes(w.b, s);
    acts, w := Goes(UNIX, acts, w, B, Get(s));
    assert w.b.H().outq.written == [2];
    WrittenIsAll(w.b, 2, 3, [2]);
  }

  /** The saved segment after `n` ticks with the shipped intervals: it goes out on ticks 5 to 9, and the ninth drops it. */
  function SavedAfter(n: nat, s: Segment): Option<Saved>
    requires n <= 9
  {
    if n == 9 then None else Some(Saved(if n < 5 then 0 else n - 4, 40 * n, s))
  }

  lemma Waits(x: Side, s: Segment, n: nat)
    requires !x.H().deleted && x.H().tdState == NotTeardown && x.H().timer == 40 && x.H().rtTimeout == 200 && n < 9
    requires x.H().saved == SavedAfter(n, s) && s in x.sent && s.ack && !x.web && x.H().seqno == x.next
    ensures var x' := Advance(x, TickEvent(true));
      && x'.H() == x.H().(saved := SavedAfter(n + 1, s))
      && x'.sent == x.sent && x'.log == x.log && x'.next == x.next && x'.web == x.web && x'.life.seenFin == x.life.seenFin
  {
    var e := TickEvent(true);
    assert Step(x.H(), e) == Effect(x.H().(saved := SavedAfter(n + 1, s)), if n < 4 then [] else [s]);
    hide Step, SavedAfter, Advance, U32;
    Recorded(x, e);
    SmallU32(x.H().seqno);
    if n < 4 {
      SentNothing(x, e);
    } else {
      SentOne(x, e, s, 0);
      assert x.log + [] == x.log && Arriving(s, x.web) == s && x.sent + {s} == x.sent;
    }
  }

  /** After a give-up the prefix theorem fails: the chunk is dropped, and the next one is accepted in its place. */
  lemma GiveUpSkipsData() returns (acts: seq<Action>, w: World)
    ensures Reached(UNIX, acts, w) && w.a.log == [Data(1, 1), Data(2, 2)] && w.b.H().outq.All() == [2]
  {
    hide Advance, Reached, Outq.All;
    AtStart(UNIX);
    acts, w := [], Start(UNIX, UNIX);
    Reads(w.a, 1);
    acts, w := Goes(UNIX, acts, w, A, ReadEvent(Chars([1]), true));
    var n := 0;
    while n < 9
      invariant 0 <= n <= 9 && Reached(UNIX, acts, w) && w.b == Start(UNIX, UNIX).b
      invariant Simple(w.a, 2, 1, []) && w.a.log == [Data(1, 1)] && Data(1, 1) in w.a.sent
      invariant w.a.H().tdState == NotTeardown && w.a.H().timer == 40 && w.a.H().rtTimeout == 200
      invariant w.a.H().saved == SavedAfter(n, Data(1, 1))
    {
      Waits(w.a, Data(1, 1), n);
      acts, w := Goes(UNIX, acts, w, A, TickEvent(true));
      n := n + 1;
    }
    Reads(w.a, 2);
    acts, w := Goes(UNIX, acts, w, A, ReadEvent(Chars([2]), true));
    Takes(w.b, Data(2, 2));
    acts, w := Goes(UNIX, acts, w, B, Get(Data(2, 2)));
    assert w.b.H().outq.written == [2];
    WrittenIsAll(w.b, 1, 3, [2]);
  }

  /** A byte arrives while `write` would block: it is queued, and acknowledged. */
  lemma Queues(x: Side, s: Segment)
    requires !x.H().deleted && x.H().connState == DataTransfer && !x.web
    requires x.H().outq == EMPTY && x.H().seqno == x.next
    requires s.Sized() && |s.data| == 1 && s.ack && !s.fin && x.H().ackno <= s.seqno < 100
    ensures var x' := Advance(x, ReceiveEvent(s, Again, true, true));
      && AckOf(x.H(), s.seqno + 1) in x'.sent && x'.next == x.next && x'.web == x.web
      && x'.accepted == x.accepted + [s] && x'.life.seenFin == x.life.seenFin
      && x'.H() == x.H().(ackno := s.seqno + 1, saved := None, outq := Outq([], [s.data], false, false))
  {
    var h, e := x.H(), ReceiveEvent(s, Again, true, true);
    var ack := AckOf(h, s.seqno + 1);
    assert Flatten([]) == [] && [] + [s.data] == [s.data] && Flatten([s.data]) == s.data + Flatten([]);
    assert Step(h, e) == Effect(h.(ackno := s.seqno + 1, saved := None, outq := Outq([], [s.data], false, false)), [ack]);
    hide Step, Advance, U32;
    SmallU32(h.seqno);
    Recorded(x, e);
    SentOne(x, e, ack, 0);
  }

  /**
   Nothing is lost, duplicated or reordered, and yet a byte is never output: it is queued when the last
   ACK destroys the host, which has not read its own input to the end either.
   */
  lemma QueuedOutputIsDropped() returns (acts: seq<Action>, w: World)
    ensures Reached(UNIX, acts, w) && w.a.log == [Data(1, 1)] && w.b.accepted == [Data(1, 1)]
    ensures w.b.H().deleted && w.b.H().connState == WaitLastAck && w.b.H().outq == Outq([], [[1]], true, false)
    ensures !w.b.H().readEof && w.a.H().tdState == WaitDestroy && w.a.life.seenFin
  {
    hide Advance, Reached, Outq.All;
    AtStart(UNIX);
    acts, w := [], Start(UNIX, UNIX);
    Reads(w.a, 1);
    acts, w := Goes(UNIX, acts, w, A, ReadEvent(Chars([1]), true));
    Queues(w.b, Data(1, 1));
    acts, w := Goes(UNIX, acts, w, B, ReceiveEvent(Data(1, 1), Again, true, true));
    Released(w.a, AckOf(w.b.H(), 2));
    acts, w := Goes(UNIX, acts, w, A, Get(AckOf(w.b.H(), 2)));
    Closes(w.a);
    var fin := FinOf(w.a.H(), 1);
    acts, w := Goes(UNIX, acts, w, A, ReadEvent(Eof, true));
    var ackB, finB := AckOf(w.b.H(), 3), FinOf(w.b.H(), 3);
    ClosedBy(w.b, fin);
    acts, w := Goes(UNIX, acts, w, B, Get(fin));
    FinAcked(w.a, ackB);
    acts, w := Goes(UNIX, acts, w, A, Get(ackB));
    var last := AckOf(w.a.H(), 2);
    LastFin(w.a, finB);
    acts, w := Goes(UNIX, acts, w, A, Get(finB));
    Dies(w.b, last);
    acts, w := Goes(UNIX, acts, w, B, Get(last));
  }

  /** Both hosts close at once: the peer's FIN destroys a host whose own FIN has not been acted on. */
  lemma CrossingFinDestroys() returns (acts: seq<Action>, w: World)
    ensures Reached(UNIX, acts, w)
    ensures w.a.H().deleted && w.a.H().connState == TearDown && w.a.life.sentFin && !w.b.life.seenFin
  {
    hide Advance, Reached, Outq.All;
    AtStart(UNIX);
    acts, w := [], Start(UNIX, UNIX);
    Closes(w.a);
    acts, w := Goes(UNIX, acts, w, A, ReadEvent(Eof, true));
    Closes(w.b);
    var fin := FinOf(w.b.H(), 1);
    acts, w := Goes(UNIX, acts, w, B, ReadEvent(Eof, true));
    CrossedBy(w.a, fin);
    acts, w := Goes(UNIX, acts, w, A, Get(fin));
  }
}

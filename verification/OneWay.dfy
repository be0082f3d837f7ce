/**
 Reliable delivery in one direction. Host A only sends and host B only receives. The channel to B
 may lose, duplicate, reorder and delay; the channel to A may lose, reorder and delay, but it does
 not duplicate: `acks` holds what is on its way. Sends by `ctcp_read` succeed, and A has not yet
 given a segment up.
 */
module OneWay {
  import opened Bytes
  import opened OutputQueue
  import opened Segments
  import opened Connections
  import opened HostModel
  import opened Lives
  import opened Outcomes
  import opened Worlds

  /** Both hosts, what is on its way to A, and what A has read from its input. */
  datatype Net = Net(w: World, acks: seq<Segment>, input: seq<byte>)

  datatype Move =
    | SenderReads(result: InputResult)
    | SenderTicks(ok: bool)
    | AckArrives(i: nat, wr: WriteResult, ok1: bool, ok2: bool)
    | AckLost(i: nat)
    | ReceiverDoes(event: Event)

  /** The tick on which a saved segment is given up. */
  predicate GivesUp(h: Host) {
    h.saved.Some? && Tick(h, true).host.saved.None?
  }

  predicate Possible(n: Net, m: Move) {
    match m
    case SenderReads(_) => true
    case SenderTicks(_) => !GivesUp(n.w.a.H())
    case AckArrives(i, _, _, _) => i < |n.acks| && n.acks[i].Sized()
    case AckLost(i) => i < |n.acks|
    case ReceiverDoes(e) => !e.ReadEvent? && (e.ReceiveEvent? ==> e.segment in n.w.a.sent)
  }

  /** What `ctcp_read` takes from the input. */
  function Consumed(h: Host, result: InputResult): seq<byte> {
    if !h.deleted && h.saved.None? && !h.readEof && result.Chars? then result.buf else []
  }

  function Moved(n: Net, m: Move): Net
    requires Possible(n, m)
  {
    match m
    case SenderReads(result) =>
      n.(w := n.w.(a := Advance(n.w.a, ReadEvent(result, true))), input := n.input + Consumed(n.w.a.H(), result))
    case SenderTicks(ok) =>
      n.(w := n.w.(a := Advance(n.w.a, TickEvent(ok))))
    case AckArrives(i, wr, ok1, ok2) =>
      Net(n.w.(a := Advance(n.w.a, ReceiveEvent(n.acks[i], wr, ok1, ok2))), Removed(n.acks, i), n.input)
    case AckLost(i) =>
      n.(acks := Removed(n.acks, i))
    case ReceiverDoes(e) =>
      Net(n.w.(b := Advance(n.w.b, e)), n.acks + Arrivals(Step(n.w.b.H(), e).sent, n.w.b.web), n.input)
  }

  predicate Legal(n: Net, moves: seq<Move>)
    decreases |moves|
  {
    moves == [] || (Possible(n, moves[0]) && Legal(Moved(n, moves[0]), moves[1..]))
  }

  function Exec(n: Net, moves: seq<Move>): Net
    requires Legal(n, moves)
    decreases |moves|
  {
    if moves == [] then n else Exec(Moved(n, moves[0]), moves[1..])
  }

  function Start(ca: Config, cb: Config): Net {
    Net(Worlds.Start(ca, cb), [], [])
  }

  // ---------- the invariant ----------

  /** Nothing is outstanding. */
  predicate Settled(n: Net) {
    var a, b := n.w.a, n.w.b;
    a.H().saved.None? && b.H().ackno == a.next && b.H().outq.All() == DataOf(a.log) && n.acks == []
  }

  /** The last chunk is saved, and B has either not output it yet or has sent at most one ACK for it. */
  predicate Outstanding(n: Net) {
    var a, b := n.w.a, n.w.b;
    && a.H().saved.Some? && a.log != []
    && a.H().saved.value.segment == a.log[|a.log| - 1]
    && End(a.log[|a.log| - 1]) == a.next
    && (if b.H().ackno == a.next then b.H().outq.All() == DataOf(a.log) && |n.acks| <= 1
        else b.H().ackno == a.log[|a.log| - 1].seqno && b.H().outq.All() == DataOf(a.log[..|a.log| - 1]) && n.acks == [])
  }

  predicate Transferring(n: Net) {
    var a, b := n.w.a, n.w.b;
    && (forall s :: s in a.sent ==> !s.fin && (s.data == [] ==> s.seqno <= b.H().ackno))
    && (forall s :: s in b.sent ==> !s.fin && s.data == [])
    && b.H().connState == DataTransfer && b.H().saved.None?
    && (Settled(n) || Outstanding(n))
  }

  /** A has read its input to the end and sent its FIN: everything was output before that. */
  predicate Closing(n: Net) {
    var a, b := n.w.a, n.w.b;
    && b.H().outq.All() == DataOf(a.log)
    && a.H().saved.Some? && a.H().saved.value.segment.fin && a.H().readEof
    && (b.H().connState == DataTransfer ==> forall i :: 0 <= i < |a.log| ==> a.log[i].seqno < b.H().ackno)
  }

  predicate NetInv(n: Net) {
    && Inv(n.w)
    && n.input == DataOf(n.w.a.log)
    && (forall i :: 0 <= i < |n.acks| ==> n.acks[i] in n.w.b.sent)
    && (if n.w.a.H().connState == DataTransfer then Transferring(n) else Closing(n))
  }

  // ---------- what each move does ----------

  /** The records of the sender are as before. */
  predicate SameRecords(x: Side, x': Side) {
    x'.sent == x.sent && x'.log == x.log && x'.next == x.next
  }

  /** What `ctcp_read` does to the records of the sender. */
  predicate HasRead(x: Side, x': Side, result: InputResult) {
    var h := x.H();
    if h.saved.Some? then SameRecords(x, x') && x'.H() == h
    else if h.readEof || result.Eof? then
      && x'.sent == x.sent + {Arriving(FinOf(h, h.ackno), x.web)} && x'.log == x.log
      && x'.H().connState == TearDown && x'.H().saved == Some(Saved(0, 0, FinOf(h, h.ackno))) && x'.H().readEof
    else
      var s := Segment(h.seqno, h.ackno, HDR + |result.buf|, false, true, result.buf);
      && x'.sent == x.sent + {s} && x'.next == End(s)
      && x'.log == (if result.buf == [] then x.log else x.log + [s])
      && x'.H().connState == h.connState
      && x'.H().saved == if result.buf == [] then None else Some(Saved(0, 0, s))
  }

  lemma ReadAdvances(x: Side, result: InputResult)
    requires SenderInv(x) && !x.H().deleted && Advance(x, ReadEvent(result, true)).next < U32_MOD
    ensures HasRead(x, Advance(x, ReadEvent(result, true)), result)
  {
    hide Read, Advance, U32;
    var h, e := x.H(), ReadEvent(result, true);
    var f := Step(h, e);
    assert f == Read(h, result, true);
    ReadIs(h, result, true);
    NumbersAgree(x);
    SmallU32(h.seqno);
    hide Step, SenderInv;
    if f.sent == [] {
      SentNothing(x, e);
    } else if f.sent[0].fin {
      SentOne(x, e, f.sent[0], 1);
    } else {
      SentOne(x, e, f.sent[0], |f.sent[0].data|);
      NumbersUsed(h.seqno, |f.sent[0].data|);
    }
    assert x.log + [] == x.log;
  }

  lemma LogBelow(x: Side, ackno: u32)
    requires SenderInv(x) && ackno == x.next
    ensures forall i :: 0 <= i < |x.log| ==> x.log[i].seqno < ackno
  {
    forall i | 0 <= i < |x.log|
      ensures x.log[i].seqno < ackno
    {
      assert DataSegment(x.log[i]) && End(x.log[i]) <= x.next;
    }
  }

  lemma AfterData(n: Net, n': Net, s: Segment)
    requires Transferring(n) && Settled(n)
    requires n'.w.b == n.w.b && n'.acks == [] && !s.fin && s.seqno == n.w.a.next
    requires n'.w.a.sent == n.w.a.sent + {s} && n'.w.a.next == End(s)
    requires if s.data == [] then n'.w.a.log == n.w.a.log && n'.w.a.H().saved.None?
             else n'.w.a.log == n.w.a.log + [s] && n'.w.a.H().saved == Some(Saved(0, 0, s))
    ensures Transferring(n')
  {
    var k := |n.w.a.log|;
    if s.data != [] {
      assert n'.w.a.log[k] == s && n'.w.a.log[..k] == n.w.a.log;
    }
  }

  lemma AfterFin(n: Net, n': Net)
    requires Transferring(n) && Settled(n) && SenderInv(n.w.a)
    requires n'.w.b == n.w.b && n'.w.a.log == n.w.a.log
    requires n'.w.a.H().saved.Some? && n'.w.a.H().saved.value.segment.fin && n'.w.a.H().readEof
    ensures Closing(n')
  {
    LogBelow(n.w.a, n.w.b.H().ackno);
  }

  lemma InputFollows(n: Net, n': Net, s: Segment)
    requires n.input == DataOf(n.w.a.log) && n'.input == n.input + s.data
    requires n'.w.a.log == if s.data == [] then n.w.a.log else n.w.a.log + [s]
    ensures n'.input == DataOf(n'.w.a.log)
  {
    DataOfSnoc(n.w.a.log, s);
  }

  lemma SenderReadsStep(n: Net, result: InputResult)
    requires NetInv(n) && Unwrapped(n.w) && Unwrapped(Moved(n, SenderReads(result)).w)
    ensures NetInv(Moved(n, SenderReads(result)))
  {
    hide Advance, Inv, Outq.All, Transferring, Closing;
    var n', e := Moved(n, SenderReads(result)), ReadEvent(result, true);
    InvStep(n.w, Action(A, e));
    assert n'.w == Apply(n.w, Action(A, e)) && n.input + [] == n.input;
    if n.w.a.H().deleted {
      Idle(n.w.a, e);
      Untouched(n, n');
    } else {
      InvParts(n.w);
      ReadAdvances(n.w.a, result);
      ReadsOn(n, n', result);
    }
  }

  lemma ReadsOn(n: Net, n': Net, result: InputResult)
    requires NetInv(n) && Inv(n'.w) && n'.w.b == n.w.b && n'.acks == n.acks
    requires n'.input == n.input + Consumed(n.w.a.H(), result) && !n.w.a.H().deleted && SenderInv(n.w.a)
    requires HasRead(n.w.a, n'.w.a, result)
    ensures NetInv(n')
  {
    hide Inv, Outq.All, Transferring, Closing, SenderInv;
    var h := n.w.a.H();
    assert n.input + [] == n.input;
    if h.saved.Some? {
      Untouched(n, n');
    } else {
      ReadingMeansSettled(n);
      if h.readEof || result.Eof? {
        AfterFin(n, n');
      } else {
        var s := Segment(h.seqno, h.ackno, HDR + |result.buf|, false, true, result.buf);
        NumbersAgree(n.w.a);
        AfterData(n, n', s);
        InputFollows(n, n', s);
      }
    }
  }

  /** A has nothing saved only while it transfers and nothing is outstanding. */
  lemma ReadingMeansSettled(n: Net)
    requires NetInv(n) && n.w.a.H().saved.None?
    ensures n.w.a.H().connState == DataTransfer && Transferring(n) && Settled(n) && SenderInv(n.w.a)
  {
  }

  /** Nothing that the invariant speaks of has changed. */
  lemma Untouched(n: Net, n': Net)
    requires NetInv(n) && Inv(n'.w) && n'.w.b == n.w.b && SameRecords(n.w.a, n'.w.a)
    requires n'.w.a.H().connState == n.w.a.H().connState && n'.w.a.H().readEof == n.w.a.H().readEof
    requires n'.w.a.H().saved.Some? == n.w.a.H().saved.Some?
    requires n.w.a.H().saved.Some? ==> n'.w.a.H().saved.value.segment == n.w.a.H().saved.value.segment
    requires n'.input == n.input
    requires n'.acks == n.acks || exists i :: 0 <= i < |n.acks| && n'.acks == Removed(n.acks, i)
    ensures NetInv(n')
  {
    hide Inv;
  }

  lemma Idle(x: Side, e: Event)
    requires x.H().deleted
    ensures SameRecords(x, Advance(x, e)) && Advance(x, e).H() == x.H()
  {
    hide Advance;
    SentNothing(x, e);
  }

  lemma TickAdvances(x: Side, ok: bool)
    requires SenderInv(x) && !x.H().deleted
    ensures var x' := Advance(x, TickEvent(ok));
      && SameRecords(x, x') && x'.H().connState == x.H().connState && x'.H().readEof == x.H().readEof
      && x'.H().saved == Tick(x.H(), true).host.saved
      && (x'.H().saved.Some? ==> x.H().saved.Some? && x'.H().saved.value.segment == x.H().saved.value.segment)
  {
    hide Tick, Advance, U32;
    var h, e := x.H(), TickEvent(ok);
    var f := Step(h, e);
    assert f == Tick(h, ok);
    TickIs(h, ok);
    TickSends(h, ok);
    SmallU32(h.seqno);
    if f.sent == [] {
      SentNothing(x, e);
    } else {
      SavedIsSent(x);
      SentOne(x, e, f.sent[0], 0);
      assert x.log + [] == x.log && x.sent + {Arriving(f.sent[0], x.web)} == x.sent;
    }
  }

  lemma SenderTicksStep(n: Net, ok: bool)
    requires NetInv(n) && !GivesUp(n.w.a.H()) && Unwrapped(n.w) && Unwrapped(Moved(n, SenderTicks(ok)).w)
    ensures NetInv(Moved(n, SenderTicks(ok)))
  {
    var a, e := n.w.a, TickEvent(ok);
    var n' := Moved(n, SenderTicks(ok));
    InvStep(n.w, Action(A, e));
    assert n'.w == Apply(n.w, Action(A, e));
    if a.H().deleted {
      Idle(a, e);
    } else {
      TickAdvances(a, ok);
    }
    Untouched(n, n');
  }

  /** Reception at A while data is transferred: all that B sends then are bare ACKs. */
  lemma BareAckAdvances(x: Side, s: Segment, wr: WriteResult, ok1: bool, ok2: bool)
    requires x.H().connState == DataTransfer && !x.H().deleted && EofInv(x.life)
    requires s.Sized() && s.data == [] && !s.fin && x.H().seqno == x.next
    ensures var x' := Advance(x, ReceiveEvent(s, wr, ok1, ok2));
      && SameRecords(x, x') && x'.H().connState == DataTransfer && x'.H().readEof == x.H().readEof
      && (x'.H().saved == x.H().saved || x'.H().saved.None?)
  {
    hide Receive, Advance, Outq.All, Outq.NoEmptyChunk;
    ReceiveInDataTransferIs(x.H(), s, wr, ok1, ok2);
    SentNothing(x, ReceiveEvent(s, wr, ok1, ok2));
  }

  lemma LateAckAdvances(x: Side, s: Segment, wr: WriteResult, ok1: bool, ok2: bool)
    requires x.H().connState != DataTransfer && !x.H().deleted && s.Sized() && End(s) < U32_MOD
    ensures var x' := Advance(x, ReceiveEvent(s, wr, ok1, ok2));
      && x'.log == x.log && x'.H().connState != DataTransfer && x'.H().saved == x.H().saved
      && x'.H().readEof == x.H().readEof
  {
    hide Receive, Advance, Next, U32, Outq.All;
    var e := ReceiveEvent(s, wr, ok1, ok2);
    ReceiveElsewhereIs(x.H(), s, wr, ok1, ok2);
    Recorded(x, e);
    assert x.log + [] == x.log;
  }

  lemma AckReleases(n: Net, n': Net, i: nat)
    requires Transferring(n) && i < |n.acks| && n'.acks == Removed(n.acks, i)
    requires n'.w.b == n.w.b && SameRecords(n.w.a, n'.w.a) && n'.w.a.H().saved.None?
    ensures Transferring(n')
  {
  }

  /** A segment that arrives once A has sent its FIN changes nothing that matters. */
  lemma SenderStaysClosed(n: Net, n': Net, i: nat)
    requires NetInv(n) && Inv(n'.w) && n.w.a.H().connState != DataTransfer
    requires i < |n.acks| && n'.acks == Removed(n.acks, i) && n'.w.b == n.w.b && n'.input == n.input
    requires n'.w.a.log == n.w.a.log && n'.w.a.H().saved == n.w.a.H().saved && n'.w.a.H().connState != DataTransfer
    requires n'.w.a.H().readEof == n.w.a.H().readEof
    ensures NetInv(n')
  {
    hide Inv, Outq.All;
  }

  lemma AckEvent(n: Net, i: nat)
    requires NetInv(n) && i < |n.acks|
    ensures var s := n.acks[i];
      && s in n.w.b.sent && Sendable(n.w.b.next, n.w.b.log, s)
      && (n.w.a.H().connState == DataTransfer ==> s.data == [] && !s.fin)
      && EofInv(n.w.a.life) && n.w.a.H().seqno == n.w.a.next
  {
    assert SenderInv(n.w.b);
  }

  /** Everything but the invariant that is asked of the arrival of `n.acks[i]`, and what it gives. */
  predicate Arrival(n: Net, n': Net, i: nat, wr: WriteResult, ok1: bool, ok2: bool) {
    && NetInv(n) && Inv(n'.w) && i < |n.acks| && n.acks[i].Sized()
    && n' == Net(n.w.(a := Advance(n.w.a, ReceiveEvent(n.acks[i], wr, ok1, ok2))), Removed(n.acks, i), n.input)
  }

  lemma ArrivalTransferring(n: Net, n': Net, i: nat, wr: WriteResult, ok1: bool, ok2: bool)
    requires Arrival(n, n', i, wr, ok1, ok2) && n.w.a.H().connState == DataTransfer && !n.w.a.H().deleted
    ensures NetInv(n')
  {
    hide Inv, EofInv, SenderInv, Advance, Outq.All, Transferring, Closing;
    AckEvent(n, i);
    BareAckAdvances(n.w.a, n.acks[i], wr, ok1, ok2);
    if n'.w.a.H().saved == n.w.a.H().saved {
      Untouched(n, n');
    } else {
      AckReleases(n, n', i);
    }
  }

  lemma ArrivalClosing(n: Net, n': Net, i: nat, wr: WriteResult, ok1: bool, ok2: bool)
    requires Arrival(n, n', i, wr, ok1, ok2) && n.w.a.H().connState != DataTransfer && !n.w.a.H().deleted
    requires Unwrapped(n.w)
    ensures NetInv(n')
  {
    hide Inv, EofInv, SenderInv, Advance, Outq.All, Transferring, Closing;
    AckEvent(n, i);
    LateAckAdvances(n.w.a, n.acks[i], wr, ok1, ok2);
    SenderStaysClosed(n, n', i);
  }

  lemma ArrivalIdle(n: Net, n': Net, i: nat, wr: WriteResult, ok1: bool, ok2: bool)
    requires Arrival(n, n', i, wr, ok1, ok2) && n.w.a.H().deleted
    ensures NetInv(n')
  {
    hide Inv, EofInv, SenderInv, Advance, Outq.All, Transferring, Closing;
    Idle(n.w.a, ReceiveEvent(n.acks[i], wr, ok1, ok2));
    Untouched(n, n');
  }

  lemma AckArrivesStep(n: Net, i: nat, wr: WriteResult, ok1: bool, ok2: bool)
    requires Possible(n, AckArrives(i, wr, ok1, ok2)) && NetInv(n)
    requires Unwrapped(n.w) && Unwrapped(Moved(n, AckArrives(i, wr, ok1, ok2)).w)
    ensures NetInv(Moved(n, AckArrives(i, wr, ok1, ok2)))
  {
    hide Inv, EofInv, SenderInv, Advance, Transferring, Closing;
    var e := ReceiveEvent(n.acks[i], wr, ok1, ok2);
    var n' := Moved(n, AckArrives(i, wr, ok1, ok2));
    AckEvent(n, i);
    InvStep(n.w, Action(A, e));
    assert n'.w == Apply(n.w, Action(A, e));
    assert Arrival(n, n', i, wr, ok1, ok2);
    hide Arrival, NetInv;
    if n.w.a.H().deleted {
      ArrivalIdle(n, n', i, wr, ok1, ok2);
    } else if n.w.a.H().connState == DataTransfer {
      ArrivalTransferring(n, n', i, wr, ok1, ok2);
    } else {
      ArrivalClosing(n, n', i, wr, ok1, ok2);
    }
  }

  lemma AckLostStep(n: Net, i: nat)
    requires NetInv(n) && i < |n.acks|
    ensures NetInv(Moved(n, AckLost(i)))
  {
    Untouched(n, Moved(n, AckLost(i)));
  }

  // ---------- the receiver ----------

  /** Nothing that the invariant speaks of has changed at B. */
  lemma ReceiverUntouched(n: Net, n': Net)
    requires NetInv(n) && Inv(n'.w) && n'.w.a == n.w.a && n'.input == n.input
    requires n'.w.b.sent == n.w.b.sent && n'.acks == n.acks
    requires n'.w.b.H().connState == n.w.b.H().connState && n'.w.b.H().ackno == n.w.b.H().ackno
    requires n'.w.b.H().saved == n.w.b.H().saved || n'.w.b.H().saved.None?
    requires n'.w.b.H().outq.All() == n.w.b.H().outq.All()
    ensures NetInv(n')
  {
    hide Inv, Outq.All;
  }

  /** The one segment that B can accept is the saved one. */
  lemma AcceptsOnlySaved(n: Net, s: Segment)
    requires NetInv(n) && n.w.a.H().connState == DataTransfer
    requires s in n.w.a.sent && s.data != [] && s.seqno >= n.w.b.H().ackno
    ensures Outstanding(n) && s == n.w.a.log[|n.w.a.log| - 1] && n.w.b.H().ackno == s.seqno
  {
    hide EofInv, Outq.All, ReceiverInv;
    var a := n.w.a;
    assert Sendable(a.next, a.log, s);
    var j :| 0 <= j < |a.log| && a.log[j] == s;
    assert DataSegment(s);
    assert n.w.b.H().ackno != a.next;
    var k := |a.log| - 1;
    assert Ordered(a.log);
  }

  /** Once A has sent its FIN, B accepts nothing. */
  lemma AcceptsNothing(n: Net, s: Segment)
    requires NetInv(n) && n.w.a.H().connState != DataTransfer && n.w.b.H().connState == DataTransfer
    requires s in n.w.a.sent && s.data != []
    ensures s.seqno < n.w.b.H().ackno
  {
    assert Sendable(n.w.a.next, n.w.a.log, s);
  }

  /** Once A has sent its FIN, nothing B does changes what it has output. */
  lemma ReceiverWhileClosing(n: Net, e: Event)
    requires NetInv(n) && n.w.a.H().connState != DataTransfer && Possible(n, ReceiverDoes(e))
    requires Unwrapped(n.w) && Inv(Moved(n, ReceiverDoes(e)).w)
    ensures NetInv(Moved(n, ReceiverDoes(e)))
  {
    var a, b := n.w.a, n.w.b;
    assert e.ReceiveEvent? ==> Sendable(a.next, a.log, e.segment);
    EventTook(a, b, e);
    if TakesData(b.H(), Step(b.H(), e).host, e) {
      AcceptsNothing(n, e.segment);
      assert false;
    }
    NextHost(b.life, e);
    ArrivalsAreSent(b, e);
    StaysClosed(n, Moved(n, ReceiverDoes(e)), Step(b.H(), e).sent);
  }

  lemma StaysClosed(n: Net, n': Net, sent: seq<Segment>)
    requires NetInv(n) && n.w.a.H().connState != DataTransfer
    requires Inv(n'.w) && n'.w.a == n.w.a && n'.input == n.input
    requires n.w.b.sent <= n'.w.b.sent && n'.acks == n.acks + Arrivals(sent, n.w.b.web)
    requires forall i :: 0 <= i < |sent| ==> Arrivals(sent, n.w.b.web)[i] in n'.w.b.sent
    requires n'.w.b.H().outq.All() == n.w.b.H().outq.All()
    requires n'.w.b.H().connState == DataTransfer ==>
               n.w.b.H().connState == DataTransfer && n'.w.b.H().ackno >= n.w.b.H().ackno
    ensures NetInv(n')
  {
    hide Inv, Outq.All;
  }

  /** B's step has put nothing on the wire. */
  lemma Silent(n: Net, e: Event)
    requires Step(n.w.b.H(), e).sent == []
    ensures n.acks + Arrivals(Step(n.w.b.H(), e).sent, n.w.b.web) == n.acks
    ensures Advance(n.w.b, e).sent == n.w.b.sent
  {
    hide Step;
    ArrivingAllIs(FinOf(n.w.b.H(), 0), FinOf(n.w.b.H(), 0), n.w.b.web);
    assert n.w.b.sent + {} == n.w.b.sent;
  }

  /** Ticks and drains at B while data is transferred. */
  lemma ReceiverTicksOrDrains(n: Net, e: Event)
    requires Possible(n, ReceiverDoes(e)) && (e.TickEvent? || e.DrainEvent?)
    requires NetInv(n) && n.w.a.H().connState == DataTransfer
    requires Inv(Moved(n, ReceiverDoes(e)).w)
    ensures NetInv(Moved(n, ReceiverDoes(e)))
  {
    hide Inv, Tick, Outq.All, Swap32;
    var b := n.w.b;
    var n' := Moved(n, ReceiverDoes(e));
    assert EofInv(b.life) by { assert Inv(n.w) ==> EofInv(b.life) by { InvParts(n.w); } }
    if e.TickEvent? {
      TickIs(b.H(), e.ok);
    } else {
      DrainConserves(b.H().outq, e.ws);
    }
    NextHost(b.life, e);
    Silent(n, e);
    ReceiverUntouched(n, n');
  }

  lemma InvParts(w: World)
    requires Inv(w)
    ensures SenderInv(w.a) && SenderInv(w.b) && ReceiverInv(w.a, w.b) && EofInv(w.b.life) && EofInv(w.a.life)
  {
  }

  /** B outputs the saved chunk and sends one ACK for it. */
  lemma ChunkDelivered(n: Net, n': Net, s: Segment)
    requires Transferring(n) && Outstanding(n) && s == n.w.a.log[|n.w.a.log| - 1] && n.w.b.H().ackno == s.seqno
    requires s.data != []
    requires n'.w.a == n.w.a && |n'.acks| <= 1
    requires n'.w.b.H().connState == DataTransfer && n'.w.b.H().saved.None? && n'.w.b.H().ackno == End(s)
    requires n'.w.b.H().outq.All() == n.w.b.H().outq.All() + s.data
    requires forall t :: t in n'.w.b.sent ==> t in n.w.b.sent || (!t.fin && t.data == [])
    ensures Transferring(n')
  {
    hide Outq.All;
    var k := |n.w.a.log| - 1;
    DataOfSnoc(n.w.a.log[..k], s);
    assert n.w.a.log[..k] + [s] == n.w.a.log;
  }

  lemma AnswerIsBare(n: Net, e: Event, ackno: u32)
    requires Step(n.w.b.H(), e).sent == [] || Step(n.w.b.H(), e).sent == [AckOf(n.w.b.H(), ackno)]
    ensures |Arrivals(Step(n.w.b.H(), e).sent, n.w.b.web)| <= 1
    ensures forall t :: t in Advance(n.w.b, e).sent ==> t in n.w.b.sent || (!t.fin && t.data == [])
  {
    hide Step;
    ArrivingAllIs(AckOf(n.w.b.H(), ackno), AckOf(n.w.b.H(), ackno), n.w.b.web);
  }

  /** What B makes of a segment while data is transferred: nothing, or it outputs the saved chunk. */
  lemma ReceptionOf(n: Net, e: Event)
    requires NetInv(n) && n.w.a.H().connState == DataTransfer && e.ReceiveEvent? && e.segment in n.w.a.sent
    requires Unwrapped(n.w) && !n.w.b.H().deleted
    ensures var h, f, s := n.w.b.H(), Step(n.w.b.H(), e), e.segment;
      if f.host.ackno != h.ackno then
        && Delivered(h, s, f, e.ok1) && s.data != [] && Outstanding(n)
        && s == n.w.a.log[|n.w.a.log| - 1] && h.ackno == s.seqno
      else
        && f.sent == [] && f.host.connState == h.connState && f.host.ackno == h.ackno
        && (f.host.saved == h.saved || f.host.saved.None?) && f.host.outq.All() == h.outq.All()
  {
    hide Receive, Advance, Outq.All, Outq.NoEmptyChunk, EofInv, SenderInv, ReceiverInv, Outstanding, Settled;
    var a, b, s := n.w.a, n.w.b, e.segment;
    InvParts(n.w);
    EofParts(b.life);
    SentIsSendable(a, s);
    ReceiveInDataTransferIs(b.H(), s, e.w, e.ok1, e.ok2);
    if s.data != [] && s.seqno >= b.H().ackno {
      AcceptsOnlySaved(n, s);
    }
    BareAckBelow(n, s);
  }

  /** An ACK of A's is not ahead of what B has. */
  lemma BareAckBelow(n: Net, s: Segment)
    requires NetInv(n) && n.w.a.H().connState == DataTransfer && s in n.w.a.sent
    ensures !s.fin && (s.data == [] ==> s.seqno <= n.w.b.H().ackno)
  {
    hide Inv, Outq.All;
  }

  /** Reception at B while data is transferred. */
  lemma ReceiverReceives(n: Net, e: Event)
    requires NetInv(n) && n.w.a.H().connState == DataTransfer && e.ReceiveEvent? && Possible(n, ReceiverDoes(e))
    requires Unwrapped(n.w) && Inv(Moved(n, ReceiverDoes(e)).w) && !n.w.b.H().deleted
    ensures NetInv(Moved(n, ReceiverDoes(e)))
  {
    hide Step, Next, Inv, Outq.All, Outstanding, Settled, Delivered, AckOf;
    var b, s, f := n.w.b, e.segment, Step(n.w.b.H(), e);
    var n' := Moved(n, ReceiverDoes(e));
    ReceptionOf(n, e);
    Recorded(b, e);
    ArrivalsAreSent(b, e);
    hide Advance;
    if f.host.ackno != b.H().ackno {
      TakesTheChunk(n, n', e);
    } else {
      Silent(n, e);
      ReceiverUntouched(n, n');
    }
  }

  lemma TakesTheChunk(n: Net, n': Net, e: Event)
    requires NetInv(n) && n.w.a.H().connState == DataTransfer && Outstanding(n) && Inv(n'.w)
    requires n'.w.a == n.w.a && n'.w.b == Advance(n.w.b, e) && n'.input == n.input
    requires n'.w.b.H() == Step(n.w.b.H(), e).host
    requires n'.acks == n.acks + Arrivals(Step(n.w.b.H(), e).sent, n.w.b.web)
    requires e.ReceiveEvent? && e.segment.data != [] && Delivered(n.w.b.H(), e.segment, Step(n.w.b.H(), e), e.ok1)
    requires e.segment == n.w.a.log[|n.w.a.log| - 1] && n.w.b.H().ackno == e.segment.seqno
    ensures NetInv(n')
  {
    hide Step, Next, Inv, Outq.All, Advance;
    AnswerIsBare(n, e, End(e.segment));
    ArrivalsAreSent(n.w.b, e);
    SentGrows(n.w.b, e);
    assert n.acks == [] by { ChunkUnacknowledged(n); }
    ChunkDelivered(n, n', e.segment);
  }

  lemma ChunkUnacknowledged(n: Net)
    requires Outstanding(n) && Inv(n.w) && n.w.b.H().ackno == n.w.a.log[|n.w.a.log| - 1].seqno
    ensures n.acks == []
  {
    hide Outq.All;
    InvParts(n.w);
    assert DataSegment(n.w.a.log[|n.w.a.log| - 1]);
  }

  lemma SentGrows(x: Side, e: Event)
    ensures x.sent <= Advance(x, e).sent
  {
    hide Step;
  }

  lemma ReceiverDoesStep(n: Net, e: Event)
    requires NetInv(n) && Possible(n, ReceiverDoes(e)) && Unwrapped(n.w) && Unwrapped(Moved(n, ReceiverDoes(e)).w)
    ensures NetInv(Moved(n, ReceiverDoes(e)))
  {
    var n' := Moved(n, ReceiverDoes(e));
    InvStep(n.w, Action(B, e));
    assert n'.w == Apply(n.w, Action(B, e));
    if n.w.b.H().deleted {
      Idle(n.w.b, e);
      Silent(n, e);
      ReceiverUntouched(n, n');
    } else if n.w.a.H().connState != DataTransfer {
      ReceiverWhileClosing(n, e);
    } else if e.ReceiveEvent? {
      ReceiverReceives(n, e);
    } else {
      ReceiverTicksOrDrains(n, e);
    }
  }

  lemma MovedStep(n: Net, m: Move)
    requires NetInv(n) && Possible(n, m) && Unwrapped(n.w) && Unwrapped(Moved(n, m).w)
    ensures NetInv(Moved(n, m))
  {
    match m
    case SenderReads(result) => SenderReadsStep(n, result);
    case SenderTicks(ok) => SenderTicksStep(n, ok);
    case AckArrives(i, wr, ok1, ok2) => AckArrivesStep(n, i, wr, ok1, ok2);
    case AckLost(i) => AckLostStep(n, i);
    case ReceiverDoes(e) => ReceiverDoesStep(n, e);
  }

  lemma {:induction false} MovedUnwraps(n: Net, moves: seq<Move>)
    requires Legal(n, moves) && Unwrapped(Exec(n, moves).w)
    ensures Unwrapped(n.w)
    decreases |moves|
  {
    hide Advance;
    if moves != [] {
      MovedUnwraps(Moved(n, moves[0]), moves[1..]);
      match moves[0]
      case SenderReads(result) => AdvanceGrows(n.w.a, ReadEvent(result, true));
      case SenderTicks(ok) => AdvanceGrows(n.w.a, TickEvent(ok));
      case AckArrives(i, wr, ok1, ok2) => AdvanceGrows(n.w.a, ReceiveEvent(n.acks[i], wr, ok1, ok2));
      case AckLost(_) =>
      case ReceiverDoes(e) => AdvanceGrows(n.w.b, e);
    }
  }

  lemma {:induction false} NetRun(n: Net, moves: seq<Move>)
    requires NetInv(n) && Legal(n, moves) && Unwrapped(Exec(n, moves).w)
    ensures NetInv(Exec(n, moves))
    decreases |moves|
  {
    hide NetInv, Moved;
    if moves == [] {
    } else {
      MovedUnwraps(n, moves);
      MovedUnwraps(Moved(n, moves[0]), moves[1..]);
      MovedStep(n, moves[0]);
      NetRun(Moved(n, moves[0]), moves[1..]);
    }
  }

  lemma NetStart(ca: Config, cb: Config)
    ensures NetInv(Start(ca, cb))
  {
    InvStart(ca, cb);
    hide Inv, Worlds.Start, NetInv;
    StartSettled(ca, cb);
  }

  lemma StartSettled(ca: Config, cb: Config)
    requires Inv(Worlds.Start(ca, cb))
    ensures NetInv(Start(ca, cb))
  {
    hide Inv;
  }

  lemma OutputIsPrefix(n: Net)
    requires NetInv(n)
    ensures var output := n.w.b.H().outq.All();
      && output <= n.input
      && |n.input| - |output| <= MAX_DATA
      && (n.w.a.H().saved.None? || n.w.a.H().connState != DataTransfer ==> output == n.input)
  {
    InvParts(n.w);
    hide Inv, Outq.All, ReceiverInv;
    var log := n.w.a.log;
    if n.w.a.H().connState == DataTransfer && Outstanding(n) {
      var k := |log| - 1;
      assert DataSegment(log[k]);
      assert log == log[..k] + [log[k]];
      DataOfSnoc(log[..k], log[k]);
    }
  }

  /** What EOF at B says. */
  predicate EofIsComplete(n: Net) {
    var q := n.w.b.H().outq;
    q.wroteEof ==>
      && q.All() == n.input && n.w.a.H().readEof
      && (q.written == n.input <==> q.Pending() == [])
  }

  lemma EofCompletes(n: Net)
    requires NetInv(n)
    ensures EofIsComplete(n)
  {
    InvParts(n.w);
    OutputIsPrefix(n);
    AllIsWritten(n.w.b.H().outq);
    hide Inv, SenderInv, ReceiverInv, Outq.All, Outq.Pending;
  }

  /**
   Reliable prefix: in every state before the first give-up, what the output queue of B has accepted is a
   prefix of what A has read, at most one segment behind, and so is what B has written; when nothing is
   saved at A, or A has sent its FIN, the queue has accepted all of it; when EOF is recorded for B's
   output, A has read its input to the end and the queue has accepted all of it, and all of it is written
   if and only if nothing is still queued.
   */
  lemma ReliablePrefix(ca: Config, cb: Config, moves: seq<Move>)
    requires Legal(Start(ca, cb), moves) && Unwrapped(Exec(Start(ca, cb), moves).w)
    ensures var n := Exec(Start(ca, cb), moves);
      var accepted := n.w.b.H().outq.All();
      && accepted <= n.input
      && n.w.b.H().outq.written <= n.input
      && |n.input| - |accepted| <= 1440
      && (n.w.a.H().saved.None? || n.w.a.H().connState != DataTransfer ==> accepted == n.input)
      && EofIsComplete(n)
  {
    hide Exec, Legal, Start, NetInv, Outq.Pending, EofIsComplete;
    NetStart(ca, cb);
    NetRun(Start(ca, cb), moves);
    var n := Exec(Start(ca, cb), moves);
    OutputIsPrefix(n);
    EofCompletes(n);
    assert n.w.b.H().outq.written <= n.w.b.H().outq.All();
  }

  lemma {:induction false} DestroyedStays(n: Net, moves: seq<Move>)
    requires Legal(n, moves) && n.w.b.H().deleted
    ensures Exec(n, moves).w.b.H() == n.w.b.H()
    decreases |moves|
  {
    if moves != [] {
      if moves[0].ReceiverDoes? {
        Idle(n.w.b, moves[0].event);
      }
      hide Advance;
      DestroyedStays(Moved(n, moves[0]), moves[1..]);
    }
  }

  /**
   What a destroyed B has written in the end: if EOF was recorded, then after whatever else happens it has
   written all of A's input if and only if nothing was queued when it was destroyed.
   */
  lemma WrittenInTheEnd(ca: Config, cb: Config, moves: seq<Move>, more: seq<Move>)
    requires Legal(Start(ca, cb), moves) && Legal(Exec(Start(ca, cb), moves), more)
    requires Unwrapped(Exec(Exec(Start(ca, cb), moves), more).w)
    ensures var n := Exec(Start(ca, cb), moves);
      var end := Exec(n, more);
      n.w.b.H().deleted && n.w.b.H().outq.wroteEof ==>
        && end.w.b.H() == n.w.b.H() && end.input == n.input
        && (end.w.b.H().outq.written == end.input <==> n.w.b.H().outq.Pending() == [])
  {
    hide Exec, Legal, Start, NetInv, Outq.All, Outq.Pending;
    var n := Exec(Start(ca, cb), moves);
    NetStart(ca, cb);
    MovedUnwraps(n, more);
    NetRun(Start(ca, cb), moves);
    NetRun(n, more);
    EofCompletes(n);
    EofCompletes(Exec(n, more));
    if n.w.b.H().deleted {
      DestroyedStays(n, more);
    }
  }
}

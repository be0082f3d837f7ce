/**
 Exactly which chunks a host misses, over any channel and in both directions: those whose sequence
 numbers it passed over. And what EOF at one host says about the input of the other.
 */
module Completeness {
  import opened Bytes
  import opened OutputQueue
  import opened Segments
  import opened HostModel
  import opened Lives
  import opened Outcomes
  import opened Worlds

  // ---------- chunks and sequence numbers ----------

  /** The number after the first `i` chunks. */
  function Bound(log: seq<Segment>, i: nat): nat
    requires i <= |log|
  {
    if i == 0 then 1 else End(log[i - 1])
  }

  function Top(log: seq<Segment>): nat { Bound(log, |log|) }

  predicate Follows(log: seq<Segment>, i: nat)
    requires i < |log|
  {
    log[i].seqno == Bound(log, i)
  }

  /** The chunks use the numbers from 1 without a break. */
  predicate Tiled(log: seq<Segment>) {
    forall i :: 0 <= i < |log| ==> Follows(log, i)
  }

  predicate AtBound(log: seq<Segment>, n: nat) {
    exists i :: 0 <= i <= |log| && Bound(log, i) == n
  }

  predicate Covers(s: Segment, n: nat) {
    s.seqno <= n < End(s)
  }

  predicate Chunks(log: seq<Segment>) {
    Ordered(log) && forall i :: 0 <= i < |log| ==> DataSegment(log[i])
  }

  lemma {:induction false} Covered(log: seq<Segment>, i: nat, n: nat) returns (k: nat)
    requires Tiled(log) && i <= |log| && 1 <= n < Bound(log, i)
    ensures k < i && Covers(log[k], n)
  {
    if n >= Bound(log, i - 1) {
      k := i - 1;
      assert Follows(log, k);
    } else {
      k := Covered(log, i - 1, n);
    }
  }

  lemma CoveredOnce(log: seq<Segment>, j: nat, k: nat, n: nat)
    requires Ordered(log) && j < |log| && k < |log| && Covers(log[j], n) && Covers(log[k], n)
    ensures j == k
  {
  }

  lemma BoundGrows(log: seq<Segment>, i: nat, j: nat)
    requires Chunks(log) && Tiled(log) && i <= j <= |log|
    ensures Bound(log, i) <= Bound(log, j)
    ensures i < j ==> log[i].seqno == Bound(log, i) < Bound(log, j)
  {
    if i < j {
      assert Follows(log, i) && DataSegment(log[i]) && DataSegment(log[j - 1]);
      assert i < j - 1 ==> End(log[i]) <= log[j - 1].seqno;
    }
  }

  /** Chunks in order with the same members are the same. */
  lemma {:induction false} SameChunks(s: seq<Segment>, t: seq<Segment>)
    requires Chunks(s) && Chunks(t)
    requires (forall c :: c in s ==> c in t) && (forall c :: c in t ==> c in s)
    ensures s == t
    decreases |s|
  {
    if s != [] && t != [] {
      var s', t', last := s[..|s| - 1], t[..|t| - 1], s[|s| - 1];
      SameLast(s, t);
      assert s == s' + [last] && t == t' + [last];
      OthersIn(s', t', last);
      OthersIn(t', s', last);
      SameChunks(s', t');
    } else if s != [] {
      NotEmpty(s, t);
    } else if t != [] {
      NotEmpty(t, s);
    }
  }

  lemma NotEmpty(s: seq<Segment>, t: seq<Segment>)
    requires s != [] && forall c :: c in s ==> c in t
    ensures t != []
  {
    assert s[0] in s;
  }

  lemma InitChunks(s: seq<Segment>, last: Segment)
    requires Chunks(s + [last])
    ensures Chunks(s)
  {
    forall i | 0 <= i < |s|
      ensures DataSegment(s[i])
    {
      assert (s + [last])[i] == s[i];
    }
    forall i, j | 0 <= i < j < |s|
      ensures End(s[i]) <= s[j].seqno
    {
      assert (s + [last])[i] == s[i] && (s + [last])[j] == s[j];
    }
  }

  lemma OthersIn(s: seq<Segment>, t: seq<Segment>, last: Segment)
    requires Chunks(s + [last]) && forall c :: c in s + [last] ==> c in t + [last]
    ensures Chunks(s) && forall c :: c in s ==> c in t
  {
    var n := |s|;
    InitChunks(s, last);
    forall i | 0 <= i < n
      ensures s[i] in t
    {
      assert (s + [last])[i] == s[i] && (s + [last])[n] == last;
      assert DataSegment((s + [last])[i]) && End(s[i]) <= last.seqno;
      assert s[i] in s + [last];
    }
  }

  lemma SameLast(s: seq<Segment>, t: seq<Segment>)
    requires Chunks(s) && Chunks(t) && s != [] && t != []
    requires s[|s| - 1] in t && t[|t| - 1] in s
    ensures s[|s| - 1] == t[|t| - 1]
  {
    var m, n := |s| - 1, |t| - 1;
    var j :| 0 <= j < |t| && t[j] == s[m];
    var k :| 0 <= k < |s| && s[k] == t[n];
    assert DataSegment(s[m]) && DataSegment(t[n]);
    assert j < n ==> End(s[m]) <= t[n].seqno;
    assert k < m ==> End(t[n]) <= s[m].seqno;
  }

  // ---------- what was taken and what was passed over ----------

  /** Below `upto`, the numbers passed over are exactly those of chunks that were not taken. */
  ghost predicate Accounted(log: seq<Segment>, taken: seq<Segment>, skipped: set<nat>, upto: nat) {
    && (forall n :: n in skipped ==> 1 <= n < upto)
    && (forall k: nat, n: nat :: k < |log| && Covers(log[k], n) && n < upto ==> (n in skipped <==> log[k] !in taken))
  }

  /** The chunk `s` is taken, and what is before it is passed over. */
  lemma AccountedTake(log: seq<Segment>, taken: seq<Segment>, skipped: set<nat>, upto: nat, s: Segment)
    requires Accounted(log, taken, skipped, upto) && Ordered(log) && s in log && s.seqno >= upto >= 1 && End(s) > s.seqno
    requires forall i :: 0 <= i < |taken| ==> End(taken[i]) <= upto
    ensures Accounted(log, taken + [s], skipped + Interval(upto, s.seqno), End(s))
  {
    var j :| 0 <= j < |log| && log[j] == s;
    forall k: nat, n: nat | k < |log| && Covers(log[k], n) && n < End(s)
      ensures n in skipped + Interval(upto, s.seqno) <==> log[k] !in taken + [s]
    {
      if n >= upto {
        assert log[k] !in taken;
        if n >= s.seqno {
          CoveredOnce(log, j, k, n);
        }
      }
    }
  }

  lemma AccountedPass(log: seq<Segment>, taken: seq<Segment>, skipped: set<nat>, upto: nat, to: nat)
    requires Accounted(log, taken, skipped, upto) && to >= upto >= 1
    requires forall i :: 0 <= i < |taken| ==> End(taken[i]) <= upto
    ensures Accounted(log, taken, skipped + Interval(upto, to), to)
  {
    forall k: nat, n: nat | k < |log| && Covers(log[k], n) && n < to
      ensures n in skipped + Interval(upto, to) <==> log[k] !in taken
    {
      if n >= upto {
        assert log[k] !in taken;
      }
    }
  }

  /** Chunks that are sent later lie beyond what is accounted for. */
  lemma AccountedGrows(log: seq<Segment>, log': seq<Segment>, taken: seq<Segment>, skipped: set<nat>, upto: nat)
    requires Accounted(log, taken, skipped, upto) && log <= log'
    requires forall k :: |log| <= k < |log'| ==> log'[k].seqno >= upto
    ensures Accounted(log', taken, skipped, upto)
  {
  }

  /** Once every chunk is accounted for: all were taken exactly when no number of a chunk was passed over. */
  lemma AllTakenIff(log: seq<Segment>, taken: seq<Segment>, skipped: set<nat>, upto: nat)
    requires Accounted(log, taken, skipped, upto) && Chunks(log) && Tiled(log) && Top(log) <= upto
    requires Chunks(taken) && forall c :: c in taken ==> c in log
    ensures taken == log <==> forall n :: n in skipped ==> n >= Top(log)
  {
    if n :| n in skipped && n < Top(log) {
      var k := Covered(log, |log|, n);
      assert log[k] !in taken;
    } else {
      forall c | c in log
        ensures c in taken
      {
        var k: nat :| k < |log| && log[k] == c;
        StartsBelow(log, k, |log|);
        assert c.seqno !in skipped;
      }
      SameChunks(taken, log);
    }
  }

  /** A chunk's first number is its own, and below the number after any later chunk. */
  lemma StartsBelow(log: seq<Segment>, k: nat, i: nat)
    requires Chunks(log) && Tiled(log) && k < i <= |log|
    ensures Covers(log[k], log[k].seqno) && log[k].seqno < Bound(log, i)
  {
    assert DataSegment(log[k]);
    BoundGrows(log, k, i);
  }

  // ---------- the sender ----------

  predicate SentFin(sent: set<Segment>) {
    exists s :: s in sent && s.fin
  }

  predicate FinNumber(sent: set<Segment>, n: nat) {
    exists s :: s in sent && s.fin && s.seqno == n
  }

  /** Every one of these numbers was that of a FIN. */
  predicate OnlyFins(sent: set<Segment>, numbers: set<nat>) {
    forall n :: n in numbers ==> FinNumber(sent, n)
  }

  /** What a host has sent, as long as its peer has sent no FIN: chunks, then FINs, and ACKs where chunks begin. */
  predicate Tiling(x: Side) {
    && Tiled(x.log)
    && Top(x.log) <= x.next
    && (if x.H().connState == DataTransfer then x.next == Top(x.log) else x.H().readEof)
    && (forall s :: s in x.sent ==> if s.fin then s.seqno >= Top(x.log) else AtBound(x.log, s.seqno))
    && (forall n :: Top(x.log) <= n < x.next ==> FinNumber(x.sent, n))
  }

  /** What one event does to the records that count here. */
  predicate Keeps(x: Side, x': Side) {
    && x.sent <= x'.sent && x.log <= x'.log && x.next <= x'.next
    && (forall k :: |x.log| <= k < |x'.log| ==> x'.log[k].seqno >= x.next)
    && (x.H().readEof ==> x'.H().readEof && x'.log == x.log)
    && (forall s :: s in x'.sent && s !in x.sent && s.fin ==> s.seqno >= x.next && x'.H().connState != DataTransfer)
    && (x'.H().connState == DataTransfer ==> x.H().connState == DataTransfer)
  }

  predicate Ready(x: Side, e: Event) {
    SenderInv(x) && EofInv(x.life) && Receivable(e) && x.H().connState != WaitInput && Advance(x, e).next < U32_MOD
  }

  predicate ReceivesFin(e: Event) {
    e.ReceiveEvent? && e.segment.fin
  }

  /** Nothing new goes out. */
  predicate Quiet(x: Side, x': Side) {
    && x'.sent == x.sent && x'.log == x.log && x'.next == x.next
    && (x'.H().connState == DataTransfer <==> x.H().connState == DataTransfer)
    && (x.H().readEof ==> x'.H().readEof)
  }

  /** A chunk or an ACK goes out. */
  predicate Sends(x: Side, x': Side, s: Segment) {
    && (x'.H().connState == DataTransfer <==> x.H().connState == DataTransfer)
    && (x.H().readEof ==> x'.H().readEof && s.data == [] && x.H().connState == DataTransfer)
    && !s.fin && s.seqno == x.next && x'.next == End(s)
    && x'.sent == x.sent + {s} && x'.log == x.log + (if s.data == [] then [] else [s])
  }

  /** A FIN goes out. */
  predicate Finishes(x: Side, x': Side, s: Segment) {
    && x'.H().connState != DataTransfer && x'.H().readEof
    && s.fin && s.seqno == x.next && x'.next == x.next + 1
    && x'.sent == x.sent + {s} && x'.log == x.log
  }

  /** What a host does that receives no FIN: at most one new segment, at its next number. */
  ghost predicate Outcome(x: Side, x': Side) {
    || Quiet(x, x')
    || (exists s :: Sends(x, x', s))
    || (exists s :: Finishes(x, x', s))
  }

  lemma ReadOutcome(x: Side, e: Event)
    requires Ready(x, e) && e.ReadEvent? && !x.H().deleted
    ensures Outcome(x, Advance(x, e))
  {
    hide Read, Advance, U32, SenderInv, EofInv;
    var h, f, x' := x.H(), Step(x.H(), e), Advance(x, e);
    assert f == Read(h, e.input, e.ok);
    ReadIs(h, e.input, e.ok);
    NumbersAgree(x);
    SmallU32(h.seqno);
    hide Step;
    if f.sent == [] {
      SentNothing(x, e);
      assert Quiet(x, x');
    } else if f.sent[0].fin {
      SentOne(x, e, f.sent[0], 1);
      assert Finishes(x, x', Arriving(f.sent[0], x.web));
    } else {
      SentOne(x, e, f.sent[0], |f.sent[0].data|);
      NumbersUsed(h.seqno, |f.sent[0].data|);
      assert Sends(x, x', Arriving(f.sent[0], x.web));
    }
  }

  lemma TickOutcome(x: Side, e: Event)
    requires Ready(x, e) && e.TickEvent? && !x.H().deleted
    ensures Quiet(x, Advance(x, e))
  {
    hide Tick, Advance, U32, EofInv;
    var h, f := x.H(), Step(x.H(), e);
    assert f == Tick(h, e.ok);
    TickIs(h, e.ok);
    SmallU32(h.seqno);
    if h.saved.Some? {
      SavedIsSent(x);
    }
    hide Step, SenderInv;
    if f.sent == [] {
      SentNothing(x, e);
    } else {
      SentOne(x, e, f.sent[0], 0);
      assert x.log + [] == x.log && x.sent + {Arriving(f.sent[0], x.web)} == x.sent;
    }
  }

  /** The state of a host that receives a segment. */
  lemma ReceiveState(x: Side, e: Event)
    requires Ready(x, e) && e.ReceiveEvent? && !x.H().deleted
    ensures var h, f := x.H(), Step(x.H(), e);
      && f.host.readEof == h.readEof
      && (f.host.connState == DataTransfer ==> h.connState == DataTransfer)
      && (f.host.connState == DataTransfer ==> forall i :: 0 <= i < |f.sent| ==> !f.sent[i].fin)
      && (!e.segment.fin ==> (h.connState == DataTransfer <==> f.host.connState == DataTransfer))
      && (!e.segment.fin && h.connState != DataTransfer ==> f.sent == [])
  {
    hide Receive, U32, Swap32, Outq.All, Outq.NoEmptyChunk, SenderInv, EofInv, Advance;
    var h := x.H();
    EofParts(x.life);
    if h.connState == DataTransfer {
      ReceiveInDataTransferIs(h, e.segment, e.w, e.ok1, e.ok2);
    } else {
      ReceiveElsewhereIs(h, e.segment, e.w, e.ok1, e.ok2);
    }
  }

  lemma ReceiveOutcome(x: Side, e: Event)
    requires Ready(x, e) && e.ReceiveEvent? && !e.segment.fin && !x.H().deleted
    ensures Outcome(x, Advance(x, e))
  {
    hide Step, Advance, U32, SenderInv, EofInv;
    var h, f, x' := x.H(), Step(x.H(), e), Advance(x, e);
    ReceiveState(x, e);
    EofParts(x.life);
    var acked, closed := ReceiveAnswers(h, e);
    NumbersAgree(x);
    SmallU32(h.seqno);
    hide Ready;
    if acked {
      var ack := AckOf(h, f.host.ackno);
      assert f.sent == [ack];
      SentOne(x, e, ack, 0);
      assert x.log + [] == x.log;
      assert Sends(x, x', ack);
    } else {
      SentNothing(x, e);
      assert Quiet(x, x');
    }
  }

  /** The answers to a FIN: an ACK, a FIN, both or neither. */
  lemma FinKeeps(x: Side, e: Event)
    requires Ready(x, e) && ReceivesFin(e) && !x.H().deleted
    ensures Keeps(x, Advance(x, e))
  {
    hide Step, Advance, U32, SenderInv, EofInv;
    var h, f := x.H(), Step(x.H(), e);
    ReceiveState(x, e);
    EofParts(x.life);
    var acked, closed := ReceiveAnswers(h, e);
    NumbersAgree(x);
    var ack, fin := AckOf(h, f.host.ackno), FinOf(h, f.host.ackno);
    var sent := if acked && closed then [ack, fin] else if acked then [ack] else if closed then [fin] else [];
    assert f.sent == sent && f.host.seqno == (if closed then U32(h.seqno + 1) else h.seqno);
    assert closed ==> sent[|sent| - 1].fin && f.host.connState != DataTransfer;
    hide Ready, ReceivesFin, Answers;
    AnswersKept(x, e, ack, fin, acked, closed);
    assert x.log <= x.log;
  }

  lemma AnswersKept(x: Side, e: Event, ack: Segment, fin: Segment, acked: bool, closed: bool)
    requires e.ReceiveEvent?
    requires Step(x.H(), e).sent ==
               if acked && closed then [ack, fin] else if acked then [ack] else if closed then [fin] else []
    requires Step(x.H(), e).host.seqno == (if closed then U32(x.H().seqno + 1) else x.H().seqno)
    ensures var x' := Advance(x, e);
      && x'.H() == Step(x.H(), e).host && x'.log == x.log && x'.next >= x.next && x.sent <= x'.sent
      && (forall s :: s in x'.sent && s !in x.sent ==>
            (acked && s == Arriving(ack, x.web)) || (closed && s == Arriving(fin, x.web)))
  {
    hide Step, Advance, U32;
    SmallU32(x.H().seqno);
    assert x.log + [] == x.log;
    if acked && closed {
      SentTwo(x, e, ack, fin);
    } else if acked {
      SentOne(x, e, ack, 0);
    } else if closed {
      SentOne(x, e, fin, 1);
    } else {
      SentNothing(x, e);
    }
  }

  lemma IdleOutcome(x: Side, e: Event)
    requires x.H().deleted || e.DrainEvent?
    ensures Quiet(x, Advance(x, e))
  {
    hide Drained, Advance, U32;
    SentNothing(x, e);
  }

  lemma OutcomeKeeps(x: Side, x': Side)
    requires Outcome(x, x')
    ensures Keeps(x, x')
  {
  }

  lemma EventOutcome(x: Side, e: Event)
    requires Ready(x, e)
    ensures !ReceivesFin(e) ==> Outcome(x, Advance(x, e))
    ensures Keeps(x, Advance(x, e))
  {
    hide Advance, Ready, Keeps, Quiet;
    if x.H().deleted {
      IdleOutcome(x, e);
      OutcomeKeeps(x, Advance(x, e));
    } else {
      match e {
        case ReadEvent(_, _) =>
          ReadOutcome(x, e);
          OutcomeKeeps(x, Advance(x, e));
        case ReceiveEvent(s, _, _, _) =>
          if s.fin {
            FinKeeps(x, e);
          } else {
            ReceiveOutcome(x, e);
            OutcomeKeeps(x, Advance(x, e));
          }
        case TickEvent(_) =>
          TickOutcome(x, e);
          OutcomeKeeps(x, Advance(x, e));
        case DrainEvent(_) =>
          IdleOutcome(x, e);
          OutcomeKeeps(x, Advance(x, e));
      }
    }
  }

  lemma BoundKept(log: seq<Segment>, log': seq<Segment>, n: nat)
    requires log <= log' && AtBound(log, n)
    ensures AtBound(log', n)
  {
    var i :| 0 <= i <= |log| && Bound(log, i) == n;
    assert Bound(log', i) == n;
  }

  lemma TiledSnoc(log: seq<Segment>, s: Segment)
    requires Tiled(log) && s.seqno == Top(log)
    ensures Tiled(log + [s]) && Top(log + [s]) == End(s)
  {
    forall i | 0 <= i <= |log|
      ensures Follows(log + [s], i)
    {
      assert i < |log| ==> Follows(log, i);
    }
  }

  lemma TilingSends(x: Side, x': Side, s: Segment)
    requires Tiling(x) && Sends(x, x', s) && (x.H().connState == DataTransfer ==> !SentFin(x.sent))
    ensures Tiling(x')
  {
    assert x.log + [] == x.log;
    TiledSnoc(x.log, s);
    assert Bound(x.log, |x.log|) == s.seqno;
    hide Tiled, Bound;
    forall t | t in x'.sent && !t.fin
      ensures AtBound(x'.log, t.seqno)
    {
      assert AtBound(x.log, t.seqno);
      BoundKept(x.log, x'.log, t.seqno);
    }
  }

  lemma TilingFinishes(x: Side, x': Side, s: Segment)
    requires Tiling(x) && Finishes(x, x', s)
    ensures Tiling(x')
  {
    hide Tiled, Bound, AtBound;
    forall n | Top(x'.log) <= n < x'.next
      ensures FinNumber(x'.sent, n)
    {
      if n == x.next {
        assert s in x'.sent;
      } else {
        assert FinNumber(x.sent, n);
        var f :| f in x.sent && f.fin && f.seqno == n;
        assert f in x'.sent;
      }
    }
  }

  lemma TilingStep(x: Side, e: Event)
    requires Ready(x, e) && Tiling(x) && !ReceivesFin(e) && (x.H().connState == DataTransfer ==> !SentFin(x.sent))
    ensures Tiling(Advance(x, e))
  {
    EventOutcome(x, e);
    hide Advance, Ready, Keeps, Sends, Finishes, SentFin;
    var x' := Advance(x, e);
    if Quiet(x, x') {
    } else if s :| Sends(x, x', s) {
      hide Tiling;
      TilingSends(x, x', s);
    } else {
      var s :| Finishes(x, x', s);
      hide Tiling;
      TilingFinishes(x, x', s);
    }
  }

  // ---------- the receiver ----------

  /** A host in `DATA_TRANSFER` takes nothing and moves nothing. */
  predicate Stays(y: Side, y': Side) {
    && y'.accepted == y.accepted && y'.skipped == y.skipped
    && y'.H().ackno == y.H().ackno && y'.H().outq.wroteEof == y.H().outq.wroteEof
  }

  /** It takes a chunk, and passes over what lies before it. */
  predicate Takes(y: Side, y': Side, s: Segment) {
    && y'.accepted == y.accepted + [s] && y'.skipped == y.skipped + Interval(y.H().ackno, s.seqno)
    && s.data != [] && !s.fin && s.seqno >= y.H().ackno && y'.H().ackno == End(s)
    && y'.H().outq.wroteEof == y.H().outq.wroteEof
  }

  /** It takes no data, but an ACK moves its `ackno`. */
  predicate Passes(y: Side, y': Side, s: Segment) {
    && y'.accepted == y.accepted && y'.skipped == y.skipped + Interval(y.H().ackno, s.seqno)
    && !s.fin && s.seqno >= y.H().ackno && y'.H().ackno == s.seqno
    && y'.H().outq.wroteEof == y.H().outq.wroteEof
  }

  /** It acts on a FIN. */
  predicate Ends(y: Side, y': Side, s: Segment) {
    && y'.accepted == y.accepted && y'.skipped == y.skipped + Interval(y.H().ackno, s.seqno)
    && s.fin && s.seqno >= y.H().ackno && y'.H().connState != DataTransfer
  }

  lemma ReceptionOutcome(y: Side, e: Event)
    requires EofInv(y.life) && Receivable(e) && e.ReceiveEvent? && y.H().connState == DataTransfer && !y.H().deleted
    ensures var y', s := Advance(y, e), e.segment;
      Stays(y, y') || Takes(y, y', s) || Passes(y, y', s) || Ends(y, y', s)
  {
    hide Receive, Advance, U32, Swap32, Outq.All, EofInv, Interval;
    var h, s, f := y.H(), e.segment, Step(y.H(), e);
    EofParts(y.life);
    Recorded(y, e);
    ReceiveInDataTransferIs(h, s, e.w, e.ok1, e.ok2);
    QueueOnReceive(h, s, e.w, e.ok1, e.ok2);
    EofChangesNothing(h.outq);
    assert y.skipped + {} == y.skipped;
    NothingBetween(h.ackno, s.seqno);
    assert f.host.outq.All() == h.outq.All() + s.data ==> |f.host.outq.All()| == |h.outq.All()| + |s.data|;
    DeliveredTakes(h, s, f, e.ok1);
    assert f == Receive(h, s, e.w, e.ok1, e.ok2);
    hide Step, Next;
  }

  lemma DeliveredTakes(h: Host, s: Segment, f: Effect, ok: bool)
    ensures Delivered(h, s, f, ok) ==> |f.host.outq.All()| == |h.outq.All()| + |s.data|
    ensures Delivered(h, s, f, ok) ==> f.host.ackno == End(s)
  {
    hide Outq.All;
  }

  lemma NothingBetween(lo: nat, hi: nat)
    ensures hi <= lo ==> Interval(lo, hi) == {}
  {
  }

  lemma OtherOutcome(y: Side, e: Event)
    requires EofInv(y.life) && (!e.ReceiveEvent? || y.H().deleted)
    ensures Stays(y, Advance(y, e))
  {
    hide Read, Tick, Drained, Advance, U32, Swap32, Outq.All;
    Recorded(y, e);
    assert y.skipped + {} == y.skipped;
    if !y.H().deleted {
      match e {
        case ReadEvent(input, ok) => ReadIs(y.H(), input, ok);
        case TickEvent(ok) => TickIs(y.H(), ok);
        case DrainEvent(ws) => DrainConserves(y.H().outq, ws);
      }
    }
  }

  /** A host that has left `DATA_TRANSFER` takes nothing and passes over nothing. */
  lemma ClosedOutcome(y: Side, e: Event)
    requires EofInv(y.life) && y.H().connState != DataTransfer
    ensures var y' := Advance(y, e);
      && y'.accepted == y.accepted && y'.skipped == y.skipped && y'.H().connState != DataTransfer
      && y'.H().outq.wroteEof == y.H().outq.wroteEof
  {
    EofStep(y.life, e);
    Recorded(y, e);
    hide Step, Next, Advance, Outq.All, Outq.NoEmptyChunk;
    assert y.skipped + {} == y.skipped;
  }

  // ---------- the invariant ----------

  /** What a host in `DATA_TRANSFER` has made of the chunks below its `ackno`. */
  ghost predicate Accounting(x: Side, y: Side) {
    AtBound(x.log, y.H().ackno) && Accounted(x.log, y.accepted, y.skipped, y.H().ackno)
  }

  /** EOF is out: all was taken exactly when only numbers of FINs were passed over. */
  predicate AtEof(x: Side, y: Side) {
    && x.H().readEof
    && (forall n :: n in y.skipped ==> n < x.next)
    && (y.accepted == x.log <==> OnlyFins(x.sent, y.skipped))
  }

  ghost predicate Book(x: Side, y: Side) {
    && (x.H().connState == DataTransfer ==> !SentFin(x.sent))
    && (!SentFin(y.sent) ==> Tiling(x))
    && (y.H().connState == DataTransfer ==> Accounting(x, y))
    && (y.H().outq.wroteEof ==> AtEof(x, y))
  }

  lemma ChunkEnds(log: seq<Segment>, s: Segment)
    requires s in log
    ensures AtBound(log, End(s))
  {
    var j :| 0 <= j < |log| && log[j] == s;
    assert Bound(log, j + 1) == End(s);
  }

  lemma TakesAccounted(x: Side, y: Side, y': Side, s: Segment)
    requires Accounting(x, y) && SenderInv(x) && ReceiverInv(x, y) && y.H().connState == DataTransfer
    requires s in x.sent && Takes(y, y', s)
    ensures Accounting(x, y')
  {
    assert Sendable(x.next, x.log, s);
    assert Ordered(x.log) && y.H().ackno >= 1;
    ChunkEnds(x.log, s);
    AccountedTake(x.log, y.accepted, y.skipped, y.H().ackno, s);
  }

  lemma PassesAccounted(x: Side, y: Side, y': Side, s: Segment)
    requires Tiling(x) && Accounting(x, y) && ReceiverInv(x, y) && y.H().connState == DataTransfer
    requires s in x.sent && Passes(y, y', s)
    ensures Accounting(x, y')
  {
    AccountedPass(x.log, y.accepted, y.skipped, y.H().ackno, s.seqno);
  }

  lemma SenderChunks(x: Side)
    requires SenderInv(x)
    ensures Chunks(x.log)
  {
  }

  lemma TakenChunks(x: Side, y: Side)
    requires ReceiverInv(x, y) && Chunks(x.log)
    ensures Chunks(y.accepted) && forall c :: c in y.accepted ==> c in x.log
  {
    forall i | 0 <= i < |y.accepted|
      ensures DataSegment(y.accepted[i])
    {
      assert y.accepted[i] in x.log;
    }
  }

  lemma EndsAccounted(x: Side, y: Side, y': Side, s: Segment)
    requires SenderInv(x) && Tiling(x) && Accounting(x, y) && ReceiverInv(x, y) && y.H().connState == DataTransfer
    requires s in x.sent && Ends(y, y', s) && (x.H().connState == DataTransfer ==> !SentFin(x.sent))
    ensures AtEof(x, y')
  {
    assert Sendable(x.next, x.log, s) && SentFin(x.sent);
    SenderChunks(x);
    TakenChunks(x, y);
    AccountedPass(x.log, y.accepted, y.skipped, y.H().ackno, s.seqno);
    AllTakenIff(x.log, y'.accepted, y'.skipped, s.seqno);
    assert forall n :: n in y'.skipped ==> n < s.seqno < x.next;
    hide Chunks, Tiled, Accounted, SenderInv, ReceiverInv, Interval;
    forall n | n in y'.skipped
      ensures FinNumber(x.sent, n) <==> n >= Top(x.log)
    {
      if FinNumber(x.sent, n) {
        var f :| f in x.sent && f.fin && f.seqno == n;
      }
    }
  }

  /** The host that receives goes on. */
  lemma ReceiverBook(x: Side, y: Side, e: Event)
    requires SenderInv(x) && SenderInv(y) && ReceiverInv(x, y) && Receivable(e) && Book(x, y)
    requires y.H().connState == DataTransfer ==> !SentFin(y.sent)
    requires e.ReceiveEvent? ==> e.segment in x.sent
    ensures Book(x, Advance(y, e))
  {
    var y', s := Advance(y, e), if e.ReceiveEvent? then e.segment else FinOf(y.H(), 0);
    Recorded(y, e);
    assert SentFin(y.sent) ==> SentFin(y'.sent) by { SentFinGrows(y.sent, y'.sent); }
    assert EofInv(y.life) && (y.H().connState == DataTransfer ==> !y.H().outq.wroteEof);
    if y.H().connState != DataTransfer {
      ClosedOutcome(y, e);
    } else if !e.ReceiveEvent? || y.H().deleted {
      OtherOutcome(y, e);
    } else {
      ReceptionOutcome(y, e);
    }
    hide Advance, Step, Next, EofInv, SenderInv, ReceiverInv, SentFin, Tiling, AtBound, Accounted, Receivable, OnlyFins, Interval;
    if y.H().connState == DataTransfer && !Stays(y, y') {
      if Takes(y, y', s) {
        TakesAccounted(x, y, y', s);
      } else if Passes(y, y', s) {
        PassesAccounted(x, y, y', s);
      } else {
        EndsAccounted(x, y, y', s);
      }
    }
  }

  lemma SentFinGrows(sent: set<Segment>, sent': set<Segment>)
    requires sent <= sent'
    ensures SentFin(sent) ==> SentFin(sent')
  {
    if f :| f in sent && f.fin {
      assert f in sent';
    }
  }

  /** FINs that are sent later have later numbers. */
  lemma OnlyFinsKept(x: Side, x': Side, numbers: set<nat>)
    requires Keeps(x, x') && forall n :: n in numbers ==> n < x.next
    ensures OnlyFins(x'.sent, numbers) <==> OnlyFins(x.sent, numbers)
  {
    forall n | n in numbers
      ensures FinNumber(x'.sent, n) <==> FinNumber(x.sent, n)
    {
      if f :| f in x.sent && f.fin && f.seqno == n {
        assert f in x'.sent;
      }
      if f :| f in x'.sent && f.fin && f.seqno == n {
        assert f in x.sent;
      }
    }
  }

  lemma AccountingKept(x: Side, x': Side, y: Side)
    requires Keeps(x, x') && Accounting(x, y) && y.H().ackno <= x.next
    ensures Accounting(x', y)
  {
    BoundKept(x.log, x'.log, y.H().ackno);
    AccountedGrows(x.log, x'.log, y.accepted, y.skipped, y.H().ackno);
  }

  lemma NoFinKept(x: Side, x': Side)
    requires Keeps(x, x') && (x.H().connState == DataTransfer ==> !SentFin(x.sent))
    ensures x'.H().connState == DataTransfer ==> !SentFin(x'.sent)
  {
  }

  /** The host that sends goes on. */
  lemma SenderBook(x: Side, y: Side, e: Event)
    requires Ready(x, e) && ReceiverInv(x, y) && Book(x, y)
    requires y.H().connState == DataTransfer ==> !SentFin(y.sent)
    requires e.ReceiveEvent? ==> e.segment in y.sent
    ensures Book(Advance(x, e), y)
  {
    var x' := Advance(x, e);
    EventOutcome(x, e);
    if !SentFin(y.sent) {
      assert !ReceivesFin(e);
      TilingStep(x, e);
    }
    assert y.H().ackno <= x.next;
    hide Advance, Ready, ReceiverInv, SentFin, Tiling, Accounting, Outcome, OnlyFins;
    NoFinKept(x, x');
    if y.H().connState == DataTransfer {
      AccountingKept(x, x', y);
    }
    if y.H().outq.wroteEof {
      OnlyFinsKept(x, x', y.skipped);
    }
  }

  ghost predicate BothBooks(w: World) {
    Book(w.a, w.b) && Book(w.b, w.a)
  }

  lemma InvParts(x: Side, y: Side, e: Event)
    requires SenderInv(x) && SenderInv(y) && ReceiverInv(y, x) && (e.ReceiveEvent? ==> e.segment in y.sent)
    requires y.next < U32_MOD && Advance(x, e).next < U32_MOD
    ensures Ready(x, e)
  {
    assert e.ReceiveEvent? ==> Sendable(y.next, y.log, e.segment);
    hide Advance, EofInv;
  }

  lemma BookStep(x: Side, y: Side, e: Event)
    requires SenderInv(x) && SenderInv(y) && ReceiverInv(x, y) && ReceiverInv(y, x)
    requires Book(x, y) && Book(y, x) && (e.ReceiveEvent? ==> e.segment in y.sent)
    requires y.next < U32_MOD && Advance(x, e).next < U32_MOD
    ensures Book(Advance(x, e), y) && Book(y, Advance(x, e))
  {
    InvParts(x, y, e);
    hide Advance, SenderInv, ReceiverInv, SentFin, Tiling, Accounting, AtEof;
    SenderBook(x, y, e);
    ReceiverBook(y, x, e);
  }

  lemma {:induction false} BookRun(w: World, acts: seq<Action>)
    requires Inv(w) && BothBooks(w) && Legal(w, acts) && Unwrapped(Exec(w, acts))
    ensures BothBooks(Exec(w, acts))
    decreases |acts|
  {
    hide Advance, SenderInv, ReceiverInv, Book;
    if acts == [] {
    } else {
      var act := acts[0];
      NextGrows(w, acts);
      NextGrows(Apply(w, act), acts[1..]);
      InvStep(w, act);
      if act.who == A {
        BookStep(w.a, w.b, act.event);
      } else {
        BookStep(w.b, w.a, act.event);
      }
      hide Inv, BothBooks;
      BookRun(Apply(w, act), acts[1..]);
    }
  }

  lemma BookStart(ca: Config, cb: Config)
    ensures BothBooks(Start(ca, cb))
  {
    assert Bound([], 0) == 1;
  }

  // ---------- exactly what is missing ----------

  /** A chunk below `ackno` that was not output. */
  predicate Missed(x: Side, y: Side, k: nat) {
    k < |x.log| && End(x.log[k]) <= y.H().ackno && x.log[k] !in y.accepted
  }

  /** Everything below `ackno` has been output: the chunks taken are the first ones sent, and they end there. */
  predicate Complete(x: Side, y: Side) {
    y.accepted <= x.log && y.H().ackno == 1 + |y.H().outq.All()|
  }

  /** A chunk below `ackno` was output exactly when its numbers were not passed over. */
  lemma OutputIff(x: Side, y: Side, k: nat)
    requires SenderInv(x) && Tiling(x) && Accounting(x, y) && k < |x.log| && End(x.log[k]) <= y.H().ackno
    ensures x.log[k] in y.accepted <==> x.log[k].seqno !in y.skipped
  {
    assert DataSegment(x.log[k]);
    assert Covers(x.log[k], x.log[k].seqno);
  }

  lemma GapMeansMissed(x: Side, y: Side) returns (k: nat)
    requires SenderInv(x) && Tiling(x) && Accounting(x, y) && y.Gap()
    ensures Missed(x, y, k)
  {
    SenderChunks(x);
    var i :| 0 <= i <= |x.log| && Bound(x.log, i) == y.H().ackno;
    var n :| n in y.skipped;
    k := Covered(x.log, i, n);
    BoundGrows(x.log, k + 1, i);
  }

  /** Where nothing was passed over, the chunks below a bound are the ones taken. */
  lemma FirstAreTaken(log: seq<Segment>, taken: seq<Segment>, skipped: set<nat>, i: nat)
    requires Chunks(log) && Tiled(log) && i <= |log|
    requires Accounted(log, taken, skipped, Bound(log, i)) && skipped == {}
    ensures forall c :: c in log[..i] ==> c in taken
  {
    forall c | c in log[..i]
      ensures c in taken
    {
      var k: nat :| k < i && log[k] == c;
      StartsBelow(log, k, i);
      assert c.seqno !in skipped;
    }
  }

  lemma TakenAreFirst(log: seq<Segment>, taken: seq<Segment>, i: nat)
    requires Chunks(log) && Tiled(log) && i <= |log|
    requires forall c :: c in taken ==> c in log && End(c) <= Bound(log, i)
    ensures forall c :: c in taken ==> c in log[..i]
  {
    forall c | c in taken
      ensures c in log[..i]
    {
      var k: nat :| k < |log| && log[k] == c;
      if k < i {
        assert log[..i][k] == c;
      } else {
        EndsAbove(log, i, k);
        assert false;
      }
    }
  }

  lemma EndsAbove(log: seq<Segment>, i: nat, k: nat)
    requires Chunks(log) && Tiled(log) && i <= k < |log|
    ensures End(log[k]) > Bound(log, i)
  {
    BoundGrows(log, i, k);
    assert Follows(log, k) && DataSegment(log[k]);
  }

  /** Without a gap the chunks taken are the first ones. */
  lemma NoGapMeansFirst(x: Side, y: Side) returns (i: nat)
    requires SenderInv(x) && Tiling(x) && Accounting(x, y) && !y.Gap()
    requires ReceiverInv(x, y) && y.H().connState == DataTransfer
    ensures i <= |x.log| && y.accepted == x.log[..i] && Bound(x.log, i) == y.H().ackno
  {
    SenderChunks(x);
    TakenChunks(x, y);
    i :| 0 <= i <= |x.log| && Bound(x.log, i) == y.H().ackno;
    assert forall c :: c in y.accepted ==> c in x.log && End(c) <= Bound(x.log, i);
    hide Chunks, Tiled, Accounted, SenderInv, ReceiverInv, Bound;
    FirstChunks(x.log, i);
    FirstAreTaken(x.log, y.accepted, y.skipped, i);
    TakenAreFirst(x.log, y.accepted, i);
    SameChunks(y.accepted, x.log[..i]);
  }

  lemma FirstChunks(log: seq<Segment>, i: nat)
    requires Chunks(log) && i <= |log|
    ensures Chunks(log[..i])
  {
  }

  lemma {:induction false} TiledLength(log: seq<Segment>, i: nat)
    requires Chunks(log) && Tiled(log) && i <= |log|
    ensures 1 + |DataOf(log[..i])| == Bound(log, i)
  {
    if i > 0 {
      TiledLength(log, i - 1);
      assert log[..i] == log[..i - 1] + [log[i - 1]];
      DataOfSnoc(log[..i - 1], log[i - 1]);
      assert Follows(log, i - 1) && DataSegment(log[i - 1]);
    }
  }

  /** The first chunks leave nothing out below their end. */
  lemma FirstLeaveNoneOut(log: seq<Segment>, taken: seq<Segment>, k: nat)
    requires Chunks(log) && Tiled(log) && taken <= log && k < |log|
    requires End(log[k]) <= 1 + |DataOf(taken)|
    ensures log[k] in taken
  {
    var m := |taken|;
    assert log[..m] == taken;
    TiledLength(log, m);
    if k < m {
      assert taken[k] == log[k];
    } else {
      EndsAbove(log, m, k);
      assert false;
    }
  }

  lemma CompleteOfSides(x: Side, y: Side)
    requires SenderInv(x) && Tiling(x) && Accounting(x, y) && ReceiverInv(x, y) && y.H().connState == DataTransfer
    ensures Complete(x, y) <==> !y.Gap()
    ensures y.Gap() <==> exists k: nat :: Missed(x, y, k)
  {
    SenderChunks(x);
    assert y.H().outq.All() == DataOf(y.accepted) && Tiled(x.log);
    hide Outq.All, DataOf, Chunks, Tiled, SenderInv, ReceiverInv, Tiling, Accounting, Bound;
    if y.Gap() {
      var k := GapMeansMissed(x, y);
      if Complete(x, y) {
        FirstLeaveNoneOut(x.log, y.accepted, k);
        assert false;
      }
    } else {
      var i := NoGapMeansFirst(x, y);
      TiledLength(x.log, i);
      if k: nat :| Missed(x, y, k) {
        OutputIff(x, y, k);
        assert false;
      }
    }
  }

  /**
   Exactly what is missing, over any channel: while data is transferred, a chunk below a host's `ackno`
   was output if and only if its numbers were not passed over; the host has output all that its peer
   sent below `ackno`, and nothing else, if and only if it never acted on a segment ahead of its `ackno`,
   which is the case that the test `seqno < ackno` in `ctcp_receive` lets through; and if it did, a
   chunk is missing.
   */
  lemma CompleteIff(ca: Config, cb: Config, acts: seq<Action>)
    requires Legal(Start(ca, cb), acts) && Unwrapped(Exec(Start(ca, cb), acts))
    ensures var w := Exec(Start(ca, cb), acts);
      && (w.b.H().connState == DataTransfer ==> ExactlyMissing(w.a, w.b))
      && (w.a.H().connState == DataTransfer ==> ExactlyMissing(w.b, w.a))
  {
    InvStart(ca, cb);
    BookStart(ca, cb);
    hide Exec, Legal, Start, Inv, BothBooks, ExactlyMissing;
    InvRun(Start(ca, cb), acts);
    BookRun(Start(ca, cb), acts);
    ExactlyMissingInWorld(Exec(Start(ca, cb), acts));
  }

  ghost predicate ExactlyMissing(x: Side, y: Side) {
    && (forall k :: 0 <= k < |x.log| && End(x.log[k]) <= y.H().ackno ==>
          (x.log[k] in y.accepted <==> x.log[k].seqno !in y.skipped))
    && (Complete(x, y) <==> !y.Gap())
    && (y.Gap() <==> exists k: nat :: Missed(x, y, k))
  }

  lemma ExactlyMissingInWorld(w: World)
    requires Inv(w) && BothBooks(w)
    ensures w.b.H().connState == DataTransfer ==> ExactlyMissing(w.a, w.b)
    ensures w.a.H().connState == DataTransfer ==> ExactlyMissing(w.b, w.a)
  {
    hide SenderInv, ReceiverInv, ExactlyMissing;
    if w.b.H().connState == DataTransfer {
      ExactlyMissingAt(w.a, w.b);
    }
    if w.a.H().connState == DataTransfer {
      ExactlyMissingAt(w.b, w.a);
    }
  }

  lemma ExactlyMissingAt(x: Side, y: Side)
    requires SenderInv(x) && ReceiverInv(x, y) && Book(x, y) && y.H().connState == DataTransfer && !SentFin(y.sent)
    ensures ExactlyMissing(x, y)
  {
    hide SenderInv, ReceiverInv, SentFin, Tiling, Accounting, AtEof;
    CompleteOfSides(x, y);
    forall k: nat | k < |x.log| && End(x.log[k]) <= y.H().ackno
      ensures x.log[k] in y.accepted <==> x.log[k].seqno !in y.skipped
    {
      OutputIff(x, y, k);
    }
  }

  /** Chunks taken from a log hold less data than the log, unless they are all of it. */
  lemma {:induction false} LessData(taken: seq<Segment>, log: seq<Segment>)
    requires Chunks(taken) && Chunks(log) && forall c :: c in taken ==> c in log
    ensures |DataOf(taken)| <= |DataOf(log)|
    ensures |DataOf(taken)| == |DataOf(log)| ==> taken == log
    decreases |log|
  {
    if log == [] {
      if taken != [] {
        NotEmpty(taken, log);
      }
    } else {
      var log', last := log[..|log| - 1], log[|log| - 1];
      assert log == log' + [last];
      DataOfSnoc(log', last);
      assert DataSegment(last);
      if taken != [] {
        var taken', t := taken[..|taken| - 1], taken[|taken| - 1];
        assert taken == taken' + [t];
        DataOfSnoc(taken', t);
        if t == last {
          OthersIn(taken', log', last);
          InitChunks(log', last);
          LessData(taken', log');
        } else {
          InitChunks(log', last);
          LastNotTaken(taken, log', last);
          LessData(taken, log');
        }
      }
    }
  }

  lemma LastNotTaken(taken: seq<Segment>, log: seq<Segment>, last: Segment)
    requires Chunks(taken) && Chunks(log + [last]) && taken != [] && taken[|taken| - 1] != last
    requires forall c :: c in taken ==> c in log + [last]
    ensures forall c :: c in taken ==> c in log
  {
    var t, m, n := taken[|taken| - 1], |taken| - 1, |log|;
    assert t in taken;
    var j :| 0 <= j < |log + [last]| && (log + [last])[j] == t;
    assert (log + [last])[n] == last && j < n && DataSegment((log + [last])[n]) && DataSegment(taken[m]);
    assert End(t) <= last.seqno;
  }

  /** What EOF at `y` says of the input of `x`, and of what `y` has written. */
  predicate EofSays(x: Side, y: Side) {
    y.H().outq.wroteEof ==>
      && x.H().readEof
      && y.H().outq.All() == DataOf(y.accepted)
      && (y.accepted == x.log <==> OnlyFins(x.sent, y.skipped))
      && (y.H().outq.written == DataOf(x.log) <==> OnlyFins(x.sent, y.skipped) && y.H().outq.Pending() == [])
  }

  lemma EofSaysSo(x: Side, y: Side)
    requires SenderInv(x) && ReceiverInv(x, y) && Book(x, y)
    ensures EofSays(x, y)
  {
    SenderChunks(x);
    TakenChunks(x, y);
    assert y.H().outq.All() == DataOf(y.accepted);
    hide Chunks, SenderInv, ReceiverInv, Tiling, Accounting, SentFin, OnlyFins, DataOf, Outq.Pending;
    LessData(y.accepted, x.log);
    AllIsWritten(y.H().outq);
    var q := y.H().outq;
    assert |q.All()| == |q.written| + |q.Pending()|;
  }

  lemma EofInWorld(w: World)
    requires Inv(w) && BothBooks(w)
    ensures EofSays(w.a, w.b) && EofSays(w.b, w.a)
  {
    hide SenderInv, ReceiverInv, Book, EofSays;
    EofSaysSo(w.a, w.b);
    EofSaysSo(w.b, w.a);
  }

  /**
   What EOF says, over any channel and in both directions: when EOF is recorded for the output of a host,
   its peer has read its input to the end; the output queue has accepted everything that the peer sent,
   now and for ever, if and only if all the sequence numbers passed over were those of FINs; and all of
   it is written if and only if, besides, nothing is still queued.
   */
  lemma EofMeansComplete(ca: Config, cb: Config, acts: seq<Action>)
    requires Legal(Start(ca, cb), acts) && Unwrapped(Exec(Start(ca, cb), acts))
    ensures var w := Exec(Start(ca, cb), acts); EofSays(w.a, w.b) && EofSays(w.b, w.a)
  {
    hide Exec, Legal, Start, Inv, BothBooks, EofSays;
    InvStart(ca, cb);
    BookStart(ca, cb);
    InvRun(Start(ca, cb), acts);
    BookRun(Start(ca, cb), acts);
    EofInWorld(Exec(Start(ca, cb), acts));
  }
}

/** What a host outputs, over any channel and in both directions. */
module Delivery {
  import opened Bytes
  import opened Segments
  import opened HostModel
  import opened Lives
  import opened Outcomes
  import opened Worlds

  /** The chunks taken are chunks of the log, in its order, and each at most once. */
  predicate Subsequence(taken: seq<Segment>, log: seq<Segment>, at: seq<nat>) {
    && |at| == |taken|
    && (forall i :: 0 <= i < |at| ==> at[i] < |log| && log[at[i]] == taken[i])
    && (forall i, j :: 0 <= i < j < |at| ==> at[i] < at[j])
  }

  lemma OrderedIndex(log: seq<Segment>, i: nat, j: nat)
    requires Ordered(log) && i < |log| && j < |log|
    requires forall k :: 0 <= k < |log| ==> DataSegment(log[k])
    requires End(log[i]) <= log[j].seqno
    ensures i < j
  {
    assert DataSegment(log[i]) && DataSegment(log[j]);
  }

  /** Chunks that are in the log and follow each other without overlap are a subsequence of it. */
  lemma {:induction false} OrderedIsSubsequence(taken: seq<Segment>, log: seq<Segment>) returns (at: seq<nat>)
    requires Ordered(taken) && Ordered(log)
    requires forall i :: 0 <= i < |taken| ==> taken[i] in log
    requires forall k :: 0 <= k < |log| ==> DataSegment(log[k])
    ensures Subsequence(taken, log, at)
  {
    at := [];
    if taken != [] {
      var n := |taken| - 1;
      var init := OrderedIsSubsequence(taken[..n], log);
      var k :| 0 <= k < |log| && log[k] == taken[n];
      forall i | 0 <= i < n
        ensures init[i] < k
      {
        assert log[init[i]] == taken[..n][i] == taken[i];
        OrderedIndex(log, init[i], k);
      }
      at := init + [k];
    }
  }

  /**
   In order and at most once: whatever the network loses, duplicates, reorders or delays, and with both
   hosts sending, what a host outputs is made of chunks that its peer sent, each whole, each at most
   once, and in the order in which they were first sent; what has been written is a prefix of that.
   */
  lemma InOrderAtMostOnce(ca: Config, cb: Config, acts: seq<Action>) returns (atA: seq<nat>, atB: seq<nat>)
    requires Legal(Start(ca, cb), acts) && Unwrapped(Exec(Start(ca, cb), acts))
    ensures var w := Exec(Start(ca, cb), acts);
      && Subsequence(w.b.accepted, w.a.log, atB)
      && w.b.H().outq.All() == DataOf(w.b.accepted) && w.b.H().outq.written <= DataOf(w.b.accepted)
      && Subsequence(w.a.accepted, w.b.log, atA)
      && w.a.H().outq.All() == DataOf(w.a.accepted) && w.a.H().outq.written <= DataOf(w.a.accepted)
  {
    hide Legal, Exec, Advance, EofInv;
    InvStart(ca, cb);
    InvRun(Start(ca, cb), acts);
    var w := Exec(Start(ca, cb), acts);
    atB := OrderedIsSubsequence(w.b.accepted, w.a.log);
    atA := OrderedIsSubsequence(w.a.accepted, w.b.log);
  }

  /**
   Only what was sent is acknowledged: a host's `ackno`, and every acknowledgment number it has put on
   the wire, is at least 1 and at most the number its peer sends next, and every segment ends by its
   sender's next number.
   */
  lemma AcknowledgesOnlyWhatWasSent(ca: Config, cb: Config, acts: seq<Action>)
    requires Legal(Start(ca, cb), acts) && Unwrapped(Exec(Start(ca, cb), acts))
    ensures var w := Exec(Start(ca, cb), acts);
      && 1 <= w.a.H().ackno <= w.b.H().seqno && 1 <= w.b.H().ackno <= w.a.H().seqno
      && (forall s :: s in w.a.sent ==> End(s) <= w.a.H().seqno && 1 <= s.ackno <= w.b.H().seqno)
      && (forall s :: s in w.b.sent ==> End(s) <= w.b.H().seqno && 1 <= s.ackno <= w.a.H().seqno)
  {
    InvStart(ca, cb);
    InvRun(Start(ca, cb), acts);
    var w := Exec(Start(ca, cb), acts);
    assert forall s :: s in w.a.sent ==> Sendable(w.a.next, w.a.log, s);
    assert forall s :: s in w.b.sent ==> Sendable(w.b.next, w.b.log, s);
  }

  /** While data is transferred, `ackno` never falls, whatever happens next in a state that a run reaches. */
  lemma AcknoNeverFalls(ca: Config, cb: Config, acts: seq<Action>, act: Action)
    requires Legal(Start(ca, cb), acts) && Unwrapped(Exec(Start(ca, cb), acts))
    requires Enabled(Exec(Start(ca, cb), acts), act)
    ensures var w := Exec(Start(ca, cb), acts);
      var w' := Apply(w, act);
      && (w.a.H().connState == DataTransfer ==> w'.a.H().ackno >= w.a.H().ackno)
      && (w.b.H().connState == DataTransfer ==> w'.b.H().ackno >= w.b.H().ackno)
  {
    InvStart(ca, cb);
    InvRun(Start(ca, cb), acts);
    var w := Exec(Start(ca, cb), acts);
    hide Legal, Exec, Start;
    if act.who == A {
      AcknoStep(w.b, w.a, act.event);
    } else {
      AcknoStep(w.a, w.b, act.event);
    }
  }

  lemma AcknoStep(x: Side, y: Side, e: Event)
    requires SenderInv(x) && ReceiverInv(x, y) && x.next < U32_MOD && (e.ReceiveEvent? ==> e.segment in x.sent)
    ensures y.H().connState == DataTransfer ==> Advance(y, e).H().ackno >= y.H().ackno
  {
    assert e.ReceiveEvent? ==> Sendable(x.next, x.log, e.segment);
    EventTook(x, y, e);
    NextHost(y.life, e);
  }
}

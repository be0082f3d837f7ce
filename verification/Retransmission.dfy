/** Retransmission over the life of one host: when a saved segment goes out again, and when it is given up. */
module Retransmission {
  import opened Bytes
  import opened OutputQueue
  import opened Segments
  import opened Connections
  import opened HostModel
  import opened Lives
  import opened Clocks

  /** The clock of a saved segment, modulo 2^16, shows at least the timeout after `k` ticks. */
  predicate Due(timer: u16, rtTimeout: u16, k: nat) {
    U16(k * timer) >= rtTimeout
  }

  /** How many of the first `k` ticks are due. */
  function DueCount(timer: u16, rtTimeout: u16, k: nat): nat {
    if k == 0 then 0 else DueCount(timer, rtTimeout, k - 1) + if Due(timer, rtTimeout, k) then 1 else 0
  }

  lemma {:induction false} DueCountGrows(timer: u16, rtTimeout: u16, j: nat, k: nat)
    requires j <= k
    ensures DueCount(timer, rtTimeout, j) <= DueCount(timer, rtTimeout, k)
    decreases k
  {
    if j < k {
      DueCountGrows(timer, rtTimeout, j, k - 1);
    }
  }

  // ---------- when a segment goes out ----------

  /** The last of the first `age` ticks that was due, if there is one, came `quiet` ticks before. */
  predicate LastDue(timer: u16, rtTimeout: u16, age: nat, quiet: nat) {
    && quiet <= age
    && (quiet < age ==> Due(timer, rtTimeout, age - quiet))
    && forall k :: age - quiet < k <= age ==> !Due(timer, rtTimeout, k)
  }

  predicate ClockInv(l: Life) {
    l.h.saved.Some? && !l.h.deleted ==>
      && l.h.saved.value.time == U16(l.age * l.h.timer)
      && l.h.saved.value.noOfTimes == DueCount(l.h.timer, l.h.rtTimeout, l.age) < MAX_RETRIES
      && l.sends == 1 + l.h.saved.value.noOfTimes
      && LastDue(l.h.timer, l.h.rtTimeout, l.age, l.quiet)
  }

  lemma TickWithoutSaved(h: Host, ok: bool)
    requires !h.deleted && (h.saved.None? || TickLinger(h).deleted)
    ensures Step(h, TickEvent(ok)) == Effect(TickLinger(h), [])
  {
  }

  lemma ClockTick(l: Life, ok: bool)
    requires ClockInv(l) && l.h.saved.Some? && !TickLinger(l.h).deleted && !l.h.deleted && ok
    ensures var l' := Next(l, TickEvent(ok));
      var due := Due(l.h.timer, l.h.rtTimeout, l.age + 1);
      && ClockInv(l') && l'.age == l.age + 1
      && Step(l.h, TickEvent(ok)).sent == (if due then [l.h.saved.value.segment] else [])
      && (l'.h.saved.None? <==> DueCount(l.h.timer, l.h.rtTimeout, l.age + 1) == MAX_RETRIES)
      && (l'.h.saved.None? ==> l'.sends == 1 + MAX_RETRIES)
      && l'.quiet == (if due then 0 else l.quiet + 1)
  {
    hide U16;
    ClockAdvances(l.age, l.h.timer);
    SmallU16(l.h.saved.value.noOfTimes + 1);
    assert Step(l.h, TickEvent(ok)) == TickSaved(TickLinger(l.h), ok);
  }

  lemma ClockStep(l: Life, e: Event)
    requires ClockInv(l) && SendsSucceed(e)
    ensures ClockInv(Next(l, e))
  {
    hide Read, Receive, Tick, Drained, U16, Due;
    ConfigStep(l.h, e);
    if l.h.deleted {
    } else if e.TickEvent? {
      if l.h.saved.Some? && !TickLinger(l.h).deleted {
        ClockTick(l, e.ok);
      } else {
        TickWithoutSaved(l.h, e.ok);
      }
    } else {
      KeepsSavedElsewhere(l.h, e);
      ClockStart(l.h.timer);
    }
  }

  lemma {:induction false} ClockRun(l: Life, events: seq<Event>)
    requires ClockInv(l) && AllSendsSucceed(events)
    ensures ClockInv(Run(l, events))
    decreases |events|
  {
    hide Next, ClockInv;
    if events == [] {
    } else {
      assert SendsSucceed(events[0]);
      ClockStep(l, events[0]);
      ClockRun(Next(l, events[0]), events[1..]);
    }
  }

  /** In every run the clocks are right. */
  lemma ClockReached(timer: u16, rtTimeout: u16, events: seq<Event>)
    requires AllSendsSucceed(events)
    ensures var l := Run(Born(timer, rtTimeout), events);
      ClockInv(l) && l.h.timer == timer && l.h.rtTimeout == rtTimeout
  {
    ClockRun(Born(timer, rtTimeout), events);
    ConfigRun(Born(timer, rtTimeout), events);
  }

  lemma LingerFirst(l: Life)
    requires l.h.saved.Some? && !l.h.deleted && TickLinger(l.h).deleted
    ensures Next(l, TickEvent(true)).h.deleted && Step(l.h, TickEvent(true)).sent == []
  {
    TickWithoutSaved(l.h, true);
  }

  /**
   Exactly when a segment goes out again, over every run and for all intervals: on each tick at which its
   wrapping clock shows the timeout; and the fifth such tick drops it, after it was sent six times.
   */
  lemma ResentExactlyWhenDue(timer: u16, rtTimeout: u16, events: seq<Event>)
    requires AllSendsSucceed(events)
    ensures var l := Run(Born(timer, rtTimeout), events);
      var l' := Next(l, TickEvent(true));
      l.h.saved.Some? && !l.h.deleted && !l'.h.deleted ==>
        && l.sends == 1 + DueCount(timer, rtTimeout, l.age) <= MAX_RETRIES
        && Step(l.h, TickEvent(true)).sent == (if Due(timer, rtTimeout, l.age + 1) then [l.h.saved.value.segment] else [])
        && (l'.h.saved.None? <==> DueCount(timer, rtTimeout, l.age + 1) == MAX_RETRIES)
        && (l'.h.saved.None? ==> l'.sends == 6)
  {
    hide Run, Next, Step, Due;
    ClockReached(timer, rtTimeout, events);
    var l := Run(Born(timer, rtTimeout), events);
    if l.h.saved.Some? && !l.h.deleted {
      if TickLinger(l.h).deleted {
        LingerFirst(l);
      } else {
        ClockTick(l, true);
      }
    }
  }

  // ---------- while the clock does not wrap ----------

  /** No clock of a saved segment wraps. */
  predicate RetransmissionFits(timer: u16, rtTimeout: u16) {
    timer > 0 && rtTimeout + 5 * timer < U16_MOD
  }

  /** Then every tick from the first due one on is due. */
  lemma {:induction false} DueWhileFits(timer: u16, rtTimeout: u16, k: nat)
    requires RetransmissionFits(timer, rtTimeout) && k <= TicksTo(timer, rtTimeout) + 4
    ensures var first := TicksTo(timer, rtTimeout);
      && k * timer < U16_MOD
      && (k >= 1 ==> (Due(timer, rtTimeout, k) <==> k >= first))
      && DueCount(timer, rtTimeout, k) == (if k < first then 0 else k + 1 - first)
  {
    var first := TicksTo(timer, rtTimeout);
    TicksToIs(timer, rtTimeout, 1);
    Monotone(k, first + 4, timer);
    Distributed(first, 4, timer);
    SmallU16(k * timer);
    if k >= 1 {
      TicksToIs(timer, rtTimeout, k);
      DueWhileFits(timer, rtTimeout, k - 1);
    }
  }

  /** A count below five bounds the age. */
  lemma AgeBound(timer: u16, rtTimeout: u16, age: nat)
    requires RetransmissionFits(timer, rtTimeout) && DueCount(timer, rtTimeout, age) < MAX_RETRIES
    ensures age < TicksTo(timer, rtTimeout) + 4
  {
    hide DueCount;
    var last := TicksTo(timer, rtTimeout) + 4;
    if age >= last {
      DueWhileFits(timer, rtTimeout, last);
      DueCountGrows(timer, rtTimeout, last, age);
    }
  }

  lemma SendsCounted(l: Life)
    ensures Next(l, TickEvent(true)).sends == l.sends + |Step(l.h, TickEvent(true)).sent|
  {
    hide Step;
  }

  /**
   The retransmission budget, over every run: a saved segment first goes out again on tick
   ceil(rt_timeout / timer) after it was sent, then on every tick, and on the fourth tick after that
   it is dropped, having been sent 6 times; its clock never wraps on the way.
   */
  lemma RetransmissionBudget(timer: u16, rtTimeout: u16, events: seq<Event>)
    requires RetransmissionFits(timer, rtTimeout) && AllSendsSucceed(events)
    ensures var l := Run(Born(timer, rtTimeout), events);
      var first := TicksTo(timer, rtTimeout);
      var l' := Next(l, TickEvent(true));
      l.h.saved.Some? && !l.h.deleted && !l'.h.deleted ==>
        && l.h.saved.value.time == l.age * timer
        && l.age < first + 4
        && Step(l.h, TickEvent(true)).sent == (if l.age + 1 >= first then [l.h.saved.value.segment] else [])
        && l.sends == (if l.age < first then 1 else l.age + 2 - first)
        && l'.sends == l.sends + (if l.age + 1 >= first then 1 else 0)
        && (l'.h.saved.None? <==> l.age + 1 == first + 4)
        && (l'.h.saved.None? ==> l'.sends == 6)
  {
    hide Run, Next, Step, Due, DueCount, TicksTo;
    ClockReached(timer, rtTimeout, events);
    ResentExactlyWhenDue(timer, rtTimeout, events);
    var l := Run(Born(timer, rtTimeout), events);
    if l.h.saved.Some? && !l.h.deleted {
      AgeBound(timer, rtTimeout, l.age);
      DueWhileFits(timer, rtTimeout, l.age);
      DueWhileFits(timer, rtTimeout, l.age + 1);
      SmallU16(l.age * timer);
      SendsCounted(l);
    }
  }

  // ---------- the spacing of retransmissions ----------

  lemma TicksSucceed(n: nat)
    ensures AllSendsSucceed(Ticks(n))
  {
  }

  /** A segment is saved at a host that does not linger. */
  predicate Kept(l: Life) {
    ClockInv(l) && l.h.saved.Some? && !l.h.deleted && l.h.tdState == NotTeardown
  }

  predicate SameClocks(l: Life, l': Life) {
    && l'.h.timer == l.h.timer && l'.h.rtTimeout == l.h.rtTimeout
    && l'.h.saved.Some? && l.h.saved.Some? && l'.h.saved.value.segment == l.h.saved.value.segment
  }

  lemma TickKeeps(h: Host)
    requires h.tdState == NotTeardown && !h.deleted
    ensures var h' := Step(h, TickEvent(true)).host;
      && !h'.deleted && h'.tdState == NotTeardown
      && (h'.saved.Some? ==> h.saved.Some? && h'.saved.value.segment == h.saved.value.segment)
  {
  }

  lemma KeptTick(l: Life)
    requires Kept(l)
    ensures var l' := Next(l, TickEvent(true));
      && (Step(l.h, TickEvent(true)).sent ==
            if Due(l.h.timer, l.h.rtTimeout, l.age + 1) then [l.h.saved.value.segment] else [])
      && (DueCount(l.h.timer, l.h.rtTimeout, l.age + 1) < MAX_RETRIES ==>
            Kept(l') && SameClocks(l, l') && l'.age == l.age + 1)
  {
    hide Tick, Due, DueCount, LastDue;
    ClockTick(l, true);
    TickKeeps(l.h);
    ConfigStep(l.h, TickEvent(true));
    NextHost(l, TickEvent(true));
  }

  /** Ticks alone, while the segment is not yet given up. */
  lemma {:induction false} KeptThroughTicks(l: Life, n: nat)
    requires Kept(l) && DueCount(l.h.timer, l.h.rtTimeout, l.age + n) < MAX_RETRIES
    ensures var l' := Run(l, Ticks(n)); Kept(l') && SameClocks(l, l') && l'.age == l.age + n
  {
    hide Step, Next, Ticks, ClockInv, DueCount;
    if n == 0 {
      assert Ticks(0) == [] by { TicksStart(); }
    } else {
      DueCountGrows(l.h.timer, l.h.rtTimeout, l.age + n - 1, l.age + n);
      KeptThroughTicks(l, n - 1);
      TicksSnoc(l, n - 1);
      KeptTick(Run(l, Ticks(n - 1)));
    }
  }

  /** A new host reads a byte and sends it. */
  lemma FirstRead(timer: u16, rtTimeout: u16) returns (l: Life, read: Event)
    ensures SendsSucceed(read) && l == Next(Born(timer, rtTimeout), read)
    ensures Kept(l) && l.age == 0 && l.h.timer == timer && l.h.rtTimeout == rtTimeout
  {
    read := ReadEvent(Chars([0]), true);
    l := Next(Born(timer, rtTimeout), read);
    ClockStep(Born(timer, rtTimeout), read);
  }

  /** A run in which a segment has been saved for `n` ticks. */
  lemma ReadAndTicks(timer: u16, rtTimeout: u16, n: nat) returns (events: seq<Event>)
    requires DueCount(timer, rtTimeout, n) < MAX_RETRIES
    ensures AllSendsSucceed(events)
    ensures var l := Run(Born(timer, rtTimeout), events);
      Kept(l) && l.age == n && l.h.timer == timer && l.h.rtTimeout == rtTimeout
  {
    hide Step, Next, Ticks, ClockInv, DueCount;
    var l0, read := FirstRead(timer, rtTimeout);
    events := [read] + Ticks(n);
    TicksSucceed(n);
    assert events[1..] == Ticks(n);
    KeptThroughTicks(l0, n);
  }

  lemma SendingIsQuiet(l: Life)
    requires Step(l.h, TickEvent(true)).sent != []
    ensures Next(l, TickEvent(true)).quiet == 0
  {
    hide Step;
  }

  /** After its first retransmission a segment goes out again on the very next tick, if its clock does not wrap. */
  lemma ResentOnConsecutiveTicks(timer: u16, rtTimeout: u16) returns (events: seq<Event>, s: Segment)
    requires RetransmissionFits(timer, rtTimeout)
    ensures AllSendsSucceed(events)
    ensures var l := Run(Born(timer, rtTimeout), events);
      var l' := Next(l, TickEvent(true));
      && Step(l.h, TickEvent(true)).sent == [s]
      && Step(l'.h, TickEvent(true)).sent == [s] && l'.quiet == 0
  {
    hide TicksTo, Step, Next, Run, ClockInv, Due, DueCount, AllSendsSucceed;
    var first := TicksTo(timer, rtTimeout);
    TicksToIs(timer, rtTimeout, 1);
    DueWhileFits(timer, rtTimeout, first - 1);
    DueWhileFits(timer, rtTimeout, first);
    DueWhileFits(timer, rtTimeout, first + 1);
    events := ReadAndTicks(timer, rtTimeout, first - 1);
    var l := Run(Born(timer, rtTimeout), events);
    s := l.h.saved.value.segment;
    KeptTick(l);
    KeptTick(Next(l, TickEvent(true)));
    SendingIsQuiet(l);
  }

  /** If the next tick sends the saved segment, its last sending is at least `rtTimeout` ago. */
  predicate Spaced(timer: u16, rtTimeout: u16, events: seq<Event>) {
    var l := Run(Born(timer, rtTimeout), events);
    Step(l.h, TickEvent(true)).sent != [] ==> (l.quiet + 1) * timer >= rtTimeout
  }

  /** Of the five due ticks, no two are closer than the timeout. */
  ghost predicate DueTicksApart(timer: u16, rtTimeout: u16) {
    forall j: nat, k: nat ::
      1 <= j < k && Due(timer, rtTimeout, j) && Due(timer, rtTimeout, k) && DueCount(timer, rtTimeout, k) <= MAX_RETRIES ==>
        (k - j) * timer >= rtTimeout
  }

  /** A tick sends only a segment that is saved. */
  lemma SendsMeansSaved(h: Host)
    requires Step(h, TickEvent(true)).sent != []
    ensures h.saved.Some? && !h.deleted && !TickLinger(h).deleted
  {
    if !h.deleted && (h.saved.None? || TickLinger(h).deleted) {
      TickWithoutSaved(h, true);
    }
  }

  lemma ApartMeansSpaced(timer: u16, rtTimeout: u16, events: seq<Event>)
    requires DueTicksApart(timer, rtTimeout) && AllSendsSucceed(events)
    ensures Spaced(timer, rtTimeout, events)
  {
    hide Run, Step, Next, Due, DueCount;
    ClockReached(timer, rtTimeout, events);
    var l := Run(Born(timer, rtTimeout), events);
    if Step(l.h, TickEvent(true)).sent != [] {
      SendsMeansSaved(l.h);
      ClockTick(l, true);
      var k, j := l.age + 1, l.age - l.quiet;
      assert DueCount(timer, rtTimeout, k) <= MAX_RETRIES by { OneMoreDue(timer, rtTimeout, l.age); }
      if j == 0 {
        DueMeansLate(timer, rtTimeout, k);
      }
      assert k - j == l.quiet + 1;
    }
  }

  lemma OneMoreDue(timer: u16, rtTimeout: u16, k: nat)
    ensures DueCount(timer, rtTimeout, k + 1) <= DueCount(timer, rtTimeout, k) + 1
  {
  }

  lemma DueMeansLate(timer: u16, rtTimeout: u16, k: nat)
    requires Due(timer, rtTimeout, k)
    ensures k * timer >= rtTimeout
  {
    Reduced(k * timer);
  }

  /** Two due ticks that are too close give a run that is not spaced. */
  lemma CloseMeansNotSpaced(timer: u16, rtTimeout: u16, j: nat, k: nat) returns (events: seq<Event>)
    requires 1 <= j < k && Due(timer, rtTimeout, j) && Due(timer, rtTimeout, k)
    requires DueCount(timer, rtTimeout, k) <= MAX_RETRIES && (k - j) * timer < rtTimeout
    ensures AllSendsSucceed(events) && !Spaced(timer, rtTimeout, events)
  {
    hide Run, Step, Next, Due, AllSendsSucceed;
    events := ReadAndTicks(timer, rtTimeout, k - 1);
    var l := Run(Born(timer, rtTimeout), events);
    KeptTick(l);
    assert LastDue(timer, rtTimeout, k - 1, l.quiet);
    assert l.quiet <= k - 1 - j;
    Monotone(l.quiet + 1, k - j, timer);
  }

  /**
   When a segment is resent only `rt_timeout` after it was last sent, which is what `ctcp_timer` is
   asked for, for all intervals: in every run, if and only if no two of the five due ticks are closer
   than that. A timer that is no faster than the timeout is enough; as long as the clock does not wrap
   it is also necessary.
   */
  lemma SpacedIff(timer: u16, rtTimeout: u16)
    ensures (forall events :: AllSendsSucceed(events) ==> Spaced(timer, rtTimeout, events)) <==>
            DueTicksApart(timer, rtTimeout)
    ensures rtTimeout <= timer ==> DueTicksApart(timer, rtTimeout)
    ensures RetransmissionFits(timer, rtTimeout) ==> (DueTicksApart(timer, rtTimeout) <==> rtTimeout <= timer)
  {
    hide Run, Step, Next, AllSendsSucceed, RetransmissionFits, Due, DueCount, Spaced;
    SlowTimerApart(timer, rtTimeout);
    if DueTicksApart(timer, rtTimeout) {
      forall events | AllSendsSucceed(events)
        ensures Spaced(timer, rtTimeout, events)
      {
        ApartMeansSpaced(timer, rtTimeout, events);
      }
    } else {
      var j: nat, k: nat :| 1 <= j < k && Due(timer, rtTimeout, j) && Due(timer, rtTimeout, k)
                            && DueCount(timer, rtTimeout, k) <= MAX_RETRIES && (k - j) * timer < rtTimeout;
      var events := CloseMeansNotSpaced(timer, rtTimeout, j, k);
      assert AllSendsSucceed(events) && !Spaced(timer, rtTimeout, events);
    }
  }

  lemma SlowTimerApart(timer: u16, rtTimeout: u16)
    ensures rtTimeout <= timer ==> DueTicksApart(timer, rtTimeout)
    ensures RetransmissionFits(timer, rtTimeout) && rtTimeout > timer ==> !DueTicksApart(timer, rtTimeout)
  {
    hide Due, DueCount, TicksTo;
    if rtTimeout <= timer {
      forall j: nat, k: nat | 1 <= j < k && Due(timer, rtTimeout, j) && Due(timer, rtTimeout, k)
        ensures (k - j) * timer >= rtTimeout
      {
        Monotone(1, k - j, timer);
      }
    } else if RetransmissionFits(timer, rtTimeout) {
      var first := TicksTo(timer, rtTimeout);
      TicksToIs(timer, rtTimeout, 1);
      DueWhileFits(timer, rtTimeout, first);
      DueWhileFits(timer, rtTimeout, first + 1);
      assert (first + 1 - first) * timer < rtTimeout;
    }
  }

  lemma OneTickLater(l: Life, events: seq<Event>)
    requires AllSendsSucceed(events)
    ensures AllSendsSucceed(events + [TickEvent(true)])
    ensures Run(l, events + [TickEvent(true)]) == Next(Run(l, events), TickEvent(true))
  {
    hide Next;
    RunConcat(l, events, [TickEvent(true)]);
    assert [TickEvent(true)][1..] == [];
  }

  /** The intervals that the program is shipped with, in milliseconds. */
  const TIMER_INTERVAL: u16 := 40
  const RT_INTERVAL: u16 := 200

  /** With them a segment does go out twice within one timer interval, a fifth of the timeout. */
  lemma ShippedIntervals() returns (events: seq<Event>, s: Segment)
    ensures AllSendsSucceed(events)
    ensures var l := Run(Born(TIMER_INTERVAL, RT_INTERVAL), events);
      var l' := Next(l, TickEvent(true));
      && Step(l.h, TickEvent(true)).sent == [s]
      && Step(l'.h, TickEvent(true)).sent == [s] && l'.quiet == 0
    ensures !Spaced(TIMER_INTERVAL, RT_INTERVAL, events + [TickEvent(true)])
  {
    hide Run, Step, Next, AllSendsSucceed;
    events, s := ResentOnConsecutiveTicks(TIMER_INTERVAL, RT_INTERVAL);
    OneTickLater(Born(TIMER_INTERVAL, RT_INTERVAL), events);
  }
}

/**
 The linger of a closed connection: its clock has 16 bits and wraps, so whether the connection ever
 ends depends on the intervals it was configured with.
 */
module Lingers {
  import opened Bytes
  import opened OutputQueue
  import opened HostModel
  import opened Lives
  import opened Clocks

  predicate Lingering(h: Host) {
    h.tdState == WaitDestroy && !h.deleted
  }

  /** After that many ticks the clock shows at least 50 times the timeout. */
  predicate TimeUp(timer: u16, rtTimeout: u16, k: nat) {
    U16(k * timer) >= 50 * rtTimeout
  }

  /**
   The clock stands at 0 until it is started; then it counts the ticks since it was last restarted, modulo
   2^16, and it has not shown its limit yet.
   */
  predicate LingerInv(l: Life) {
    && (l.h.tdState == NotTeardown ==> l.h.tim == 0)
    && (Lingering(l.h) ==>
          && l.h.tim == U16(l.lingerAge * l.h.timer)
          && forall k :: 1 <= k <= l.lingerAge ==> !TimeUp(l.h.timer, l.h.rtTimeout, k))
  }

  /** Outside a tick the linger clock is only ever restarted, by a FIN in `WAIT_LAST_FIN`. */
  lemma LingerElsewhere(h: Host, e: Event)
    requires !e.TickEvent? && !h.deleted
    ensures var h' := Step(h, e).host;
      if e.ReceiveEvent? && h.connState == WaitLastFin && e.segment.fin then h'.tim == 0 && h'.tdState == WaitDestroy
      else h'.tim == h.tim && h'.tdState == h.tdState
  {
    hide Drained, Put, U16, U32;
  }

  lemma TickLingerOnly(h: Host, ok: bool)
    requires !h.deleted
    ensures var h' := Step(h, TickEvent(ok)).host;
      h'.tim == TickLinger(h).tim && h'.tdState == h.tdState && h'.deleted == TickLinger(h).deleted
      && h'.timer == h.timer && h'.rtTimeout == h.rtTimeout
  {
    hide U16;
  }

  /** A tick of the linger clock: it ends the connection exactly when its time is up. */
  lemma LingerTick(l: Life, ok: bool)
    requires LingerInv(l) && Lingering(l.h)
    ensures var l' := Next(l, TickEvent(ok));
      && LingerInv(l') && l'.h.tdState == WaitDestroy
      && l'.lingerAge == l.lingerAge + 1
      && (l'.h.deleted <==> TimeUp(l.h.timer, l.h.rtTimeout, l'.lingerAge))
  {
    hide U16, Tick;
    ClockAdvances(l.lingerAge, l.h.timer);
    TickLingerOnly(l.h, ok);
  }

  lemma LingerStep(l: Life, e: Event)
    requires LingerInv(l)
    ensures LingerInv(Next(l, e))
  {
    hide Read, Receive, Tick, Drained, U16, TimeUp;
    ConfigStep(l.h, e);
    if l.h.deleted {
    } else if e.TickEvent? {
      TickLingerOnly(l.h, e.ok);
      if Lingering(l.h) {
        LingerTick(l, e.ok);
      }
    } else {
      LingerElsewhere(l.h, e);
      ClockStart(l.h.timer);
    }
  }

  lemma {:induction false} LingerRun(l: Life, events: seq<Event>)
    requires LingerInv(l)
    ensures LingerInv(Run(l, events))
    decreases |events|
  {
    hide Next, LingerInv;
    if events == [] {
    } else {
      LingerStep(l, events[0]);
      LingerRun(Next(l, events[0]), events[1..]);
    }
  }

  /** Before the clock could first be up without wrapping it is not up, and then it is up unless it has wrapped. */
  lemma FirstTimeUp(timer: u16, rtTimeout: u16, k: nat)
    requires timer > 0 && 1 <= k <= TicksTo(timer, 50 * rtTimeout)
    ensures var n := TicksTo(timer, 50 * rtTimeout);
      TimeUp(timer, rtTimeout, k) <==> k == n && n * timer < U16_MOD
  {
    var limit := 50 * rtTimeout;
    TicksToIs(timer, limit, k);
    if k > 1 {
      TicksToIs(timer, limit, k - 1);
    }
    assert k * timer == (k - 1) * timer + timer;
    Monotone(k, TicksTo(timer, limit), timer);
    Reduced(k * timer);
  }

  /**
   What `ctcp_timer` destroys, over every run: a tick ends a connection if and only if it lingers and the
   tick completes its time. In particular the tick that gives a segment up after five retransmissions
   does not end the connection.
   */
  lemma TickDestroysIff(timer: u16, rtTimeout: u16, events: seq<Event>, ok: bool)
    ensures var l := Run(Born(timer, rtTimeout), events);
      !l.h.deleted ==>
        (Next(l, TickEvent(ok)).h.deleted <==> Lingering(l.h) && TimeUp(timer, rtTimeout, l.lingerAge + 1))
    ensures Run(Born(timer, rtTimeout), events).h.tdState == NotTeardown ==> Run(Born(timer, rtTimeout), events).h.tim == 0
  {
    hide Run, Next, Tick, TimeUp, U16;
    LingerRun(Born(timer, rtTimeout), events);
    ConfigRun(Born(timer, rtTimeout), events);
    var l := Run(Born(timer, rtTimeout), events);
    if !l.h.deleted {
      TickLingerOnly(l.h, ok);
      NextHost(l, TickEvent(ok));
      if Lingering(l.h) {
        LingerTick(l, ok);
      }
    }
  }

  /**
   The linger bound, over every run and for every configuration. Let `n` be ceil(50 * rt_timeout / timer).
   No tick before the `n`th after the FIN that last restarted the clock destroys a lingering host, and
   the `n`th destroys it if and only if `n * timer` fits the 16 bits of the clock.
   */
  lemma LingerBound(timer: u16, rtTimeout: u16, events: seq<Event>, ok: bool)
    requires timer > 0
    ensures var l := Run(Born(timer, rtTimeout), events);
      var n := TicksTo(timer, 50 * rtTimeout);
      var destroyed := Next(l, TickEvent(ok)).h.deleted;
      Lingering(l.h) ==>
        && l.h.tim == U16(l.lingerAge * timer)
        && (l.lingerAge + 1 < n ==> !destroyed)
        && (l.lingerAge + 1 == n ==> (destroyed <==> n * timer < U16_MOD))
        && (n * timer < U16_MOD ==> l.lingerAge < n && l.h.tim == l.lingerAge * timer)
  {
    hide TicksTo, U16, TimeUp, Next;
    LingerRun(Born(timer, rtTimeout), events);
    ConfigRun(Born(timer, rtTimeout), events);
    var l := Run(Born(timer, rtTimeout), events);
    var n := TicksTo(timer, 50 * rtTimeout);
    TicksToIs(timer, 50 * rtTimeout, 1);
    if Lingering(l.h) {
      LingerTick(l, ok);
      if l.lingerAge + 1 <= n {
        FirstTimeUp(timer, rtTimeout, l.lingerAge + 1);
        Monotone(l.lingerAge, n, timer);
        Reduced(l.lingerAge * timer);
      } else {
        FirstTimeUp(timer, rtTimeout, n);
        assert !TimeUp(timer, rtTimeout, n);
      }
    }
  }

  // ---------- exactly when a linger ends ----------

  /** The limit is shown at some tick if and only if it is not above the highest value shown. */
  lemma ShownIff(timer: u16, rtTimeout: u16)
    ensures 50 * rtTimeout <= U16_MOD - Grain(timer) ==>
              exists k :: 1 <= k <= U16_MOD / Grain(timer) && TimeUp(timer, rtTimeout, k)
    ensures 50 * rtTimeout > U16_MOD - Grain(timer) ==> forall k :: !TimeUp(timer, rtTimeout, k)
  {
    if 50 * rtTimeout <= U16_MOD - Grain(timer) {
      var k := HighestShown(timer);
      assert TimeUp(timer, rtTimeout, k);
    } else {
      forall k
        ensures !TimeUp(timer, rtTimeout, k)
      {
        NothingHigher(timer, k);
      }
    }
  }

  /** Ticks alone, at a lingering host. */
  lemma {:induction false} LingersOn(l: Life, n: nat)
    requires LingerInv(l) && l.h.tdState == WaitDestroy
    ensures var l' := Run(l, Ticks(n));
      && LingerInv(l') && l'.h.tdState == WaitDestroy && l'.lingerAge == l.lingerAge + n
      && l'.h.timer == l.h.timer && l'.h.rtTimeout == l.h.rtTimeout
  {
    hide Step, Next, Ticks, LingerInv;
    ConfigRun(l, Ticks(n));
    if n == 0 {
      assert Ticks(0) == [] by { TicksStart(); }
    } else {
      LingersOn(l, n - 1);
      TicksSnoc(l, n - 1);
      LingerStep(Run(l, Ticks(n - 1)), TickEvent(true));
      TickCounts(Run(l, Ticks(n - 1)));
    }
  }

  lemma TickCounts(l: Life)
    ensures var l' := Next(l, TickEvent(true)); l'.h.tdState == l.h.tdState && l'.lingerAge == l.lingerAge + 1
  {
    hide Tick;
    if !l.h.deleted {
      TickLingerOnly(l.h, true);
    }
  }

  /** A tick destroys no host whose clock cannot show its limit. */
  lemma TickSpares(l: Life, ok: bool)
    requires LingerInv(l) && !l.h.deleted && 50 * l.h.rtTimeout > U16_MOD - Grain(l.h.timer)
    ensures !Next(l, TickEvent(ok)).h.deleted
  {
    hide Tick, TimeUp, U16, Grain;
    ShownIff(l.h.timer, l.h.rtTimeout);
    TickLingerOnly(l.h, ok);
    if Lingering(l.h) {
      LingerTick(l, ok);
    }
  }

  lemma {:induction false} TicksSpare(l: Life, n: nat)
    requires LingerInv(l) && Lingering(l.h) && 50 * l.h.rtTimeout > U16_MOD - Grain(l.h.timer)
    ensures !Run(l, Ticks(n)).h.deleted
  {
    hide Step, Next, Ticks, LingerInv, Grain;
    if n == 0 {
      assert Ticks(0) == [] by { TicksStart(); }
    } else {
      TicksSpare(l, n - 1);
      TicksSnoc(l, n - 1);
      LingersOn(l, n - 1);
      TickSpares(Run(l, Ticks(n - 1)), true);
    }
  }

  /**
   Exactly when a linger ends: left alone, a host that lingers at the end of any run is destroyed if and
   only if 50 * rt_timeout is at most 2^16 minus the greatest common divisor of `timer` and 2^16, and
   then within 2^16 / gcd ticks. A `timer` of 0 is covered.
   */
  lemma LingerEndsIff(timer: u16, rtTimeout: u16, events: seq<Event>)
    ensures var l := Run(Born(timer, rtTimeout), events);
      Lingering(l.h) ==>
        && ((exists n :: Run(l, Ticks(n)).h.deleted) <==> 50 * rtTimeout <= U16_MOD - Grain(timer))
        && (50 * rtTimeout <= U16_MOD - Grain(timer) ==> Run(l, Ticks(U16_MOD / Grain(timer))).h.deleted)
  {
    hide Run, Next, Step, Ticks, Grain, TimeUp;
    LingerRun(Born(timer, rtTimeout), events);
    ConfigRun(Born(timer, rtTimeout), events);
    var l := Run(Born(timer, rtTimeout), events);
    if Lingering(l.h) {
      ShownIff(timer, rtTimeout);
      if 50 * rtTimeout <= U16_MOD - Grain(timer) {
        var k :| 1 <= k <= U16_MOD / Grain(timer) && TimeUp(timer, rtTimeout, k);
        LingersOn(l, U16_MOD / Grain(timer));
      } else {
        forall n: nat
          ensures !Run(l, Ticks(n)).h.deleted
        {
          TicksSpare(l, n);
        }
      }
    }
  }

  /** Beyond that bound no tick of any run ever destroys a host: only a segment can. */
  lemma LongLingerNeverEnds(timer: u16, rtTimeout: u16, events: seq<Event>, ok: bool)
    requires 50 * rtTimeout > U16_MOD - Grain(timer)
    ensures var l := Run(Born(timer, rtTimeout), events);
      !l.h.deleted ==> !Next(l, TickEvent(ok)).h.deleted
  {
    hide Run, Next, Grain;
    LingerRun(Born(timer, rtTimeout), events);
    ConfigRun(Born(timer, rtTimeout), events);
    var l := Run(Born(timer, rtTimeout), events);
    if !l.h.deleted {
      TickSpares(l, ok);
    }
  }
}

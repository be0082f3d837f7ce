/** A 16-bit clock that advances by a constant: when it shows a limit, and which values it ever shows. */
module Clocks {
  import opened Bytes

  /** The tick on which a clock that advances by `timer` first shows at least `limit`: the ceiling of the quotient. */
  function TicksTo(timer: u16, limit: nat): nat
    requires timer > 0
    decreases limit
  {
    if limit <= timer then 1 else 1 + TicksTo(timer, limit - timer)
  }

  lemma {:induction false} TicksToIs(timer: u16, limit: nat, k: nat)
    requires timer > 0 && k >= 1
    ensures k * timer >= limit <==> k >= TicksTo(timer, limit)
    ensures TicksTo(timer, limit) >= 1 && TicksTo(timer, limit) * timer <= limit + timer
    decreases limit
  {
    assert k * timer == (k - 1) * timer + timer && (k - 1) * timer >= 0;
    if limit > timer {
      var n := TicksTo(timer, limit - timer);
      if k > 1 {
        TicksToIs(timer, limit - timer, k - 1);
      } else {
        TicksToIs(timer, limit - timer, 1);
      }
      assert (1 + n) * timer == timer + n * timer;
    }
  }

  lemma ClockStart(k: nat)
    ensures U16(0 * k) == U16(k * 0) == 0
  {
  }

  lemma ClockAdvances(k: nat, timer: u16)
    ensures U16(U16(k * timer) + timer) == U16((k + 1) * timer)
  {
    TimesNext(k, timer);
    AddReduced(k * timer, timer);
  }

  // ---------- the values that the clock shows ----------

  lemma PowerOf16()
    ensures Power(16) == U16_MOD
  {
    assert Power(4) == 16;
    PowerAdd(4, 4);
    PowerAdd(8, 8);
  }

  /** The greatest common divisor of `timer` and 2^16: the clock only ever shows multiples of it. */
  function Grain(timer: u16): (g: nat)
    ensures g >= 1
  {
    if timer == 0 then U16_MOD else if timer % 2 == 1 then 1 else 2 * Grain(timer / 2)
  }

  /** What is left of `timer` is odd. */
  lemma {:induction false} GrainIs(timer: u16) returns (i: nat, odd: nat)
    requires timer > 0
    ensures Grain(timer) == Power(i) && timer == Power(i) * odd && odd % 2 == 1
    ensures i <= 16 && Power(i) * Power(16 - i) == U16_MOD
  {
    i, odd := GrainParts(timer);
    PowerOf16();
    if i > 16 {
      PowerAdd(16, i - 16);
      assert Power(i) >= U16_MOD by { Monotone(1, Power(i - 16), Power(16)); }
      Monotone(1, odd, Power(i));
      assert false;
    }
    PowerAdd(i, 16 - i);
  }

  lemma {:induction false} GrainParts(timer: u16) returns (i: nat, odd: nat)
    requires timer > 0
    ensures Grain(timer) == Power(i) && timer == Power(i) * odd && odd % 2 == 1
  {
    if timer % 2 == 1 {
      i, odd := 0, timer;
    } else {
      i, odd := GrainParts(timer / 2);
      assert timer == 2 * (Power(i) * odd) == 2 * Power(i) * odd;
      i := i + 1;
    }
  }

  /** An odd number has a multiple just below a multiple of any power of two. */
  lemma {:induction false} JustBelow(odd: nat, j: nat) returns (k: nat, q: nat)
    requires odd % 2 == 1
    ensures 1 <= k <= Power(j) && k * odd + 1 == q * Power(j)
  {
    if j == 0 {
      k, q := 1, odd + 1;
    } else {
      k, q := JustBelow(odd, j - 1);
      k, q := JustBelowDouble(odd, Power(j - 1), k, q);
    }
  }

  lemma JustBelowDouble(odd: nat, m: nat, k: nat, q: nat) returns (k': nat, q': nat)
    requires odd % 2 == 1 && 1 <= k <= m && k * odd + 1 == q * m
    ensures 1 <= k' <= 2 * m && k' * odd + 1 == q' * (2 * m)
  {
    if q % 2 == 0 {
      k', q' := k, q / 2;
      Halved(q', m);
    } else {
      k', q' := k + m, (q + odd) / 2;
      Halved(q', m);
      assert 2 * q' == q + odd;
      Distributed(k, m, odd);
      Distributed(q, odd, m);
    }
  }

  lemma Halved(h: nat, m: nat)
    ensures (2 * h) * m == h * (2 * m)
  {
  }

  /** Multiples of a divisor of 2^16, reduced. */
  lemma Scaled(g: nat, m: nat, y: nat)
    requires m >= 1 && g * m == U16_MOD
    ensures U16(g * y) == g * (y % m)
  {
    var q, r := y / m, y % m;
    assert g * y == U16_MOD * q + g * r by { Split(g, m, y); }
    Multiples(g * r, q);
    BelowModulus(g, m, r);
  }

  lemma Split(g: nat, m: nat, y: nat)
    requires m >= 1
    ensures g * y == g * m * (y / m) + g * (y % m)
  {
    Distributed(m * (y / m), y % m, g);
    Regrouped(g, m, y / m);
  }

  lemma BelowModulus(g: nat, m: nat, r: nat)
    requires g * m == U16_MOD && r < m
    ensures g * r < U16_MOD && U16(g * r) == g * r
  {
    PositiveDivisor(g, m);
    Monotone(r, m - 1, g);
  }

  lemma PositiveDivisor(g: nat, m: nat)
    requires g * m == U16_MOD
    ensures g >= 1 && m >= 1 && U16_MOD / g == m && g * (m - 1) == U16_MOD - g
  {
    TimesNext(m - 1, g);
  }

  /** What the clock shows after `k` ticks, in terms of its grain. */
  lemma Shown(timer: u16, i: nat, odd: nat, k: nat)
    requires timer == Power(i) * odd && i <= 16 && Power(i) * Power(16 - i) == U16_MOD
    ensures U16(k * timer) == Power(i) * (k * odd % Power(16 - i))
  {
    Regrouped(k, Power(i), odd);
    Scaled(Power(i), Power(16 - i), k * odd);
  }

  lemma LastBelow(y: nat, q: nat, m: nat)
    requires m >= 1 && y + 1 == q * m
    ensures y % m == m - 1
  {
    assert q >= 1;
    assert y == m * (q - 1) + (m - 1);
    QuotientIs(y, q - 1, m - 1, m);
  }

  /** The highest value that the clock ever shows, and by when. */
  lemma HighestShown(timer: u16) returns (k: nat)
    ensures 1 <= k <= U16_MOD / Grain(timer) && U16(k * timer) == U16_MOD - Grain(timer)
  {
    hide U16, Power;
    if timer == 0 {
      k := 1;
      ClockStart(0);
    } else {
      var i, odd := GrainIs(timer);
      var q;
      k, q := JustBelow(odd, 16 - i);
      LastBelow(k * odd, q, Power(16 - i));
      Shown(timer, i, odd, k);
      PositiveDivisor(Power(i), Power(16 - i));
    }
  }

  lemma NothingHigher(timer: u16, k: nat)
    ensures U16(k * timer) <= U16_MOD - Grain(timer)
  {
    hide U16, Power;
    if timer == 0 {
      ClockStart(k);
    } else {
      var i, odd := GrainIs(timer);
      var g, m := Power(i), Power(16 - i);
      Shown(timer, i, odd, k);
      PositiveDivisor(g, m);
      Monotone(k * odd % m, m - 1, g);
    }
  }

  /** `Grain` divides both numbers, and is a multiple of whatever divides both. */
  lemma GrainIsGcd(timer: u16, d: nat)
    ensures timer % Grain(timer) == 0 && U16_MOD % Grain(timer) == 0
    ensures d >= 1 && timer % d == 0 && U16_MOD % d == 0 ==> Grain(timer) % d == 0
  {
    hide U16, Power;
    if timer != 0 {
      var i, odd := GrainIs(timer);
      QuotientIs(timer, odd, 0, Power(i));
      QuotientIs(U16_MOD, Power(16 - i), 0, Power(i));
    }
    if d >= 1 && timer % d == 0 && U16_MOD % d == 0 {
      var k := HighestShown(timer);
      DividesRest(d, timer, k, Grain(timer));
    }
  }

  lemma DividesRest(d: nat, timer: u16, k: nat, g: nat)
    requires d >= 1 && timer % d == 0 && U16_MOD % d == 0 && 1 <= g <= U16_MOD
    requires U16(k * timer) == U16_MOD - g
    ensures g % d == 0
  {
    var a, b, w := timer / d, U16_MOD / d, k * timer / U16_MOD;
    assert timer == d * a && U16_MOD == d * b;
    assert g == U16_MOD * (w + 1) - k * timer;
    assert U16_MOD * (w + 1) == d * (b * (w + 1)) by { Regrouped(w + 1, d, b); }
    assert k * timer == d * (k * a) by { Regrouped(k, d, a); }
    assert g == d * (b * (w + 1) - k * a) by { Difference(d, b * (w + 1), k * a); }
    NonNegative(d, b * (w + 1) - k * a, g);
    QuotientIs(g, b * (w + 1) - k * a, 0, d);
  }

  lemma Difference(d: nat, x: int, y: int)
    ensures d * (x - y) == d * x - d * y
  {
  }

  lemma NonNegative(d: nat, x: int, g: nat)
    requires g == d * x && g >= 1
    ensures x >= 0
  {
  }
}

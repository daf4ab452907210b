/** Clock values as nanoseconds. */
module Time {
  import opened Entries
  import opened Integers

  const NANOS: nat := 1_000_000_000

  predicate FitsInt64(x: int) {
    0 - TWO_TO_63 <= x < TWO_TO_63
  }

  /** The 64 bit signed integer with the bits of `x`. */
  function ToInt64(x: int): (r: int)
    ensures FitsInt64(r) && (FitsInt64(x) ==> r == x)
  {
    (x + TWO_TO_63) % TWO_TO_64 - TWO_TO_63
  }

  /** Step by step, with every intermediate result cut to 64 bits. */
  function TicksToNanoseconds(frequency: u64, ticks: int): int
    requires frequency != 0 && FitsInt64(ticks)
  {
    var sf := ToInt64(frequency);
    var q := ToInt64(SignedQuotient(ticks, sf));
    var r := ToInt64(SignedRemainder(ticks, sf));
    ToInt64(ToInt64(q * NANOS) + ToInt64(SignedQuotient(ToInt64(r * NANOS), sf)))
  }

  /** What it is there for: ticks times 10^9 over the frequency, truncated towards zero. */
  function Nanoseconds(frequency: u64, ticks: int): int
    requires frequency != 0
  {
    Quotient(ticks * NANOS, frequency)
  }

  lemma QuotientIs(n: nat, f: nat, q: nat, r: nat)
    requires f > 0 && r < f && n == q * f + r
    ensures n / f == q
  {
    var d := n / f - q;
    assert d * f == r - n % f;
  }

  /** `n` is `q * f + r`, multiplied. */
  lemma Multiplied(f: nat, q: nat, r: nat, g: nat)
    ensures (q * f + r) * g == (q * g) * f + r * g
  {
    assert (q * f + r) * g == (q * f) * g + r * g;
    assert (q * f) * g == q * (f * g) == q * (g * f) == (q * g) * f;
  }

  lemma SplitNonNegative(f: nat, n: nat, g: nat)
    requires f > 0
    ensures (n * g) / f == (n / f) * g + (n % f * g) / f
  {
    assert n == n / f * f + n % f;
    Combine(f, n, n / f, n % f, g);
  }

  lemma Combine(f: nat, n: nat, q: nat, r: nat, g: nat)
    requires f > 0 && n == q * f + r
    ensures (n * g) / f == q * g + (r * g) / f
  {
    Multiplied(f, q, r, g);
    AddMultiple(f, q * g, r * g);
  }

  lemma AddMultiple(f: nat, a: nat, b: nat)
    requires f > 0
    ensures (a * f + b) / f == a + b / f
  {
    var q, r := b / f, b % f;
    assert a * f + q * f == (a + q) * f;
    QuotientIs(a * f + b, f, a + q, r);
  }

  lemma NegativeQuotient(n: nat, f: nat)
    requires f > 0
    ensures Quotient(0 - n, f) == 0 - n / f
    ensures Remainder(0 - n, f) == 0 - n % f
  {
    var q := n / f;
    assert n == f * q + n % f;
    assert f * (0 - q) == 0 - f * q;
  }

  /** Splitting ticks into whole seconds and a rest does not change the truncated result. */
  lemma SplitIsExact(f: nat, ticks: int, g: nat)
    requires f > 0
    ensures Quotient(ticks * g, f) == Quotient(ticks, f) * g + Quotient(Remainder(ticks, f) * g, f)
  {
    hide Quotient, Remainder;
    var n: nat := if ticks >= 0 then ticks else 0 - ticks;
    SplitNonNegative(f, n, g);
    if ticks < 0 {
      NegativeQuotient(n, f);
      NegativeQuotient(n * g, f);
      NegativeQuotient(n % f * g, f);
      assert ticks * g == 0 - n * g;
      assert (0 - n % f) * g == 0 - (n % f) * g;
      assert (0 - n / f) * g == 0 - (n / f) * g;
    } else {
      NonNegativeQuotient(n, f);
      NonNegativeQuotient(n * g, f);
      NonNegativeQuotient(n % f * g, f);
    }
  }

  lemma NonNegativeQuotient(n: nat, f: nat)
    requires f > 0
    ensures Quotient(n, f) == n / f && Remainder(n, f) == n % f
  {
  }

  lemma Signs(a: int, f: nat)
    requires f > 0
    ensures 0 - f < Remainder(a, f) < f
    ensures a >= 0 ==> Remainder(a, f) >= 0 && Quotient(a, f) >= 0
    ensures a <= 0 ==> Remainder(a, f) <= 0 && Quotient(a, f) <= 0
  {
    hide Quotient, Remainder;
    if a >= 0 {
      NonNegativeQuotient(a, f);
    } else {
      NegativeQuotient(0 - a, f);
    }
  }

  // ---------------------------------------------------------------- cutting to 64 bits

  /** What is cut away is a multiple of 2^64. */
  lemma CutAway(x: int) returns (k: int)
    ensures ToInt64(x) == x - k * TWO_TO_64
    ensures k == 0 <==> FitsInt64(x)
  {
    k := (x + TWO_TO_63) / TWO_TO_64;
    assert FitsInt64(x) ==> k == 0;
  }

  /** Cutting first, or only at the end, is the same. */
  lemma CutOfSum(x: int, y: int)
    ensures ToInt64(ToInt64(x) + y) == ToInt64(x + y)
  {
    var k := CutAway(x);
    CutShifted(x + y, k);
  }

  lemma CutShifted(x: int, k: int)
    ensures ToInt64(x - k * TWO_TO_64) == ToInt64(x)
  {
    var j := CutAway(x);
    var i := CutAway(x - k * TWO_TO_64);
  }

  /** Numbers less than 2^64 apart are told apart after the cut. */
  lemma CutTellsApart(x: int, y: int)
    requires x != y && 0 - TWO_TO_64 < x - y < TWO_TO_64
    ensures ToInt64(x) != ToInt64(y)
  {
    var i := CutAway(x);
    var j := CutAway(y);
    if i != j {
      assert i - j >= 1 || j - i >= 1;
    }
  }

  /** A quotient is within one of the exact ratio. */
  lemma QuotientIsClose(a: int, f: nat)
    requires f > 0
    ensures 0 - f < a - Quotient(a, f) * f < f
  {
    hide Quotient, Remainder;
    Signs(a, f);
    RemainderIs(a, f);
  }

  lemma RemainderIs(a: int, f: nat)
    requires f > 0
    ensures Remainder(a, f) == a - Quotient(a, f) * f
  {
    hide Quotient;
  }

  lemma Monotone(a: int, b: int, f: nat)
    requires a <= b
    ensures a * f <= b * f
  {
    assert (b - a) * f >= 0;
  }

  lemma Bounded(q: int, f: nat, limit: nat)
    requires f > 0 && q * f < limit * f + f && q * f > 0 - limit * f - f
    ensures 0 - limit <= q <= limit
  {
    assert limit * f + f == (limit + 1) * f;
    assert 0 - limit * f - f == (0 - limit - 1) * f;
    if q > limit {
      Monotone(limit + 1, q, f);
    } else if q < 0 - limit {
      Monotone(q, 0 - limit - 1, f);
    }
  }

  /** Dividends of which one is the other one cut have different quotients, less than 2^64 apart. */
  lemma CutQuotient(f: nat, r: int)
    requires 0 < f < TWO_TO_63 && 0 - f < r < f && !FitsInt64(r * NANOS)
    ensures var d := Quotient(r * NANOS, f) - Quotient(ToInt64(r * NANOS), f);
            d != 0 && 0 - TWO_TO_64 < d < TWO_TO_64
  {
    hide Quotient, ToInt64;
    var b := r * NANOS;
    var c := ToInt64(b);
    var k := CutAway(b);
    QuotientIsClose(b, f);
    QuotientIsClose(c, f);
    var p, q := Quotient(b, f), Quotient(c, f);
    assert r * NANOS < f * NANOS && r * NANOS > 0 - f * NANOS;
    assert NANOS * f == f * NANOS;
    Bounded(p, f, NANOS);
    assert TWO_TO_63 <= TWO_TO_63 * f;
    Bounded(q, f, TWO_TO_63);
    assert k >= 1 || k <= 0 - 1;
  }

  // ---------------------------------------------------------------- when the result is exact

  /** The greatest remainder that still fits 64 bits in nanoseconds. */
  const MAX_EXACT_REMAINDER: nat := 9_223_372_036

  predicate RemainderFits(frequency: u64, ticks: int)
    requires frequency != 0
  {
    0 - MAX_EXACT_REMAINDER <= Remainder(ticks, frequency) <= MAX_EXACT_REMAINDER
  }

  lemma PositiveFrequency(frequency: u64, ticks: int)
    requires 0 < frequency < TWO_TO_63 && FitsInt64(ticks)
    ensures ToInt64(frequency) == frequency
    ensures var q, r := Quotient(ticks, frequency), Remainder(ticks, frequency);
            TicksToNanoseconds(frequency, ticks)
            == ToInt64(ToInt64(q * NANOS) + Quotient(ToInt64(r * NANOS), frequency))
  {
    hide Quotient, Remainder, ToInt64;
    var q, r := Quotient(ticks, frequency), Remainder(ticks, frequency);
    Signs(ticks, frequency);
    RemainderIs(ticks, frequency);
    QuotientFits(ticks, frequency);
    QuotientFits(ToInt64(r * NANOS), frequency);
    assert SignedRemainder(ticks, frequency) == r by { assert q * frequency == frequency * q; }
  }

  lemma QuotientIsLess(n: nat, f: nat)
    requires f > 0
    ensures n / f <= n
  {
    Monotone(1, f, n / f);
    assert n == f * (n / f) + n % f;
  }

  lemma QuotientFits(a: int, f: nat)
    requires f > 0 && FitsInt64(a)
    ensures FitsInt64(Quotient(a, f))
  {
    hide Quotient, Remainder;
    var n: nat := if a >= 0 then a else 0 - a;
    NonNegativeQuotient(n, f);
    NegativeQuotient(n, f);
    QuotientIsLess(n, f);
  }

  /**
   For a frequency that is positive as a signed integer, and any ticks, the result is the number of
   nanoseconds, cut to 64 bits, if and only if the ticks short of a second fit 64 bits in nanoseconds.
   */
  lemma ExactModulo(frequency: u64, ticks: int)
    requires 0 < frequency < TWO_TO_63 && FitsInt64(ticks)
    ensures TicksToNanoseconds(frequency, ticks) == ToInt64(Nanoseconds(frequency, ticks))
            <==> RemainderFits(frequency, ticks)
  {
    hide Quotient, Remainder, ToInt64, TicksToNanoseconds;
    var q, r := Quotient(ticks, frequency), Remainder(ticks, frequency);
    PositiveFrequency(frequency, ticks);
    SplitIsExact(frequency, ticks, NANOS);
    Signs(ticks, frequency);
    CutOfSum(q * NANOS, Quotient(ToInt64(r * NANOS), frequency));
    assert RemainderFits(frequency, ticks) <==> FitsInt64(r * NANOS);
    if FitsInt64(r * NANOS) {
      assert ToInt64(r * NANOS) == r * NANOS;
    } else {
      CutQuotient(frequency, r);
      CutTellsApart(q * NANOS + Quotient(ToInt64(r * NANOS), frequency), Nanoseconds(frequency, ticks));
    }
  }

  /** Hence the exact condition for a result that fits. */
  lemma NanosecondsAreExact(frequency: u64, ticks: int)
    requires 0 < frequency < TWO_TO_63 && FitsInt64(ticks)
    requires FitsInt64(Nanoseconds(frequency, ticks))
    ensures TicksToNanoseconds(frequency, ticks) == Quotient(ticks * NANOS, frequency)
            <==> -9_223_372_036 <= Remainder(ticks, frequency) <= 9_223_372_036
  {
    hide Quotient, Remainder, TicksToNanoseconds;
    ExactModulo(frequency, ticks);
  }

  // ---------------------------------------------------------------- frequencies that are always exact

  /** The greatest frequency all remainders of which fit. */
  const MAX_EXACT_FREQUENCY: nat := 9_223_372_037

  /** `ticks` is a counterexample: the number of nanoseconds fits, but is not what is computed. */
  predicate ComesOutWrong(frequency: u64, ticks: int)
    requires frequency != 0
  {
    && FitsInt64(ticks)
    && FitsInt64(Nanoseconds(frequency, ticks))
    && TicksToNanoseconds(frequency, ticks) != Nanoseconds(frequency, ticks)
  }

  /** Ticks that come out wrong. */
  function WrongTicks(frequency: u64): int {
    if frequency < TWO_TO_63 then MAX_EXACT_FREQUENCY
    else if frequency == TWO_TO_63 then 0 - TWO_TO_63
    else TWO_TO_64 - frequency
  }

  /**
   Of all frequencies but 0, those up to 9223372037 are exact for all ticks, and every greater one, also one
   that is negative as a signed integer, has ticks for which the result would fit but comes out wrong.
   */
  lemma ExactFrequencies(frequency: u64)
    requires frequency != 0
    ensures (forall ticks :: !ComesOutWrong(frequency, ticks)) <==> frequency <= MAX_EXACT_FREQUENCY
    ensures frequency > MAX_EXACT_FREQUENCY ==> ComesOutWrong(frequency, WrongTicks(frequency))
  {
    hide ComesOutWrong;
    if frequency <= MAX_EXACT_FREQUENCY {
      forall ticks ensures !ComesOutWrong(frequency, ticks) { LowFrequency(frequency, ticks); }
    } else if frequency < TWO_TO_63 {
      HighFrequency(frequency);
    } else {
      NegativeFrequency(frequency);
    }
  }

  lemma LowFrequency(frequency: u64, ticks: int)
    requires 0 < frequency <= MAX_EXACT_FREQUENCY
    ensures !ComesOutWrong(frequency, ticks)
  {
    hide Quotient, Remainder, TicksToNanoseconds;
    if FitsInt64(ticks) && FitsInt64(Nanoseconds(frequency, ticks)) {
      Signs(ticks, frequency);
      NanosecondsAreExact(frequency, ticks);
    }
  }

  lemma SmallTicks(f: nat, n: nat)
    requires n < f
    ensures Quotient(n, f) == 0 && Remainder(n, f) == n
    ensures Quotient(0 - n, f) == 0 && Remainder(0 - n, f) == 0 - n
  {
    NonNegativeQuotient(n, f);
    NegativeQuotient(n, f);
  }

  lemma HighFrequency(frequency: u64)
    requires MAX_EXACT_FREQUENCY < frequency < TWO_TO_63
    ensures ComesOutWrong(frequency, MAX_EXACT_FREQUENCY)
  {
    hide Quotient, Remainder, TicksToNanoseconds;
    SmallTicks(frequency, MAX_EXACT_FREQUENCY);
    QuotientIsClose(MAX_EXACT_FREQUENCY * NANOS, frequency);
    Bounded(Nanoseconds(frequency, MAX_EXACT_FREQUENCY), frequency, NANOS);
    NanosecondsAreExact(frequency, MAX_EXACT_FREQUENCY);
  }

  /**
   A frequency that is negative as a signed integer passes for one that is not zero, and counts backwards.
   */
  lemma NegativeFrequency(frequency: u64)
    requires TWO_TO_63 <= frequency
    ensures ToInt64(frequency) < 0
    ensures ComesOutWrong(frequency, WrongTicks(frequency))
    ensures frequency > TWO_TO_63
            ==> TicksToNanoseconds(frequency, WrongTicks(frequency)) < 0 <= Nanoseconds(frequency, WrongTicks(frequency))
    ensures frequency == TWO_TO_63
            ==> TicksToNanoseconds(frequency, WrongTicks(frequency)) == NANOS
                && Nanoseconds(frequency, WrongTicks(frequency)) == 0 - NANOS
  {
    hide Quotient, Remainder;
    var m: nat := TWO_TO_64 - frequency;
    assert ToInt64(frequency) == 0 - m;
    if frequency == TWO_TO_63 {
      Whole(m, 1);
      Whole(m, NANOS);
      NonNegativeQuotient(0, m);
      assert SignedQuotient(0 - m, 0 - m) == 1;
    } else {
      Whole(m, 1);
      NonNegativeQuotient(0, m);
      assert SignedQuotient(m, 0 - m) == 0 - 1;
      Signs(m * NANOS, frequency);
      QuotientIsClose(m * NANOS, frequency);
      Bounded(Nanoseconds(frequency, m), frequency, NANOS);
    }
  }

  lemma Whole(f: nat, n: nat)
    requires f > 0
    ensures Quotient(f * n, f) == n && Quotient(0 - f * n, f) == 0 - n
  {
    assert f * n == n * f + 0;
    QuotientIs(f * n, f, n, 0);
    NonNegativeQuotient(f * n, f);
    NegativeQuotient(f * n, f);
  }

  // ---------------------------------------------------------------- the time of an event

  function ClockToNsSinceEpoch(sync: ClockSync, clockValue: u64): int
    requires sync.clockFrequency != 0
  {
    var diffValue := ToInt64(clockValue - sync.clockValue);
    ToInt64(ToInt64(sync.nsSinceEpoch) + TicksToNanoseconds(sync.clockFrequency, diffValue))
  }

  /**
   The time of an event is the time of the clock sync and the signed clock difference, in nanoseconds and cut
   to 64 bits, also for events before the sync - if and only if the remainder of the difference fits.
   */
  lemma TimeIsExact(sync: ClockSync, clockValue: u64)
    requires 0 < sync.clockFrequency < TWO_TO_63
    ensures var ticks := ToInt64(clockValue - sync.clockValue);
            var time := sync.nsSinceEpoch + Nanoseconds(sync.clockFrequency, ticks);
            && (ClockToNsSinceEpoch(sync, clockValue) == ToInt64(time)
                <==> RemainderFits(sync.clockFrequency, ticks))
            && (FitsInt64(time) ==> ToInt64(time) == time)
            && (FitsInt64(clockValue - sync.clockValue) ==> ticks == clockValue - sync.clockValue)
  {
    hide Quotient, Remainder, TicksToNanoseconds, ToInt64, Nanoseconds;
    var ticks := ToInt64(clockValue - sync.clockValue);
    var nanos, computed := Nanoseconds(sync.clockFrequency, ticks), TicksToNanoseconds(sync.clockFrequency, ticks);
    ExactModulo(sync.clockFrequency, ticks);
    ComputedFits(sync.clockFrequency, ticks);
    CutOfSum(sync.nsSinceEpoch, computed);
    CutOfSum(nanos, sync.nsSinceEpoch);
    if computed != ToInt64(nanos) {
      CutTellsApart(sync.nsSinceEpoch + computed, sync.nsSinceEpoch + ToInt64(nanos));
    }
  }

  lemma ComputedFits(frequency: u64, ticks: int)
    requires frequency != 0 && FitsInt64(ticks)
    ensures FitsInt64(TicksToNanoseconds(frequency, ticks))
  {
    hide SignedQuotient, SignedRemainder, ToInt64;
  }
}

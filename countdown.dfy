/** The countdown to the wedding day (`CountdownTimer`): the remaining time
    split into days, hours, minutes and seconds, its zero-padded display, and
    the component state that a one-second interval keeps recomputing.
    Timestamps are integers in milliseconds; reading the clock and parsing the
    target date happen outside the model. */
module Countdown {

  const MsPerSecond: int := 1000
  const MsPerMinute: int := 1000 * 60
  const MsPerHour: int := 1000 * 60 * 60
  const MsPerDay: int := 1000 * 60 * 60 * 24

  datatype TimeLeft = TimeLeft(days: nat, hours: nat, minutes: nat, seconds: nat)

  /** The state before the first computation and after the target has passed. */
  const Zero: TimeLeft := TimeLeft(0, 0, 0, 0)

  /** `calculateTimeLeft`: the difference split by floor division and
      remainder, or all zeros once the difference is no longer positive. */
  function CalculateTimeLeft(target: int, now: int): (t: TimeLeft)
    ensures target - now <= 0 ==> t == Zero
    ensures t.hours <= 23 && t.minutes <= 59 && t.seconds <= 59
  {
    var difference := target - now;
    if difference > 0 then
      TimeLeft(difference / MsPerDay,
               (difference % MsPerDay) / MsPerHour,
               (difference % MsPerHour) / MsPerMinute,
               (difference % MsPerMinute) / MsPerSecond)
    else
      Zero
  }

  /** The milliseconds a tuple stands for. */
  function TotalMs(t: TimeLeft): int
  {
    t.days * MsPerDay + t.hours * MsPerHour + t.minutes * MsPerMinute + t.seconds * MsPerSecond
  }

  /** A tuple whose fields are in their display ranges. */
  predicate InRange(t: TimeLeft)
  {
    t.hours <= 23 && t.minutes <= 59 && t.seconds <= 59
  }

  /** An independent reference: whole seconds split into the four fields. */
  function FromSeconds(s: nat): TimeLeft
  {
    TimeLeft(s / 86400, s % 86400 / 3600, s % 3600 / 60, s % 60)
  }

  // ---------------------------------------------------------------------
  // Arithmetic helpers

  /** Quotient and remainder are determined by any decomposition with a
      remainder in range. */
  lemma DivModUnique(x: int, m: int, q: int, r: int)
    requires m > 0 && x == q * m + r && 0 <= r < m
    ensures x / m == q && x % m == r
  {
    var q', r' := x / m, x % m;
    assert x == q' * m + r' && 0 <= r' < m;
    assert (q' - q) * m == r - r';
    if q' > q {
      AtLeastOnce(q' - q, m);
    } else if q' < q {
      AtLeastOnce(q - q', m);
    }
  }

  lemma AtLeastOnce(a: int, m: int)
    requires a >= 1 && m > 0
    ensures a * m >= m
  {
    assert a * m == (a - 1) * m + m;
    assert (a - 1) * m >= 0;
  }

  /** The remainder by a multiple of `m`, taken again by `m`. */
  lemma ModOfMod(x: int, m: int, k: int)
    requires m > 0 && k > 0
    ensures (x % (k * m)) % m == x % m
  {
    var r := x % (k * m);
    var a := x / (k * m);
    assert x == a * (k * m) + r;
    DivModUnique(r, m, r / m, r % m);
    assert x == (a * k + r / m) * m + r % m;
    DivModUnique(x, m, a * k + r / m, r % m);
  }

  /** Splitting a positive difference by the route's constants is the same
      as splitting its whole seconds. */
  lemma {:induction false} CalculateIsWholeSeconds(target: int, now: int)
    requires target - now > 0
    ensures CalculateTimeLeft(target, now) == FromSeconds((target - now) / MsPerSecond)
  {
    var d := target - now;
    var s := d / 1000;
    var ms := d % 1000;
    assert d == s * 1000 + ms;
    // days
    DivModUnique(d, 86400000, s / 86400, (s % 86400) * 1000 + ms);
    // hours
    var rd := (s % 86400) * 1000 + ms;
    DivModUnique(rd, 3600000, s % 86400 / 3600, (s % 86400 % 3600) * 1000 + ms);
    ModOfMod(s, 3600, 24);
    // minutes
    DivModUnique(d, 3600000, s / 3600, (s % 3600) * 1000 + ms);
    DivModUnique((s % 3600) * 1000 + ms, 60000, s % 3600 / 60, (s % 3600 % 60) * 1000 + ms);
    ModOfMod(s, 60, 60);
    // seconds
    DivModUnique(d, 60000, s / 60, (s % 60) * 1000 + ms);
    DivModUnique((s % 60) * 1000 + ms, 1000, s % 60, ms);
  }

  lemma {:induction false} FromSecondsTotal(s: nat)
    ensures TotalMs(FromSeconds(s)) == s * 1000
    ensures InRange(FromSeconds(s))
  {
    var t := FromSeconds(s);
    assert s == (s / 86400) * 86400 + s % 86400;
    var r := s % 86400;
    assert r == (r / 3600) * 3600 + r % 3600;
    ModOfMod(s, 3600, 24);
    var r2 := s % 3600;
    assert r2 == (r2 / 60) * 60 + r2 % 60;
    ModOfMod(s, 60, 60);
    assert s == t.days * 86400 + t.hours * 3600 + t.minutes * 60 + t.seconds;
  }

  // ---------------------------------------------------------------------
  // Properties of the countdown

  /** The fields add up to the difference rounded down to a whole second:
      never more than the time really left, and less by under a second. */
  lemma Reassembly(target: int, now: int)
    requires target - now > 0
    ensures TotalMs(CalculateTimeLeft(target, now)) <= target - now < TotalMs(CalculateTimeLeft(target, now)) + 1000
  {
    CalculateIsWholeSeconds(target, now);
    FromSecondsTotal((target - now) / 1000);
  }

  /** The tuple is the only in-range one with that property. */
  lemma ReassemblyUnique(target: int, now: int, t: TimeLeft)
    requires target - now > 0 && InRange(t)
    requires TotalMs(t) <= target - now < TotalMs(t) + 1000
    ensures t == CalculateTimeLeft(target, now)
  {
    var d := target - now;
    var s := t.days * 86400 + t.hours * 3600 + t.minutes * 60 + t.seconds;
    DivModUnique(d, 1000, s, d - s * 1000);
    CalculateIsWholeSeconds(target, now);
    DivModUnique(s, 86400, t.days, t.hours * 3600 + t.minutes * 60 + t.seconds);
    DivModUnique(t.hours * 3600 + t.minutes * 60 + t.seconds, 3600, t.hours, t.minutes * 60 + t.seconds);
    DivModUnique(s, 3600, t.days * 24 + t.hours, t.minutes * 60 + t.seconds);
    DivModUnique(t.minutes * 60 + t.seconds, 60, t.minutes, t.seconds);
    DivModUnique(s, 60, t.days * 1440 + t.hours * 60 + t.minutes, t.seconds);
  }

  /** The tuple depends on the difference only through its whole seconds,
      rounded down, whatever its sign. */
  lemma SameSecondSameTuple(target1: int, now1: int, target2: int, now2: int)
    requires (target1 - now1) / MsPerSecond == (target2 - now2) / MsPerSecond
    ensures CalculateTimeLeft(target1, now1) == CalculateTimeLeft(target2, now2)
  {
    var d1, d2 := target1 - now1, target2 - now2;
    if d1 > 0 && d2 > 0 {
      CalculateIsWholeSeconds(target1, now1);
      CalculateIsWholeSeconds(target2, now2);
    } else if d1 > 0 {
      SubSecondIsZero(target1, now1);
    } else if d2 > 0 {
      SubSecondIsZero(target2, now2);
    }
  }

  /** A positive difference under one second already shows all zeros. */
  lemma SubSecondIsZero(target: int, now: int)
    requires 0 < target - now < 1000
    ensures CalculateTimeLeft(target, now) == Zero
  {
    CalculateIsWholeSeconds(target, now);
  }

  /** The countdown never goes up as time passes. */
  lemma CountsDown(target: int, now1: int, now2: int)
    requires now1 <= now2
    ensures TotalMs(CalculateTimeLeft(target, now2)) <= TotalMs(CalculateTimeLeft(target, now1))
  {
    var d1, d2 := target - now1, target - now2;
    if d2 > 0 {
      CalculateIsWholeSeconds(target, now1);
      CalculateIsWholeSeconds(target, now2);
      FromSecondsTotal(d1 / 1000);
      FromSecondsTotal(d2 / 1000);
      assert d2 / 1000 <= d1 / 1000;
    } else if d1 > 0 {
      CalculateIsWholeSeconds(target, now1);
      FromSecondsTotal(d1 / 1000);
    }
  }

  // ---------------------------------------------------------------------
  // Display: `String(n).padStart(width, '0')`

  function DigitChar(d: nat): (c: char)
    requires d < 10
    ensures '0' <= c <= '9'
  {
    "0123456789"[d]
  }

  function DigitValue(c: char): nat
    requires '0' <= c <= '9'
  {
    (c - '0') as nat
  }

  predicate AllDigits(s: string)
  {
    forall i :: 0 <= i < |s| ==> '0' <= s[i] <= '9'
  }

  /** `String(n)` for a non-negative integer: its decimal digits, most
      significant first, with no leading zero. */
  function DecimalString(n: nat): (s: string)
    ensures |s| >= 1 && AllDigits(s)
    ensures n > 0 ==> s[0] != '0'
  {
    if n < 10 then [DigitChar(n)] else DecimalString(n / 10) + [DigitChar(n % 10)]
  }

  /** The number a string of decimal digits denotes. */
  function DigitsValue(s: string): nat
    requires AllDigits(s)
  {
    if s == [] then 0 else DigitsValue(s[..|s| - 1]) * 10 + DigitValue(s[|s| - 1])
  }

  /** `k` copies of `c`. */
  function Repeat(c: char, k: nat): (r: string)
    ensures |r| == k
    ensures forall i :: 0 <= i < k ==> r[i] == c
  {
    if k == 0 then [] else [c] + Repeat(c, k - 1)
  }

  /** `s.padStart(width, fill)` with a one-character fill. */
  function PadStart(s: string, width: nat, fill: char): (r: string)
    ensures |r| == if |s| >= width then |s| else width
    ensures r[|r| - |s|..] == s
    ensures forall i :: 0 <= i < |r| - |s| ==> r[i] == fill
  {
    var r := Repeat(fill, if |s| >= width then 0 else width - |s|) + s;
    assert r[|r| - |s|..] == s;
    r
  }

  /** Reading back the decimal digits gives the number. */
  lemma {:induction false} DecimalRoundTrip(n: nat)
    ensures DigitsValue(DecimalString(n)) == n
  {
    var s := DecimalString(n);
    if n < 10 {
      assert s[..0] == [];
      assert DigitValue(DigitChar(n)) == n;
    } else {
      DecimalRoundTrip(n / 10);
      assert s[..|s| - 1] == DecimalString(n / 10);
      assert DigitValue(DigitChar(n % 10)) == n % 10;
    }
  }

  /** One leading zero does not change the value. */
  lemma {:induction false} LeadingZero(s: string)
    requires AllDigits(s)
    ensures AllDigits(['0'] + s)
    ensures DigitsValue(['0'] + s) == DigitsValue(s)
    decreases |s|
  {
    var w := ['0'] + s;
    if s == [] {
      assert w[..0] == [];
    } else {
      var init := s[..|s| - 1];
      assert w[..|w| - 1] == ['0'] + init;
      assert w[|w| - 1] == s[|s| - 1];
      LeadingZero(init);
    }
  }

  /** Leading zeros do not change the value. */
  lemma {:induction false} ZerosPreserveValue(k: nat, s: string)
    requires AllDigits(s)
    ensures AllDigits(Repeat('0', k) + s)
    ensures DigitsValue(Repeat('0', k) + s) == DigitsValue(s)
  {
    if k > 0 {
      assert Repeat('0', k) + s == ['0'] + (Repeat('0', k - 1) + s);
      ZerosPreserveValue(k - 1, s);
      LeadingZero(Repeat('0', k - 1) + s);
    } else {
      assert Repeat('0', k) + s == s;
    }
  }

  /** The zeros `padStart` puts in front of a field of `width` characters. */
  function PadCount(n: nat, width: nat): nat
  {
    if |DecimalString(n)| >= width then 0 else width - |DecimalString(n)|
  }

  /** A field as displayed: padded with zeros to `width` and never truncated. */
  function DisplayField(n: nat, width: nat): (r: string)
    ensures |r| >= width && |r| >= |DecimalString(n)|
    ensures AllDigits(r)
  {
    ZerosPreserveValue(PadCount(n, width), DecimalString(n));
    PadStart(DecimalString(n), width, '0')
  }

  /** A displayed field denotes the number it shows. */
  lemma DisplayFieldValue(n: nat, width: nat)
    ensures DigitsValue(DisplayField(n, width)) == n
  {
    ZerosPreserveValue(PadCount(n, width), DecimalString(n));
    DecimalRoundTrip(n);
  }

  lemma AtMostTwoDigits(n: nat)
    requires n < 100
    ensures |DecimalString(n)| <= 2
  {
    if n >= 10 {
      assert DecimalString(n) == DecimalString(n / 10) + [DigitChar(n % 10)];
    }
  }

  /** The four strings the component renders: days to at least three
      characters, the other fields to exactly two. */
  lemma DisplayTimeLeft(target: int, now: int)
    ensures var t := CalculateTimeLeft(target, now);
      && |DisplayField(t.days, 3)| >= 3 && DigitsValue(DisplayField(t.days, 3)) == t.days
      && |DisplayField(t.hours, 2)| == 2 && DigitsValue(DisplayField(t.hours, 2)) == t.hours
      && |DisplayField(t.minutes, 2)| == 2 && DigitsValue(DisplayField(t.minutes, 2)) == t.minutes
      && |DisplayField(t.seconds, 2)| == 2 && DigitsValue(DisplayField(t.seconds, 2)) == t.seconds
  {
    var t := CalculateTimeLeft(target, now);
    DisplayFieldValue(t.days, 3);
    DisplayFieldValue(t.hours, 2);
    DisplayFieldValue(t.minutes, 2);
    DisplayFieldValue(t.seconds, 2);
    AtMostTwoDigits(t.hours);
    AtMostTwoDigits(t.minutes);
    AtMostTwoDigits(t.seconds);
  }

  // ---------------------------------------------------------------------
  // The component state

  /** The mounted component: its `timeLeft` state and whether its one-second
      interval is registered. */
  class CountdownTimer {
    var targetMs: int
    var timeLeft: TimeLeft
    var ticking: bool

    /** The first render: all zeros, no interval yet. */
    constructor (target: int)
      ensures targetMs == target && timeLeft == Zero && !ticking
    {
      targetMs := target;
      timeLeft := Zero;
      ticking := false;
    }

    /** The effect: compute once immediately, then register the interval. */
    method Start(now: int)
      requires !ticking
      modifies this
      ensures targetMs == old(targetMs) && ticking
      ensures timeLeft == CalculateTimeLeft(targetMs, now)
    {
      timeLeft := CalculateTimeLeft(targetMs, now);
      ticking := true;
    }

    /** One interval tick: the new state depends only on the target and the
        clock, never on the previous state. */
    method Tick(now: int)
      requires ticking
      modifies this`timeLeft
      ensures timeLeft == CalculateTimeLeft(targetMs, now)
    {
      timeLeft := CalculateTimeLeft(targetMs, now);
    }

    /** The effect cleanup: `clearInterval`. */
    method Stop()
      modifies this`ticking
      ensures !ticking
    {
      ticking := false;
    }

    /** A new target date: the old interval is cleared before the effect
        runs again, so at most one interval is ever registered. */
    method ChangeTarget(target: int, now: int)
      modifies this
      ensures targetMs == target && ticking
      ensures timeLeft == CalculateTimeLeft(target, now)
    {
      Stop();
      targetMs := target;
      Start(now);
    }
  }
}

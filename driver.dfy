/** The driver: the elapsed-time label drawn in the window, the loop that advances
    the universe for at most one Julian year, and the final dump to standard output.
    The window is reduced to whether it is still open each time the loop condition
    is evaluated; drawing, events and sound are not modelled. */
module Driver {
  import opened Text
  import opened Streams
  import opened Bodies
  import opened Gravity
  import opened Universes

  /** A Julian year, 365.25 days, in seconds. */
  const OneYear: real := 31557600.0

  /** A day in seconds. */
  const Day: real := 86400.0

  // ---------------------------------------------------------------------------
  // C arithmetic on the way from seconds to a clock

  /** `static_cast<int>(x)`: the integer part, rounded toward zero. The cast is only
      applied to values well inside the range of `int`. */
  function Trunc(x: real): int {
    if x >= 0.0 then x.Floor else -((-x).Floor)
  }

  /** The cast drops the fraction and keeps the sign. */
  lemma TruncTowardZero(x: real)
    ensures x >= 0.0 ==> 0 <= Trunc(x) && Trunc(x) as real <= x < Trunc(x) as real + 1.0
    ensures x < 0.0 ==> Trunc(x) <= 0 && Trunc(x) as real - 1.0 < x <= Trunc(x) as real
  {
  }

  function Abs(a: int): nat {
    if a < 0 then -a else a
  }

  /** Integer `/` in C++: the quotient rounded toward zero. */
  function CDiv(a: int, b: int): int
    requires b != 0
  {
    var q := Abs(a) / Abs(b);
    if (a < 0) != (b < 0) then -q else q
  }

  /** Integer `%` in C++: what the quotient leaves. */
  function CMod(a: int, b: int): int
    requires b != 0
  {
    a - b * CDiv(a, b)
  }

  /** The rule C++ lays down for `/` and `%`: `(a / b) * b + a % b == a`, with the
      remainder smaller than the divisor and of the dividend's sign. On non-negative
      operands both agree with Dafny's operators. */
  lemma CDivMod(a: int, b: int)
    requires b != 0
    ensures CDiv(a, b) * b + CMod(a, b) == a
    ensures Abs(CMod(a, b)) < Abs(b)
    ensures a >= 0 ==> CMod(a, b) >= 0
    ensures a < 0 ==> CMod(a, b) <= 0
    ensures a >= 0 && b > 0 ==> CDiv(a, b) == a / b && CMod(a, b) == a % b
  {
    var q, m, d := Abs(a) / Abs(b), Abs(a) % Abs(b), Abs(b);
    assert Abs(a) == d * q + m && 0 <= m < d;
    ProductOfQuotient(a, b);
    assert CMod(a, b) == (if a < 0 then -m else m);
  }

  /** The divisor times the truncated quotient is the dividend's magnitude less the
      remainder, with the dividend's sign. */
  lemma ProductOfQuotient(a: int, b: int)
    requires b != 0
    ensures var q, d := Abs(a) / Abs(b), Abs(b);
      b * CDiv(a, b) == (if a < 0 then -(d * q) else d * q)
  {
    var q, d := Abs(a) / Abs(b), Abs(b);
    if a >= 0 && b > 0 {
      assert b * CDiv(a, b) == d * q;
    } else if a >= 0 {
      assert b * CDiv(a, b) == (-d) * (-q) == d * q;
    } else if b > 0 {
      assert b * CDiv(a, b) == d * (-q) == -(d * q);
    } else {
      assert b * CDiv(a, b) == (-d) * q == -(d * q);
    }
  }

  /** `std::fmod(x, y)`: `x` less the multiple of `y` that truncating `x / y` gives. */
  function FMod(x: real, y: real): real
    requires y > 0.0
  {
    x - Trunc(x / y) as real * y
  }

  // ---------------------------------------------------------------------------
  // formatTime

  /** The four fields `formatTime` prints. */
  datatype Clock = Clock(days: int, hours: int, minutes: int, secs: int)

  /** The fields `formatTime` computes from `seconds`: the time within the year is
      split into whole days, and the time within the day into whole hours, and the
      whole seconds of the day into minutes and seconds. */
  function SplitTime(seconds: real): Clock {
    var inYear := FMod(seconds, OneYear);
    var days := Trunc(inYear / Day);
    var inDay := FMod(inYear, Day);
    var hours := Trunc(inDay / 3600.0);
    var whole := Trunc(inDay);
    Clock(days, hours, CDiv(CMod(whole, 3600), 60), CMod(whole, 60))
  }

  /** `std::setw(2)` with `std::setfill('0')` and the default right adjustment:
      a numeral shorter than two characters gets one leading zero. */
  function Pad2(n: int): string {
    var t := IntToDecimal(n);
    if |t| < 2 then "0" + t else t
  }

  /** `formatTime(seconds)`: `<days> days, HH:MM:SS`. */
  function FormatTime(seconds: real): string {
    var c := SplitTime(seconds);
    IntToDecimal(c.days) + " days, " + Pad2(c.hours) + ":" + Pad2(c.minutes) + ":" + Pad2(c.secs)
  }

  /** The time within the year: for a non-negative time, what remains after the
      whole years, between zero and a year. */
  lemma InYear(seconds: real)
    requires seconds >= 0.0
    ensures 0.0 <= FMod(seconds, OneYear) < OneYear
    ensures FMod(seconds, OneYear) == seconds - (seconds / OneYear).Floor as real * OneYear
  {
  }

  /** Whole days and what remains of the last day. */
  lemma InDay(inYear: real)
    requires 0.0 <= inYear < OneYear
    ensures 0 <= Trunc(inYear / Day) <= 365
    ensures FMod(inYear, Day) == inYear - Trunc(inYear / Day) as real * Day
    ensures 0.0 <= FMod(inYear, Day) < Day
  {
  }

  /** For a non-negative time every field is in its clock range. */
  lemma {:induction false} SplitTimeRanges(seconds: real)
    requires seconds >= 0.0
    ensures var c := SplitTime(seconds);
      0 <= c.days <= 365 && 0 <= c.hours <= 23 && 0 <= c.minutes <= 59 && 0 <= c.secs <= 59
  {
    var inYear := FMod(seconds, OneYear);
    InYear(seconds);
    InDay(inYear);
    var inDay := FMod(inYear, Day);
    var whole := Trunc(inDay);
    assert 0 <= whole < 86400;
    CDivMod(whole, 3600);
    CDivMod(whole, 60);
    CDivMod(whole % 3600, 60);
  }

  /** The fields add back up to the whole seconds of the time within the year. */
  lemma {:induction false} SplitTimeTotal(seconds: real)
    requires seconds >= 0.0
    ensures var c := SplitTime(seconds);
      c.days * 86400 + c.hours * 3600 + c.minutes * 60 + c.secs == FMod(seconds, OneYear).Floor
  {
    var c := SplitTime(seconds);
    var inYear := FMod(seconds, OneYear);
    InYear(seconds);
    InDay(inYear);
    var days := Trunc(inYear / Day);
    var inDay := FMod(inYear, Day);
    var whole := Trunc(inDay);
    assert whole == inDay.Floor;
    assert inYear.Floor == days * 86400 + whole;
    assert c.hours == whole / 3600;
    ClockOfWhole(whole);
  }

  /** The whole seconds of a day split into hours, minutes and seconds with C's
      operators, which agree with Dafny's here, and add back up. */
  lemma ClockOfWhole(whole: int)
    requires 0 <= whole < 86400
    ensures CDiv(CMod(whole, 3600), 60) == (whole % 3600) / 60 && CMod(whole, 60) == whole % 60
    ensures whole == 3600 * (whole / 3600) + 60 * ((whole % 3600) / 60) + whole % 60
  {
    CDivMod(whole, 3600);
    CDivMod(whole, 60);
    CDivMod(whole % 3600, 60);
    var q, r := whole / 3600, whole % 3600;
    assert r == 60 * (r / 60) + r % 60;
    assert whole == 60 * (60 * q + r / 60) + r % 60;
    assert whole % 60 == r % 60;
  }

  /** Adding a year to a non-negative time changes nothing in the label. */
  lemma FormatTimePeriodic(seconds: real)
    requires seconds >= 0.0
    ensures SplitTime(seconds + OneYear) == SplitTime(seconds)
    ensures FormatTime(seconds + OneYear) == FormatTime(seconds)
  {
    assert ((seconds + OneYear) / OneYear).Floor == (seconds / OneYear).Floor + 1;
    InYear(seconds);
    InYear(seconds + OneYear);
    assert FMod(seconds + OneYear, OneYear) == FMod(seconds, OneYear);
  }

  /** A field between 0 and 99 is printed as exactly two decimal digits, which read
      back as the field. */
  lemma Pad2Digits(n: int)
    requires 0 <= n <= 99
    ensures |Pad2(n)| == 2 && AllDigits(Pad2(n)) && DecimalValue(Pad2(n)) == n
  {
    var t := NatToDecimal(n);
    ParseNatOfDecimal(n);
    assert DecimalValue(t) == n;
    if n < 10 {
      var p := "0" + t;
      assert t == [DigitChar(n)];
      assert p[..1] == "0" && p[1] == DigitChar(n);
      assert DecimalValue(p[..1]) == 0 by {
        assert p[..1][..0] == [];
      }
    } else {
      assert t == NatToDecimal(n / 10) + [DigitChar(n % 10)];
      assert NatToDecimal(n / 10) == [DigitChar(n / 10)];
    }
  }

  /** The label for a non-negative time: a decimal day count, then hours, minutes and
      seconds as two digits each, which read back as the clock fields. */
  lemma FormatTimeShape(seconds: real)
    requires seconds >= 0.0
    ensures var c := SplitTime(seconds);
      FormatTime(seconds) == NatToDecimal(c.days) + " days, " + Pad2(c.hours) + ":" + Pad2(c.minutes) + ":" + Pad2(c.secs) &&
      ParseNat(NatToDecimal(c.days)) == Some(c.days) &&
      |Pad2(c.hours)| == 2 && AllDigits(Pad2(c.hours)) && DecimalValue(Pad2(c.hours)) == c.hours &&
      |Pad2(c.minutes)| == 2 && AllDigits(Pad2(c.minutes)) && DecimalValue(Pad2(c.minutes)) == c.minutes &&
      |Pad2(c.secs)| == 2 && AllDigits(Pad2(c.secs)) && DecimalValue(Pad2(c.secs)) == c.secs
  {
    var c := SplitTime(seconds);
    SplitTimeRanges(seconds);
    ParseNatOfDecimal(c.days);
    Pad2Digits(c.hours);
    Pad2Digits(c.minutes);
    Pad2Digits(c.secs);
  }

  // ---------------------------------------------------------------------------
  // The simulation loop

  /** `std::min(a, b)`: `b` when it is smaller, otherwise `a`. */
  function Min(a: real, b: real): (m: real)
    ensures m <= a && m <= b && (m == a || m == b)
  {
    if b < a then b else a
  }

  /** The sum of the step times, as the loop adds them up. */
  function Sum(ts: seq<real>): real
    decreases |ts|
  {
    if ts == [] then 0.0 else ts[0] + Sum(ts[1..])
  }

  lemma {:induction false} SumSnoc(ts: seq<real>, t: real)
    ensures Sum(ts + [t]) == Sum(ts) + t
    decreases |ts|
  {
    if ts == [] {
      assert ts + [t] == [t];
      assert [t][1..] == [];
    } else {
      assert (ts + [t])[1..] == ts[1..] + [t];
      SumSnoc(ts[1..], t);
    }
  }

  /** A bound on the number of steps left from elapsed time `e`. */
  function StepsLeft(dt: real, e: real): nat
    requires dt > 0.0 && e <= OneYear
  {
    if e == OneYear then 0 else ((OneYear - e) / dt).Floor + 1
  }

  lemma MulZero(z: real, d: real)
    requires d > 0.0 && z * d == 0.0
    ensures z == 0.0
  {
  }

  lemma DivLessOne(a: real, d: real)
    requires d > 0.0
    ensures (a - d) / d == a / d - 1.0
  {
    var x, y := a / d, (a - d) / d;
    assert x * d == a;
    assert y * d == a - d;
    assert (y - (x - 1.0)) * d == y * d - x * d + d;
    MulZero(y - (x - 1.0), d);
  }

  lemma FullStepShortens(dt: real, e: real)
    requires dt > 0.0 && e + dt < OneYear
    ensures StepsLeft(dt, e + dt) < StepsLeft(dt, e)
  {
    DivLessOne(OneYear - e, dt);
    assert OneYear - (e + dt) == (OneYear - e) - dt;
  }

  /** The step times of the loop from elapsed time `e` on, while the window stays
      open: it goes on while the elapsed time is below the smaller of `T` and a year,
      and each step is `dt` clipped so as not to pass the year. */
  function StepTimes(T: real, dt: real, e: real): (ts: seq<real>)
    requires dt > 0.0 && e <= OneYear
    decreases StepsLeft(dt, e)
  {
    if e < Min(T, OneYear) then
      var st := Min(dt, OneYear - e);
      if e + st < OneYear then FullStepShortens(dt, e); [st] + StepTimes(T, dt, e + st)
      else [st] + StepTimes(T, dt, e + st)
    else []
  }

  /** One step of the schedule: the clipped step, then the schedule after it. */
  lemma StepTimesNext(T: real, dt: real, e: real)
    requires dt > 0.0 && e <= OneYear && e < Min(T, OneYear)
    ensures e + Min(dt, OneYear - e) <= OneYear
    ensures StepsLeft(dt, e + Min(dt, OneYear - e)) < StepsLeft(dt, e)
    ensures StepTimes(T, dt, e) == [Min(dt, OneYear - e)] + StepTimes(T, dt, e + Min(dt, OneYear - e))
  {
    if e + Min(dt, OneYear - e) < OneYear {
      FullStepShortens(dt, e);
    }
  }

  lemma ScaleShift(n: nat, dt: real)
    ensures (n + 1) as real * dt == n as real * dt + dt
  {
  }

  /** Every step of the schedule is positive and at most `dt`, and every step but
      the last is exactly `dt`. */
  lemma {:induction false} StepTimesSteps(T: real, dt: real, e: real)
    requires dt > 0.0 && e <= OneYear
    ensures var ts := StepTimes(T, dt, e);
      (forall k :: 0 <= k < |ts| ==> 0.0 < ts[k] <= dt) &&
      (forall k :: 0 <= k < |ts| - 1 ==> ts[k] == dt)
    decreases StepsLeft(dt, e)
  {
    if e < Min(T, OneYear) {
      var st := Min(dt, OneYear - e);
      var ts, rest := StepTimes(T, dt, e), StepTimes(T, dt, e + st);
      StepTimesNext(T, dt, e);
      StepTimesSteps(T, dt, e + st);
      assert ts[0] == st && ts[1..] == rest;
      assert rest != [] ==> st == dt;
    }
  }

  /** The elapsed time ends at `min(T, year)` or past it, but never past the year,
      and less than `dt` past `min(T, year)` when a step was taken at all. */
  lemma {:induction false} StepTimesReach(T: real, dt: real, e: real)
    requires dt > 0.0 && e <= OneYear
    ensures var ts := StepTimes(T, dt, e);
      Min(T, OneYear) <= e + Sum(ts) &&
      (ts != [] ==> e + Sum(ts) <= OneYear && e + Sum(ts) < Min(T, OneYear) + dt)
    decreases StepsLeft(dt, e)
  {
    if e < Min(T, OneYear) {
      var st := Min(dt, OneYear - e);
      var ts, rest := StepTimes(T, dt, e), StepTimes(T, dt, e + st);
      StepTimesNext(T, dt, e);
      StepTimesReach(T, dt, e + st);
      assert ts[0] == st && ts[1..] == rest;
      assert Sum(ts) == st + Sum(rest);
    }
  }

  /** The number of steps is at most `min(T, year) / dt` rounded up: all steps but
      the last start before `min(T, year)`. */
  lemma {:induction false} StepTimesCount(T: real, dt: real, e: real)
    requires dt > 0.0 && e <= OneYear
    ensures var ts := StepTimes(T, dt, e);
      ts != [] ==> e + (|ts| - 1) as real * dt < Min(T, OneYear)
    decreases StepsLeft(dt, e)
  {
    if e < Min(T, OneYear) {
      var st := Min(dt, OneYear - e);
      var rest := StepTimes(T, dt, e + st);
      StepTimesNext(T, dt, e);
      if rest != [] {
        StepTimesCount(T, dt, e + st);
        assert st == dt;
        ScaleShift(|rest| - 1, dt);
      }
    }
  }

  /** The loop's bookkeeping: after the steps `done`, the elapsed time is their sum,
      and the steps still to come are the schedule from it. */
  ghost predicate OnSchedule(T: real, dt: real, all: seq<real>, done: seq<real>, elapsed: real) {
    dt > 0.0 && 0.0 <= elapsed <= OneYear && elapsed == Sum(done) &&
    all == done + StepTimes(T, dt, elapsed)
  }

  /** One iteration keeps the bookkeeping, with the clipped step as the next step of
      the schedule. */
  lemma OnScheduleNext(T: real, dt: real, all: seq<real>, done: seq<real>, elapsed: real,
                       done': seq<real>, next: real)
    requires OnSchedule(T, dt, all, done, elapsed) && elapsed < Min(T, OneYear)
    requires done' == done + [Min(dt, OneYear - elapsed)] && next == elapsed + Min(dt, OneYear - elapsed)
    ensures |done| < |all| && all[..|done|] == done && all[|done|] == Min(dt, OneYear - elapsed)
    ensures OnSchedule(T, dt, all, done', next)
  {
    var st := Min(dt, OneYear - elapsed);
    var rest := StepTimes(T, dt, elapsed + st);
    StepTimesNext(T, dt, elapsed);
    SumSnoc(done, st);
    Associative(done, [st], rest);
    assert all == done + ([st] + rest);
    assert all[..|done|] == done;
  }

  /** When the loop ends, the steps taken are the start of the schedule, and all of
      it unless the window was closed. */
  lemma OnScheduleEnd(T: real, dt: real, all: seq<real>, done: seq<real>, elapsed: real)
    requires OnSchedule(T, dt, all, done, elapsed)
    ensures |done| <= |all| && all[..|done|] == done
    ensures elapsed >= Min(T, OneYear) ==> all == done
  {
    assert all[..|done|] == done;
    if elapsed >= Min(T, OneYear) {
      assert done + [] == done;
    }
  }

  /** Bodies that can be stepped: they are apart and none is massless. */
  ghost predicate Steppable(s: seq<Body>, sqrt: real -> real) {
    Forceable(s, sqrt) && NonZeroMasses(s)
  }

  /** The bodies after the steps `ts`, one `step` call per time. Where the bodies
      could not be stepped the evolution stops. */
  ghost function Evolve(s: seq<Body>, ts: seq<real>, sqrt: real -> real): (r: seq<Body>)
    ensures |r| == |s|
    ensures forall k :: 0 <= k < |s| ==> r[k].mass == s[k].mass && r[k].imageFile == s[k].imageFile
    decreases |ts|
  {
    if ts == [] || !Steppable(s, sqrt) then s else Evolve(StepAll(s, ts[0], sqrt), ts[1..], sqrt)
  }

  /** The bodies can be stepped by each of the times `ts` in turn: before every step
      they are apart and none is massless. */
  ghost predicate Safe(s: seq<Body>, ts: seq<real>, sqrt: real -> real)
    decreases |ts|
  {
    ts == [] || (Steppable(s, sqrt) && Safe(StepAll(s, ts[0], sqrt), ts[1..], sqrt))
  }

  /** Before each step of a safe schedule the bodies can be stepped. */
  lemma {:induction false} SafeSteppable(s: seq<Body>, ts: seq<real>, n: nat, sqrt: real -> real)
    requires Safe(s, ts, sqrt) && n < |ts|
    ensures Steppable(Evolve(s, ts[..n], sqrt), sqrt)
    decreases n
  {
    if n > 0 {
      SafeSteppable(StepAll(s, ts[0], sqrt), ts[1..], n - 1, sqrt);
      assert ts[..n][0] == ts[0] && ts[..n][1..] == ts[1..][..n - 1];
    } else {
      assert ts[..n] == [];
    }
  }

  /** One more step at the end of an evolution. */
  lemma {:induction false} EvolveSnoc(s: seq<Body>, ts: seq<real>, t: real, sqrt: real -> real)
    requires Steppable(Evolve(s, ts, sqrt), sqrt)
    ensures Evolve(s, ts + [t], sqrt) == StepAll(Evolve(s, ts, sqrt), t, sqrt)
    decreases |ts|
  {
    if ts == [] {
      assert ts + [t] == [t];
      assert [t][1..] == [];
    } else if Steppable(s, sqrt) {
      assert (ts + [t])[0] == ts[0];
      assert (ts + [t])[1..] == ts[1..] + [t];
      EvolveSnoc(StepAll(s, ts[0], sqrt), ts[1..], t, sqrt);
    }
  }

  /** The window was open at each of the first `n` checks. */
  ghost predicate OpenThrough(isOpen: nat -> bool, n: nat)
    decreases n
  {
    n == 0 || (isOpen(n - 1) && OpenThrough(isOpen, n - 1))
  }

  lemma {:induction false} OpenThroughAll(isOpen: nat -> bool, n: nat)
    requires OpenThrough(isOpen, n)
    ensures forall k :: 0 <= k < n ==> isOpen(k)
    decreases n
  {
    if n > 0 {
      OpenThroughAll(isOpen, n - 1);
    }
  }

  /** The loop of the driver: while the window is open and the elapsed time is below
      `min(T, year)`, the universe takes a step of `dt` clipped at the year. `isOpen(k)`
      tells whether the window is open when the condition is evaluated for the `k`-th
      time. It runs the schedule `StepTimes` until the window closes or the schedule
      ends, and the universe evolves by exactly the steps taken. */
  method Run(u: Universe, T: real, dt: real, sqrt: real -> real, isOpen: nat -> bool)
    returns (elapsed: real, steps: nat)
    requires dt > 0.0 && u.Valid()
    requires Safe(u.Contents(), StepTimes(T, dt, 0.0), sqrt)
    modifies set b | b in u.bodies
    ensures steps <= |StepTimes(T, dt, 0.0)|
    ensures elapsed == Sum(StepTimes(T, dt, 0.0)[..steps]) && 0.0 <= elapsed <= OneYear
    ensures u.Contents() == Evolve(old(u.Contents()), StepTimes(T, dt, 0.0)[..steps], sqrt)
    ensures forall k :: 0 <= k < steps ==> isOpen(k)
    ensures steps < |StepTimes(T, dt, 0.0)| ==> !isOpen(steps)
    ensures !isOpen(steps) || Min(T, OneYear) <= elapsed
  {
    ghost var s0 := u.Contents();
    ghost var all := StepTimes(T, dt, 0.0);
    ghost var done: seq<real> := [];
    elapsed, steps := 0.0, 0;
    assert [] + all == all;
    while isOpen(steps) && elapsed < Min(T, OneYear)
      invariant OnSchedule(T, dt, all, done, elapsed) && |done| == steps
      invariant u.Valid() && u.Contents() == Evolve(s0, done, sqrt)
      invariant OpenThrough(isOpen, steps)
      decreases |all| - |done|
    {
      elapsed, done := Tick(u, T, dt, sqrt, elapsed, s0, all, done);
      steps := steps + 1;
    }
    OnScheduleEnd(T, dt, all, done, elapsed);
    OpenThroughAll(isOpen, steps);
  }

  /** One pass of the loop body: `stepTime = min(dt, year - elapsed)`, then
      `universe.step(stepTime)` and `elapsed += stepTime`. The step taken is the next
      one of the schedule, and the evolution goes one step further. */
  method Tick(u: Universe, T: real, dt: real, sqrt: real -> real, elapsed: real,
              ghost s0: seq<Body>, ghost all: seq<real>, ghost done: seq<real>)
    returns (next: real, ghost done': seq<real>)
    requires OnSchedule(T, dt, all, done, elapsed) && elapsed < Min(T, OneYear)
    requires u.Valid() && u.Contents() == Evolve(s0, done, sqrt)
    requires Safe(s0, all, sqrt)
    modifies set b | b in u.bodies
    ensures next == elapsed + Min(dt, OneYear - elapsed) && done' == done + [Min(dt, OneYear - elapsed)]
    ensures OnSchedule(T, dt, all, done', next) && |done'| <= |all|
    ensures u.Valid() && u.Contents() == Evolve(s0, done', sqrt)
  {
    var stepTime := Min(dt, OneYear - elapsed);
    next := elapsed + stepTime;
    done' := done + [stepTime];
    OnScheduleNext(T, dt, all, done, elapsed, done', next);
    SafeSteppable(s0, all, |done|, sqrt);
    Advance(u, stepTime, sqrt, s0, done);
  }

  /** `universe.step(stepTime)` where the bodies can be stepped: the evolution so far
      goes one step further. */
  method Advance(u: Universe, stepTime: real, sqrt: real -> real, ghost s0: seq<Body>, ghost done: seq<real>)
    requires u.Valid() && u.Contents() == Evolve(s0, done, sqrt)
    requires Steppable(Evolve(s0, done, sqrt), sqrt)
    modifies set b | b in u.bodies
    ensures u.Valid() && u.Contents() == Evolve(s0, done + [stepTime], sqrt)
  {
    EvolveSnoc(s0, done, stepTime, sqrt);
    ghost var bs := u.bodies;
    u.Step(stepTime, sqrt);
    assert u.bodies == bs;
  }

  // ---------------------------------------------------------------------------
  // The final dump

  /** What the driver prints at the end as written: the count and the radius, each
      on a line of its own, and then `operator<<` of the universe, which prints the
      count and the radius again. */
  function DumpTextAsWritten(s: seq<Body>, radius: real, fmt: NumberFormat): string {
    NatToDecimal(|s|) + "\n" + fmt.render(radius) + "\n" + UniverseText(s, radius, fmt)
  }

  method DumpAsWritten(u: Universe, fmt: NumberFormat) returns (out: string)
    ensures out == DumpTextAsWritten(u.Contents(), u.radius.value, fmt)
  {
    out := NatToDecimal(u.Size()) + "\n" + fmt.render(u.GetRadius()) + "\n";
    out := u.Write(out, fmt);
  }

  /** Two header lines in front of some text: their two tokens come first. */
  lemma TwoHeaderLines(n: string, r: string, later: string)
    requires IsToken(n) && IsToken(r)
    ensures Tokens(n + "\n" + r + "\n" + later) == [n, r] + Tokens(later)
  {
    Associative(n + "\n" + r, "\n", later);
    Associative(n + "\n", r, "\n" + later);
    Associative(n, "\n", r + ("\n" + later));
    HeaderLineTokens(n, r + ("\n" + later));
    HeaderLineTokens(r, later);
  }

  /** The universe text on its own holds exactly the universe's tokens. */
  lemma UniverseTextAlone(s: seq<Body>, radius: real, fmt: NumberFormat)
    requires AllWrittenAsTokens(s, fmt) && IsToken(fmt.render(radius))
    ensures Tokens(UniverseText(s, radius, fmt)) == UniverseTokens(s, radius, fmt)
  {
    UniverseTextTokens(s, radius, [], fmt);
    assert UniverseText(s, radius, fmt) + [] == UniverseText(s, radius, fmt);
    NoTokensInSpace([]);
  }

  /** The dump as written holds the header's two tokens, then the universe's. */
  lemma DumpAsWrittenTokens(s: seq<Body>, radius: real, fmt: NumberFormat)
    requires AllWrittenAsTokens(s, fmt) && IsToken(fmt.render(radius))
    ensures Tokens(DumpTextAsWritten(s, radius, fmt))
            == [NatToDecimal(|s|), fmt.render(radius)] + UniverseTokens(s, radius, fmt)
  {
    DecimalIsToken(|s|);
    TwoHeaderLines(NatToDecimal(|s|), fmt.render(radius), UniverseText(s, radius, fmt));
    UniverseTextAlone(s, radius, fmt);
  }

  /** Six tokens of which the first five are numbers: a body with those numbers and
      the sixth token as its image name. */
  lemma ReadBodyOfSix(ws: seq<string>, xs: seq<real>, tail: seq<string>, fmt: NumberFormat)
    requires |ws| == 6 && |xs| == 5
    requires forall i :: 0 <= i < 5 ==> fmt.parse(ws[i]) == Some(xs[i])
    ensures ReadBody(DefaultBody, InStream(ws + tail, true), fmt)
            == (Body(xs[0], xs[1], xs[2], xs[3], xs[4], ws[5]), InStream(tail, true))
  {
    var t := ws + tail;
    assert t[0] == ws[0] && t[1..][0] == ws[1] && t[2..][0] == ws[2] && t[3..][0] == ws[3];
    assert t[4..][0] == ws[4] && t[5..][0] == ws[5] && t[6..] == tail;
    assert t[1..][1..] == t[2..] && t[2..][1..] == t[3..] && t[3..][1..] == t[4..];
    assert t[4..][1..] == t[5..] && t[5..][1..] == t[6..];
  }

  /** The universe's tokens begin with the count, the radius and the first four
      numbers of the first body. */
  lemma UniverseTokensFront(s: seq<Body>, radius: real, fmt: NumberFormat)
    requires s != []
    ensures UniverseTokens(s, radius, fmt)
            == [NatToDecimal(|s|), fmt.render(radius), fmt.render(s[0].px), fmt.render(s[0].py),
                fmt.render(s[0].vx), fmt.render(s[0].vy)]
               + (BodyTokens(s[0], fmt)[4..] + BodiesTokens(s[1..], fmt))
  {
    var b := s[0];
    var head, four := [NatToDecimal(|s|), fmt.render(radius)], [fmt.render(b.px), fmt.render(b.py), fmt.render(b.vx), fmt.render(b.vy)];
    var more, later := BodyTokens(b, fmt)[4..], BodiesTokens(s[1..], fmt);
    assert BodiesTokens(s, fmt) == BodyTokens(b, fmt) + later;
    assert BodyTokens(b, fmt) == four + more;
    Associative(four, more, later);
    Associative(head, four, more + later);
    assert head + four == [NatToDecimal(|s|), fmt.render(radius), fmt.render(b.px), fmt.render(b.py),
                           fmt.render(b.vx), fmt.render(b.vy)];
  }

  /** The first body read after the header of the dump as written: the count and the
      radius a second time, then the first three numbers of the real first body, and
      the rendering of its fourth number taken as the image name. */
  lemma FirstBodyMisread(s: seq<Body>, radius: real, fmt: NumberFormat)
    requires ReadsWholeNumbers(fmt) && RoundTrips(fmt, radius) && s != []
    requires RoundTrips(fmt, s[0].px) && RoundTrips(fmt, s[0].py) && RoundTrips(fmt, s[0].vx)
    ensures ReadBody(DefaultBody, InStream(UniverseTokens(s, radius, fmt), true), fmt).0
            == Body(|s| as real, radius, s[0].px, s[0].py, s[0].vx, fmt.render(s[0].vy))
  {
    var b := s[0];
    var ws := [NatToDecimal(|s|), fmt.render(radius), fmt.render(b.px), fmt.render(b.py),
               fmt.render(b.vx), fmt.render(b.vy)];
    var xs := [|s| as real, radius, b.px, b.py, b.vx];
    UniverseTokensFront(s, radius, fmt);
    assert fmt.parse(ws[0]) == Some(xs[0]);
    ReadBodyOfSix(ws, xs, BodyTokens(b, fmt)[4..] + BodiesTokens(s[1..], fmt), fmt);
  }

  /** Reading the dump as written back with `operator>>` misreads the bodies: the
      first one takes the repeated count and radius as its position, and every later
      field of the first body takes the token two places before its own. The radius is still
      right and the count of bodies too. This holds of every universe the corrected
      `Dump` restores exactly. */
  lemma DumpAsWrittenMisread(s: seq<Body>, radius: real, radius0: real, fmt: NumberFormat)
    requires Reloadable(s, radius, fmt) && ReadsWholeNumbers(fmt) && s != []
    ensures var (bs, r, _) := ReadUniverse(Open(DumpTextAsWritten(s, radius, fmt)), radius0, fmt);
      r == radius && |bs| == |s| &&
      bs[0] == Body(|s| as real, radius, s[0].px, s[0].py, s[0].vx, fmt.render(s[0].vy))
    ensures s[0].px != |s| as real ==> ReadUniverse(Open(DumpTextAsWritten(s, radius, fmt)), radius0, fmt).0 != s
  {
    var after := InStream(UniverseTokens(s, radius, fmt), true);
    ReloadableWrittenAsTokens(s, radius, fmt);
    ReadDumpHeader(s, radius, radius0, fmt);
    ReadBodiesFirst(after, |s|, fmt);
    FirstBodyMisread(s, radius, fmt);
  }

  /** Reading the dump as written takes the first count and radius as the header and
      then reads the bodies from the universe's own tokens, its header included. */
  lemma ReadDumpHeader(s: seq<Body>, radius: real, radius0: real, fmt: NumberFormat)
    requires AllWrittenAsTokens(s, fmt) && RoundTrips(fmt, radius)
    ensures var after := InStream(UniverseTokens(s, radius, fmt), true);
      ReadUniverse(Open(DumpTextAsWritten(s, radius, fmt)), radius0, fmt)
      == (ReadBodies(after, |s|, fmt).0, radius, ReadBodies(after, |s|, fmt).1)
  {
    DumpAsWrittenTokens(s, radius, fmt);
    ReadHeaderTokens(|s|, radius, radius0, UniverseTokens(s, radius, fmt), fmt);
  }

  /** A count and a radius in front of some tokens: the header is read from them and
      the bodies from the tokens after them. */
  lemma ReadHeaderTokens(n: nat, radius: real, radius0: real, after: seq<string>, fmt: NumberFormat)
    requires RoundTrips(fmt, radius)
    ensures ReadUniverse(InStream([NatToDecimal(n), fmt.render(radius)] + after, true), radius0, fmt)
            == (ReadBodies(InStream(after, true), n, fmt).0, radius, ReadBodies(InStream(after, true), n, fmt).1)
  {
    var r := fmt.render(radius);
    assert [NatToDecimal(n), r] + after == [NatToDecimal(n)] + ([r] + after);
    ReadNatOfDecimal(0, n, [r] + after);
    ReadRealOfRender(radius0, radius, after, fmt);
  }

  /** The dump as intended: `operator<<` alone, which writes the count and the radius
      once. Reading it back gives the same bodies and radius. */
  method Dump(u: Universe, fmt: NumberFormat) returns (out: string)
    ensures out == UniverseText(u.Contents(), u.radius.value, fmt)
    ensures Reloadable(u.Contents(), u.radius.value, fmt) ==>
      forall radius0 :: ReadUniverse(Open(out), radius0, fmt) == (u.Contents(), u.radius.value, Open([]))
  {
    out := u.Write("", fmt);
    assert "" + UniverseText(u.Contents(), u.radius.value, fmt) == UniverseText(u.Contents(), u.radius.value, fmt);
    if Reloadable(u.Contents(), u.radius.value, fmt) {
      forall radius0 | true
        ensures ReadUniverse(Open(out), radius0, fmt) == (u.Contents(), u.radius.value, Open([]))
      {
        UniverseRoundTrip(u.Contents(), u.radius.value, radius0, [], fmt);
        assert out + [] == out;
      }
    }
  }

  /** One body at x = 5, at rest, of mass 1, in a universe of radius 2: an input
      that shows the finding. */
  const ExampleBodies := [Body(5.0, 0.0, 0.0, 0.0, 1.0, "sun")]
  const ExampleRadius := 2.0

  /** The example is reloadable under a format that round-trips whole numbers. */
  lemma ExampleReloadable()
    ensures Reloadable(ExampleBodies, ExampleRadius, WholeFormat()) && ReadsWholeNumbers(WholeFormat())
  {
    WholeNumberRoundTrips(0);
    WholeNumberRoundTrips(1);
    WholeNumberRoundTrips(2);
    WholeNumberRoundTrips(5);
    WholeFormatReadsWholeNumbers();
    assert IsToken(ExampleBodies[0].imageFile);
  }

  /** The corrected dump of the example reloads it exactly. */
  lemma ExampleDumpRestores()
    ensures ReadUniverse(Open(UniverseText(ExampleBodies, ExampleRadius, WholeFormat())), 0.0, WholeFormat())
            == (ExampleBodies, ExampleRadius, Open([]))
  {
    var text := UniverseText(ExampleBodies, ExampleRadius, WholeFormat());
    ExampleReloadable();
    UniverseRoundTrip(ExampleBodies, ExampleRadius, 0.0, [], WholeFormat());
    assert text + [] == text;
  }

  /** The dump of the example as written reloads its body at x = 1, the repeated
      count, instead of x = 5. */
  lemma ExampleDumpAsWrittenMisreads()
    ensures var bs := ReadUniverse(Open(DumpTextAsWritten(ExampleBodies, ExampleRadius, WholeFormat())), 0.0,
                                   WholeFormat()).0;
      |bs| == 1 && bs[0].px == 1.0 && bs != ExampleBodies
  {
    ExampleReloadable();
    DumpAsWrittenMisread(ExampleBodies, ExampleRadius, 0.0, WholeFormat());
  }
}

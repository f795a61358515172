/** The relay's bandwidth limiter: internal/openp2pengine/speedlimiter.go. Times are in nanoseconds. */
module SpeedLimiter {
  const SECOND: int := 1_000_000_000
  const INT64: int := 0x1_0000_0000_0000_0000
  const INT64_MAX: int := 0x7FFF_FFFF_FFFF_FFFF

  /** What a 64-bit signed integer holds of a number. */
  function Wrap(n: int): (r: int)
    ensures -INT64_MAX - 1 <= r <= INT64_MAX
    ensures r == n <==> -INT64_MAX - 1 <= n <= INT64_MAX
  {
    var m := n % INT64;
    if m > INT64_MAX then m - INT64 else m
  }

  /** Go's division truncates toward zero. */
  function Quotient(a: int, b: int): int
    requires b > 0
  {
    if a >= 0 then a / b else -(-a / b)
  }

  datatype State = State(speed: int, maxFreeCap: int, freeCap: int, lastUpdate: int)

  /** The bytes earned since the last update. */
  function Credit(elapsed: int, speed: int): int {
    Quotient(Wrap(elapsed * speed), SECOND)
  }

  /** How long Add sleeps off a debt. */
  function SleepFor(debt: int, speed: int): int
    requires speed > 0
  {
    Quotient(Wrap(debt * SECOND), speed)
  }

  function Min(a: int, b: int): int {
    if a < b then a else b
  }

  /** Add with wait = true; the two clock readings are `since` and `now`. */
  function Added(s: State, increment: nat, since: int, now: int): (r: (State, int))
    requires s.speed > 0
  {
    var free := Min(s.maxFreeCap, s.freeCap + Credit(since - s.lastUpdate, s.speed)) - increment;
    (s.(freeCap := free, lastUpdate := now), if free < 0 then SleepFor(-free, s.speed) else 0)
  }

  /** Add with wait = false; a refused call credits the bucket but leaves the time of its last update. */
  function Tried(s: State, increment: nat, since: int, now: int): (r: (State, int, bool))
    requires s.speed > 0
  {
    var free := Min(s.maxFreeCap, s.freeCap + Credit(since - s.lastUpdate, s.speed));
    if free < increment then (s.(freeCap := free), 0, false)
    else
      var (after, sleep) := Added(s, increment, since, now);
      (after, sleep, true)
  }

  class Limiter {
    var lastUpdate: int
    const speed: int
    const maxFreeCap: int
    var freeCap: int

    function View(): State
      reads this
    {
      State(speed, maxFreeCap, freeCap, lastUpdate)
    }

    constructor (speed: int, precision: int, now: int)
      ensures View() == State(speed, speed * precision, speed * precision, now)
    {
      this.speed, maxFreeCap, freeCap, lastUpdate := speed, speed * precision, speed * precision, now;
    }

    /** Add; the result says whether the bytes may pass and how long the caller is held up first. */
    method Add(increment: nat, wait: bool, since: int, now: int) returns (ok: bool, sleep: int)
      modifies this
      ensures speed <= 0 ==> ok && sleep == 0 && View() == old(View())
      ensures speed > 0 && wait ==> ok && (View(), sleep) == Added(old(View()), increment, since, now)
      ensures speed > 0 && !wait ==> (View(), sleep, ok) == Tried(old(View()), increment, since, now)
    {
      if speed <= 0 {
        return true, 0;
      }
      freeCap := freeCap + Credit(since - lastUpdate, speed);
      if freeCap > maxFreeCap {
        freeCap := maxFreeCap;
      }
      if !wait && freeCap < increment {
        return false, 0;
      }
      freeCap := freeCap - increment;
      lastUpdate := now;
      if freeCap < 0 {
        return true, SleepFor(-freeCap, speed);
      }
      return true, 0;
    }
  }

  // ----- how much passes -----

  /** One waiting call: its bytes, its two clock readings, and when its sleep was over. */
  datatype Call = Call(increment: nat, since: int, now: int, passed: int)

  /** A sleep lasts at least as long as asked, and the lock keeps the next call out until then. */
  predicate Timely(s: State, calls: seq<Call>)
    requires s.speed > 0
    decreases |calls|
  {
    |calls| > 0 ==>
      var c := calls[0];
      var (after, sleep) := Added(s, c.increment, c.since, c.now);
      && s.lastUpdate <= c.since <= c.now && c.now + sleep <= c.passed
      && (|calls| > 1 ==> c.passed <= calls[1].since)
      && Timely(after, calls[1..])
  }

  /** No debt is so large that the length of its sleep overflows. */
  predicate SmallDebts(s: State, calls: seq<Call>)
    requires s.speed > 0
    decreases |calls|
  {
    |calls| > 0 ==>
      var after := Added(s, calls[0].increment, calls[0].since, calls[0].now).0;
      -after.freeCap * SECOND <= INT64_MAX && SmallDebts(after, calls[1..])
  }

  function Total(calls: seq<Call>): nat {
    if |calls| == 0 then 0 else calls[0].increment + Total(calls[1..])
  }

  /** Never more than the true amount, even when the product overflows. */
  lemma CreditBound(elapsed: int, speed: int)
    requires elapsed >= 0 && speed > 0
    ensures Credit(elapsed, speed) * SECOND <= elapsed * speed
  {
    assert elapsed * speed >= 0;
    WrapBelow(elapsed * speed);
    QuotientBound(Wrap(elapsed * speed));
  }

  lemma WrapBelow(n: int)
    requires n >= 0
    ensures Wrap(n) <= n
  {
  }

  lemma QuotientBound(n: int)
    ensures n >= 0 ==> Quotient(n, SECOND) * SECOND <= n
    ensures n < 0 ==> Quotient(n, SECOND) <= 0
  {
  }

  /** A sleep pays its debt but for less than a nanosecond's worth. */
  lemma SleepBound(debt: int, speed: int)
    requires debt > 0 && speed > 0 && debt * SECOND <= INT64_MAX
    ensures debt * SECOND < (SleepFor(debt, speed) + 1) * speed
    ensures SleepFor(debt, speed) >= 0
  {
    var n := debt * SECOND;
    assert n >= 0;
    DivisionBound(n, speed);
  }

  lemma DivisionBound(n: int, d: int)
    requires n >= 0 && d > 0
    ensures n / d >= 0 && n < (n / d + 1) * d
  {
    assert n == n / d * d + n % d;
    assert (n / d + 1) * d == n / d * d + d;
  }

  lemma Scale(speed: int, a: int, b: int)
    requires speed > 0 && a <= b
    ensures a * speed <= b * speed
  {
  }

  lemma Sum(speed: int, a: int, b: int)
    ensures (a + b) * speed == a * speed + b * speed
  {
  }

  /** The bytes still free at a later time, in byte-nanoseconds. */
  function Allowance(s: State, at: int): int {
    s.freeCap * SECOND + (at - s.lastUpdate) * s.speed
  }

  /** From a state on, a stretch of calls passes no more than what is free then and what is earned until its end. */
  lemma {:induction false} Passes(s: State, calls: seq<Call>)
    requires s.speed > 0 && |calls| > 0 && Timely(s, calls) && SmallDebts(s, calls)
    ensures Total(calls) * SECOND < Allowance(s, calls[|calls| - 1].passed + 1)
    decreases |calls|
  {
    var c := calls[0];
    var (after, sleep) := Added(s, c.increment, c.since, c.now);
    CreditBound(c.since - s.lastUpdate, s.speed);
    Sum(s.speed, c.since - s.lastUpdate, c.now - c.since);
    Scale(s.speed, 0, c.now - c.since);
    assert (after.freeCap + c.increment) * SECOND <= Allowance(s, c.now);
    if |calls| == 1 {
      assert calls[1..] == [];
      LastCall(after, sleep, c.passed);
      assert Total(calls) == c.increment;
      Sum(s.speed, c.now - s.lastUpdate, c.passed + 1 - c.now);
    } else {
      var last := calls[|calls| - 1].passed + 1;
      Passes(after, calls[1..]);
      Sum(s.speed, c.now - s.lastUpdate, last - c.now);
    }
  }

  /** After its sleep a call has at most its last nanosecond to pay for. */
  lemma LastCall(after: State, sleep: int, passed: int)
    requires after.speed > 0 && -after.freeCap * SECOND <= INT64_MAX
    requires sleep == if after.freeCap < 0 then SleepFor(-after.freeCap, after.speed) else 0
    requires after.lastUpdate + sleep <= passed
    ensures 0 < Allowance(after, passed + 1)
  {
    if after.freeCap < 0 {
      SleepBound(-after.freeCap, after.speed);
    }
    Scale(after.speed, sleep + 1, passed + 1 - after.lastUpdate);
    Scale(after.speed, 1, sleep + 1);
  }

  /** What is left after the first call, and what its last nanosecond may add. */
  lemma FirstCall(s: State, c: Call, total: int, passed: int)
    requires s.speed > 0 && c.since <= c.now
    requires (total - c.increment) * SECOND < Allowance(Added(s, c.increment, c.since, c.now).0, passed + 1)
    ensures (total - s.maxFreeCap) * SECOND < (passed - c.since + 1) * s.speed
  {
    var free := Added(s, c.increment, c.since, c.now).0.freeCap + c.increment;
    assert free <= s.maxFreeCap;
    Spend(total, free, s.maxFreeCap, c.since, c.now, passed, s.speed);
  }

  lemma Spend(total: int, free: int, most: int, since: int, now: int, passed: int, speed: int)
    requires speed > 0 && free <= most && since <= now && total * SECOND < free * SECOND + (passed + 1 - now) * speed
    ensures (total - most) * SECOND < (passed - since + 1) * speed
  {
    Scale(speed, passed + 1 - now, passed - since + 1);
  }

  /** The bound, for calls whose debts are slept off. */
  lemma SleptBound(s: State, calls: seq<Call>)
    requires s.speed > 0 && |calls| > 0 && Timely(s, calls) && SmallDebts(s, calls)
    ensures var elapsed := calls[|calls| - 1].passed - calls[0].since;
            && (Total(calls) - s.maxFreeCap) * SECOND < (elapsed + 1) * s.speed
            && (s.speed <= SECOND ==> (Total(calls) - s.maxFreeCap - 1) * SECOND < elapsed * s.speed)
  {
    var c, passed := calls[0], calls[|calls| - 1].passed;
    var (after, sleep) := Added(s, c.increment, c.since, c.now);
    RestPasses(after, sleep, calls);
    FirstCall(s, c, Total(calls), passed);
    OneByte(Total(calls) - s.maxFreeCap, passed - c.since, s.speed);
  }

  /** What passes after the first call, from the state it leaves. */
  lemma RestPasses(after: State, sleep: int, calls: seq<Call>)
    requires after.speed > 0 && |calls| > 0
    requires after.lastUpdate == calls[0].now && after.lastUpdate + sleep <= calls[0].passed
    requires sleep == if after.freeCap < 0 then SleepFor(-after.freeCap, after.speed) else 0
    requires -after.freeCap * SECOND <= INT64_MAX && Timely(after, calls[1..]) && SmallDebts(after, calls[1..])
    ensures Total(calls[1..]) * SECOND < Allowance(after, calls[|calls| - 1].passed + 1)
  {
    if |calls| == 1 {
      LastCall(after, sleep, calls[0].passed);
    } else {
      Passes(after, calls[1..]);
    }
  }

  lemma OneByte(excess: int, elapsed: int, speed: int)
    requires excess * SECOND < (elapsed + 1) * speed
    ensures speed <= SECOND ==> (excess - 1) * SECOND < elapsed * speed
  {
    Sum(speed, elapsed, 1);
  }

  /** The credit is the true one exactly while the product of time and speed fits 63 bits. */
  lemma CreditExact(elapsed: nat, speed: nat)
    ensures Credit(elapsed, speed) == elapsed * speed / SECOND <==> elapsed * speed <= INT64_MAX
  {
    var n := elapsed * speed;
    assert n >= 0;
    if n > INT64_MAX {
      WrapShort(n);
    }
  }

  lemma WrapShort(n: int)
    requires n > INT64_MAX
    ensures Quotient(Wrap(n), SECOND) < n / SECOND
  {
    assert Wrap(n) <= n - INT64;
  }

  /** At ten megabits a second, a limiter idle for three hours holds its next byte back for most of an hour. */
  lemma IdleLimiterOverflows()
    ensures var speed, hours := 10 * 1024 * 1024 / 8, 3 * 3600 * SECOND;
            Added(State(speed, speed, speed, 0), 1, hours, hours).1 > 3200 * SECOND
  {
    var speed, hours := 1310720, 10800 * SECOND;
    assert Wrap(hours * speed) == 14155776000000000000 - INT64;
    assert Credit(hours, speed) == -4290968073;
    assert SleepFor(4289657354, speed) > 3200 * SECOND;
  }

  // ----- when debts are slept off -----

  /** The sleep is the true one exactly while the product of debt and nanoseconds fits 63 bits. */
  lemma SleepExact(debt: int, speed: int)
    requires debt > 0 && 0 < speed <= INT64_MAX
    ensures SleepFor(debt, speed) == debt * SECOND / speed <==> debt * SECOND <= INT64_MAX
  {
    var n := debt * SECOND;
    assert n > 0;
    if n > INT64_MAX {
      WrapFar(n);
      if Wrap(n) >= 0 {
        Behind(Wrap(n), n, speed);
      } else {
        DivisionBound(n, speed);
        DivisionBound(-Wrap(n), speed);
        assert Quotient(Wrap(n), speed) <= 0;
        Behind(0, n, speed);
      }
    }
  }

  lemma WrapFar(n: int)
    requires n > INT64_MAX
    ensures Wrap(n) <= n - INT64
  {
  }

  lemma Behind(a: int, n: int, d: int)
    requires 0 <= a && a + d <= n && d > 0
    ensures a / d < n / d
  {
    DivisionBound(n, d);
    assert a == a / d * d + a % d;
    Sum(d, n / d, 1);
    if a / d >= n / d {
      Scale(d, n / d, a / d);
    }
  }

  /** The longest body a frame's header can announce. */
  const MAX_BODY: nat := 0xFFFF_FFFF

  /**
    * What can be known before each call: the bytes come in one frame, and the time since the last
    * call at this speed fits 63 bits.
    */
  predicate Ordinary(speed: int, lastUpdate: int, calls: seq<Call>)
    decreases |calls|
  {
    |calls| > 0 ==>
      && calls[0].increment <= MAX_BODY
      && (calls[0].since - lastUpdate) * speed <= INT64_MAX
      && Ordinary(speed, calls[0].now, calls[1..])
  }

  /** By the time `at` all debt is paid, less than two bytes aside. */
  predicate Rested(s: State, at: int) {
    s.lastUpdate <= at && (s.freeCap + 2) * SECOND > -((at - s.lastUpdate) * s.speed)
  }

  function After(s: State, calls: seq<Call>): State
    requires s.speed > 0
    decreases |calls|
  {
    if |calls| == 0 then s else After(Added(s, calls[0].increment, calls[0].since, calls[0].now).0, calls[1..])
  }

  lemma TrueCredit(elapsed: int, speed: int)
    requires elapsed >= 0 && speed > 0 && elapsed * speed <= INT64_MAX
    ensures Credit(elapsed, speed) * SECOND > elapsed * speed - SECOND
  {
    assert elapsed * speed >= 0;
    DivisionBound(elapsed * speed, SECOND);
  }

  /** A call that finds the limiter rested leaves a debt whose sleep is the true one, and rests it again. */
  lemma CallRests(s: State, c: Call)
    requires 0 < s.speed <= SECOND && s.maxFreeCap >= 0 && Rested(s, c.since) && c.since <= c.now
    requires c.increment <= MAX_BODY && (c.since - s.lastUpdate) * s.speed <= INT64_MAX
    ensures var (after, sleep) := Added(s, c.increment, c.since, c.now);
            && -after.freeCap * SECOND <= INT64_MAX
            && (c.now + sleep <= c.passed ==> Rested(after, c.passed))
  {
    var (after, sleep) := Added(s, c.increment, c.since, c.now);
    TrueCredit(c.since - s.lastUpdate, s.speed);
    assert after.freeCap >= -2 - c.increment;
    if after.freeCap < 0 {
      SleepBound(-after.freeCap, s.speed);
    }
    if c.now + sleep <= c.passed {
      Scale(s.speed, sleep + 1, c.passed - c.now + 1);
      Sum(s.speed, c.passed - c.now, 1);
    }
  }

  lemma LaterRested(s: State, at: int, later: int)
    requires s.speed > 0 && Rested(s, at) && at <= later
    ensures Rested(s, later)
  {
    Scale(s.speed, at - s.lastUpdate, later - s.lastUpdate);
  }

  lemma {:induction false} DebtsStaySmall(s: State, calls: seq<Call>)
    requires 0 < s.speed <= SECOND && s.maxFreeCap >= 0 && Timely(s, calls) && Ordinary(s.speed, s.lastUpdate, calls)
    requires |calls| > 0 ==> Rested(s, calls[0].since)
    ensures SmallDebts(s, calls)
    decreases |calls|
  {
    if |calls| > 0 {
      var c := calls[0];
      CallRests(s, c);
      var after := Added(s, c.increment, c.since, c.now).0;
      if |calls| > 1 {
        LaterRested(after, c.passed, calls[1].since);
      }
      DebtsStaySmall(after, calls[1..]);
    }
  }

  /** What holds before a run of calls holds again before any later call of it. */
  lemma {:induction false} RunRests(s: State, calls: seq<Call>, i: nat)
    requires 0 < s.speed <= SECOND && s.maxFreeCap >= 0 && Timely(s, calls) && Ordinary(s.speed, s.lastUpdate, calls)
    requires i < |calls| && Rested(s, calls[0].since)
    ensures var before := After(s, calls[..i]);
            && before.speed == s.speed && before.maxFreeCap == s.maxFreeCap && Rested(before, calls[i].since)
            && Timely(before, calls[i..]) && Ordinary(s.speed, before.lastUpdate, calls[i..])
    decreases |calls|
  {
    if i > 0 {
      var c := calls[0];
      CallRests(s, c);
      var after := Added(s, c.increment, c.since, c.now).0;
      LaterRested(after, c.passed, calls[1].since);
      RunRests(after, calls[1..], i - 1);
      assert calls[..i][1..] == calls[1..][..i - 1] && calls[1..][i - 1..] == calls[i..];
    } else {
      assert calls[..0] == [] && calls[0..] == calls;
    }
  }

  function New(speed: nat, precision: nat, now: int): State {
    State(speed, speed * precision, speed * precision, now)
  }

  lemma RunBound(s: State, calls: seq<Call>, i: nat)
    requires 0 < s.speed <= SECOND && s.maxFreeCap >= 0 && i < |calls|
    requires Timely(s, calls) && Ordinary(s.speed, s.lastUpdate, calls) && Rested(s, calls[0].since)
    ensures var elapsed := calls[|calls| - 1].passed - calls[i].since;
            (Total(calls[i..]) - s.maxFreeCap - 1) * SECOND < elapsed * s.speed
  {
    RunRests(s, calls, i);
    var before := After(s, calls[..i]);
    DebtsStaySmall(before, calls[i..]);
    SleptBound(before, calls[i..]);
  }

  lemma Product(a: int, b: int)
    requires a >= 0 && b >= 0
    ensures a * b >= 0
  {
  }

  /**
    * Main result: take any run of waiting calls of a new limiter of at most a byte a nanosecond, each for
    * one frame and none after an idle time whose product with the speed exceeds 63 bits. From when any
    * call of it comes in until the last has passed, the bytes are at most the full bucket, what the speed
    * allows in that time, and one.
    */
  lemma StretchBound(speed: nat, precision: nat, start: int, calls: seq<Call>, i: nat)
    requires 0 < speed <= SECOND && i < |calls|
    requires Timely(New(speed, precision, start), calls) && Ordinary(speed, start, calls)
    ensures var elapsed := calls[|calls| - 1].passed - calls[i].since;
            (Total(calls[i..]) - speed * precision - 1) * SECOND < elapsed * speed
  {
    Product(speed, precision);
    Product(calls[0].since - start, speed);
    RunBound(New(speed, precision, start), calls, i);
  }

  /** The state of a limiter at the default speed, one ten-megabit second. */
  function Default(freeCap: int, lastUpdate: int): State {
    State(1310720, 1310720, freeCap, lastUpdate)
  }

  const LONG_IDLE: int := 7036874417767

  lemma LongIdleCredit()
    ensures Credit(LONG_IDLE, 1310720) == -9223372036 && Credit(0, 1310720) == 0
  {
    assert Wrap(LONG_IDLE * 1310720) == LONG_IDLE * 1310720 - INT64;
    assert Quotient(-9223372036853989376, SECOND) == -9223372036;
  }

  lemma LongIdleSleeps()
    ensures SleepFor(9223372037, 1310720) <= 0 && SleepFor(9233372037, 1310720) <= 0
  {
    assert Wrap(9223372037 * SECOND) == 9223372037 * SECOND - INT64;
    assert Wrap(9233372037 * SECOND) == 9233372037 * SECOND - INT64;
  }

  /**
    * Without the condition on idle times the bound fails at the default speed: once drained and then
    * idle for just under two hours, the limiter owes so much that its sleep overflows, and two calls
    * pass ten megabytes at one instant.
    */
  lemma DrainedLimiterBreaksBound()
    ensures var t := LONG_IDLE;
            var calls := [Call(1310720, 0, 0, 0), Call(1, t, t, t), Call(10_000_000, t, t, t)];
            && Timely(New(1310720, 1, 0), calls)
            && !((calls[1].since - calls[0].now) * 1310720 <= INT64_MAX)
            && (Total(calls[1..]) - 1310720 * 1 - 1) * SECOND >= (calls[2].passed - calls[1].since) * 1310720
  {
    var t := LONG_IDLE;
    var c0, c1, c2 := Call(1310720, 0, 0, 0), Call(1, t, t, t), Call(10_000_000, t, t, t);
    LongIdleCredit();
    LongIdleSleeps();
    assert Added(New(1310720, 1, 0), 1310720, 0, 0) == (Default(0, 0), 0);
    assert Added(Default(0, 0), 1, t, t).0 == Default(-9223372037, t);
    assert Added(Default(-9223372037, t), 10_000_000, t, t).0 == Default(-9233372037, t);
    assert Timely(Default(-9223372037, t), [c2]) by {
      assert [c2][1..] == [];
    }
    assert Timely(Default(0, 0), [c1, c2]) by {
      assert [c1, c2][1..] == [c2];
    }
    assert [c0, c1, c2][1..] == [c1, c2];
    assert Total([c1, c2]) == 10_000_001 by {
      assert [c1, c2][1..] == [c2] && [c2][1..] == [];
      assert Total([c2]) == 10_000_000;
    }
  }

  // ----- what one call is answered -----

  /** The bytes a call finds free: what was left and what the time since has earned, up to a full bucket. */
  function Free(s: State, since: int): int {
    Min(s.maxFreeCap, s.freeCap + (since - s.lastUpdate) * s.speed / SECOND)
  }

  /** The time since the last update does not overflow. */
  predicate Measurable(s: State, since: int) {
    s.speed > 0 && 0 <= (since - s.lastUpdate) * s.speed <= INT64_MAX
  }

  /**
    * Main result. While the products fit 63 bits, a waiting call passes at once if the bytes are free, and otherwise
    * after the time in which the missing ones are earned, rounded down to a nanosecond; either way it is charged for
    * all of them.
    */
  lemma WaitingExact(s: State, increment: nat, since: int, now: int)
    requires Measurable(s, since) && (increment - Free(s, since)) * SECOND <= INT64_MAX
    ensures var (after, sleep) := Added(s, increment, since, now);
            var missing := increment - Free(s, since);
            && after == s.(freeCap := -missing, lastUpdate := now) && sleep >= 0
            && (missing <= 0 ==> sleep == 0)
            && (missing > 0 ==> sleep * s.speed <= missing * SECOND < (sleep + 1) * s.speed)
  {
    var (after, sleep) := Added(s, increment, since, now);
    var missing := increment - Free(s, since);
    if missing > 0 {
      SleepBound(missing, s.speed);
      DivisionBelow(missing * SECOND, s.speed);
    }
  }

  lemma DivisionBelow(n: int, d: int)
    requires n >= 0 && d > 0
    ensures n / d * d <= n
  {
    assert n == n / d * d + n % d;
  }

  /** Main result. A call that does not wait passes exactly if the bytes are free; a refused one is charged nothing. */
  lemma TriedExact(s: State, increment: nat, since: int, now: int)
    requires Measurable(s, since)
    ensures var (after, sleep, ok) := Tried(s, increment, since, now);
            && (ok <==> increment <= Free(s, since)) && sleep == 0
            && after == if ok then s.(freeCap := Free(s, since) - increment, lastUpdate := now)
                        else s.(freeCap := Free(s, since))
  {
  }

  /**
    * Main result. A refused call keeps what the time has earned but not the time itself, so the same time earns again:
    * asked once more at once, the limiter lets the call through exactly if what that time earns, counted twice,
    * suffices.
    */
  lemma RefusedEarnsAgain(s: State, increment: nat, since: int, now: int)
    requires Measurable(s, since) && !Tried(s, increment, since, now).2
    ensures var earned := (since - s.lastUpdate) * s.speed / SECOND;
            Tried(Tried(s, increment, since, now).0, increment, since, now).2
            <==> increment <= s.maxFreeCap && increment <= s.freeCap + 2 * earned
  {
    TriedExact(s, increment, since, now);
    TriedExact(s.(freeCap := Free(s, since)), increment, since, now);
  }
}

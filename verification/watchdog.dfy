/**
 The timed keep-alive: Go tickers, the keep-alive gated on the loop's progress, and the deadline
 systemd holds the service to. Times are nanoseconds.
 */
module Watchdog {
  import opened Numerals

  type Time = int

  // ----- how often to send the keep-alive

  const MICROSECOND: Time := 1000

  /** Half the unit's deadline, or zero when there is none or it is meant for another process. */
  function WatchdogInterval(watchdogPid: string, ownPid: string, watchdogUsec: string): Time {
    if watchdogPid != "" && watchdogPid != ownPid then 0
    else
      match ParseInt(watchdogUsec, 10, 64)
      case None => 0
      case Some(usec) => if usec <= 0 then 0 else usec * MICROSECOND / 2
  }

  /**
   The keep-alive goes out twice in a deadline of `usec` microseconds exactly if the deadline is addressed
   to this process and its text is that positive number; nothing is lost in the halving. In every other
   case there is no keep-alive.
   */
  lemma {:induction false} IntervalIsHalfTheDeadline(watchdogPid: string, ownPid: string, watchdogUsec: string, usec: int)
    ensures var every := WatchdogInterval(watchdogPid, ownPid, watchdogUsec);
            && every >= 0
            && (every > 0 && 2 * every == 1000 * usec
                <==> (watchdogPid == "" || watchdogPid == ownPid)
                     && SpellsInteger(watchdogUsec, 10, usec) && 0 < usec <= 9223372036854775807)
            && (every > 0 ==> exists n :: SpellsInteger(watchdogUsec, 10, n) && 2 * every == 1000 * n)
  {
    hide ParseInt, SpellsInteger;
    ParseIntIsExact(watchdogUsec, 10, 64, usec);
    if ParseInt(watchdogUsec, 10, 64).Some? {
      ParseIntIsExact(watchdogUsec, 10, 64, ParseInt(watchdogUsec, 10, 64).value);
      HalvesExactly(ParseInt(watchdogUsec, 10, 64).value);
    }
  }

  lemma {:induction false} HalvesExactly(usec: int)
    ensures usec * MICROSECOND / 2 == 500 * usec
  {
    assert usec * MICROSECOND == 2 * (500 * usec);
  }

  function Max(a: Time, b: Time): Time {
    if a < b then b else a
  }

  // ----- loops driven by a ticker

  /** `time.NewTicker` panics unless its period is positive. */
  function NewTicker(period: Time): (p: Time)
    requires period > 0
    ensures p == period
  {
    period
  }

  /** The first tick strictly after `t` of a ticker made at `made`. */
  function TickAfter(made: Time, period: Time, t: Time): Time
    requires period > 0
  {
    made + ((t - made) / period + 1) * period
  }

  /**
   When a loop that began an iteration at `start` and finished its work at `done` begins the next one:
   at once if a tick came meanwhile, for the channel holds one, and else at the next tick.
   */
  function NextStart(made: Time, period: Time, start: Time, done: Time): Time
    requires period > 0
  {
    Max(done, TickAfter(made, period, start))
  }

  /** The start of iteration `j` of a loop whose iteration `i` works for `work[i]`. */
  function StartOf(made: Time, period: Time, first: Time, work: nat -> Time, j: nat): Time
    requires period > 0
  {
    if j == 0 then first
    else
      var start := StartOf(made, period, first, work, j - 1);
      NextStart(made, period, start, start + work(j - 1))
  }

  /** Ticks are whole periods after the ticker was made, and this one is the first after `t`. */
  lemma {:induction false} TickAfterBounds(made: Time, period: Time, t: Time)
    requires period > 0
    ensures t < TickAfter(made, period, t) <= t + period
    ensures exists k: int :: IsTick(made, period, k, TickAfter(made, period, t))
  {
    var x := t - made;
    assert x / period * period + x % period == x;
    assert (x / period + 1) * period == x / period * period + period;
    assert IsTick(made, period, x / period + 1, TickAfter(made, period, t));
  }

  /** Tick `k` of a ticker made at `made` comes at `t`. */
  predicate IsTick(made: Time, period: Time, k: int, t: Time) {
    t == made + k * period
  }

  /**
   The next iteration starts when the work is done, if a tick came since this one started, and else at
   the first tick there is.
   */
  lemma {:induction false} StartsAreTicks(made: Time, period: Time, first: Time, work: nat -> Time, j: nat, k: int, t: Time)
    requires period > 0 && IsTick(made, period, k, t)
    ensures var start := StartOf(made, period, first, work, j);
            var next := StartOf(made, period, first, work, j + 1);
            && (start < t <= start + work(j) ==> next == start + work(j))
            && (start + work(j) < next ==> !(start < t < next) && exists i: int :: IsTick(made, period, i, next))
  {
    var start := StartOf(made, period, first, work, j);
    TickAfterBounds(made, period, start);
    if start < t {
      var i: int :| IsTick(made, period, i, TickAfter(made, period, start));
      NoTickBetween(made, period, start, k, t);
    }
  }

  lemma {:induction false} NoTickBetween(made: Time, period: Time, start: Time, k: int, t: Time)
    requires period > 0 && IsTick(made, period, k, t) && start < t
    ensures TickAfter(made, period, start) <= t
  {
    var x := start - made;
    var q := x / period;
    assert q * period + x % period == x;
    if k <= q {
      ProductsGrow(k, q, period);
    } else {
      ProductsGrow(q + 1, k, period);
    }
  }

  lemma {:induction false} ProductsGrow(j: int, k: int, p: int)
    requires j <= k && p > 0
    ensures j * p <= k * p
  {
  }

  /** Iterations are at most a period apart, or as long as their work when that is longer. */
  lemma {:induction false} StartsAreClose(made: Time, period: Time, first: Time, work: nat -> Time, j: nat)
    requires period > 0
    ensures var start := StartOf(made, period, first, work, j);
            var next := StartOf(made, period, first, work, j + 1);
            && start < next <= start + Max(work(j), period)
            && start + work(j) <= next
  {
    TickAfterBounds(made, period, StartOf(made, period, first, work, j));
  }

  lemma {:induction false} StartsAdvance(made: Time, period: Time, first: Time, work: nat -> Time, j: nat)
    requires period > 0
    ensures StartOf(made, period, first, work, j) >= first + j
  {
    if j > 0 {
      StartsAdvance(made, period, first, work, j - 1);
      StartsAreClose(made, period, first, work, j - 1);
    }
  }

  // ----- the gated keep-alive

  /**
   The watchdog of one armed guard: when it was wired up, when its own ticker was made, how often that
   ticks, the check interval, and the last sign of life systemd had before (READY, or a keep-alive of
   the suspended loop).
   */
  datatype Wiring = Wiring(wired: Time, ticker: Time, every: Time, interval: Time, base: Time) {
    /** A pass is overdue once this long has gone by without one. */
    function Stale(): Time {
      Max(2 * interval, 2 * every)
    }

    /** `WatchdogSec=`. */
    function Deadline(): Time {
      2 * every
    }

    function TickTime(k: nat): Time {
      ticker + k * every
    }

    /** The ticker is made within one period of the wiring, and within one of the last sign of life. */
    predicate Prompt() {
      && every > 0 && interval > 0
      && wired <= ticker <= wired + every
      && ticker - every < base < ticker + every
    }
  }

  /** What the shared record of the last pass holds at `t`: wiring counts as a pass. */
  function HeldAt(w: Wiring, passes: seq<Time>, t: Time): Time {
    if passes == [] then w.wired
    else if passes[|passes| - 1] <= t then passes[|passes| - 1]
    else HeldAt(w, passes[..|passes| - 1], t)
  }

  predicate SentAt(w: Wiring, passes: seq<Time>, k: nat) {
    k >= 1 && w.TickTime(k) - HeldAt(w, passes, w.TickTime(k)) <= w.Stale()
  }

  function LastPass(w: Wiring, passes: seq<Time>): Time {
    if passes == [] then w.wired else passes[|passes| - 1]
  }

  /** No two passes are further apart than the window, counting the wiring as the first. */
  predicate Steady(w: Wiring, passes: seq<Time>) {
    passes == [] || (
      var front := passes[..|passes| - 1];
      && Steady(w, front)
      && LastPass(w, front) <= passes[|passes| - 1] <= LastPass(w, front) + w.Stale())
  }

  // ----- systemd's side

  /** A sign of life at `a` was the last for a whole deadline, which ends at `x`. */
  ghost predicate NothingSince(w: Wiring, passes: seq<Time>, a: Time, x: Time) {
    forall k: nat :: a < w.TickTime(k) <= x ==> !SentAt(w, passes, k)
  }

  /** systemd's deadline runs out at `x`. */
  ghost predicate ExpiresAt(w: Wiring, passes: seq<Time>, x: Time) {
    || (x == w.base + w.Deadline() && NothingSince(w, passes, w.base, x))
    || exists k: nat :: SentAt(w, passes, k) && x == w.TickTime(k) + w.Deadline() && NothingSince(w, passes, w.TickTime(k), x)
  }

  /** systemd kills the service at `x`. */
  ghost predicate KilledAt(w: Wiring, passes: seq<Time>, x: Time) {
    ExpiresAt(w, passes, x) && forall y :: y < x ==> !ExpiresAt(w, passes, y)
  }

  // ----- what a steady loop keeps alive

  lemma {:induction false} TicksAreOrdered(w: Wiring, j: nat, k: nat)
    requires w.every > 0
    ensures j < k <==> w.TickTime(j) < w.TickTime(k)
    ensures w.TickTime(k + 1) == w.TickTime(k) + w.every
    ensures w.TickTime(0) == w.ticker && w.TickTime(1) == w.ticker + w.every
  {
    Ordered(j, k, w.every);
    Ordered(k, j, w.every);
    assert (k + 1) * w.every == k * w.every + w.every;
  }

  lemma {:induction false} Ordered(j: nat, k: nat, e: int)
    requires e > 0
    ensures j < k ==> j * e < k * e
    ensures j == k ==> j * e == k * e
  {
    if j < k {
      if j + 1 < k {
        Ordered(j, k - 1, e);
      }
      assert k * e == (k - 1) * e + e;
    }
  }

  lemma {:induction false} HeldIsRecent(w: Wiring, passes: seq<Time>, t: Time)
    requires Steady(w, passes) && w.wired <= t <= LastPass(w, passes) + w.Stale()
    ensures HeldAt(w, passes, t) <= t <= HeldAt(w, passes, t) + w.Stale()
  {
    if passes != [] && passes[|passes| - 1] > t {
      HeldIsRecent(w, passes[..|passes| - 1], t);
    }
  }

  /** While a steady loop's last pass is fresh every tick is sent, and once it is stale none is. */
  lemma {:induction false} SentWhileFresh(w: Wiring, passes: seq<Time>, k: nat)
    requires w.Prompt() && Steady(w, passes) && k >= 1
    ensures SentAt(w, passes, k) <==> w.TickTime(k) <= LastPass(w, passes) + w.Stale()
  {
    TicksAreOrdered(w, 0, k);
    if w.TickTime(k) <= LastPass(w, passes) + w.Stale() {
      HeldIsRecent(w, passes, w.TickTime(k));
    }
  }

  lemma {:induction false} SentIsPositive(w: Wiring, passes: seq<Time>, k: nat)
    requires SentAt(w, passes, k)
    ensures k >= 1
  {
  }

  /** The last tick no later than `t`. */
  function LastTickBy(w: Wiring, t: Time): (n: nat)
    requires w.every > 0 && w.ticker + w.every <= t
    ensures n >= 1 && w.TickTime(n) <= t < w.TickTime(n) + w.every && w.TickTime(n + 1) == w.TickTime(n) + w.every
  {
    var n := (t - w.ticker) / w.every;
    QuotientBounds(t - w.ticker, w.every);
    TicksAreOrdered(w, n, n);
    n
  }

  lemma {:induction false} QuotientBounds(x: int, e: int)
    requires 0 < e <= x
    ensures x / e >= 1 && x / e * e <= x < x / e * e + e
  {
    assert x / e * e + x % e == x;
  }

  // ----- a wedged loop is killed, and when

  /** Passes are recorded in the order they are done, none before the wiring. */
  predicate Chronological(w: Wiring, passes: seq<Time>) {
    passes == [] || (
      var front := passes[..|passes| - 1];
      Chronological(w, front) && LastPass(w, front) <= passes[|passes| - 1])
  }

  /** systemd's deadline has not run out by `t`. */
  ghost predicate SurvivesUntil(w: Wiring, passes: seq<Time>, t: Time) {
    forall y :: y <= t ==> !ExpiresAt(w, passes, y)
  }

  lemma {:induction false} PassesAreAfterWiring(w: Wiring, passes: seq<Time>, t: Time)
    requires Chronological(w, passes) && w.wired <= t
    ensures w.wired <= HeldAt(w, passes, t) <= t && w.wired <= LastPass(w, passes)
    ensures LastPass(w, passes) <= t ==> HeldAt(w, passes, t) == LastPass(w, passes)
  {
    if passes != [] {
      PassesAreAfterWiring(w, passes[..|passes| - 1], t);
    }
  }

  /** Whatever passes there are, the first tick is sent, before the deadline of the last sign of life. */
  lemma {:induction false} FirstTickIsAlwaysSent(w: Wiring, passes: seq<Time>)
    requires w.Prompt() && Chronological(w, passes)
    ensures SentAt(w, passes, 1) && w.base < w.TickTime(1) < w.base + w.Deadline()
  {
    TicksAreOrdered(w, 0, 1);
    PassesAreAfterWiring(w, passes, w.TickTime(1));
  }

  /** From the last pass on, that pass alone decides which ticks are sent. */
  lemma {:induction false} LastPassDecides(w: Wiring, passes: seq<Time>, k: nat)
    requires w.Prompt() && Chronological(w, passes) && k >= 1 && w.TickTime(k) >= LastPass(w, passes)
    ensures SentAt(w, passes, k) <==> w.TickTime(k) <= LastPass(w, passes) + w.Stale()
  {
    TicksAreOrdered(w, 0, k);
    PassesAreAfterWiring(w, passes, w.TickTime(k));
  }

  /** The last tick the last pass still vouches for. */
  function LastFreshTick(w: Wiring, passes: seq<Time>): nat
    requires w.Prompt() && Chronological(w, passes)
  {
    PassesAreAfterWiring(w, passes, w.wired);
    LastTickBy(w, LastPass(w, passes) + w.Stale())
  }

  /** When a loop that never passes again is killed: a deadline after that tick. */
  function KillTime(w: Wiring, passes: seq<Time>): Time
    requires w.Prompt() && Chronological(w, passes)
  {
    w.TickTime(LastFreshTick(w, passes)) + w.Deadline()
  }

  lemma {:induction false} KillTimeBounds(w: Wiring, passes: seq<Time>)
    requires w.Prompt() && Chronological(w, passes)
    ensures var n := LastFreshTick(w, passes);
            && n >= 1 && KillTime(w, passes) == w.TickTime(n) + w.Deadline()
            && LastPass(w, passes) < w.TickTime(n) <= LastPass(w, passes) + w.Stale() < w.TickTime(n) + w.every
    ensures LastPass(w, passes) + w.Stale() + w.every < KillTime(w, passes)
                                                     <= LastPass(w, passes) + w.Stale() + w.Deadline()
  {
    PassesAreAfterWiring(w, passes, w.wired);
  }

  lemma {:induction false} ExpiresAtKillTime(w: Wiring, passes: seq<Time>)
    requires w.Prompt() && Chronological(w, passes)
    ensures ExpiresAt(w, passes, KillTime(w, passes))
  {
    hide SentAt, Chronological, LastFreshTick;
    KillTimeBounds(w, passes);
    var n, x := LastFreshTick(w, passes), KillTime(w, passes);
    LastPassDecides(w, passes, n);
    forall k: nat | w.TickTime(n) < w.TickTime(k) <= x
      ensures !SentAt(w, passes, k)
    {
      TicksAreOrdered(w, n, k);
      TicksAreOrdered(w, n + 1, k);
      TicksAreOrdered(w, k, n + 1);
      LastPassDecides(w, passes, k);
    }
    assert NothingSince(w, passes, w.TickTime(n), x);
  }

  /** Between the last pass and the kill the deadline does not run out, however close it came before that pass. */
  lemma {:induction false} NoExpiryInBetween(w: Wiring, passes: seq<Time>, y: Time)
    requires w.Prompt() && Chronological(w, passes)
    requires LastPass(w, passes) < y < KillTime(w, passes)
    ensures !ExpiresAt(w, passes, y)
  {
    hide SentAt, Chronological, LastFreshTick, KillTime;
    KillTimeBounds(w, passes);
    var n := LastFreshTick(w, passes);
    FirstTickIsAlwaysSent(w, passes);
    if y == w.base + w.Deadline() {
      assert !NothingSince(w, passes, w.base, y);
    }
    forall k: nat | SentAt(w, passes, k) && y == w.TickTime(k) + w.Deadline()
      ensures !NothingSince(w, passes, w.TickTime(k), y)
    {
      SentIsPositive(w, passes, k);
      SomeTickIsSent(w, passes, n, k);
    }
  }

  /** One of the two ticks in the deadline after tick `k` is sent. */
  lemma {:induction false} SomeTickIsSent(w: Wiring, passes: seq<Time>, n: nat, k: nat)
    requires w.Prompt() && Chronological(w, passes) && k >= 1
    requires LastPass(w, passes) < w.TickTime(n) <= LastPass(w, passes) + w.Stale()
    requires LastPass(w, passes) < w.TickTime(k) + w.Deadline() && w.TickTime(k) < w.TickTime(n)
    ensures !NothingSince(w, passes, w.TickTime(k), w.TickTime(k) + w.Deadline())
  {
    hide SentAt, Chronological;
    TicksAreOrdered(w, k, k + 1);
    TicksAreOrdered(w, k, k);
    TicksAreOrdered(w, k + 1, k + 1);
    TicksAreOrdered(w, k, n);
    TicksAreOrdered(w, n, k + 1);
    if w.TickTime(k + 1) >= LastPass(w, passes) {
      LastPassDecides(w, passes, k + 1);
      assert SentAt(w, passes, k + 1);
    } else {
      LastPassDecides(w, passes, k + 2);
      assert SentAt(w, passes, k + 2);
    }
  }

  /**
   A loop whose last pass was at `p`, and that systemd had not killed by then, is killed after
   `p + stale + every` and no later than `p + stale + 2 * every`, where `every` is half the deadline. Its
   earlier passes may have been as late as they like.
   */
  lemma {:induction false} WedgedLoopIsKilled(w: Wiring, passes: seq<Time>)
    requires w.Prompt() && Chronological(w, passes) && SurvivesUntil(w, passes, LastPass(w, passes))
    ensures KilledAt(w, passes, KillTime(w, passes))
    ensures var stale := if w.interval < w.every then 2 * w.every else 2 * w.interval;
            LastPass(w, passes) + stale + w.every < KillTime(w, passes) <= LastPass(w, passes) + stale + 2 * w.every
  {
    hide ExpiresAt, Chronological, KillTime;
    KillTimeBounds(w, passes);
    ExpiresAtKillTime(w, passes);
    forall y | y < KillTime(w, passes)
      ensures !ExpiresAt(w, passes, y)
    {
      if y > LastPass(w, passes) {
        NoExpiryInBetween(w, passes, y);
      }
    }
  }

  lemma {:induction false} KillIsUnique(w: Wiring, passes: seq<Time>, x: Time, y: Time)
    requires KilledAt(w, passes, x) && KilledAt(w, passes, y)
    ensures x == y
  {
    hide ExpiresAt;
  }

  /**
   As documented: with two intervals inside the deadline, a loop that wedges within an interval of its
   last pass is killed between one and two deadlines after it wedged.
   */
  lemma {:induction false} WedgeToKill(w: Wiring, passes: seq<Time>, wedged: Time, x: Time)
    requires w.Prompt() && Chronological(w, passes) && SurvivesUntil(w, passes, LastPass(w, passes))
    requires 2 * w.interval <= w.Deadline()
    requires LastPass(w, passes) <= wedged <= LastPass(w, passes) + w.interval
    requires KilledAt(w, passes, x)
    ensures w.Deadline() < x - wedged <= 2 * w.Deadline()
  {
    WedgedLoopIsKilled(w, passes);
    KillIsUnique(w, passes, x, KillTime(w, passes));
    hide KilledAt, Chronological, KillTime, SurvivesUntil;
  }

  /**
   As shipped, with `WatchdogSec=60` and checks every ten seconds, that is 60 to 120 seconds.
   */
  lemma {:induction false} WedgeToKillAsShipped(w: Wiring, passes: seq<Time>, wedged: Time, x: Time, ownPid: string)
    requires w.every == WatchdogInterval(ownPid, ownPid, "60000000") && w.interval == 10_000_000_000
    requires w.Prompt() && Chronological(w, passes) && SurvivesUntil(w, passes, LastPass(w, passes))
    requires LastPass(w, passes) <= wedged <= LastPass(w, passes) + w.interval
    requires KilledAt(w, passes, x)
    ensures 60_000_000_000 < x - wedged <= 120_000_000_000
  {
    hide KilledAt, Chronological, SurvivesUntil, WatchdogInterval;
    SixtySeconds();
    IntervalIsHalfTheDeadline(ownPid, ownPid, "60000000", 60_000_000);
    WedgeToKill(w, passes, wedged, x);
  }

  lemma {:induction false} SixtySeconds()
    ensures SpellsInteger("60000000", 10, 60_000_000)
  {
    assert "60000000"[..7] == "6000000" && "6000000"[..6] == "600000" && "600000"[..5] == "60000";
    assert "60000"[..4] == "6000" && "6000"[..3] == "600" && "600"[..2] == "60" && "60"[..1] == "6" && "6"[..0] == "";
    assert Spells("6000", 10, 6000) by {
      assert Spells("60", 10, 60);
    }
    assert Spells("600000", 10, 600_000);
  }

  // ----- exactly which loops are killed

  /** One more pass changes nothing before it is done. */
  lemma {:induction false} LaterPassChangesNothing(w: Wiring, passes: seq<Time>, next: Time, y: Time)
    requires w.every > 0 && y < next
    ensures ExpiresAt(w, passes + [next], y) <==> ExpiresAt(w, passes, y)
  {
    var more := passes + [next];
    assert more[..|passes|] == passes;
    forall k: nat | w.TickTime(k) <= y
      ensures SentAt(w, more, k) <==> SentAt(w, passes, k)
    {
    }
    SameUpTo(w, passes, more, y);
  }

  lemma {:induction false} SameUpTo(w: Wiring, a: seq<Time>, b: seq<Time>, y: Time)
    requires forall k: nat :: w.TickTime(k) <= y ==> (SentAt(w, a, k) <==> SentAt(w, b, k))
    requires w.every > 0
    ensures ExpiresAt(w, a, y) <==> ExpiresAt(w, b, y)
  {
    hide SentAt;
  }

  /** A pass done at the very instant keeps the deadline from running out then. */
  lemma {:induction false} PassingIsSurviving(w: Wiring, passes: seq<Time>)
    requires w.Prompt() && Chronological(w, passes)
    ensures !ExpiresAt(w, passes, LastPass(w, passes))
  {
    hide SentAt, Chronological;
    var p := LastPass(w, passes);
    FirstTickIsAlwaysSent(w, passes);
    if p == w.base + w.Deadline() {
      assert !NothingSince(w, passes, w.base, p);
    }
    forall k: nat | SentAt(w, passes, k) && p == w.TickTime(k) + w.Deadline()
      ensures !NothingSince(w, passes, w.TickTime(k), p)
    {
      TicksAreOrdered(w, k, k);
      TicksAreOrdered(w, k + 1, k + 1);
      LastPassDecides(w, passes, k + 2);
      assert SentAt(w, passes, k + 2);
    }
  }

  /** A loop that has survived so far survives to its next pass exactly if that comes by the kill time. */
  lemma {:induction false} SurvivalIsPunctuality(w: Wiring, passes: seq<Time>, next: Time)
    requires w.Prompt() && Chronological(w, passes) && LastPass(w, passes) <= next
    ensures Chronological(w, passes + [next]) && LastPass(w, passes + [next]) == next
    ensures SurvivesUntil(w, passes + [next], next)
       <==> SurvivesUntil(w, passes, LastPass(w, passes)) && next <= KillTime(w, passes)
  {
    var more := passes + [next];
    assert more[..|passes|] == passes;
    hide ExpiresAt, KillTime, Chronological;
    KillTimeBounds(w, passes);
    ExpiresAtKillTime(w, passes);
    PassingIsSurviving(w, passes);
    PassingIsSurviving(w, more);
    forall y
      ensures y < next ==> (ExpiresAt(w, more, y) <==> ExpiresAt(w, passes, y))
      ensures LastPass(w, passes) < y < KillTime(w, passes) ==> !ExpiresAt(w, passes, y)
    {
      if y < next {
        LaterPassChangesNothing(w, passes, next, y);
      }
      if LastPass(w, passes) < y < KillTime(w, passes) {
        NoExpiryInBetween(w, passes, y);
      }
    }
  }

  lemma {:induction false} PrefixIsChronological(w: Wiring, passes: seq<Time>, j: nat)
    requires Chronological(w, passes) && j <= |passes|
    ensures Chronological(w, passes[..j])
    ensures j < |passes| ==> LastPass(w, passes[..j]) <= passes[j]
  {
    if passes != [] && j < |passes| {
      var n := |passes| - 1;
      assert passes[..n][..j] == passes[..j];
      if j < n {
        PrefixIsChronological(w, passes[..n], j);
      }
    } else {
      assert passes[..j] == passes;
    }
  }

  /** Pass `j` comes by the time the loop would be killed without it. */
  predicate IsPunctual(w: Wiring, passes: seq<Time>, j: nat)
    requires w.Prompt() && Chronological(w, passes) && j < |passes|
  {
    PrefixIsChronological(w, passes, j);
    passes[j] <= KillTime(w, passes[..j])
  }

  /** A loop is alive at its last pass exactly if every pass came by the kill time of the passes before it. */
  lemma {:induction false} AliveIffPunctual(w: Wiring, passes: seq<Time>)
    requires w.Prompt() && Chronological(w, passes)
    ensures SurvivesUntil(w, passes, LastPass(w, passes)) <==> forall j: nat :: j < |passes| ==> IsPunctual(w, passes, j)
  {
    if passes == [] {
      NothingBeforeWiring(w);
    } else {
      var n := |passes| - 1;
      var front := passes[..n];
      assert front + [passes[n]] == passes;
      hide SurvivesUntil, KillTime, Chronological, IsPunctual;
      AliveIffPunctual(w, front);
      SurvivalIsPunctuality(w, front, passes[n]);
      forall j: nat | j < n
        ensures IsPunctual(w, passes, j) <==> IsPunctual(w, front, j)
      {
        PunctualityOfPrefix(w, passes, j);
      }
      PunctualityOfPrefix(w, passes, n);
      if forall j: nat :: j < |passes| ==> IsPunctual(w, passes, j) {
        forall j: nat | j < n
          ensures IsPunctual(w, front, j)
        {
          assert IsPunctual(w, passes, j);
        }
      }
    }
  }

  lemma {:induction false} PunctualityOfPrefix(w: Wiring, passes: seq<Time>, j: nat)
    requires w.Prompt() && Chronological(w, passes) && j < |passes|
    ensures var n := |passes| - 1;
            IsPunctual(w, passes, j)
            <==> if j < n then IsPunctual(w, passes[..n], j) else passes[n] <= KillTime(w, passes[..n])
  {
    hide KillTime;
    if j < |passes| - 1 {
      assert passes[..|passes| - 1][..j] == passes[..j];
    }
  }

  lemma {:induction false} NothingBeforeWiring(w: Wiring)
    requires w.Prompt()
    ensures SurvivesUntil(w, [], w.wired)
  {
    hide SentAt;
    forall y | y <= w.wired
      ensures !ExpiresAt(w, [], y)
    {
      forall k: nat | SentAt(w, [], k)
        ensures y != w.TickTime(k) + w.Deadline()
      {
        TicksAreOrdered(w, 0, k);
      }
    }
  }

  /** The number of passes before the first that comes too late; all of them when none does. */
  ghost function PunctualPasses(w: Wiring, passes: seq<Time>): (j: nat)
    requires w.Prompt() && Chronological(w, passes)
    ensures j <= |passes|
  {
    if passes == [] then 0
    else
      var n := |passes| - 1;
      var j := PunctualPasses(w, passes[..n]);
      if j == n && IsPunctual(w, passes, n) then n + 1 else j
  }

  /**
   Exactly when a loop is killed: at the kill time of the passes before its first late one, or of all its
   passes when none is late. So a pass to come saves the loop if and only if it comes by then.
   */
  lemma {:induction false} KilledAtFirstLateness(w: Wiring, passes: seq<Time>, x: Time)
    requires w.Prompt() && Chronological(w, passes)
    ensures Chronological(w, passes[..PunctualPasses(w, passes)])
    ensures KilledAt(w, passes, x) <==> x == KillTime(w, passes[..PunctualPasses(w, passes)])
  {
    hide KillTime, ExpiresAt;
    var j := PunctualPasses(w, passes);
    PrefixIsChronological(w, passes, j);
    KilledThere(w, passes);
    if KilledAt(w, passes, x) {
      KillIsUnique(w, passes, x, KillTime(w, passes[..j]));
    }
  }

  lemma {:induction false} KilledThere(w: Wiring, passes: seq<Time>)
    requires w.Prompt() && Chronological(w, passes)
    ensures Chronological(w, passes[..PunctualPasses(w, passes)])
    ensures KilledAt(w, passes, KillTime(w, passes[..PunctualPasses(w, passes)]))
    ensures PunctualPasses(w, passes) == |passes| ==> SurvivesUntil(w, passes, LastPass(w, passes))
    ensures PunctualPasses(w, passes) < |passes| ==> KillTime(w, passes[..PunctualPasses(w, passes)]) < LastPass(w, passes)
  {
    hide KillTime, ExpiresAt;
    var j := PunctualPasses(w, passes);
    PrefixIsChronological(w, passes, j);
    if passes == [] {
      assert passes[..j] == passes;
      NothingBeforeWiring(w);
      WedgedLoopIsKilled(w, passes);
    } else {
      var n := |passes| - 1;
      var front := passes[..n];
      assert front + [passes[n]] == passes;
      KilledThere(w, front);
      if j == n + 1 {
        assert passes[..j] == passes && front[..n] == front;
        SurvivalIsPunctuality(w, front, passes[n]);
        WedgedLoopIsKilled(w, passes);
      } else {
        assert front[..j] == passes[..j];
        if j == n {
          assert front[..n] == front;
        }
        var x := KillTime(w, passes[..j]);
        assert x < passes[n];
        forall y | y <= x
          ensures ExpiresAt(w, passes, y) <==> ExpiresAt(w, front, y)
        {
          LaterPassChangesNothing(w, front, passes[n], y);
        }
      }
    }
  }

  // ----- a live loop is never killed

  lemma {:induction false} SteadyIsChronological(w: Wiring, passes: seq<Time>)
    requires Steady(w, passes)
    ensures Chronological(w, passes)
  {
    if passes != [] {
      SteadyIsChronological(w, passes[..|passes| - 1]);
    }
  }

  /** A steady loop that has not yet let its window pass is not killed. */
  lemma {:induction false} SteadyLoopIsAlive(w: Wiring, passes: seq<Time>, y: Time)
    requires w.Prompt() && Steady(w, passes) && y <= LastPass(w, passes) + w.Stale()
    ensures !ExpiresAt(w, passes, y)
  {
    SteadyLoopSurvives(w, passes);
    hide ExpiresAt, KillTime, Steady, Chronological;
    KillTimeBounds(w, passes);
    if y > LastPass(w, passes) {
      NoExpiryInBetween(w, passes, y);
    }
  }

  lemma {:induction false} SteadyLoopSurvives(w: Wiring, passes: seq<Time>)
    requires w.Prompt() && Steady(w, passes)
    ensures Chronological(w, passes) && SurvivesUntil(w, passes, LastPass(w, passes))
  {
    hide ExpiresAt, KillTime;
    SteadyIsChronological(w, passes);
    if passes == [] {
      NothingBeforeWiring(w);
    } else {
      var n := |passes| - 1;
      var front := passes[..n];
      SteadyLoopSurvives(w, front);
      KillTimeBounds(w, front);
      SurvivalIsPunctuality(w, front, passes[n]);
      assert front + [passes[n]] == passes;
    }
  }

  /** When the passes of the check loop are complete: a ticker made at `made`, and a first pass at once. */
  function DoneAt(w: Wiring, made: Time, work: nat -> Time, j: nat): Time
    requires w.interval > 0
  {
    StartOf(made, w.interval, made, work, j) + work(j)
  }

  function PassesBy(w: Wiring, made: Time, work: nat -> Time, n: nat): seq<Time>
    requires w.interval > 0
  {
    if n == 0 then [] else PassesBy(w, made, work, n - 1) + [DoneAt(w, made, work, n - 1)]
  }

  /** Every pass is short enough to fit in the window with the wait before it, and so is the first. */
  ghost predicate Lively(w: Wiring, made: Time, work: nat -> Time) {
    && w.interval > 0
    && (forall j: nat :: 0 <= work(j) <= w.Stale() - w.interval)
    && w.wired <= made && made + work(0) <= w.wired + w.Stale()
  }

  lemma {:induction false} LivelyLoopsAreSteady(w: Wiring, made: Time, work: nat -> Time, n: nat)
    requires Lively(w, made, work)
    ensures Steady(w, PassesBy(w, made, work, n))
    ensures n > 0 ==> LastPass(w, PassesBy(w, made, work, n)) == DoneAt(w, made, work, n - 1)
    ensures n == 0 ==> LastPass(w, PassesBy(w, made, work, n)) == w.wired
  {
    hide StartOf;
    if n > 0 {
      LivelyLoopsAreSteady(w, made, work, n - 1);
      var front := PassesBy(w, made, work, n - 1);
      PassCount(w, made, work, n - 1);
      assert (front + [DoneAt(w, made, work, n - 1)])[..n - 1] == front;
      if n == 1 {
        FirstStart(w, made, work);
      } else {
        StartsAreClose(made, w.interval, made, work, n - 2);
        assert w.Stale() - w.interval >= 0;
        assert work(n - 1) <= w.Stale() - w.interval && work(n - 2) >= 0;
        WaitIsShort(made, w.interval, work, n - 2);
      }
    }
  }

  lemma {:induction false} FirstStart(w: Wiring, made: Time, work: nat -> Time)
    requires w.interval > 0
    ensures StartOf(made, w.interval, made, work, 0) == made
  {
  }

  /** A loop never waits longer than one period after its work. */
  lemma {:induction false} WaitIsShort(made: Time, period: Time, work: nat -> Time, j: nat)
    requires period > 0 && work(j) >= 0
    ensures var start := StartOf(made, period, made, work, j);
            StartOf(made, period, made, work, j + 1) <= start + work(j) + period
  {
    StartsAreClose(made, period, made, work, j);
  }

  lemma {:induction false} PassCount(w: Wiring, made: Time, work: nat -> Time, n: nat)
    requires w.interval > 0
    ensures |PassesBy(w, made, work, n)| == n
  {
    hide StartOf;
    if n > 0 {
      PassCount(w, made, work, n - 1);
    }
  }

  /** systemd never kills a live loop: at no instant does its deadline run out, whatever passes are still to come. */
  lemma {:induction false} LiveLoopIsNeverKilled(w: Wiring, made: Time, work: nat -> Time, n: nat, y: Time)
    requires w.Prompt() && Lively(w, made, work)
    requires y <= DoneAt(w, made, work, n)
    ensures !ExpiresAt(w, PassesBy(w, made, work, n), y)
  {
    hide StartOf, ExpiresAt;
    var passes := PassesBy(w, made, work, n);
    LivelyLoopsAreSteady(w, made, work, n);
    LivelyLoopsAreSteady(w, made, work, n + 1);
    PassCount(w, made, work, n);
    assert PassesBy(w, made, work, n + 1)[..n] == passes;
    SteadyLoopIsAlive(w, passes, y);
  }

  /** Passes that each take less than one interval are short enough, and every instant is before some pass. */
  lemma {:induction false} ShortPassesAreLively(w: Wiring, made: Time, work: nat -> Time, y: Time)
    requires w.interval > 0 && forall j: nat :: 0 <= work(j) < w.interval
    requires w.wired <= made <= w.wired + w.interval
    ensures Lively(w, made, work)
    ensures forall j: nat :: DoneAt(w, made, work, j + 1) - DoneAt(w, made, work, j) < 2 * w.interval
    ensures y <= DoneAt(w, made, work, if y < made then 0 else y - made)
  {
    hide StartOf;
    assert work(0) < w.interval;
    forall j: nat
      ensures DoneAt(w, made, work, j + 1) - DoneAt(w, made, work, j) < 2 * w.interval
    {
      assert work(j) >= 0 && work(j + 1) < w.interval;
      WaitIsShort(made, w.interval, work, j);
    }
    var n := if y < made then 0 else y - made;
    StartsAdvance(made, w.interval, made, work, n);
    assert work(n) >= 0;
  }

  // ----- handing over from the suspended loop

  /** The suspended loop's own ticker: the shorter of the check interval and the keep-alive period. */
  function RearmPeriod(interval: Time, every: Time): Time {
    if 0 < every < interval then every else interval
  }

  /** One of the two periods: never longer than the check interval, nor than the keep-alive period where there is one. */
  lemma {:induction false} RearmPeriodIsShorter(interval: Time, every: Time)
    requires interval > 0
    ensures 0 < RearmPeriod(interval, every) <= interval
    ensures every > 0 ==> RearmPeriod(interval, every) <= every
    ensures RearmPeriod(interval, every) == interval || RearmPeriod(interval, every) == every
  {
  }

  /** When the suspended loop sends its keep-alives: at the start of each iteration, the first at its first tick. */
  function SuspendedAlive(made: Time, period: Time, work: nat -> Time, j: nat): Time
    requires period > 0
  {
    StartOf(made, period, made + period, work, j)
  }

  /** The wiring of a guard that the suspended loop's iteration `n` armed, its ticker made `launch` after that. */
  function WiredAfter(every: Time, interval: Time, made: Time, work: nat -> Time, n: nat, launch: Time): Wiring
    requires every > 0 && interval > 0
  {
    var alive := SuspendedAlive(made, RearmPeriod(interval, every), work, n);
    Wiring(alive + work(n), alive + work(n) + launch, every, interval, alive)
  }

  /**
   No gap in the keep-alives reaches the deadline, from READY through the suspended loop and over to the
   watchdog of the guard its iteration `n` arms, provided the suspended iterations before that take less
   than a deadline, and arming and starting the new ticker together less than half of one.
   */
  lemma {:induction false} HandOverIsSeamless(every: Time, interval: Time, ready: Time, made: Time, work: nat -> Time, n: nat,
                                              launch: Time, passes: seq<Time>)
    requires every > 0 && interval > 0
    requires ready <= made < ready + every
    requires forall j: nat :: j < n ==> 0 <= work(j) < 2 * every
    requires 0 <= work(n) && 0 <= launch && work(n) + launch < every
    requires Steady(WiredAfter(every, interval, made, work, n, launch), passes)
    ensures var w := WiredAfter(every, interval, made, work, n, launch);
            var period := RearmPeriod(interval, every);
            && w.Prompt()
            && SuspendedAlive(made, period, work, 0) - ready < w.Deadline()
            && (forall j: nat :: j < n ==>
                  0 < SuspendedAlive(made, period, work, j + 1) - SuspendedAlive(made, period, work, j) < w.Deadline())
            && SentAt(w, passes, 1)
            && 0 < w.TickTime(1) - SuspendedAlive(made, period, work, n) < w.Deadline()
            && (forall y :: y <= LastPass(w, passes) + w.Stale() ==> !ExpiresAt(w, passes, y))
  {
    hide StartOf, Steady, ExpiresAt;
    var w := WiredAfter(every, interval, made, work, n, launch);
    var period := RearmPeriod(interval, every);
    FirstAlive(made, period, work);
    forall j: nat | j < n
      ensures 0 < SuspendedAlive(made, period, work, j + 1) - SuspendedAlive(made, period, work, j) < w.Deadline()
    {
      StartsAreClose(made, period, made + period, work, j);
    }
    assert w.Prompt();
    SteadyIsChronological(w, passes);
    FirstTickIsAlwaysSent(w, passes);
    forall y | y <= LastPass(w, passes) + w.Stale()
      ensures !ExpiresAt(w, passes, y)
    {
      SteadyLoopIsAlive(w, passes, y);
    }
  }

  lemma {:induction false} FirstAlive(made: Time, period: Time, work: nat -> Time)
    requires period > 0
    ensures SuspendedAlive(made, period, work, 0) == made + period
  {
  }

  // ----- the object the loop and the ticker share

  datatype Step = PassDone(at: Time) | TickFired(at: Time)

  /** The passes among `steps`, oldest first. */
  function PassesIn(steps: seq<Step>): seq<Time> {
    if steps == [] then []
    else
      var n := |steps| - 1;
      if steps[n].PassDone? then PassesIn(steps[..n]) + [steps[n].at] else PassesIn(steps[..n])
  }

  /** The keep-alives an interleaving of passes and ticks sends. */
  function SentBy(wired: Time, stale: Time, steps: seq<Step>): seq<Time> {
    if steps == [] then []
    else
      var n := |steps| - 1;
      var passes := PassesIn(steps[..n]);
      var held := if passes == [] then wired else passes[|passes| - 1];
      if steps[n].TickFired? && steps[n].at - held <= stale then SentBy(wired, stale, steps[..n]) + [steps[n].at]
      else SentBy(wired, stale, steps[..n])
  }

  /**
   What the loop shares with the keep-alive's ticker: one atomic, the last pass as a duration since wiring.
   Without a deadline there is no ticker, and recording a pass does nothing.
   */
  class KeepAlive {
    const wired: Time
    const every: Time
    const stale: Time

    var lastPass: Time
    var sent: seq<Time>

    ghost var steps: seq<Step>

    predicate Enabled() {
      every > 0
    }

    ghost predicate Valid()
      reads this
    {
      && sent == SentBy(wired, stale, steps)
      && lastPass == (if PassesIn(steps) == [] then 0 else PassesIn(steps)[|PassesIn(steps)| - 1] - wired)
      && (!Enabled() ==> steps == [])
    }

    constructor (now: Time, interval: Time, every: Time)
      ensures Valid() && steps == [] && sent == [] && lastPass == 0
      ensures wired == now && this.every == every && stale == Max(2 * interval, 2 * every)
    {
      wired, this.every := now, if every > 0 then NewTicker(every) else every;
      stale := if 2 * interval < 2 * every then 2 * every else 2 * interval;
      lastPass, sent, steps := 0, [], [];
    }

    /** What the loop calls after every pass. */
    method Pass(now: Time)
      requires Valid()
      modifies this
      ensures Valid() && sent == old(sent)
      ensures steps == if Enabled() then old(steps) + [PassDone(now)] else old(steps)
      ensures lastPass == if Enabled() then now - wired else old(lastPass)
    {
      if every <= 0 {
        return;
      }
      steps := steps + [PassDone(now)];
      assert steps[..|steps| - 1] == old(steps);
      lastPass := now - wired;
    }

    /** One tick of the keep-alive's own ticker. */
    method Tick(now: Time)
      requires Valid() && Enabled()
      modifies this
      ensures Valid() && steps == old(steps) + [TickFired(now)]
      ensures lastPass == old(lastPass)
      ensures sent == if now - (wired + lastPass) <= stale then old(sent) + [now] else old(sent)
    {
      steps := steps + [TickFired(now)];
      assert steps[..|steps| - 1] == old(steps);
      var since := now - wired - lastPass;
      if since > stale {
        return;
      }
      sent := sent + [now];
    }

    /** The ticks that come between one thing the loop does and the next. */
    method Fire(ticks: seq<Time>)
      requires Valid() && Enabled()
      modifies this
      ensures Valid() && steps == old(steps) + TickSteps(ticks)
    {
      for i := 0 to |ticks|
        invariant Valid() && steps == old(steps) + TickSteps(ticks[..i])
      {
        Tick(ticks[i]);
        assert TickSteps(ticks[..i + 1]) == TickSteps(ticks[..i]) + [TickFired(ticks[i])];
      }
      assert ticks[..|ticks|] == ticks;
    }
  }

  function TickSteps(ticks: seq<Time>): (r: seq<Step>)
    ensures |r| == |ticks|
  {
    seq(|ticks|, i requires 0 <= i < |ticks| => TickFired(ticks[i]))
  }

  lemma {:induction false} TicksAreNotPasses(steps: seq<Step>, ticks: seq<Time>)
    ensures PassesIn(steps + TickSteps(ticks)) == PassesIn(steps)
  {
    if ticks == [] {
      assert steps + TickSteps(ticks) == steps;
    } else {
      var n := |ticks| - 1;
      assert (steps + TickSteps(ticks))[..|steps| + n] == steps + TickSteps(ticks[..n]);
      TicksAreNotPasses(steps, ticks[..n]);
    }
  }

  /** In an interleaving ordered by time, every pass done by the time of a tick is recorded when it fires. */
  predicate InOrder(steps: seq<Step>) {
    && (forall i, j :: 0 <= i < j < |steps| ==> steps[i].at <= steps[j].at)
    && forall i, j :: 0 <= i < j < |steps| && steps[i].TickFired? && steps[j].PassDone? ==> steps[i].at < steps[j].at
  }

  lemma {:induction false} HeldIsLastRecorded(w: Wiring, steps: seq<Step>, i: nat, t: Time)
    requires InOrder(steps) && i < |steps| && steps[i] == TickFired(t)
    ensures HeldAt(w, PassesIn(steps), t) == LastPass(w, PassesIn(steps[..i]))
    decreases |steps|
  {
    var n := |steps| - 1;
    if i < n {
      assert steps[..n][..i] == steps[..i];
      HeldIsLastRecorded(w, steps[..n], i, t);
      if steps[n].PassDone? {
        assert (PassesIn(steps[..n]) + [steps[n].at])[..|PassesIn(steps[..n])|] == PassesIn(steps[..n]);
      }
    } else {
      PassesAreEarlier(steps[..n], t);
    }
  }

  lemma {:induction false} PassesAreEarlier(steps: seq<Step>, t: Time)
    requires forall i :: 0 <= i < |steps| ==> steps[i].at <= t
    ensures PassesIn(steps) != [] ==> PassesIn(steps)[|PassesIn(steps)| - 1] <= t
  {
    if steps != [] {
      PassesAreEarlier(steps[..|steps| - 1], t);
    }
  }

  function TicksIn(steps: seq<Step>): seq<Time> {
    if steps == [] then []
    else
      var n := |steps| - 1;
      if steps[n].TickFired? then TicksIn(steps[..n]) + [steps[n].at] else TicksIn(steps[..n])
  }

  lemma {:induction false} FiredTicks(steps: seq<Step>, ticks: seq<Time>)
    ensures TicksIn(steps + TickSteps(ticks)) == TicksIn(steps) + ticks
  {
    if ticks == [] {
      assert steps + TickSteps(ticks) == steps;
    } else {
      var n := |ticks| - 1;
      assert (steps + TickSteps(ticks))[..|steps| + n] == steps + TickSteps(ticks[..n]);
      FiredTicks(steps, ticks[..n]);
      assert ticks == ticks[..n] + [ticks[n]];
    }
  }

  function TickTimes(w: Wiring, m: nat): (r: seq<Time>)
    ensures |r| == m
  {
    if m == 0 then [] else TickTimes(w, m - 1) + [w.TickTime(m)]
  }

  /** Those of the first `m` ticks that the timed model says are sent. */
  function SentTimes(w: Wiring, passes: seq<Time>, m: nat): seq<Time> {
    if m == 0 then []
    else SentTimes(w, passes, m - 1) + if SentAt(w, passes, m) then [w.TickTime(m)] else []
  }

  /** The keep-alives the object sends, over a whole ordered interleaving, are the ones of the timed model. */
  lemma {:induction false} AliveIsOnSchedule(w: Wiring, steps: seq<Step>, m: nat)
    requires InOrder(steps) && TicksIn(steps) == TickTimes(w, m)
    ensures SentBy(w.wired, w.Stale(), steps) == SentTimes(w, PassesIn(steps), m)
  {
    assert steps[..|steps|] == steps;
    OnScheduleSoFar(w, steps, |steps|, m);
  }

  lemma {:induction false} OnScheduleSoFar(w: Wiring, steps: seq<Step>, i: nat, m: nat)
    requires InOrder(steps) && i <= |steps| && TicksIn(steps[..i]) == TickTimes(w, m)
    ensures SentBy(w.wired, w.Stale(), steps[..i]) == SentTimes(w, PassesIn(steps), m)
  {
    hide SentAt, InOrder;
    if i > 0 {
      assert steps[..i][..i - 1] == steps[..i - 1];
      if steps[i - 1].TickFired? {
        var front := TicksIn(steps[..i - 1]);
        assert m > 0 && (front + [steps[i - 1].at])[m - 1] == w.TickTime(m);
        assert front == (front + [steps[i - 1].at])[..m - 1] == TickTimes(w, m)[..m - 1] == TickTimes(w, m - 1);
        OnScheduleSoFar(w, steps, i - 1, m - 1);
        InterleavingSendsOnTime(w, steps, m, i - 1);
      } else {
        OnScheduleSoFar(w, steps, i - 1, m);
      }
    } else {
      assert m == 0;
    }
  }

  /** Under any interleaving ordered by time, the object sends a tick exactly when the timed model says so. */
  lemma {:induction false} InterleavingSendsOnTime(w: Wiring, steps: seq<Step>, k: nat, i: nat)
    requires InOrder(steps) && i < |steps| && k >= 1 && steps[i] == TickFired(w.TickTime(k))
    ensures SentBy(w.wired, w.Stale(), steps[..i + 1])
         == SentBy(w.wired, w.Stale(), steps[..i]) + if SentAt(w, PassesIn(steps), k) then [w.TickTime(k)] else []
  {
    HeldIsLastRecorded(w, steps, i, w.TickTime(k));
    assert steps[..i + 1][..i] == steps[..i];
    assert SentBy(w.wired, w.Stale(), steps[..i]) + [] == SentBy(w.wired, w.Stale(), steps[..i]);
    hide InOrder, HeldAt;
  }
}

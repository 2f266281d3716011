/** What the exit code says about a whole run, and which response follows from it. */
module ExitProtocol {
  import opened Guarding
  import opened Hwmon
  import opened Rounding
  import opened Service
  import opened Units
  import opened Watchdog
  import FailureKind

  /** The last pass of `passes` trips, and none before it does. */
  ghost predicate EndsInFirstTrip(passes: seq<Pass>, max: MilliCelsius, retries: int) {
    && passes != []
    && VerdictOn(passes, max, retries) == Trip
    && forall i: nat :: i < |passes| - 1 ==> VerdictAt(passes, i, max, retries) != Trip
  }

  lemma {:induction false} VerdictOfPrefix(passes: seq<Pass>, n: nat, i: nat, max: MilliCelsius, retries: int)
    requires i < n <= |passes|
    ensures VerdictAt(passes[..n], i, max, retries) == VerdictAt(passes, i, max, retries)
    ensures i == n - 1 ==> VerdictOn(passes[..n], max, retries) == VerdictAt(passes, i, max, retries)
  {
    hide VerdictOn;
    assert passes[..n][..i + 1] == passes[..i + 1];
  }

  predicate NoTripIn(passes: seq<Pass>, max: MilliCelsius, retries: int) {
    forall i: nat :: i < |passes| ==> VerdictAt(passes, i, max, retries) != Trip
  }

  /** The stop asked for after the last of `passes` ended the loop, and no trip or earlier stop did. */
  predicate EndsInFirstStop(turns: seq<Turn>, passes: seq<Pass>, max: MilliCelsius, retries: int) {
    && 0 < |passes| <= |turns|
    && NoTripIn(passes, max, retries)
    && turns[|passes| - 1].stop
    && forall i :: 0 <= i < |passes| - 1 ==> !turns[i].stop
  }

  /** The loop has taken every turn, and nothing has ended it. */
  predicate IsStillGoing(turns: seq<Turn>, passes: seq<Pass>, max: MilliCelsius, retries: int) {
    |passes| == |turns| && NoTripIn(passes, max, retries) && forall i :: 0 <= i < |turns| ==> !turns[i].stop
  }

  lemma {:induction false} LoopExit(u: FloatUnit, s: Settings, turns: seq<Turn>, passes: seq<Pass>, exit: Exit)
    requires LoopEndsAs(u, s, turns, passes, exit)
    ensures exit == Code(1) <==> EndsInFirstTrip(passes, s.max, s.readRetries)
    ensures exit == Code(0) <==> EndsInFirstStop(turns, passes, s.max, s.readRetries)
    ensures exit == NotYet <==> IsStillGoing(turns, passes, s.max, s.readRetries)
    ensures exit == Code(0) || exit == Code(1) || exit == NotYet
    ensures |passes| <= |turns| && passes == Passes(u, s, turns)[..|passes|]
  {
    hide VerdictAt, VerdictOn, PassOf;
    var all := Passes(u, s, turns);
    var outcome, n: nat :| EndsAt(all, Stops(turns), s.max, s.readRetries, n, outcome)
                           && exit == ExitAfter(outcome) && passes == all[..n];
    forall i: nat | i < n
      ensures VerdictAt(passes, i, s.max, s.readRetries) == VerdictAt(all, i, s.max, s.readRetries)
      ensures i == n - 1 ==> VerdictOn(passes, s.max, s.readRetries) == VerdictAt(all, i, s.max, s.readRetries)
    {
      VerdictOfPrefix(all, n, i, s.max, s.readRetries);
    }
    forall i | 0 <= i < |turns|
      ensures Stops(turns)[i] == turns[i].stop
    {
    }
  }

  predicate IsSuspendedWake(o: Options, w: Wake) {
    w.TickWith? && Present(o.disablePath, w.disableStat)
  }

  /** How many wake-ups the suspended loop sleeps through. */
  function Slept(o: Options, wakes: seq<Wake>): (k: nat)
    ensures k <= |wakes|
  {
    if wakes == [] || !IsSuspendedWake(o, wakes[0]) then 0 else 1 + Slept(o, wakes[1..])
  }

  lemma {:induction false} SleptThrough(o: Options, wakes: seq<Wake>)
    ensures forall i :: 0 <= i < Slept(o, wakes) ==> IsSuspendedWake(o, wakes[i])
    ensures Slept(o, wakes) < |wakes| ==> !IsSuspendedWake(o, wakes[Slept(o, wakes)])
  {
    hide IsSuspendedWake;
    if wakes != [] && IsSuspendedWake(o, wakes[0]) {
      SleptThrough(o, wakes[1..]);
      assert forall i :: 1 <= i < |wakes| ==> wakes[i] == wakes[1..][i - 1];
    }
  }

  /** A stop ended the wait for the disable file to go, directly or by the time the node turned out unarmable. */
  ghost predicate StopEndedTheWait(u: FloatUnit, o: Options, env: Env) {
    var k := Slept(o, env.wakes);
    && !CanArm(u, o, env.node)
    && Present(o.disablePath, env.disableStat)
    && k < |env.wakes|
    && (env.wakes[k].StopAsked? || (env.stopped && !CanArm(u, o, env.wakes[k].node)))
  }

  /** The first wake-up that is not suspended ends the wait, and decides how. */
  lemma {:induction false} WaitEndsAfterSleep(u: FloatUnit, o: Options, wakes: seq<Wake>, m: nat, v: Waited)
    requires WaitEndsAt(u, o, wakes, m, v)
    ensures var k := Slept(o, wakes);
            && (v.StillSuspended? <==> k == |wakes|)
            && (!v.StillSuspended? ==>
                  && m == k + 1
                  && (v.Interrupted? <==> wakes[k].StopAsked?)
                  && (v.Refused? <==> wakes[k].TickWith? && !CanArm(u, o, wakes[k].node)))
  {
    hide CanArm, IsArmed;
    SleptThrough(o, wakes);
    if v.Resumed? {
      ResumedWasArmable(u, o, wakes[m - 1].node, v.settings);
    }
    if !v.StillSuspended? {
      assert forall i :: 0 <= i < m - 1 ==> wakes[..m - 1][i] == wakes[i];
      assert forall i :: 0 <= i < m - 1 ==> IsSuspendedWake(o, wakes[i]);
      assert !IsSuspendedWake(o, wakes[m - 1]);
    }
  }

  lemma {:induction false} ResumedWasArmable(u: FloatUnit, o: Options, n: Node, s: Settings)
    requires IsArmed(u, o, n, s)
    ensures CanArm(u, o, n)
  {
    hide CanArm;
  }

  lemma {:induction false} StoppedFirstIsAStop(u: FloatUnit, o: Options, env: Env, s: Start)
    requires StartsAs(u, o, env, s)
    ensures s.StoppedFirst? <==> StopEndedTheWait(u, o, env)
  {
    hide CanArm, IsArmed, Slept, WaitEndsAt, Present;
    if !CanArm(u, o, env.node) && Present(o.disablePath, env.disableStat) {
      var m, v :| WaitEndsAt(u, o, env.wakes, m, v) && s == StartAfter(v, env.stopped);
      WaitEndsAfterSleep(u, o, env.wakes, m, v);
    }
  }

  /**
   The exit code of a service reflects its whole run: 2 exactly if it refused to start, and then without
   a single pass; 1 exactly if its loop ended in its first trip; 0 exactly if a stop ended the wait or,
   before any trip, the loop.
   */
  lemma {:induction false} ExitReflectsTheRun(u: FloatUnit, o: Options, env: Env, s: Start, passes: seq<Pass>, exit: Exit)
    requires ServesAs(u, o, env, s, passes, exit)
    ensures exit == Code(2) <==> s.RefusedToStart?
    ensures exit == Code(2) ==> passes == []
    ensures exit == Code(1) <==> s.Armed? && EndsInFirstTrip(passes, s.settings.max, s.settings.readRetries)
    ensures exit == Code(0)
       <==> StopEndedTheWait(u, o, env)
            || (s.Armed? && EndsInFirstStop(env.turns, passes, s.settings.max, s.settings.readRetries))
    ensures exit == NotYet || exit == Code(0) || exit == Code(1) || exit == Code(2)
    ensures exit == NotYet ==> s.Waiting? || s.Armed?
  {
    hide EndsInFirstTrip, EndsInFirstStop, IsStillGoing, LoopEndsAs, StartsAs, StopEndedTheWait;
    StoppedFirstIsAStop(u, o, env, s);
    if s.Armed? {
      LoopExit(u, s.settings, env.turns, passes, exit);
    }
  }

  /**
   A service refuses to start exactly when the node cannot be armed while checking is not suspended: at
   once, or at the first wake-up without the disable file, unless a stop had come by then.
   */
  lemma {:induction false} RefusalMeansUnarmable(u: FloatUnit, o: Options, env: Env, s: Start)
    requires StartsAs(u, o, env, s)
    ensures var k := Slept(o, env.wakes);
            s.RefusedToStart? <==>
              && !CanArm(u, o, env.node)
              && (!Present(o.disablePath, env.disableStat)
                  || (k < |env.wakes| && env.wakes[k].TickWith? && !Present(o.disablePath, env.wakes[k].disableStat)
                      && !CanArm(u, o, env.wakes[k].node) && !env.stopped))
  {
    hide CanArm, IsArmed, Slept, WaitEndsAt;
    SleptThrough(o, env.wakes);
    if !CanArm(u, o, env.node) && Present(o.disablePath, env.disableStat) {
      var m, v :| WaitEndsAt(u, o, env.wakes, m, v) && s == StartAfter(v, env.stopped);
      WaitEndsAfterSleep(u, o, env.wakes, m, v);
    }
  }

  // ----- the disable file outranks everything

  /** The disable file is there whenever it is looked for. */
  predicate AlwaysDisabled(o: Options, env: Env) {
    && Present(o.disablePath, env.disableStat)
    && (forall i :: 0 <= i < |env.wakes| && env.wakes[i].TickWith? ==> Present(o.disablePath, env.wakes[i].disableStat))
    && (forall i :: 0 <= i < |env.turns| ==> Present(o.disablePath, env.turns[i].seen.disableStat))
  }

  lemma {:induction false} SuspendedHistoryNeverTrips(passes: seq<Pass>, max: MilliCelsius, retries: int)
    requires forall i :: 0 <= i < |passes| ==> passes[i].Suspended?
    ensures !EndsInFirstTrip(passes, max, retries)
  {
  }

  /** While the disable file is present no run fails, whatever the node, its table and its sensors. */
  lemma {:induction false} DisableFileOutranksAll(u: FloatUnit, o: Options, env: Env, s: Start, passes: seq<Pass>, exit: Exit)
    requires ServesAs(u, o, env, s, passes, exit) && AlwaysDisabled(o, env)
    ensures exit == Code(0) || exit == NotYet
    ensures forall i :: 0 <= i < |passes| ==> passes[i].Suspended?
  {
    hide EndsInFirstTrip, LoopEndsAs, CanArm, IsArmed;
    ExitReflectsTheRun(u, o, env, s, passes, exit);
    if s.Armed? {
      ArmedSettingsAreValid(u, o, env, s);
      LoopExit(u, s.settings, env.turns, passes, exit);
      forall i | 0 <= i < |passes|
        ensures passes[i].Suspended?
      {
        assert passes[i] == PassOf(u, s.settings, env.turns[i].seen);
      }
      SuspendedHistoryNeverTrips(passes, s.settings.max, s.settings.readRetries);
    } else {
      RefusalMeansUnarmable(u, o, env, s);
    }
  }

  // ----- the response

  /** How the process of a run ends: with its exit code, or killed or dumped at a point it had reached. */
  predicate EndsAsEnding(exit: Exit, e: FailureKind.Ending) {
    match exit
    case Code(code) => e == FailureKind.Exited(code)
    case NotYet => e.Killed? || e.Dumped?
  }

  /**
   For every ending of every run, and however each of the two classifier runs is told of it: the node is
   drained exactly when the service refused to start, and so only when no pass was ever taken; it is
   stopped exactly when the loop ended in its first trip or the process was dumped or killed by a signal
   that is no clean end, after any number of passes; and nothing is done exactly after a clean stop or
   such a signal. The script exits 0 for the response that is due and 1 for the other.
   */
  lemma {:induction false} ResponseFollowsTheRun(u: FloatUnit, o: Options, env: Env, s: Start, passes: seq<Pass>, exit: Exit,
                                                 e: FailureKind.Ending, clean: set<nat>,
                                                 drainEnv: FailureKind.Env, stopEnv: FailureKind.Env)
    requires ServesAs(u, o, env, s, passes, exit) && EndsAsEnding(exit, e)
    requires FailureKind.Tells(drainEnv, e) && FailureKind.Tells(stopEnv, e)
    ensures FailureKind.IsDrained(e, clean, drainEnv) <==> s.RefusedToStart?
    ensures FailureKind.IsDrained(e, clean, drainEnv) ==> passes == []
    ensures FailureKind.IsStopped(e, clean, stopEnv) <==>
      || (s.Armed? && EndsInFirstTrip(passes, s.settings.max, s.settings.readRetries))
      || e.Dumped? || (e.Killed? && e.signal !in clean)
    ensures !FailureKind.IsDrained(e, clean, drainEnv) && !FailureKind.IsStopped(e, clean, stopEnv) <==>
      || StopEndedTheWait(u, o, env)
      || (s.Armed? && EndsInFirstStop(env.turns, passes, s.settings.max, s.settings.readRetries))
      || (e.Killed? && e.signal in clean)
    ensures FailureKind.ScriptExit(drainEnv, "unarmed") == (if s.RefusedToStart? then 0 else 1)
    ensures FailureKind.ScriptExit(stopEnv, "armed") == (if s.RefusedToStart? then 1 else 0)
  {
    hide StartsAs, LoopEndsAs, EndsInFirstTrip, StopEndedTheWait, EndsInFirstStop;
    ExitReflectsTheRun(u, o, env, s, passes, exit);
    FailureKind.BothPathsAgree(drainEnv, e);
    FailureKind.BothPathsAgree(stopEnv, e);
  }

  // ----- a wedged run

  /** `w` is the watchdog of this armed run, and its ticks are the ones the run met, in order of time. */
  ghost predicate IsWatchdogOf(w: Wiring, o: Options, every: Time, env: Env, told: Told) {
    && w.wired == env.wired && w.every == every && w.interval == o.interval
    && w.Prompt()
    && InOrder(told.steps)
    && TicksIn(told.steps) == TickTimes(w, |TicksIn(told.steps)|)
  }

  /** The watchdog knows of every pass of the run, and what it sent is what the timed model says. */
  lemma {:induction false} WatchdogFollowsTheRun(u: FloatUnit, o: Options, every: Time, limit: string, env: Env, s: Start,
                                                 passes: seq<Pass>, exit: Exit, told: Told, w: Wiring)
    requires StartsAs(u, o, env, s) && s.Armed?
    requires LoopTells(u, s.settings, every, limit, env, |passes|, exit, told)
    requires IsWatchdogOf(w, o, every, env, told)
    ensures PassesIn(told.steps) == DoneTimes(env.turns[..|passes|]) && |PassesIn(told.steps)| == |passes|
    ensures TicksIn(told.steps) == TicksOf(env.turns[..|passes|]) + if exit == NotYet then env.lateTicks else []
    ensures told.alive == SentTimes(w, PassesIn(told.steps), |TicksIn(told.steps)|)
  {
    hide StartsAs, SentBy, SentTimes, InOrder, TicksIn, TickTimes, TicksOf, StepsOfRun, PassesIn, Reflects, Dedup, Lines;
    ArmedSettingsAreValid(u, o, env, s);
    EveryPassIsRecorded(every, env, |passes|, exit);
    AliveIsOnSchedule(w, told.steps, |TicksIn(told.steps)|);
  }

  /**
   A run that was alive at its last pass and wedges there is killed within the window after it, on the
   strength of the keep-alives it really sent, and however the two classifier runs are told of that kill,
   the node gets the emergency stop and not the drain.
   */
  lemma {:induction false} WedgedRunIsStopped(u: FloatUnit, o: Options, every: Time, limit: string, env: Env, s: Start,
                                              passes: seq<Pass>, told: Told, w: Wiring,
                                              e: FailureKind.Ending, clean: set<nat>,
                                              drainEnv: FailureKind.Env, stopEnv: FailureKind.Env)
    returns (killed: Time)
    requires ServesAs(u, o, env, s, passes, NotYet) && s.Armed?
    requires LoopTells(u, s.settings, every, limit, env, |passes|, NotYet, told)
    requires IsWatchdogOf(w, o, every, env, told)
    requires var recorded := DoneTimes(env.turns);
             Chronological(w, recorded) && SurvivesUntil(w, recorded, LastPass(w, recorded))
    requires e.Dumped? || (e.Killed? && e.signal !in clean)
    requires FailureKind.Tells(drainEnv, e) && FailureKind.Tells(stopEnv, e)
    ensures var recorded := DoneTimes(env.turns);
            && PassesIn(told.steps) == recorded
            && told.alive == SentTimes(w, recorded, |TicksIn(told.steps)|)
            && KilledAt(w, recorded, killed)
            && var stale := if o.interval < every then 2 * every else 2 * o.interval;
               LastPass(w, recorded) + stale + every < killed <= LastPass(w, recorded) + stale + 2 * every
    ensures FailureKind.IsStopped(e, clean, stopEnv) && !FailureKind.IsDrained(e, clean, drainEnv)
  {
    hide StartsAs, LoopEndsAs, LoopTells, IsWatchdogOf, Chronological, SurvivesUntil, KilledAt, KillTime, SentTimes, TicksIn,
         PassesIn, EndsInFirstTrip, IsStillGoing;
    LoopExit(u, s.settings, env.turns, passes, NotYet);
    AllTurnsTaken(env.turns, passes, s.settings.max, s.settings.readRetries);
    WatchdogFollowsTheRun(u, o, every, limit, env, s, passes, NotYet, told, w);
    WatchdogIsPrompt(w, o, every, env, told);
    WedgedLoopIsKilled(w, DoneTimes(env.turns));
    killed := KillTime(w, DoneTimes(env.turns));
    ResponseFollowsTheRun(u, o, env, s, passes, NotYet, e, clean, drainEnv, stopEnv);
  }

  lemma {:induction false} AllTurnsTaken(turns: seq<Turn>, passes: seq<Pass>, max: MilliCelsius, retries: int)
    requires IsStillGoing(turns, passes, max, retries)
    ensures turns[..|passes|] == turns
  {
  }

  lemma {:induction false} WatchdogIsPrompt(w: Wiring, o: Options, every: Time, env: Env, told: Told)
    requires IsWatchdogOf(w, o, every, env, told)
    ensures w.Prompt() && w.interval == o.interval && w.every == every
  {
  }

  // ----- one-shot modes

  /**
   The command in any mode. A one-shot check has no retry budget to spend: any failed reading is a
   failure there.
   */
  method Command(u: FloatUnit, o: Options, mode: Mode, every: Time, limit: string, env: Env, once: Observation)
    returns (exit: Exit, ghost s: Start, ghost passes: seq<Pass>)
    ensures o.interval <= 0 || o.readRetries < 0 ==> exit == Code(2) && passes == []
    ensures o.interval > 0 && o.readRetries >= 0 && mode == List ==>
      exit == if o.classDir in env.node.tree.entries then Code(0) else Code(2)
    ensures o.interval > 0 && o.readRetries >= 0 && mode == CheckOnce ==>
      if s.Armed? then
        && IsArmed(u, o, env.node, s.settings)
        && var pass := PassOf(u, s.settings, once);
           exit == if pass.Failed? || (pass.Took? && pass.reading > s.settings.max) then Code(1) else Code(0)
      else
        && !CanArm(u, o, env.node)
        && exit == if o.disablePath != "" && env.disableStat then Code(0) else Code(2)
    ensures o.interval > 0 && o.readRetries >= 0 && mode == Serve ==> ServesAs(u, o, env, s, passes, exit)
  {
    hide CanArm, IsArmed, PassOf, StartsAs, LoopEndsAs, SourceOf;
    s, passes := Waiting, [];
    if o.interval <= 0 || o.readRetries < 0 {
      return Code(EXIT_CONFIG), s, passes;
    }
    match mode {
      case List =>
        var sensors := Discover(env.node.tree, o.classDir);
        exit := if sensors.None? then Code(EXIT_CONFIG) else Code(EXIT_OK);
      case CheckOnce =>
        var armed := Arm(u, o, env.node);
        if armed.Err? {
          exit := if Present(o.disablePath, env.disableStat) then Code(EXIT_OK) else Code(EXIT_CONFIG);
        } else {
          s := Armed(armed.value);
          ArmedFlags(u, o, env.node, armed.value);
          var guard := new Guard(armed.value);
          var r := guard.Check(u, once);
          VerdictByCounter([], PassOf(u, armed.value, once), armed.value.max, armed.value.readRetries);
          exit := if r.verdict == Trip || r.verdict == Tolerated then Code(EXIT_TRIPPED) else Code(EXIT_OK);
        }
      case Serve =>
        ghost var effects: seq<Effect>;
        ghost var told: Told;
        exit, effects, s, told := ServeNode(u, o, every, limit, env);
        passes := ChecksIn(effects);
    }
  }

  lemma {:induction false} ArmedFlags(u: FloatUnit, o: Options, n: Node, s: Settings)
    requires IsArmed(u, o, n, s)
    ensures s.interval == o.interval && s.readRetries == o.readRetries
  {
    hide CanArm;
  }
}

/**
 The classifier that decides which of the two failure responses a finished service gets. It runs twice,
 once for each response, and each run looks at an environment of its own.
 */
module FailureKind {
  import opened Numerals
  import opened Wrappers

  /** How the service's main process ended, if it ever ran. */
  datatype Ending =
    | Exited(status: nat)
    | Killed(signal: nat)
    | Dumped(signal: nat)
    | NeverRan

  /** The variables systemd sets, empty when unset, and what `systemctl show` prints, if it succeeds. */
  datatype Env = Env(monitorCode: string, monitorStatus: string, showCode: Option<string>, showStatus: Option<string>)

  const CONDITION_MET: nat := 0
  const CONDITION_NOT_MET: nat := 1
  const USAGE_ERROR: nat := 255

  function OrEmpty(s: Option<string>): string {
    match s
    case None => ""
    case Some(v) => v
  }

  /** The exit code and status a run of the script settles on. */
  function Settled(env: Env): (string, string) {
    if env.monitorCode != "" then (env.monitorCode, env.monitorStatus)
    else
      var code := OrEmpty(env.showCode);
      (if code == "1" then "exited" else if code == "2" then "killed" else if code == "3" then "dumped" else "",
       OrEmpty(env.showStatus))
  }

  predicate IsUnarmed(env: Env) {
    Settled(env) == ("exited", "2")
  }

  /** The exit status the script is meant to have. */
  function ScriptExit(env: Env, argument: string): nat {
    if argument == "unarmed" then (if IsUnarmed(env) then 0 else 1)
    else if argument == "armed" then (if IsUnarmed(env) then 1 else 0)
    else 255
  }

  /** One run of the script. */
  method Classify(env: Env, argument: string) returns (exit: nat)
    ensures exit == ScriptExit(env, argument)
  {
    var code := env.monitorCode;
    var status := env.monitorStatus;
    if code == "" {
      code := OrEmpty(env.showCode);
      status := OrEmpty(env.showStatus);
      if code == "1" {
        code := "exited";
      } else if code == "2" {
        code := "killed";
      } else if code == "3" {
        code := "dumped";
      } else {
        code := "";
      }
    }
    var kind := "armed";
    if code == "exited" && status == "2" {
      kind := "unarmed";
    }
    if argument == "unarmed" {
      return if kind == "unarmed" then CONDITION_MET else CONDITION_NOT_MET;
    }
    if argument == "armed" {
      return if kind == "armed" then CONDITION_MET else CONDITION_NOT_MET;
    }
    return USAGE_ERROR;
  }

  /** What systemd does with a unit whose `ExecCondition=` exited like this. */
  datatype Condition = Runs | Skipped | FailsUnit

  function ConditionOf(exit: nat): Condition {
    if exit == 0 then Runs else if exit < 255 then Skipped else FailsUnit
  }

  /** The condition of the drain and the condition of the emergency stop, each run in what it finds. */
  method Respond(drainEnv: Env, stopEnv: Env) returns (drain: bool, stop: bool)
    ensures drain <==> SeesExitTwo(drainEnv)
    ensures stop <==> !SeesExitTwo(stopEnv)
  {
    ConditionsOfARun(drainEnv);
    ConditionsOfARun(stopEnv);
    var d := Classify(drainEnv, "unarmed");
    var s := Classify(stopEnv, "armed");
    drain, stop := ConditionOf(d) == Runs, ConditionOf(s) == Runs;
  }

  predicate Drains(drainEnv: Env) {
    ConditionOf(ScriptExit(drainEnv, "unarmed")) == Runs
  }

  predicate Stops(stopEnv: Env) {
    ConditionOf(ScriptExit(stopEnv, "armed")) == Runs
  }

  /** The variables a run goes by: those systemd set when it set them, and else what `show` printed. */
  predicate SeesExitTwo(env: Env) {
    || (env.monitorCode == "exited" && env.monitorStatus == "2")
    || (env.monitorCode == "" && env.showCode == Some("1") && env.showStatus == Some("2"))
  }

  /**
   A run that sees an exit 2 meets the drain's condition and skips the stop, and any other does the reverse;
   only a wrong argument fails the unit.
   */
  lemma {:induction false} ConditionsOfARun(env: Env)
    ensures ConditionOf(ScriptExit(env, "unarmed")) == if SeesExitTwo(env) then Runs else Skipped
    ensures ConditionOf(ScriptExit(env, "armed")) == if SeesExitTwo(env) then Skipped else Runs
    ensures forall argument ::
      argument != "armed" && argument != "unarmed" ==> ConditionOf(ScriptExit(env, argument)) == FailsUnit
  {
  }

  // ----- whether there is a failure to respond to

  /** The unit has failed, unless its process exited 0 or died of a signal that counts as a clean end. */
  predicate UnitFailed(e: Ending, clean: set<nat>) {
    match e
    case Exited(status) => status != 0
    case Killed(signal) => signal !in clean
    case Dumped(_) => true
    case NeverRan => true
  }

  /** The drain is carried out: the unit has failed, and the drain's own condition is met. */
  predicate IsDrained(e: Ending, clean: set<nat>, drainEnv: Env) {
    UnitFailed(e, clean) && Drains(drainEnv)
  }

  predicate IsStopped(e: Ending, clean: set<nat>, stopEnv: Env) {
    UnitFailed(e, clean) && Stops(stopEnv)
  }

  // ----- the two ways an ending is told

  /** `MONITOR_EXIT_CODE` spells the code out, and the status of a signal is its name, whatever that is. */
  predicate MonitorTells(env: Env, e: Ending) {
    match e
    case Exited(status) => env.monitorCode == "exited" && env.monitorStatus == Print(status, 10)
    case Killed(_) => env.monitorCode == "killed"
    case Dumped(_) => env.monitorCode == "dumped"
    case NeverRan => env.monitorCode == "" && OrEmpty(env.showCode) !in {"1", "2", "3"}
  }

  /** `systemctl show` prints the raw `si_code`, and the status of a signal is its number. */
  predicate ShowTells(env: Env, e: Ending) {
    && env.monitorCode == ""
    && match e
       case Exited(status) => env.showCode == Some("1") && env.showStatus == Some(Print(status, 10))
       case Killed(signal) => env.showCode == Some("2") && env.showStatus == Some(Print(signal, 10))
       case Dumped(signal) => env.showCode == Some("3") && env.showStatus == Some(Print(signal, 10))
       case NeverRan => OrEmpty(env.showCode) !in {"1", "2", "3"}
  }

  predicate Tells(env: Env, e: Ending) {
    MonitorTells(env, e) || ShowTells(env, e)
  }

  lemma {:induction false} OnlyTwoPrintsTwo(n: nat)
    ensures Print(n, 10) == "2" <==> n == 2
  {
    DigitsOfPrint(n, 10);
    DigitsOfPrint(2, 10);
    assert Print(2, 10) == "2";
  }

  /**
   Both ways classify every ending alike: the drain is for a normal exit with status 2 and for nothing
   else, a signal numbered 2 included.
   */
  lemma {:induction false} BothPathsAgree(env: Env, e: Ending)
    requires Tells(env, e)
    ensures IsUnarmed(env) <==> e == Exited(2)
  {
    if e.Exited? {
      OnlyTwoPrintsTwo(e.status);
    }
  }

  // ----- the two runs together

  /** Told the same ending, by whichever path each, the two runs admit exactly one response: the drain for status 2. */
  lemma {:induction false} OneEndingOneResponse(drainEnv: Env, stopEnv: Env, e: Ending)
    requires Tells(drainEnv, e) && Tells(stopEnv, e)
    ensures Drains(drainEnv) <==> !Stops(stopEnv)
    ensures Drains(drainEnv) <==> e == Exited(2)
  {
    BothPathsAgree(drainEnv, e);
    BothPathsAgree(stopEnv, e);
  }

  /**
   Over any two environments there is exactly one response when both runs see an exit 2 or neither does,
   none when only the stop's run does, and both when only the drain's does.
   */
  lemma {:induction false} ResponsesOfTwoRuns(drainEnv: Env, stopEnv: Env)
    ensures (Drains(drainEnv) <==> !Stops(stopEnv)) <==> (SeesExitTwo(drainEnv) <==> SeesExitTwo(stopEnv))
    ensures !Drains(drainEnv) && !Stops(stopEnv) <==> !SeesExitTwo(drainEnv) && SeesExitTwo(stopEnv)
    ensures Drains(drainEnv) && Stops(stopEnv) <==> SeesExitTwo(drainEnv) && !SeesExitTwo(stopEnv)
  {
  }

  /** systemd gives both units the same variables; when it sets them there is exactly one response. */
  lemma {:induction false} SameMonitorOneResponse(drainEnv: Env, stopEnv: Env)
    requires drainEnv.monitorCode == stopEnv.monitorCode != "" && drainEnv.monitorStatus == stopEnv.monitorStatus
    ensures Drains(drainEnv) <==> !Stops(stopEnv)
  {
    ResponsesOfTwoRuns(drainEnv, stopEnv);
  }

  /** `systemctl show` fails altogether. */
  const UNINFORMED: Env := Env("", "", None, None)

  /** `systemctl show` prints the exit with status 2. */
  const SHOWN_EXIT_TWO: Env := Env("", "", Some("1"), Some("2"))

  /** On the fallback path an exit 2 gets no response if `show` fails for the drain and succeeds for the stop. */
  lemma {:induction false} ExitTwoWithoutResponse()
    ensures ShowTells(SHOWN_EXIT_TWO, Exited(2))
    ensures !Drains(UNINFORMED) && !Stops(SHOWN_EXIT_TWO)
  {
    OnlyTwoPrintsTwo(2);
  }

  /** The other way round it gets both. */
  lemma {:induction false} ExitTwoWithBothResponses()
    ensures ShowTells(SHOWN_EXIT_TWO, Exited(2))
    ensures Drains(SHOWN_EXIT_TWO) && Stops(UNINFORMED)
  {
    OnlyTwoPrintsTwo(2);
  }

  /** A run that can learn nothing at all takes the guard to have been armed. */
  lemma {:induction false} NothingKnownIsArmed(env: Env)
    requires env.monitorCode == "" && env.showCode == None
    ensures !Drains(env) && Stops(env)
  {
  }

  /**
   So with both runs uninformed the emergency stop is the one response; with one of them informed of an
   ending, there is exactly one response unless that ending was an exit 2.
   */
  lemma {:induction false} OneRunUninformed(uninformed: Env, informed: Env, e: Ending)
    requires uninformed.monitorCode == "" && uninformed.showCode == None && Tells(informed, e)
    ensures !Drains(uninformed) && Stops(uninformed)
    ensures (Drains(informed) <==> !Stops(uninformed)) <==> e != Exited(2)
    ensures (Drains(uninformed) <==> !Stops(informed)) <==> e != Exited(2)
  {
    NothingKnownIsArmed(uninformed);
    BothPathsAgree(informed, e);
  }
}

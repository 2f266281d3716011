/** The command from validated flags to its exit code: arming, waiting while suspended, and the check loop. */
module Service {
  import opened BoardLaws
  import opened BoardParser
  import opened BoardTable
  import opened ChipNames
  import opened Guarding
  import opened Hwmon
  import opened Rounding
  import opened Selection
  import opened Sysfs
  import opened Text
  import opened Watchdog
  import opened Wrappers

  datatype Options = Options(
    classDir: Path,
    disablePath: string,
    overridePath: string,
    interval: int,
    readRetries: int)

  /** What arming reads: the hwmon tree, the board table with whether reading it broke off, and the board name. */
  datatype Node = Node(tree: Tree, table: Option<seq<string>>, tableBroken: bool, boardName: Option<string>)

  datatype ArmError =
    | NoClass
    | NoSensors
    | NoTable
    | BadTable(why: ParseError)
    | NoBoardName
    | UnknownBoard
    | NotSelected(which: SelectError)

  /** The board a node says it is. */
  function BoardName(n: Node): Option<string> {
    match n.boardName
    case None => None
    case Some(text) => if Trim(text) == "" then None else Some(Trim(text))
  }

  /** The table entry for the node's own board. */
  ghost predicate IsConfigured(u: FloatUnit, n: Node) {
    && n.table.Some? && !n.tableBroken
    && WellFormed(u, Items(n.table.value))
    && BoardName(n).Some?
    && BoardName(n).value in Meaning(u, n.table.value)
  }

  ghost function EntryOf(u: FloatUnit, n: Node): Board
    requires IsConfigured(u, n)
  {
    Meaning(u, n.table.value)[BoardName(n).value]
  }

  /** Some exported sensor is one the entry asks for. */
  ghost predicate HasSensorFor(n: Node, classDir: Path, entry: Board) {
    && classDir in n.tree.entries
    && exists s :: s in AllSensors(n.tree, classDir, n.tree.entries[classDir])
                   && RefersTo(entry.chip, s.chip) && (entry.sensor == "" || GoesBy(s, entry.sensor))
  }

  ghost predicate CanArm(u: FloatUnit, o: Options, n: Node) {
    IsConfigured(u, n) && HasSensorFor(n, o.classDir, EntryOf(u, n))
  }

  /** `s` is a guard the node's table and sensors call for. */
  ghost predicate IsArmed(u: FloatUnit, o: Options, n: Node, s: Settings) {
    && CanArm(u, o, n)
    && (exists found :: IsDiscovery(n.tree, o.classDir, found)
                        && Selected(found, EntryOf(u, n).chip, EntryOf(u, n).sensor) == Ok(s.sensors))
    && s.board == BoardName(n).value
    && s.max == EntryOf(u, n).max
    && s.disablePath == o.disablePath && s.overridePath == o.overridePath
    && s.interval == o.interval && s.readRetries == o.readRetries
  }

  method Arm(u: FloatUnit, o: Options, n: Node) returns (r: Result<Settings, ArmError>)
    ensures r.Ok? <==> CanArm(u, o, n)
    ensures r.Ok? ==> IsArmed(u, o, n, r.value)
  {
    hide WellFormed, Denotation, Diagnoses, OutlineOf, AllSensors, Trim, RefersTo, GoesBy, Sorted;
    var found := Discover(n.tree, o.classDir);
    if found.None? {
      return Err(NoClass);
    }
    var sensors := found.value;
    SelectionNeedsSensors(n, o.classDir, sensors);
    if |sensors| == 0 {
      return Err(NoSensors);
    }
    if n.table.None? {
      return Err(NoTable);
    }
    var table := Parse(u, n.table.value, n.tableBroken);
    if table.Err? {
      return Err(BadTable(table.error));
    }
    var name := BoardName(n);
    if name.None? {
      return Err(NoBoardName);
    }
    var entry := Lookup(table.value, name.value);
    if entry.None? {
      return Err(UnknownBoard);
    }
    EntriesNameChips(u, n.table.value, name.value);
    SelectionSucceeds(n, o.classDir, sensors, entry.value);
    var selected := Select(sensors, entry.value.chip, entry.value.sensor);
    if selected.Err? {
      return Err(NotSelected(selected.error));
    }
    return Ok(Settings(name.value, entry.value.max, selected.value, o.disablePath, o.overridePath, o.interval, o.readRetries));
  }

  lemma {:induction false} SameMembers(a: seq<Sensor>, b: seq<Sensor>, s: Sensor)
    requires multiset(a) == multiset(b)
    ensures s in a <==> s in b
  {
    assert s in a <==> s in multiset(a);
    assert s in b <==> s in multiset(b);
  }

  lemma {:induction false} SelectionNeedsSensors(n: Node, classDir: Path, sensors: seq<Sensor>)
    requires IsDiscovery(n.tree, classDir, sensors)
    ensures forall entry :: HasSensorFor(n, classDir, entry) ==> sensors != []
  {
    hide AllSensors, RefersTo, GoesBy, Sorted;
    forall entry | HasSensorFor(n, classDir, entry)
      ensures sensors != []
    {
      var s :| s in AllSensors(n.tree, classDir, n.tree.entries[classDir])
               && RefersTo(entry.chip, s.chip) && (entry.sensor == "" || GoesBy(s, entry.sensor));
      SameMembers(sensors, AllSensors(n.tree, classDir, n.tree.entries[classDir]), s);
    }
  }

  lemma {:induction false} EntriesNameChips(u: FloatUnit, lines: seq<string>, name: string)
    requires WellFormed(u, Items(lines)) && name in Meaning(u, lines)
    ensures Meaning(u, lines)[name].chip != ""
  {
    hide Classify, EntryOk;
    var sections := OutlineOf(Items(lines)).sections;
    KeysOfDenotation(u, sections);
    var j :| 0 <= j < |sections| && sections[j].name == name;
    DenotationAt(u, sections, j);
    ChipOfOkSection(u, sections[j]);
  }

  lemma {:induction false} SelectionSucceeds(n: Node, classDir: Path, sensors: seq<Sensor>, entry: Board)
    requires IsDiscovery(n.tree, classDir, sensors) && entry.chip != ""
    ensures Selected(sensors, entry.chip, entry.sensor).Ok? <==> HasSensorFor(n, classDir, entry)
  {
    hide AllSensors, RefersTo, GoesBy, Sorted, Selected;
    var all := AllSensors(n.tree, classDir, n.tree.entries[classDir]);
    forall s
      ensures s in sensors <==> s in all
    {
      SameMembers(sensors, all, s);
    }
    NothingSelectedIsAnError(sensors, entry.chip, entry.sensor);
    if s :| s in sensors && RefersTo(entry.chip, s.chip) && (entry.sensor == "" || GoesBy(s, entry.sensor)) {
      assert s in all;
    }
    if s :| s in all && RefersTo(entry.chip, s.chip) && (entry.sensor == "" || GoesBy(s, entry.sensor)) {
      assert s in sensors;
    }
    if Selected(sensors, entry.chip, entry.sensor).Err? {
      var why := Selected(sensors, entry.chip, entry.sensor).error;
      assert why == NoChipConfigured || why == NoSuchChip || why == NoSuchSensor;
    }
  }

  // ----- waiting while the disable file keeps an unarmable node running

  /** One wake-up of the suspended loop: a stop, or a tick with what the loop then finds. */
  datatype Wake = StopAsked | TickWith(disableStat: bool, node: Node)

  datatype Waited = Resumed(settings: Settings) | Refused(why: ArmError) | Interrupted | StillSuspended

  /** The loop is still suspended after every one of these wake-ups. */
  predicate AllSuspended(o: Options, wakes: seq<Wake>) {
    forall i :: 0 <= i < |wakes| ==> wakes[i].TickWith? && Present(o.disablePath, wakes[i].disableStat)
  }

  /** Wake-up `n - 1` is the one that ends the wait, as `w` says. */
  ghost predicate WaitEndsAt(u: FloatUnit, o: Options, wakes: seq<Wake>, n: nat, w: Waited) {
    && n <= |wakes|
    && if w.StillSuspended? then n == |wakes| && AllSuspended(o, wakes)
       else
         && n > 0 && AllSuspended(o, wakes[..n - 1])
         && if w.Interrupted? then wakes[n - 1].StopAsked?
            else
              && wakes[n - 1].TickWith? && !Present(o.disablePath, wakes[n - 1].disableStat)
              && if w.Refused? then !CanArm(u, o, wakes[n - 1].node) else IsArmed(u, o, wakes[n - 1].node, w.settings)
  }

  /**
   Waits for the disable file to go, and arms once it has. A keep-alive goes out at every tick, before
   anything else is looked at.
   */
  method RearmWhenResumed(u: FloatUnit, o: Options, every: Time, wakes: seq<Wake>)
    returns (w: Waited, n: nat, alive: nat)
    requires o.interval > 0
    ensures WaitEndsAt(u, o, wakes, n, w)
    ensures alive == if w.Interrupted? then n - 1 else n
  {
    hide CanArm, IsArmed;
    var period := NewTicker(RearmPeriod(o.interval, every));
    n, alive := 0, 0;
    while n < |wakes|
      invariant n <= |wakes| && alive == n
      invariant AllSuspended(o, wakes[..n])
    {
      var wake := wakes[n];
      n := n + 1;
      if wake.StopAsked? {
        return Interrupted, n, alive;
      }
      alive := alive + 1;
      if Present(o.disablePath, wake.disableStat) {
        continue;
      }
      var armed := Arm(u, o, wake.node);
      if armed.Err? {
        return Refused(armed.error), n, alive;
      }
      return Resumed(armed.value), n, alive;
    }
    assert wakes[..n] == wakes;
    return StillSuspended, n, alive;
  }

  // ----- the whole command

  datatype Mode = List | CheckOnce | Serve

  const EXIT_OK: nat := 0
  const EXIT_TRIPPED: nat := 1
  const EXIT_CONFIG: nat := 2

  datatype Exit = Code(code: nat) | NotYet

  /** What a run did that anything outside it could notice, in order. */
  datatype Effect = Ready(suspended: bool) | Alive | Checked(pass: Pass) | TrippedStatus

  /**
   Everything a run observes: the node at arming and the disable file after it, the wake-ups while
   suspended and whether a stop had come by the time a resumed node turned out unarmable, when the
   watchdog is wired up, the turns of the check loop, and the ticks of the keep-alive that come after the
   last of them while the loop makes no further progress.
   */
  datatype Env = Env(
    node: Node,
    disableStat: bool,
    wakes: seq<Wake>,
    stopped: bool,
    wired: Time,
    turns: seq<Turn>,
    lateTicks: seq<Time>)

  /** One keep-alive per suspended tick. */
  function Alives(n: nat): (r: seq<Effect>)
    ensures |r| == n
  {
    seq(n, _ => Alive)
  }

  function Checks(history: seq<Pass>): (r: seq<Effect>)
    ensures |r| == |history|
  {
    seq(|history|, i requires 0 <= i < |history| => Checked(history[i]))
  }

  predicate ValidFlags(o: Options) {
    o.interval > 0 && o.readRetries >= 0
  }

  /** How the service gets, or fails to get, to its check loop. */
  datatype Start = Armed(settings: Settings) | RefusedToStart | StoppedFirst | Waiting

  ghost predicate StartsAs(u: FloatUnit, o: Options, env: Env, s: Start) {
    if CanArm(u, o, env.node) then s.Armed? && IsArmed(u, o, env.node, s.settings)
    else if !Present(o.disablePath, env.disableStat) then s == RefusedToStart
    else exists n, w :: WaitEndsAt(u, o, env.wakes, n, w) && s == StartAfter(w, env.stopped)
  }

  function StartAfter(w: Waited, stopped: bool): Start {
    match w
    case Resumed(settings) => Armed(settings)
    case Refused(_) => if stopped then StoppedFirst else RefusedToStart
    case Interrupted => StoppedFirst
    case StillSuspended => Waiting
  }

  /**
   What the service tells before its check loop: nothing when it arms or refuses at once, and else that it is
   suspended, and one keep-alive for every tick up to the one that ends the wait.
   */
  ghost predicate WaitsAs(u: FloatUnit, o: Options, env: Env, s: Start, effects: seq<Effect>) {
    if CanArm(u, o, env.node) || !Present(o.disablePath, env.disableStat) then effects == []
    else exists n: nat, w ::
           && WaitEndsAt(u, o, env.wakes, n, w) && s == StartAfter(w, env.stopped)
           && effects == [Ready(true)] + Alives(if w.Interrupted? then n - 1 else n)
  }

  lemma {:induction false} WaitingIsQuiet(u: FloatUnit, o: Options, env: Env, s: Start, effects: seq<Effect>)
    requires WaitsAs(u, o, env, s, effects)
    ensures IsWaiting(effects)
  {
    hide CanArm, IsArmed;
  }

  /** Everything before the check loop; no reading is taken in it. */
  method StartService(u: FloatUnit, o: Options, every: Time, env: Env) returns (s: Start, effects: seq<Effect>)
    requires ValidFlags(o)
    ensures StartsAs(u, o, env, s)
    ensures WaitsAs(u, o, env, s, effects)
  {
    hide CanArm, IsArmed;
    var armed := Arm(u, o, env.node);
    if armed.Ok? {
      return Armed(armed.value), [];
    }
    if !Present(o.disablePath, env.disableStat) {
      return RefusedToStart, [];
    }
    var w, n, alive := RearmWhenResumed(u, o, every, env.wakes);
    s := StartAfter(w, env.stopped);
    effects := [Ready(true)] + Alives(alive);
  }

  /** The exit of a service whose loop ended as `outcome` says. */
  function ExitAfter(outcome: Outcome): Exit {
    match outcome
    case Running => NotYet
    case Stopped => Code(EXIT_OK)
    case TrippedOn(_) => Code(EXIT_TRIPPED)
  }

  /** The check loop over `turns` takes `passes` and then leaves with `exit`. */
  ghost predicate LoopEndsAs(u: FloatUnit, s: Settings, turns: seq<Turn>, passes: seq<Pass>, exit: Exit) {
    exists outcome, n: nat ::
      && EndsAt(Passes(u, s, turns), Stops(turns), s.max, s.readRetries, n, outcome)
      && exit == ExitAfter(outcome)
      && passes == Passes(u, s, turns)[..n]
  }

  /** The service's exit and the passes it took, as its start and its turns determine them. */
  ghost predicate ServesAs(u: FloatUnit, o: Options, env: Env, s: Start, passes: seq<Pass>, exit: Exit) {
    && StartsAs(u, o, env, s)
    && match s
       case RefusedToStart => passes == [] && exit == Code(EXIT_CONFIG)
       case StoppedFirst => passes == [] && exit == Code(EXIT_OK)
       case Waiting => passes == [] && exit == NotYet
       case Armed(settings) => LoopEndsAs(u, settings, env.turns, passes, exit)
  }

  function ChecksIn(effects: seq<Effect>): seq<Pass> {
    if effects == [] then []
    else
      var n := |effects| - 1;
      match effects[n]
      case Checked(p) => ChecksIn(effects[..n]) + [p]
      case _ => ChecksIn(effects[..n])
  }

  /** While suspended the service announces itself once and keeps itself alive, and does nothing else. */
  ghost predicate IsWaiting(effects: seq<Effect>) {
    effects == [] || exists alive :: effects == [Ready(true)] + Alives(alive)
  }

  lemma {:induction false} NoChecksIn(effects: seq<Effect>)
    requires IsWaiting(effects)
    ensures ChecksIn(effects) == []
  {
    if effects != [] {
      var alive :| effects == [Ready(true)] + Alives(alive);
      NoChecksInAlives(alive);
    }
  }

  lemma {:induction false} NoChecksInAlives(alive: nat)
    ensures ChecksIn([Ready(true)] + Alives(alive)) == []
  {
    var effects := [Ready(true)] + Alives(alive);
    if alive == 0 {
      assert effects[..0] == [];
    } else {
      assert effects[..alive] == [Ready(true)] + Alives(alive - 1);
      NoChecksInAlives(alive - 1);
    }
  }

  lemma {:induction false} ChecksInChecks(before: seq<Effect>, history: seq<Pass>)
    requires ChecksIn(before) == []
    ensures ChecksIn(before + Checks(history)) == history
  {
    if history == [] {
      assert before + Checks(history) == before;
    } else {
      var n := |history| - 1;
      assert (before + Checks(history))[..|before| + n] == before + Checks(history[..n]);
      ChecksInChecks(before, history[..n]);
      assert history == history[..n] + [history[n]];
    }
  }

  lemma {:induction false} NotACheck(effects: seq<Effect>, last: Effect)
    requires !last.Checked?
    ensures ChecksIn(effects + [last]) == ChecksIn(effects)
  {
    assert (effects + [last])[..|effects|] == effects;
  }

  /** An armed service announces itself before its first pass, and a trip is the last thing it tells. */
  function AfterStart(s: Start, passes: seq<Pass>, exit: Exit): seq<Effect> {
    if !s.Armed? then []
    else [Ready(false)] + Checks(passes) + if exit == Code(EXIT_TRIPPED) then [TrippedStatus] else []
  }

  /** Spelled out: READY first, then each pass, and the trip last, exactly when the exit is 1. */
  lemma {:induction false} ArmedEffects(settings: Settings, passes: seq<Pass>, exit: Exit)
    ensures var effects := AfterStart(Armed(settings), passes, exit);
            && |effects| == 1 + |passes| + (if exit == Code(1) then 1 else 0)
            && effects[0] == Ready(false)
            && (forall i :: 0 <= i < |passes| ==> effects[i + 1] == Checked(passes[i]))
            && (exit == Code(1) ==> effects[|effects| - 1] == TrippedStatus)
  {
    var effects, checks := AfterStart(Armed(settings), passes, exit), Checks(passes);
    forall i | 0 <= i < |passes|
      ensures effects[i + 1] == Checked(passes[i])
    {
      assert effects[i + 1] == checks[i];
    }
    hide Checks;
  }

  lemma {:induction false} EffectsTellPasses(before: seq<Effect>, s: Start, passes: seq<Pass>, exit: Exit)
    requires IsWaiting(before) && (s.Armed? || passes == [])
    ensures ChecksIn(before + AfterStart(s, passes, exit)) == passes
  {
    hide IsWaiting;
    NoChecksIn(before);
    if s.Armed? {
      NotACheck(before, Ready(false));
      ChecksInChecks(before + [Ready(false)], passes);
      var front := before + [Ready(false)] + Checks(passes);
      hide ChecksIn, Checks;
      NotACheck(front, TrippedStatus);
      assert before + ([Ready(false)] + Checks(passes)) == front;
      assert before + AfterStart(s, passes, exit) == front + if exit == Code(EXIT_TRIPPED) then [TrippedStatus] else [];
      assert front + [] == front;
    } else {
      assert before + [] == before;
    }
  }

  /**
   What the armed service tells systemd besides READY and the final status: the STATUS lines of its
   passes, and the keep-alives of the interleaving of its passes with the ticks.
   */
  datatype Told = Told(statuses: seq<string>, steps: seq<Step>, alive: seq<Time>)

  /** The statuses are the lines of the passes without repeats; the keep-alives are those the interleaving sends. */
  ghost predicate LoopTells(u: FloatUnit, s: Settings, every: Time, limit: string, env: Env, n: nat, exit: Exit, told: Told) {
    && n <= |env.turns|
    && (exists results :: |results| == n && Reflects(u, s, env.turns, results)
                          && told.statuses == Dedup(Lines(results, limit)))
    && told.steps == StepsOfRun(every, env, n, exit)
    && told.alive == SentBy(env.wired, Max(2 * s.interval, 2 * every), told.steps)
  }

  /** Ticks and passes as they interleave, up to where the process ends or the given turns run out. */
  function StepsOfRun(every: Time, env: Env, n: nat, exit: Exit): seq<Step>
    requires n <= |env.turns|
  {
    if every <= 0 then []
    else StepsOf(env.turns[..n]) + if exit == NotYet then TickSteps(env.lateTicks) else []
  }

  /**
   Each pass of a run, whatever its verdict, is recorded for the keep-alive exactly once, when it is done, and
   every tick fires, those after the last pass of a loop that goes no further included.
   */
  lemma {:induction false} EveryPassIsRecorded(every: Time, env: Env, n: nat, exit: Exit)
    requires n <= |env.turns| && every > 0
    ensures PassesIn(StepsOfRun(every, env, n, exit)) == DoneTimes(env.turns[..n])
    ensures TicksIn(StepsOfRun(every, env, n, exit)) == TicksOf(env.turns[..n]) + if exit == NotYet then env.lateTicks else []
  {
    hide PassesIn, TickSteps, StepsOf, TicksIn;
    OnePassPerTurn(env.turns[..n]);
    EveryTickFires(env.turns[..n]);
    FiredTicks(StepsOf(env.turns[..n]), env.lateTicks);
    TicksAreNotPasses(StepsOf(env.turns[..n]), env.lateTicks);
    assert StepsOf(env.turns[..n]) + [] == StepsOf(env.turns[..n]);
  }

  /** The service once armed: the watchdog is wired, READY is sent, the loop runs, and a trip is told last. */
  method WatchNode(u: FloatUnit, s: Settings, every: Time, limit: string, env: Env)
    returns (exit: Exit, ghost effects: seq<Effect>, ghost passes: seq<Pass>, ghost told: Told)
    requires s.interval > 0 && s.readRetries >= 0
    ensures LoopEndsAs(u, s, env.turns, passes, exit)
    ensures effects == AfterStart(Armed(s), passes, exit)
    ensures LoopTells(u, s, every, limit, env, |passes|, exit, told)
  {
    hide EndsAt, Stops, Reflects, Lines, Dedup, EventKeys, ResultKeys, StepsOf, SentBy, PassesIn, TickSteps, TrailingFailures;
    var guard := new Guard(s);
    var keepAlive := new KeepAlive(env.wired, s.interval, every);
    var status := new StatusReporter(limit);
    effects := [Ready(false)];
    var outcome, n := guard.Run(u, env.turns, status, keepAlive);
    passes := guard.history;
    effects := effects + Checks(passes);
    exit := ExitAfter(outcome);
    if outcome.Running? && keepAlive.Enabled() {
      keepAlive.Fire(env.lateTicks);
    }
    if outcome.TrippedOn? {
      effects := effects + [TrippedStatus];
    }
    assert |passes| == n && (every > 0 ==> StepsOf(env.turns[..n]) + [] == StepsOf(env.turns[..n]));
    told := Told(status.sent, keepAlive.steps, keepAlive.sent);
  }

  /** `run` in service mode, from validated flags on. */
  method ServeNode(u: FloatUnit, o: Options, every: Time, limit: string, env: Env)
    returns (exit: Exit, ghost effects: seq<Effect>, ghost s: Start, ghost told: Told)
    requires ValidFlags(o)
    ensures ServesAs(u, o, env, s, ChecksIn(effects), exit)
    ensures exists before ::
      WaitsAs(u, o, env, s, before) && effects == before + AfterStart(s, ChecksIn(effects), exit)
    ensures if s.Armed? then LoopTells(u, s.settings, every, limit, env, |ChecksIn(effects)|, exit, told)
            else told == Told([], [], [])
  {
    hide StartsAs, WaitsAs, IsWaiting, LoopEndsAs, LoopTells, Checks, ChecksIn;
    var start, before := StartService(u, o, every, env);
    s := start;
    told := Told([], [], []);
    ghost var passes: seq<Pass> := [];
    ghost var after: seq<Effect> := [];
    match start {
      case RefusedToStart =>
        exit := Code(EXIT_CONFIG);
      case StoppedFirst =>
        exit := Code(EXIT_OK);
      case Waiting =>
        exit := NotYet;
      case Armed(settings) =>
        ArmedSettingsAreValid(u, o, env, start);
        exit, after, passes, told := WatchNode(u, settings, every, limit, env);
    }
    effects := before + after;
    WaitingIsQuiet(u, o, env, s, before);
    EffectsTellPasses(before, s, passes, exit);
  }

  lemma {:induction false} ArmedSettingsAreValid(u: FloatUnit, o: Options, env: Env, s: Start)
    requires StartsAs(u, o, env, s) && s.Armed?
    ensures s.settings.interval == o.interval && s.settings.readRetries == o.readRetries
    ensures s.settings.disablePath == o.disablePath && s.settings.overridePath == o.overridePath
    ensures exists n :: IsArmed(u, o, n, s.settings)
  {
    hide CanArm;
    if CanArm(u, o, env.node) {
      assert IsArmed(u, o, env.node, s.settings);
    } else {
      var n, w :| WaitEndsAt(u, o, env.wakes, n, w) && s == StartAfter(w, env.stopped);
      assert IsArmed(u, o, env.wakes[n - 1].node, s.settings);
    }
  }
}

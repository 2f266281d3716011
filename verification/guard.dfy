/** The thermal guard: one verdict per pass, a retry budget for failed readings, and a loop that ends in a trip. */
module Guarding {
  import opened Hwmon
  import opened Rounding
  import opened Sysfs
  import opened Text
  import opened Units
  import opened Watchdog
  import opened Wrappers

  datatype Verdict = OK | Disabled | Tolerated | Trip

  datatype Settings = Settings(
    board: string,
    max: MilliCelsius,
    sensors: seq<Sensor>,
    disablePath: string,
    overridePath: string,
    interval: int,
    readRetries: int)

  /**
   What one pass can see: whether each control file can be stated, the override's contents, and what
   reading each attribute file gives, whatever changes while the pass goes through them.
   */
  datatype Observation = Observation(
    disableStat: bool,
    overrideStat: bool,
    override: Option<string>,
    glimpse: Path -> Glimpse)

  datatype Reason = ReadingFailed | TooHot(reading: MilliCelsius, max: MilliCelsius)

  datatype CheckResult = CheckResult(verdict: Verdict, reading: Option<MilliCelsius>, source: string, reason: Option<Reason>)

  /** An unset path is never present, and neither is one that cannot be stated. */
  predicate Present(path: string, stat: bool) {
    path != "" && stat
  }

  // ----- the hottest sensor

  function Readings(sensors: seq<Sensor>, glimpse: Path -> Glimpse): (r: seq<Option<MilliCelsius>>)
    ensures |r| == |sensors|
  {
    seq(|sensors|, i requires 0 <= i < |sensors| => ReadSensor(sensors[i], glimpse(sensors[i].path)))
  }

  /** The maximum of a non-empty set of readings, all of which succeeded. */
  function Hottest(readings: seq<Option<MilliCelsius>>): Option<MilliCelsius> {
    if readings == [] then None
    else
      var n := |readings| - 1;
      if n == 0 then readings[0]
      else
        match (Hottest(readings[..n]), readings[n])
        case (Some(a), Some(b)) => Some(if b > a then b else a)
        case _ => None
  }

  /** `m` is one of the readings, and none exceeds it. */
  ghost predicate IsMaximum(readings: seq<Option<MilliCelsius>>, m: MilliCelsius) {
    && Some(m) in readings
    && forall i :: 0 <= i < |readings| ==> readings[i].Some? && readings[i].value <= m
  }

  lemma {:induction false} HottestIsMaximum(readings: seq<Option<MilliCelsius>>)
    ensures Hottest(readings).Some? <==> readings != [] && None !in readings
    ensures forall m :: Hottest(readings) == Some(m) <==> IsMaximum(readings, m)
  {
    if |readings| > 1 {
      var n := |readings| - 1;
      HottestIsMaximum(readings[..n]);
      assert readings == readings[..n] + [readings[n]];
      assert forall i :: 0 <= i < n ==> readings[..n][i] == readings[i];
      if Hottest(readings[..n]).Some? {
        assert IsMaximum(readings[..n], Hottest(readings[..n]).value);
      }
      if Hottest(readings).Some? {
        assert IsMaximum(readings, Hottest(readings).value);
      }
    }
  }

  /** Over one snapshot the order of the sensors does not matter. */
  lemma {:induction false} HottestPermutes(a: seq<Option<MilliCelsius>>, b: seq<Option<MilliCelsius>>)
    requires multiset(a) == multiset(b)
    ensures Hottest(a) == Hottest(b)
  {
    HottestIsMaximum(a);
    HottestIsMaximum(b);
    assert forall r :: r in a <==> r in multiset(a);
    assert forall r :: r in b <==> r in multiset(b);
    assert |multiset(a)| == |a| && |multiset(b)| == |b|;
    if m :| Hottest(a) == Some(m) {
      forall i | 0 <= i < |b|
        ensures b[i].Some? && b[i].value <= m
      {
        assert b[i] in a;
      }
      assert IsMaximum(b, m);
    }
  }

  /** Comparing the hottest with the limit asks whether any sensor exceeds it. */
  lemma {:induction false} HottestExceeds(readings: seq<Option<MilliCelsius>>, max: MilliCelsius)
    requires Hottest(readings).Some?
    ensures Hottest(readings).value > max <==> exists i :: 0 <= i < |readings| && readings[i].Some? && readings[i].value > max
  {
    HottestIsMaximum(readings);
    assert IsMaximum(readings, Hottest(readings).value);
  }

  lemma {:induction false} OneFailureFailsAll(readings: seq<Option<MilliCelsius>>, i: nat)
    requires i < |readings| && readings[i].None?
    ensures Hottest(readings).None?
  {
    HottestIsMaximum(readings);
    assert readings[i] in readings;
  }

  /** Reads every sensor in turn and stops at the first that fails. */
  method ReadSensors(sensors: seq<Sensor>, glimpse: Path -> Glimpse) returns (r: Option<MilliCelsius>)
    ensures r == Hottest(Readings(sensors, glimpse))
  {
    hide ReadSensor;
    ghost var readings := Readings(sensors, glimpse);
    if |sensors| == 0 {
      return None;
    }
    var hottest: MilliCelsius := 0;
    for i := 0 to |sensors|
      invariant i > 0 ==> Hottest(readings[..i]) == Some(hottest)
    {
      var v := Read(sensors[i], glimpse(sensors[i].path));
      assert readings[..i + 1][..i] == readings[..i];
      if v.None? {
        OneFailureFailsAll(readings, i);
        return None;
      }
      if i == 0 || v.value > hottest {
        hottest := v.value;
      }
    }
    assert readings[..|sensors|] == readings;
    return Some(hottest);
  }

  // ----- one pass, as history remembers it

  datatype Pass = Suspended | Failed | Took(reading: MilliCelsius)

  predicate IsSuspended(s: Settings, o: Observation) {
    Present(s.disablePath, o.disableStat)
  }

  predicate IsOverridden(s: Settings, o: Observation) {
    Present(s.overridePath, o.overrideStat)
  }

  function SensorNames(sensors: seq<Sensor>): string {
    if sensors == [] then ""
    else if |sensors| == 1 then sensors[0].Name()
    else SensorNames(sensors[..|sensors| - 1]) + "+" + sensors[|sensors| - 1].Name()
  }

  function SourceOf(s: Settings, o: Observation): string {
    if IsSuspended(s, o) then s.disablePath
    else if IsOverridden(s, o) then s.overridePath
    else SensorNames(s.sensors)
  }

  function PassOf(u: FloatUnit, s: Settings, o: Observation): Pass
  {
    if IsSuspended(s, o) then Suspended
    else
      match (if IsOverridden(s, o) then OverrideReading(u, o.override) else Hottest(Readings(s.sensors, o.glimpse)))
      case None => Failed
      case Some(v) => Took(v)
  }

  function TrailingFailures(history: seq<Pass>): nat {
    if history == [] || !history[|history| - 1].Failed? then 0
    else 1 + TrailingFailures(history[..|history| - 1])
  }

  /** The last `n` passes were all failed readings. */
  predicate AllFailed(history: seq<Pass>, n: int) {
    n <= |history| && forall i :: |history| - n <= i < |history| && 0 <= i ==> history[i].Failed?
  }

  /** A pass trips on a reading over the limit, or once the whole retry window has failed. */
  predicate Trips(history: seq<Pass>, max: MilliCelsius, retries: int) {
    && history != []
    && ((history[|history| - 1].Took? && history[|history| - 1].reading > max)
        || (history[|history| - 1].Failed? && AllFailed(history, retries + 1)))
  }

  /** The verdict the specification gives the last pass of a history. */
  function VerdictOn(history: seq<Pass>, max: MilliCelsius, retries: int): Verdict
    requires history != []
  {
    if Trips(history, max, retries) then Trip
    else
      match history[|history| - 1]
      case Suspended => Disabled
      case Failed => Tolerated
      case Took(_) => OK
  }

  /** Counting consecutive failures is looking at a window of them. */
  lemma {:induction false} CounterIsWindow(history: seq<Pass>, n: nat)
    ensures TrailingFailures(history) >= n <==> AllFailed(history, n)
  {
    if n > 0 && history != [] {
      var m := |history| - 1;
      CounterIsWindow(history[..m], n - 1);
      assert forall i :: 0 <= i < m ==> history[..m][i] == history[i];
      if history[m].Failed? {
        assert AllFailed(history, n) <==> AllFailed(history[..m], n - 1);
      }
    }
  }

  /** The verdict as the counter decides it. */
  lemma {:induction false} VerdictByCounter(front: seq<Pass>, last: Pass, max: MilliCelsius, retries: nat)
    ensures var h := front + [last];
            && TrailingFailures(h) == (if last.Failed? then TrailingFailures(front) + 1 else 0)
            && VerdictOn(h, max, retries)
               == match last
                  case Suspended => Disabled
                  case Took(v) => if v > max then Trip else OK
                  case Failed => if TrailingFailures(front) + 1 <= retries then Tolerated else Trip
  {
    var h := front + [last];
    assert h[..|front|] == front;
    CounterIsWindow(h, retries + 1);
    hide AllFailed;
  }

  // ----- a pass in terms of what it sees

  /** The disable file counts: its path is set and can be stated. */
  predicate HasDisableFile(s: Settings, o: Observation) {
    s.disablePath != "" && o.disableStat
  }

  predicate HasOverrideFile(s: Settings, o: Observation) {
    s.overridePath != "" && o.overrideStat
  }

  /** The override cannot be read, is not a number, or is no temperature. */
  predicate IsBadOverride(u: FloatUnit, content: Option<string>) {
    || content.None?
    || u.parse(Trim(content.value)).None?
    || !u.parse(Trim(content.value)).value.Finite?
    || u.parse(Trim(content.value)).value.v < u.round(-273.15)
    || u.parse(Trim(content.value)).value.v > 10000.0
  }

  ghost predicate HasNoReading(x: Sensor, g: Glimpse) {
    forall v :: !ReadsAs(x, g, v)
  }

  ghost predicate ReadsAtMost(x: Sensor, g: Glimpse, m: MilliCelsius) {
    exists v :: v <= m && ReadsAs(x, g, v)
  }

  /** The override file says `m`. */
  predicate OverrideSays(u: FloatUnit, content: Option<string>, m: MilliCelsius) {
    content.Some? && IsTemperature(u, Trim(content.value), u.round(-273.15), 10000.0, m)
  }

  /** Every sensor has a reading, `m` is one of them, and none is above it. */
  ghost predicate SensorsSay(s: Settings, o: Observation, m: MilliCelsius) {
    && (forall i :: 0 <= i < |s.sensors| ==> ReadsAtMost(s.sensors[i], o.glimpse(s.sensors[i].path), m))
    && exists i :: 0 <= i < |s.sensors| && ReadsAs(s.sensors[i], o.glimpse(s.sensors[i].path), m)
  }

  lemma {:induction false} ReadingAt(s: Settings, o: Observation, i: nat)
    requires i < |s.sensors|
    ensures var r, x, g := Readings(s.sensors, o.glimpse)[i], s.sensors[i], o.glimpse(s.sensors[i].path);
            && (r.Some? ==> ReadsAs(x, g, r.value))
            && (forall v :: ReadsAs(x, g, v) ==> r == Some(v))
            && (r.None? <==> HasNoReading(x, g))
  {
    hide ReadSensor, ReadsAs;
    var x, g := s.sensors[i], o.glimpse(s.sensors[i].path);
    assert Readings(s.sensors, o.glimpse)[i] == ReadSensor(x, g);
    forall v
      ensures ReadSensor(x, g) == Some(v) <==> ReadsAs(x, g, v)
    {
      ReadingsAreExact(x, g, v);
    }
  }

  lemma {:induction false} SensorsSayHottest(s: Settings, o: Observation, m: MilliCelsius)
    ensures Hottest(Readings(s.sensors, o.glimpse)) == Some(m) <==> SensorsSay(s, o, m)
  {
    hide ReadSensor, ReadsAs, Hottest, Readings;
    var readings := Readings(s.sensors, o.glimpse);
    HottestIsMaximum(readings);
    forall i: nat | i < |s.sensors|
      ensures readings[i].Some? ==> ReadsAs(s.sensors[i], o.glimpse(s.sensors[i].path), readings[i].value)
      ensures forall v :: ReadsAs(s.sensors[i], o.glimpse(s.sensors[i].path), v) ==> readings[i] == Some(v)
    {
      ReadingAt(s, o, i);
    }
    if SensorsSay(s, o, m) {
      var k :| 0 <= k < |s.sensors| && ReadsAs(s.sensors[k], o.glimpse(s.sensors[k].path), m);
      assert readings[k] == Some(m);
      forall i | 0 <= i < |readings|
        ensures readings[i].Some? && readings[i].value <= m
      {
        assert ReadsAtMost(s.sensors[i], o.glimpse(s.sensors[i].path), m);
        var v :| v <= m && ReadsAs(s.sensors[i], o.glimpse(s.sensors[i].path), v);
      }
      assert IsMaximum(readings, m);
    }
    if IsMaximum(readings, m) {
      var k :| 0 <= k < |readings| && readings[k] == Some(m);
      assert ReadsAs(s.sensors[k], o.glimpse(s.sensors[k].path), m);
      forall i | 0 <= i < |s.sensors|
        ensures ReadsAtMost(s.sensors[i], o.glimpse(s.sensors[i].path), m)
      {
        assert ReadsAs(s.sensors[i], o.glimpse(s.sensors[i].path), readings[i].value);
      }
    }
  }

  /** The disable file outranks the override, and that the sensors; a pass takes what the one that counts says. */
  lemma {:induction false} PassesAreExact(u: FloatUnit, s: Settings, o: Observation, m: MilliCelsius)
    ensures PassOf(u, s, o) == Suspended <==> HasDisableFile(s, o)
    ensures PassOf(u, s, o) == Took(m) <==>
      && !HasDisableFile(s, o)
      && if HasOverrideFile(s, o) then OverrideSays(u, o.override, m) else SensorsSay(s, o, m)
  {
    hide OverrideReading, Hottest, Readings, SensorsSay, IsTemperature;
    OverridesAreExact(u, o.override, m);
    SensorsSayHottest(s, o, m);
  }

  lemma {:induction false} BadOverridesSayNothing(u: FloatUnit, content: Option<string>)
    ensures IsBadOverride(u, content) <==> OverrideReading(u, content).None?
  {
    hide Trim, ToMilli;
  }

  lemma {:induction false} UnreadSensorsSayNothing(s: Settings, o: Observation)
    ensures Hottest(Readings(s.sensors, o.glimpse)).None? <==>
      s.sensors == [] || exists i :: 0 <= i < |s.sensors| && HasNoReading(s.sensors[i], o.glimpse(s.sensors[i].path))
  {
    hide Readings, Hottest, HasNoReading;
    var readings := Readings(s.sensors, o.glimpse);
    HottestIsMaximum(readings);
    forall i: nat | i < |readings|
      ensures readings[i].None? <==> HasNoReading(s.sensors[i], o.glimpse(s.sensors[i].path))
    {
      ReadingAt(s, o, i);
    }
    if None in readings {
      var i :| 0 <= i < |readings| && readings[i] == None;
      assert HasNoReading(s.sensors[i], o.glimpse(s.sensors[i].path));
    }
    if i :| 0 <= i < |s.sensors| && HasNoReading(s.sensors[i], o.glimpse(s.sensors[i].path)) {
      assert readings[i] == None;
    }
  }

  /**
   The truth table, on what a pass sees. A present disable file suspends. Otherwise a bad override, or any
   sensor without a reading when there is no override, is tolerated until a whole retry budget of failures
   came before it, and then trips. And a temperature over the limit, be it the override's or any sensor's,
   trips, while with all of them at or below it the node keeps running.
   */
  lemma {:induction false} TruthTable(u: FloatUnit, s: Settings, history: seq<Pass>, o: Observation)
    requires s.readRetries >= 0
    ensures var unread := if HasOverrideFile(s, o) then IsBadOverride(u, o.override)
                          else s.sensors == []
                               || exists i :: 0 <= i < |s.sensors| && HasNoReading(s.sensors[i], o.glimpse(s.sensors[i].path));
            var hot := if HasOverrideFile(s, o) then exists m :: m > s.max && OverrideSays(u, o.override, m)
                       else exists i, v ::
                              0 <= i < |s.sensors| && v > s.max && ReadsAs(s.sensors[i], o.glimpse(s.sensors[i].path), v);
            VerdictOn(history + [PassOf(u, s, o)], s.max, s.readRetries)
            == if HasDisableFile(s, o) then Disabled
               else if unread then (if AllFailed(history, s.readRetries) then Trip else Tolerated)
               else if hot then Trip else OK
  {
    hide VerdictOn, OverrideReading, Hottest, Readings, SensorsSay, OverrideSays, IsBadOverride, HasNoReading, ReadsAs, AllFailed;
    VerdictByCounter(history, PassOf(u, s, o), s.max, s.readRetries);
    CounterIsWindow(history, s.readRetries);
    BadOverridesSayNothing(u, o.override);
    UnreadSensorsSayNothing(s, o);
    if HasOverrideFile(s, o) {
      forall m
        ensures OverrideReading(u, o.override) == Some(m) <==> OverrideSays(u, o.override, m)
      {
        OverrideIsSaid(u, o.override, m);
      }
    } else if Hottest(Readings(s.sensors, o.glimpse)).Some? {
      HotSensors(s, o);
    }
  }

  lemma {:induction false} OverrideIsSaid(u: FloatUnit, content: Option<string>, m: MilliCelsius)
    ensures OverrideReading(u, content) == Some(m) <==> OverrideSays(u, content, m)
  {
    hide OverrideReading, IsTemperature, Trim;
    OverridesAreExact(u, content, m);
  }

  lemma {:induction false} HotSensors(s: Settings, o: Observation)
    requires Hottest(Readings(s.sensors, o.glimpse)).Some?
    ensures Hottest(Readings(s.sensors, o.glimpse)).value > s.max <==>
      exists i, v :: 0 <= i < |s.sensors| && v > s.max && ReadsAs(s.sensors[i], o.glimpse(s.sensors[i].path), v)
  {
    hide ReadsAs, Hottest, Readings;
    var readings := Readings(s.sensors, o.glimpse);
    HottestExceeds(readings, s.max);
    forall i: nat | i < |s.sensors|
      ensures readings[i].Some? ==> ReadsAs(s.sensors[i], o.glimpse(s.sensors[i].path), readings[i].value)
      ensures forall v :: ReadsAs(s.sensors[i], o.glimpse(s.sensors[i].path), v) ==> readings[i] == Some(v)
    {
      ReadingAt(s, o, i);
    }
    if i :| 0 <= i < |readings| && readings[i].Some? && readings[i].value > s.max {
      assert ReadsAs(s.sensors[i], o.glimpse(s.sensors[i].path), readings[i].value);
    }
    if i, v :| 0 <= i < |s.sensors| && v > s.max && ReadsAs(s.sensors[i], o.glimpse(s.sensors[i].path), v) {
      assert readings[i] == Some(v);
    }
  }

  // ----- the source a pass names

  /** The names of the sensors are joined by plus signs, each its chip and its label, or its attribute without one. */
  lemma {:induction false} NamesAreJoined(first: Sensor, rest: seq<Sensor>)
    ensures SensorNames([first] + rest)
         == first.chip + "/" + (if first.labelText == "" then first.attr else first.labelText)
            + (if rest == [] then "" else "+" + SensorNames(rest))
  {
    var name := first.chip + "/" + (if first.labelText == "" then first.attr else first.labelText);
    assert first.Name() == name;
    if |rest| == 1 {
      assert SensorNames([first]) == name && ([first] + rest)[..1] == [first];
      assert rest == [rest[0]] && SensorNames(rest) == rest[0].Name();
      assert name + "+" + rest[0].Name() == name + ("+" + rest[0].Name());
    } else if |rest| > 1 {
      var n := |rest| - 1;
      NamesAreJoined(first, rest[..n]);
      assert ([first] + rest)[..n + 1] == [first] + rest[..n];
      var before, last := SensorNames(rest[..n]), rest[n].Name();
      assert name + ("+" + before) + "+" + last == name + ("+" + (before + "+" + last));
    }
  }

  /** A pass names the file that decided it, or else the sensors it read. */
  lemma {:induction false} SourcesAreNamed(s: Settings, o: Observation)
    ensures HasDisableFile(s, o) ==> SourceOf(s, o) == s.disablePath
    ensures !HasDisableFile(s, o) && HasOverrideFile(s, o) ==> SourceOf(s, o) == s.overridePath
    ensures !HasDisableFile(s, o) && !HasOverrideFile(s, o) ==> SourceOf(s, o) == SensorNames(s.sensors)
    ensures SensorNames([]) == ""
  {
  }

  // ----- what the journal says

  datatype Event =
    | Tripped(source: string)
    | ReadFailed(source: string)
    | CheckingSuspended(source: string)
    | OverrideInUse(source: string)
    | CheckingResumed(source: string)

  type Key = (Verdict, string)

  function KeyOf(r: CheckResult): Key {
    (r.verdict, r.source)
  }

  function KeyOfEvent(e: Event): Key {
    match e
    case Tripped(source) => (Trip, source)
    case ReadFailed(source) => (Tolerated, source)
    case CheckingSuspended(source) => (Disabled, source)
    case OverrideInUse(source) => (OK, source)
    case CheckingResumed(source) => (OK, source)
  }

  /** The sequence without the repetitions that follow one another. */
  function Dedup<T(==)>(s: seq<T>): seq<T> {
    if s == [] then []
    else
      var n := |s| - 1;
      if n > 0 && s[n - 1] == s[n] then Dedup(s[..n]) else Dedup(s[..n]) + [s[n]]
  }

  lemma {:induction false} DedupKeepsLast<T>(s: seq<T>)
    requires s != []
    ensures Dedup(s) != [] && Dedup(s)[|Dedup(s)| - 1] == s[|s| - 1]
  {
    var n := |s| - 1;
    if n > 0 && s[n - 1] == s[n] {
      DedupKeepsLast(s[..n]);
    }
  }

  lemma {:induction false} DedupAppends<T>(s: seq<T>, x: T)
    ensures Dedup(s + [x]) == if s != [] && s[|s| - 1] == x then Dedup(s) else Dedup(s) + [x]
  {
    assert (s + [x])[..|s|] == s;
  }

  lemma {:induction false} DedupHasNoRepeats<T>(s: seq<T>, i: nat)
    requires i + 1 < |Dedup(s)|
    ensures Dedup(s)[i] != Dedup(s)[i + 1]
  {
    var n := |s| - 1;
    if i + 1 < |Dedup(s[..n])| {
      DedupHasNoRepeats(s[..n], i);
    } else {
      assert s[..n] != [];
      DedupKeepsLast(s[..n]);
    }
  }

  function ResultKeys(results: seq<CheckResult>): (r: seq<Key>)
    ensures |r| == |results|
  {
    seq(|results|, i requires 0 <= i < |results| => KeyOf(results[i]))
  }

  function EventKeys(log: seq<Event>): (r: seq<Key>)
    ensures |r| == |log|
  {
    seq(|log|, i requires 0 <= i < |log| => KeyOfEvent(log[i]))
  }

  /** Whether or not a repeated key is logged again, the log tells the same transitions. */
  lemma {:induction false} LoggingKeepsTransitions(keys: seq<Key>, events: seq<Key>, k: Key)
    requires Dedup(events) == Dedup(keys)
    ensures Dedup(events + [k]) == Dedup(keys + [k])
    ensures keys != [] && keys[|keys| - 1] == k
        ==> Dedup(events) == Dedup(keys + [k]) && events != [] && events[|events| - 1] == k
  {
    DedupAppends(keys, k);
    DedupAppends(events, k);
    if keys != [] {
      DedupKeepsLast(keys);
      if events != [] {
        DedupKeepsLast(events);
      }
    } else if events != [] {
      DedupKeepsLast(events);
    }
  }

  lemma {:induction false} KeysAppend(results: seq<CheckResult>, r: CheckResult)
    ensures ResultKeys(results + [r]) == ResultKeys(results) + [KeyOf(r)]
  {
  }

  lemma {:induction false} EventKeysAppend(log: seq<Event>, e: Event)
    ensures EventKeys(log + [e]) == EventKeys(log) + [KeyOfEvent(e)]
  {
  }

  // ----- the guard

  datatype Outcome = Running | Stopped | TrippedOn(why: Reason)

  /**
   One turn of the loop: what its pass sees, which of the keep-alive's ticks come before the pass is done,
   when that is, and whether a stop is asked for before the next.
   */
  datatype Turn = Turn(seen: Observation, ticks: seq<Time>, done: Time, stop: bool)

  /** How the ticks and passes of `turns` interleave. */
  function StepsOf(turns: seq<Turn>): seq<Step> {
    if turns == [] then []
    else
      var n := |turns| - 1;
      StepsOf(turns[..n]) + TickSteps(turns[n].ticks) + [PassDone(turns[n].done)]
  }

  lemma {:induction false} StepsGrow(turns: seq<Turn>, n: nat)
    requires n < |turns|
    ensures StepsOf(turns[..n + 1]) == StepsOf(turns[..n]) + TickSteps(turns[n].ticks) + [PassDone(turns[n].done)]
    ensures StepsOf(turns[..0]) == []
  {
    assert turns[..n + 1][..n] == turns[..n];
  }

  function DoneTimes(turns: seq<Turn>): (r: seq<Time>)
    ensures |r| == |turns|
  {
    seq(|turns|, i requires 0 <= i < |turns| => turns[i].done)
  }

  /** Every turn records exactly one pass, when it is done, whatever its verdict. */
  lemma {:induction false} OnePassPerTurn(turns: seq<Turn>)
    ensures PassesIn(StepsOf(turns)) == DoneTimes(turns)
  {
    if turns != [] {
      var n := |turns| - 1;
      OnePassPerTurn(turns[..n]);
      TicksAreNotPasses(StepsOf(turns[..n]), turns[n].ticks);
      var before := StepsOf(turns[..n]) + TickSteps(turns[n].ticks);
      assert (before + [PassDone(turns[n].done)])[..|before|] == before;
      assert DoneTimes(turns) == DoneTimes(turns[..n]) + [turns[n].done];
    }
  }

  function TicksOf(turns: seq<Turn>): seq<Time> {
    if turns == [] then [] else TicksOf(turns[..|turns| - 1]) + turns[|turns| - 1].ticks
  }

  /** Every tick that comes during a turn fires, once and in order. */
  lemma {:induction false} EveryTickFires(turns: seq<Turn>)
    ensures TicksIn(StepsOf(turns)) == TicksOf(turns)
  {
    if turns != [] {
      var n := |turns| - 1;
      EveryTickFires(turns[..n]);
      var before := StepsOf(turns[..n]) + TickSteps(turns[n].ticks);
      FiredTicks(StepsOf(turns[..n]), turns[n].ticks);
      assert (before + [PassDone(turns[n].done)])[..|before|] == before;
    }
  }

  function Passes(u: FloatUnit, s: Settings, turns: seq<Turn>): (r: seq<Pass>)
    ensures |r| == |turns|
  {
    seq(|turns|, i requires 0 <= i < |turns| => PassOf(u, s, turns[i].seen))
  }

  class Guard {
    const settings: Settings

    var failures: int
    var lastVerdict: Verdict
    var lastSource: string
    var started: bool
    /** The events logged above debug level, oldest first. */
    var log: seq<Event>

    ghost var history: seq<Pass>
    ghost var results: seq<CheckResult>

    /** The counter is the trailing run of failures, and the journal is one pass behind at most. */
    ghost predicate Valid()
      reads this
    {
      && settings.readRetries >= 0 && settings.interval > 0
      && failures == TrailingFailures(history)
      && started == (results != [])
      && (started ==> lastVerdict == results[|results| - 1].verdict && lastSource == results[|results| - 1].source)
      && Dedup(EventKeys(log)) == Dedup(ResultKeys(results))
    }

    constructor (s: Settings)
      requires s.readRetries >= 0 && s.interval > 0
      ensures Valid() && settings == s && history == [] && results == [] && log == []
    {
      settings := s;
      failures, lastVerdict, lastSource, started := 0, OK, "", false;
      log, history, results := [], [], [];
    }

    /** One pass: the disable file outranks an override, which outranks the sensors. */
    method Check(u: FloatUnit, o: Observation) returns (r: CheckResult)
      requires Valid()
      modifies this`failures, this`history
      ensures Valid()
      ensures history == old(history) + [PassOf(u, settings, o)]
      ensures r.verdict == VerdictOn(history, settings.max, settings.readRetries)
      ensures r.source == SourceOf(settings, o)
      ensures r.reading == match PassOf(u, settings, o) { case Took(v) => Some(v) case _ => None }
      ensures r.reason.Some? <==> r.verdict == Trip || r.verdict == Tolerated
      ensures r.verdict == Trip && r.reading.Some? ==> r.reason == Some(TooHot(r.reading.value, settings.max))
      ensures r.reason.Some? && r.reading.None? ==> r.reason == Some(ReadingFailed)
    {
      hide TrailingFailures, VerdictOn, OverrideReading, Hottest, Readings, SensorNames, Dedup;
      VerdictByCounter(history, PassOf(u, settings, o), settings.max, settings.readRetries);
      history := history + [PassOf(u, settings, o)];
      if Present(settings.disablePath, o.disableStat) {
        failures := 0;
        return CheckResult(Disabled, None, settings.disablePath, None);
      }
      var source: string;
      var reading: Option<MilliCelsius>;
      if Present(settings.overridePath, o.overrideStat) {
        source := settings.overridePath;
        reading := OverrideReading(u, o.override);
      } else {
        source := SensorNames(settings.sensors);
        reading := ReadSensors(settings.sensors, o.glimpse);
      }
      if reading.None? {
        failures := failures + 1;
        if failures <= settings.readRetries {
          return CheckResult(Tolerated, None, source, Some(ReadingFailed));
        }
        return CheckResult(Trip, None, source, Some(ReadingFailed));
      }
      failures := 0;
      if reading.value > settings.max {
        return CheckResult(Trip, reading, source, Some(TooHot(reading.value, settings.max)));
      }
      return CheckResult(OK, reading, source, None);
    }

    /** Logs a pass, quietly when neither the verdict nor the source changed. */
    method Report(r: CheckResult)
      requires Valid()
      modifies this`lastVerdict, this`lastSource, this`started, this`log, this`results
      ensures Valid()
      ensures results == old(results) + [r]
      ensures log != [] && KeyOfEvent(log[|log| - 1]) == KeyOf(r)
      ensures log == old(log) || exists e :: log == old(log) + [e]
      ensures log == old(log) ==> old(results) != [] && KeyOf(old(results)[|old(results)| - 1]) == KeyOf(r)
      ensures log == old(log) ==> r.verdict == OK || r.verdict == Disabled
      ensures log != old(log) ==> log[|log| - 1] == match r.verdict
        case Trip => Tripped(r.source)
        case Tolerated => ReadFailed(r.source)
        case Disabled => CheckingSuspended(r.source)
        case OK => if settings.overridePath != "" && r.source == settings.overridePath then OverrideInUse(r.source)
                   else CheckingResumed(r.source)
    {
      var repeated := started && r.verdict == lastVerdict && r.source == lastSource;
      hide Dedup;
      LoggingKeepsTransitions(ResultKeys(results), EventKeys(log), KeyOf(r));
      KeysAppend(results, r);
      ghost var before := log;
      match r.verdict {
        case Trip =>
          log := log + [Tripped(r.source)];
        case Tolerated =>
          log := log + [ReadFailed(r.source)];
        case Disabled =>
          if !repeated {
            log := log + [CheckingSuspended(r.source)];
          }
        case OK =>
          if !repeated {
            if settings.overridePath != "" && r.source == settings.overridePath {
              log := log + [OverrideInUse(r.source)];
            } else {
              log := log + [CheckingResumed(r.source)];
            }
          }
      }
      results := results + [r];
      if log != before {
        EventKeysAppend(before, log[|log| - 1]);
      }
      lastVerdict, lastSource, started := r.verdict, r.source, true;
    }

    /** One pass, logged and then observed: recorded for the keep-alive first, and then told as a status. */
    method TakePass(u: FloatUnit, turn: Turn, status: StatusReporter, keepAlive: KeepAlive) returns (r: CheckResult)
      requires Valid() && status.Valid() && keepAlive.Valid()
      modifies this`failures, this`lastVerdict, this`lastSource, this`started, this`log, this`history, this`results,
               status, keepAlive
      ensures Valid() && status.Valid() && keepAlive.Valid()
      ensures history == old(history) + [PassOf(u, settings, turn.seen)]
      ensures results == old(results) + [r]
      ensures status.lines == old(status.lines) + [StatusLine(r, status.limit)]
      ensures r.verdict == VerdictOn(history, settings.max, settings.readRetries)
      ensures r.source == SourceOf(settings, turn.seen)
      ensures r.verdict == Trip ==> r.reason.Some?
      ensures keepAlive.steps == if keepAlive.Enabled()
                                 then old(keepAlive.steps) + TickSteps(turn.ticks) + [PassDone(turn.done)]
                                 else old(keepAlive.steps)
    {
      r := Check(u, turn.seen);
      hide VerdictOn, SourceOf, PassOf, Dedup, TrailingFailures, StatusLine, SentBy, PassesIn, TickSteps;
      Report(r);
      if keepAlive.Enabled() {
        keepAlive.Fire(turn.ticks);
      }
      keepAlive.Pass(turn.done);
      status.Observe(r);
    }

    /**
     Turns until a pass trips or a stop is asked for, and never past either. `Running` means the given
     turns ran out first.
     */
    method Run(u: FloatUnit, turns: seq<Turn>, status: StatusReporter, keepAlive: KeepAlive) returns (outcome: Outcome, n: nat)
      requires Valid() && history == [] && results == []
      requires status.Valid() && status.lines == []
      requires keepAlive.Valid() && keepAlive.steps == []
      modifies this`failures, this`lastVerdict, this`lastSource, this`started, this`log, this`history, this`results,
               status, keepAlive
      ensures Valid() && status.Valid() && keepAlive.Valid()
      ensures n <= |turns|
      ensures EndsAt(Passes(u, settings, turns), Stops(turns), settings.max, settings.readRetries, n, outcome)
      ensures history == Passes(u, settings, turns)[..n] && |results| == n
      ensures Reflects(u, settings, turns, results)
      ensures status.lines == Lines(results, status.limit)
      ensures keepAlive.steps == if keepAlive.Enabled() then StepsOf(turns[..n]) else []
    {
      hide VerdictOn, SourceOf, PassOf, Dedup, TrailingFailures, StatusLine, SentBy, PassesIn, TickSteps, StepsOf,
           Reflects, EventKeys, ResultKeys, KeepAlive.Valid, StatusReporter.Valid, VerdictAt, Lines;
      NoLines(status.limit);
      NothingToReflect(u, settings, turns);
      var period := NewTicker(settings.interval);
      n := 0;
      ghost var passes := Passes(u, settings, turns);
      while n < |turns|
        invariant n <= |turns| && Valid() && status.Valid() && keepAlive.Valid()
        invariant history == passes[..n] && |results| == n
        invariant Reflects(u, settings, turns, results)
        invariant forall i :: 0 <= i < n ==>
          VerdictAt(passes, i, settings.max, settings.readRetries) != Trip && !Stops(turns)[i]
        invariant status.lines == Lines(results, status.limit)
        invariant keepAlive.steps == if keepAlive.Enabled() then StepsOf(turns[..n]) else []
      {
        ghost var before := results;
        var r := TakePass(u, turns[n], status, keepAlive);
        assert history == passes[..n + 1];
        VerdictNow(passes, n, settings.max, settings.readRetries);
        StepsGrow(turns, n);
        LinesAppend(before, r, status.limit);
        ReflectsAppend(u, settings, turns, before, r);
        n := n + 1;
        if r.verdict == Trip {
          return TrippedOn(r.reason.value), n;
        }
        if turns[n - 1].stop {
          return Stopped, n;
        }
      }
      outcome := Running;
    }
  }

  lemma {:induction false} VerdictNow(passes: seq<Pass>, n: nat, max: MilliCelsius, retries: int)
    requires n < |passes|
    ensures VerdictAt(passes, n, max, retries) == VerdictOn(passes[..n + 1], max, retries)
  {
  }

  lemma {:induction false} NoLines(limit: string)
    ensures Lines([], limit) == []
  {
  }

  /** Each result is the verdict its pass calls for, from the source that pass had. */
  predicate Reflects(u: FloatUnit, s: Settings, turns: seq<Turn>, results: seq<CheckResult>)
  {
    && |results| <= |turns|
    && forall i :: 0 <= i < |results| ==>
      && results[i].verdict == VerdictAt(Passes(u, s, turns), i, s.max, s.readRetries)
      && results[i].source == SourceOf(s, turns[i].seen)
  }

  lemma {:induction false} NothingToReflect(u: FloatUnit, s: Settings, turns: seq<Turn>)
    ensures Reflects(u, s, turns, []) && StepsOf(turns[..0]) == []
  {
  }

  lemma {:induction false} ReflectsAppend(u: FloatUnit, s: Settings, turns: seq<Turn>, results: seq<CheckResult>, r: CheckResult)
    requires Reflects(u, s, turns, results) && |results| < |turns|
    requires r.verdict == VerdictAt(Passes(u, s, turns), |results|, s.max, s.readRetries)
    requires r.source == SourceOf(s, turns[|results|].seen)
    ensures Reflects(u, s, turns, results + [r])
  {
    hide VerdictAt, SourceOf, Passes;
  }

  /** The verdict of pass `i`. */
  function VerdictAt(passes: seq<Pass>, i: nat, max: MilliCelsius, retries: int): Verdict
    requires i < |passes|
  {
    VerdictOn(passes[..i + 1], max, retries)
  }

  function Stops(turns: seq<Turn>): (r: seq<bool>)
    ensures |r| == |turns|
  {
    seq(|turns|, i requires 0 <= i < |turns| => turns[i].stop)
  }

  /** The loop over `passes` ends after exactly `n` of them, for the reason `outcome` gives. */
  ghost predicate EndsAt(passes: seq<Pass>, stops: seq<bool>, max: MilliCelsius, retries: int, n: nat, outcome: Outcome)
    requires |stops| == |passes|
  {
    && n <= |passes|
    && (forall i :: 0 <= i < n - 1 ==> VerdictAt(passes, i, max, retries) != Trip && !stops[i])
    && match outcome
       case TrippedOn(_) => n > 0 && VerdictAt(passes, n - 1, max, retries) == Trip
       case Stopped => n > 0 && VerdictAt(passes, n - 1, max, retries) != Trip && stops[n - 1]
       case Running =>
         n == |passes| && (n > 0 ==> VerdictAt(passes, n - 1, max, retries) != Trip && !stops[n - 1])
  }

  /** No other way to end fits the same turns. */
  lemma {:induction false} EndIsUnique(passes: seq<Pass>, stops: seq<bool>, max: MilliCelsius, retries: int,
                                       m: nat, a: Outcome, n: nat, b: Outcome)
    requires |stops| == |passes|
    requires EndsAt(passes, stops, max, retries, m, a) && EndsAt(passes, stops, max, retries, n, b)
    ensures m == n && a.Running? == b.Running? && a.Stopped? == b.Stopped?
  {
    hide VerdictAt;
  }

  /** A whole retry window of failures ends the loop by its last pass, unless a stop or a trip came first. */
  lemma {:induction false} FailuresEndTheLoop(passes: seq<Pass>, stops: seq<bool>, max: MilliCelsius, retries: nat,
                                              k: nat, n: nat, outcome: Outcome)
    requires |stops| == |passes| && k + retries < |passes|
    requires forall i :: k <= i <= k + retries ==> passes[i].Failed?
    requires EndsAt(passes, stops, max, retries, n, outcome)
    ensures 1 <= n <= k + retries + 1 && !outcome.Running?
    ensures outcome.Stopped? ==> stops[n - 1]
    ensures (forall i :: 0 <= i <= k + retries ==> !stops[i]) ==> outcome.TrippedOn?
  {
    var h := passes[..k + retries + 1];
    assert forall i :: k <= i < |h| ==> h[i] == passes[i];
    assert AllFailed(h, retries + 1);
    assert VerdictAt(passes, k + retries, max, retries) == Trip;
    hide VerdictAt;
  }

  // ----- the line `systemctl status` shows

  function StatusLine(r: CheckResult, limit: string): string {
    match r.verdict
    case Disabled => "Suspended: " + r.source + " is present"
    case Tolerated => "Reading " + r.source + " failed, within the retry budget"
    case _ => "Watching " + r.source + ", limit " + limit
  }

  function Lines(results: seq<CheckResult>, limit: string): (r: seq<string>)
    ensures |r| == |results|
  {
    seq(|results|, i requires 0 <= i < |results| => StatusLine(results[i], limit))
  }

  lemma {:induction false} LinesAppend(results: seq<CheckResult>, r: CheckResult, limit: string)
    ensures Lines(results + [r], limit) == Lines(results, limit) + [StatusLine(r, limit)]
  {
    hide StatusLine;
  }

  class StatusReporter {
    const limit: string

    var last: string
    /** The STATUS messages sent to the service manager, oldest first. */
    var sent: seq<string>

    ghost var lines: seq<string>

    ghost predicate Valid()
      reads this
    {
      && sent == Dedup(lines)
      && (forall i :: 0 <= i < |lines| ==> lines[i] != "")
      && last == if lines == [] then "" else lines[|lines| - 1]
    }

    constructor (limit: string)
      ensures Valid() && this.limit == limit && lines == [] && sent == []
    {
      this.limit := limit;
      last, sent, lines := "", [], [];
    }

    /** Sends the line for `r` unless it is the one sent last. */
    method Observe(r: CheckResult)
      requires Valid()
      modifies this
      ensures Valid()
      ensures lines == old(lines) + [StatusLine(r, limit)]
      ensures sent != [] && sent[|sent| - 1] == StatusLine(r, limit)
      ensures sent == old(sent) || sent == old(sent) + [StatusLine(r, limit)]
    {
      hide StatusLine, Dedup;
      var line := StatusLine(r, limit);
      LineIsNotEmpty(r, limit);
      DedupAppends(lines, line);
      if lines != [] {
        DedupKeepsLast(lines);
      }
      lines := lines + [line];
      if line == last {
        return;
      }
      last := line;
      sent := sent + [line];
    }
  }

  lemma {:induction false} LineIsNotEmpty(r: CheckResult, limit: string)
    ensures StatusLine(r, limit) != ""
  {
  }

  /** What `systemctl status` says after a pass: the disable file, the failing source, or the watched one and its limit. */
  lemma {:induction false} StatusOfPass(u: FloatUnit, s: Settings, history: seq<Pass>, o: Observation, r: CheckResult,
                                        limit: string)
    requires s.readRetries >= 0 && r.source == SourceOf(s, o)
    requires r.verdict == VerdictOn(history + [PassOf(u, s, o)], s.max, s.readRetries)
    ensures var source := if HasOverrideFile(s, o) then s.overridePath else SensorNames(s.sensors);
            var unread := if HasOverrideFile(s, o) then IsBadOverride(u, o.override)
                          else s.sensors == []
                               || exists i :: 0 <= i < |s.sensors| && HasNoReading(s.sensors[i], o.glimpse(s.sensors[i].path));
            StatusLine(r, limit)
            == if HasDisableFile(s, o) then "Suspended: " + s.disablePath + " is present"
               else if unread && !AllFailed(history, s.readRetries)
                 then "Reading " + source + " failed, within the retry budget"
               else "Watching " + source + ", limit " + limit
  {
    hide VerdictOn, AllFailed, HasNoReading, IsBadOverride, SensorNames, PassOf, SourceOf;
    TruthTable(u, s, history, o);
    SourcesAreNamed(s, o);
  }

  /** What a status line distinguishes: everything but a trip from a good reading. */
  datatype Standing = IsSuspendedNow | IsFailing | IsWatching

  function StandingOf(v: Verdict): Standing {
    match v
    case Disabled => IsSuspendedNow
    case Tolerated => IsFailing
    case _ => IsWatching
  }

  /** Equal lines mean an equal standing and an equal source, so no change of either goes unsent. */
  lemma {:induction false} LinesIdentifyStandings(a: CheckResult, b: CheckResult, limit: string)
    ensures StatusLine(a, limit) == StatusLine(b, limit)
       <==> StandingOf(a.verdict) == StandingOf(b.verdict) && a.source == b.source
  {
    var s, t := StatusLine(a, limit), StatusLine(b, limit);
    assert s[0] == 'S' <==> a.verdict == Disabled;
    assert s[0] == 'R' <==> a.verdict == Tolerated;
    assert t[0] == 'S' <==> b.verdict == Disabled;
    assert t[0] == 'R' <==> b.verdict == Tolerated;
    if s == t {
      match a.verdict
      case Disabled => MiddleIsEqual("Suspended: ", a.source, b.source, " is present");
      case Tolerated => MiddleIsEqual("Reading ", a.source, b.source, " failed, within the retry budget");
      case _ =>
        assert s == "Watching " + a.source + (", limit " + limit);
        assert t == "Watching " + b.source + (", limit " + limit);
        MiddleIsEqual("Watching ", a.source, b.source, ", limit " + limit);
    }
  }

  lemma {:induction false} MiddleIsEqual(lead: string, a: string, b: string, tail: string)
    requires lead + a + tail == lead + b + tail
    ensures a == b
  {
    assert (lead + a + tail)[|lead|..|lead| + |a|] == a;
    assert (lead + b + tail)[|lead|..|lead| + |b|] == b;
  }
}

/** The promises of the whole interlock, from the tree a guard was armed in to the verdict of a later pass. */
module Interlock {
  import opened BoardLaws
  import opened BoardLines
  import opened BoardTable
  import opened ChipNames
  import opened Guarding
  import opened Hwmon
  import opened Numerals
  import opened Rounding
  import opened Selection
  import opened Service
  import opened Sysfs
  import opened Text
  import opened Units
  import opened Wrappers

  // ----- which nodes can be guarded

  /** The section whose header is line `h` asks for the sensor: its chip, and its name where one is given. */
  ghost predicate AsksFor(lines: seq<string>, h: nat, s: Sensor) {
    && (exists c :: Sets(lines, h, "chip", c) && RefersTo(c, s.chip))
    && forall t :: Sets(lines, h, "sensor", t) ==> t == "" || GoesBy(s, t)
  }

  ghost predicate IsExported(n: Node, classDir: Path, s: Sensor) {
    && classDir in n.tree.entries
    && exists i :: 0 <= i < |n.tree.entries[classDir]| && HasAttribute(n.tree, Join(classDir, n.tree.entries[classDir][i]), s)
  }

  ghost predicate AsksForOne(n: Node, classDir: Path, lines: seq<string>, h: nat) {
    exists s :: IsExported(n, classDir, s) && AsksFor(lines, h, s)
  }

  /**
   A node can be guarded exactly if its table can be read to the end and is one, it knows its board's name,
   and that board has a section in the table asking for a sensor that the node exports.
   */
  lemma {:induction false} ArmableNodes(u: FloatUnit, o: Options, n: Node)
    ensures CanArm(u, o, n) <==>
      && n.table.Some? && !n.tableBroken && IsTable(u, n.table.value)
      && n.boardName.Some? && !Blank(n.boardName.value)
      && exists h: nat ::
           && h < |n.table.value| && IsHeaderLine(n.table.value[h], Trim(n.boardName.value))
           && AsksForOne(n, o.classDir, n.table.value, h)
  {
    hide WellFormed, IsTable, Meaning, Trim, IsHeaderLine, AsksForOne, Items, HasSensorFor;
    if n.boardName.Some? {
      BlankTrims(n.boardName.value);
    }
    if n.table.Some? {
      TablesAreExact(u, n.table.value);
      if IsConfigured(u, n) {
        BoardsHaveHeaders(u, n.table.value, BoardName(n).value);
      }
      forall h: nat | h < |n.table.value| && WellFormed(u, Items(n.table.value)) && BoardName(n).Some?
                      && IsHeaderLine(n.table.value[h], BoardName(n).value)
        ensures BoardName(n).value in Meaning(u, n.table.value)
        ensures AsksForOne(n, o.classDir, n.table.value, h)
           <==> HasSensorFor(n, o.classDir, Meaning(u, n.table.value)[BoardName(n).value])
      {
        SectionAsksForEntry(u, o.classDir, n, h, BoardName(n).value);
      }
    }
  }

  lemma {:induction false} SectionAsksForEntry(u: FloatUnit, classDir: Path, n: Node, h: nat, name: string)
    requires n.table.Some? && WellFormed(u, Items(n.table.value))
    requires h < |n.table.value| && IsHeaderLine(n.table.value[h], name)
    ensures name in Meaning(u, n.table.value)
    ensures AsksForOne(n, classDir, n.table.value, h) <==> HasSensorFor(n, classDir, Meaning(u, n.table.value)[name])
  {
    hide WellFormed, Meaning, IsHeaderLine, Items, Sets, RefersTo, GoesBy, IsTemperature, AllSensors, IsExported;
    BoardsAreRead(u, n.table.value, h, name);
    var b := Meaning(u, n.table.value)[name];
    forall s
      ensures AsksFor(n.table.value, h, s) <==> RefersTo(b.chip, s.chip) && (b.sensor == "" || GoesBy(s, b.sensor))
    {
      assert Sets(n.table.value, h, "chip", b.chip);
    }
    if classDir in n.tree.entries {
      forall s
        ensures IsExported(n, classDir, s) <==> s in AllSensors(n.tree, classDir, n.tree.entries[classDir])
      {
        ExportedSensors(n, classDir, s);
      }
    } else {
      assert forall s :: !IsExported(n, classDir, s) by {
        NothingIsExported(n, classDir);
      }
    }
    hide AsksFor;
  }

  lemma {:induction false} NothingIsExported(n: Node, classDir: Path)
    requires classDir !in n.tree.entries
    ensures forall s :: !IsExported(n, classDir, s)
  {
  }

  lemma {:induction false} ExportedSensors(n: Node, classDir: Path, s: Sensor)
    requires classDir in n.tree.entries
    ensures IsExported(n, classDir, s) <==> s in AllSensors(n.tree, classDir, n.tree.entries[classDir])
  {
    hide HasAttribute, DeviceSensors, AllSensors, Join;
    var devices := n.tree.entries[classDir];
    AllSensorsAreExported(n.tree, classDir, devices, s);
    forall i | 0 <= i < |devices|
      ensures HasAttribute(n.tree, Join(classDir, devices[i]), s) <==> s in DeviceSensors(n.tree, Join(classDir, devices[i]))
    {
      DeviceSensorsAreAttributes(n.tree, Join(classDir, devices[i]), s);
    }
  }

  // ----- what a good pass means

  /** The pass took its reading, if any, from the sensors. */
  predicate FromSensors(s: Settings, o: Observation) {
    !HasDisableFile(s, o) && !HasOverrideFile(s, o)
  }

  lemma {:induction false} GoodVerdictMeansGoodReading(passes: seq<Pass>, i: nat, max: MilliCelsius, retries: int)
    requires i < |passes| && VerdictAt(passes, i, max, retries) == OK
    ensures passes[i].Took? && passes[i].reading <= max
  {
    assert passes[..i + 1][i] == passes[i];
  }

  /** A good verdict from the sensors means every watched sensor was read, confirmed, and is at or below the limit. */
  lemma {:induction false} GoodPassReadsEverySensor(u: FloatUnit, s: Settings, turns: seq<Turn>, i: nat, x: Sensor)
    returns (v: MilliCelsius)
    requires i < |turns| && VerdictAt(Passes(u, s, turns), i, s.max, s.readRetries) == OK
    requires FromSensors(s, turns[i].seen) && x in s.sensors
    ensures ReadsAs(x, turns[i].seen.glimpse(x.path), v) && v <= s.max
  {
    hide VerdictAt, ReadsAs, PassOf;
    var seen := turns[i].seen;
    GoodVerdictMeansGoodReading(Passes(u, s, turns), i, s.max, s.readRetries);
    PassesAreExact(u, s, seen, Passes(u, s, turns)[i].reading);
    var k :| 0 <= k < |s.sensors| && s.sensors[k] == x;
    assert ReadsAtMost(s.sensors[k], seen.glimpse(x.path), Passes(u, s, turns)[i].reading);
    v :| v <= Passes(u, s, turns)[i].reading && ReadsAs(x, seen.glimpse(x.path), v);
  }

  /** The device in `dir` was there at arming, exported a temperature, and its chip is the one asked for. */
  ghost predicate WasMatched(n: Node, classDir: Path, dir: Path, chipRef: string) {
    && classDir in n.tree.entries
    && (exists i :: 0 <= i < |n.tree.entries[classDir]| && dir == Join(classDir, n.tree.entries[classDir][i]))
    && DeviceSensors(n.tree, dir) != []
    && RefersTo(chipRef, ChipNameOf(n.tree, dir).value)
  }

  lemma {:induction false} DevicesHaveOneChip(t: Tree, classDir: Path, found: seq<Sensor>)
    requires IsDiscovery(t, classDir, found) && ProperNames(t)
    ensures OneChipPerDevice(found)
  {
    hide ChipNameOf, Sorted, AllSensors, ProperNames;
    forall a, b | a in found && b in found && a.Device() == b.Device()
      ensures a.chip == b.chip
    {
      DiscoveryIsComplete(t, classDir, found, a);
      DiscoveryIsComplete(t, classDir, found, b);
    }
  }

  lemma {:induction false} MatchedDeviceIsSelected(n: Node, classDir: Path, found: seq<Sensor>, chipRef: string,
                                                   sensors: seq<Sensor>, dir: Path)
    returns (x: Sensor)
    requires IsDiscovery(n.tree, classDir, found) && ProperNames(n.tree)
    requires Selected(found, chipRef, "") == Ok(sensors) && WasMatched(n, classDir, dir, chipRef)
    ensures x in sensors && x.Device() == dir && ChipNameOf(n.tree, dir) == Some(x.chip)
    ensures x in DeviceSensors(n.tree, dir)
    ensures forall y :: y in DeviceSensors(n.tree, dir) ==> x.index <= y.index
    ensures forall y :: y in sensors && y.Device() == dir ==> y == x
  {
    hide ChipNameOf, Sorted, AllSensors, ProperNames, RefersTo, DeviceSensors, Selected;
    DevicesHaveOneChip(n.tree, classDir, found);
    forall y | y in DeviceSensors(n.tree, dir)
      ensures y in found && y.Device() == dir && ChipNameOf(n.tree, dir) == Some(y.chip)
    {
      SensorIsItsDevices(n, classDir, dir, found, y);
    }
    var y := DeviceSensors(n.tree, dir)[0];
    assert y in DeviceSensors(n.tree, dir);
    SelectionIsForChips(found, chipRef, sensors);
    EveryMatchingDeviceIsWatched(found, chipRef);
    assert y.Device() in Devices(sensors);
    x :| x in sensors && x.Device() == dir;
    DiscoveryIsComplete(n.tree, classDir, found, x);
    DeviceSensorsAreAttributes(n.tree, dir, x);
  }

  /** With no sensor named, each matched device has exactly one watched sensor, its lowest-numbered. */
  lemma {:induction false} EveryMatchedDeviceIsGuarded(u: FloatUnit, o: Options, n: Node, s: Settings, dir: Path)
    returns (x: Sensor)
    requires IsArmed(u, o, n, s) && ProperNames(n.tree)
    requires EntryOf(u, n).sensor == "" && WasMatched(n, o.classDir, dir, EntryOf(u, n).chip)
    ensures x in s.sensors && x.Device() == dir && ChipNameOf(n.tree, dir) == Some(x.chip)
    ensures x in DeviceSensors(n.tree, dir)
    ensures forall y :: y in DeviceSensors(n.tree, dir) ==> x.index <= y.index
    ensures forall y :: y in s.sensors && y.Device() == dir ==> y == x
  {
    hide ChipNameOf, AllSensors, ProperNames, DeviceSensors, IsConfigured, HasSensorFor, IsDiscovery, Selected,
         WasMatched, EntryOf;
    var found :| IsDiscovery(n.tree, o.classDir, found)
                 && Selected(found, EntryOf(u, n).chip, EntryOf(u, n).sensor) == Ok(s.sensors);
    x := MatchedDeviceIsSelected(n, o.classDir, found, EntryOf(u, n).chip, s.sensors, dir);
  }

  lemma {:induction false} SelectionIsForChips(found: seq<Sensor>, chipRef: string, sensors: seq<Sensor>)
    requires Selected(found, chipRef, "") == Ok(sensors)
    ensures chipRef != ""
  {
  }

  lemma {:induction false} SensorIsItsDevices(n: Node, classDir: Path, dir: Path, found: seq<Sensor>, y: Sensor)
    requires IsDiscovery(n.tree, classDir, found) && ProperNames(n.tree) && classDir in n.tree.entries
    requires exists i :: 0 <= i < |n.tree.entries[classDir]| && dir == Join(classDir, n.tree.entries[classDir][i])
    requires y in DeviceSensors(n.tree, dir)
    ensures y in found && y.Device() == dir && ChipNameOf(n.tree, dir) == Some(y.chip)
  {
    DeviceSensorsAreAttributes(n.tree, dir, y);
    hide ChipNameOf, Sorted, AllSensors, HasAttribute;
    SensorsOfDevice(n.tree, dir, ChipNameOf(n.tree, dir).value, n.tree.entries[dir], y);
    DiscoveryIsComplete(n.tree, classDir, found, y);
  }

  /** Nothing else is watched: every watched sensor was exported at arming by a device that matched. */
  lemma {:induction false} WatchedDevicesWereMatched(u: FloatUnit, o: Options, n: Node, s: Settings, x: Sensor)
    requires IsArmed(u, o, n, s) && ProperNames(n.tree) && x in s.sensors
    ensures WasMatched(n, o.classDir, x.Device(), EntryOf(u, n).chip)
    ensures x in DeviceSensors(n.tree, x.Device()) && ChipNameOf(n.tree, x.Device()) == Some(x.chip)
    ensures EntryOf(u, n).sensor == "" || GoesBy(x, EntryOf(u, n).sensor)
  {
    hide ChipNameOf, AllSensors, ProperNames, IsConfigured, HasSensorFor, IsDiscovery, Selected, EntryOf, RefersTo,
         GoesBy, DeviceSensors, HasAttribute;
    var entry := EntryOf(u, n);
    var found :| IsDiscovery(n.tree, o.classDir, found) && Selected(found, entry.chip, entry.sensor) == Ok(s.sensors);
    SelectedIsOnChip(found, entry.chip, entry.sensor, x);
    DiscoveryIsComplete(n.tree, o.classDir, found, x);
    DeviceSensorsAreAttributes(n.tree, x.Device(), x);
  }

  /** With a sensor named, it is watched on every matched device that has it. */
  lemma {:induction false} EveryNamedSensorIsGuarded(u: FloatUnit, o: Options, n: Node, s: Settings, dir: Path, y: Sensor)
    requires IsArmed(u, o, n, s) && ProperNames(n.tree)
    requires EntryOf(u, n).sensor != "" && WasMatched(n, o.classDir, dir, EntryOf(u, n).chip)
    requires y in DeviceSensors(n.tree, dir) && GoesBy(y, EntryOf(u, n).sensor)
    ensures y in s.sensors && y.Device() == dir && ChipNameOf(n.tree, dir) == Some(y.chip)
  {
    hide ChipNameOf, AllSensors, ProperNames, IsConfigured, HasSensorFor, IsDiscovery, EntryOf, RefersTo, GoesBy,
         DeviceSensors;
    var entry := EntryOf(u, n);
    var found :| IsDiscovery(n.tree, o.classDir, found) && Selected(found, entry.chip, entry.sensor) == Ok(s.sensors);
    SensorIsItsDevices(n, o.classDir, dir, found, y);
    NamedIsSelected(found, entry.chip, entry.sensor, y);
  }

  lemma {:induction false} NamedIsSelected(found: seq<Sensor>, chipRef: string, sensorRef: string, y: Sensor)
    requires Selected(found, chipRef, sensorRef).Ok? && sensorRef != ""
    requires y in found && RefersTo(chipRef, y.chip) && GoesBy(y, sensorRef)
    ensures y in Selected(found, chipRef, sensorRef).value
  {
    hide RefersTo, GoesBy, Selected;
    NothingSelectedIsAnError(found, chipRef, sensorRef);
    NamedSelectionIsExact(found, chipRef, sensorRef);
  }

  /** A matched device without the named sensor is not watched at all. */
  lemma {:induction false} UnlabelledDeviceIsUnwatched(u: FloatUnit, o: Options, n: Node, s: Settings, dir: Path, x: Sensor)
    requires IsArmed(u, o, n, s) && ProperNames(n.tree) && x in s.sensors
    requires EntryOf(u, n).sensor != ""
    requires forall y :: y in DeviceSensors(n.tree, dir) ==> !GoesBy(y, EntryOf(u, n).sensor)
    ensures x.Device() != dir
  {
    hide ChipNameOf, AllSensors, ProperNames, IsArmed, EntryOf, GoesBy, DeviceSensors, WasMatched;
    WatchedDevicesWereMatched(u, o, n, s, x);
  }

  /**
   No silent OK for a named sensor. When a pass is OK on the sensors' word, every sensor of that label or
   attribute that a matching device exported at arming could be read in this very pass, held a number at
   or below the limit, and was confirmed afterwards to be on the same chip still.
   */
  lemma {:induction false} NoSilentOkNamed(u: FloatUnit, o: Options, n: Node, s: Settings, turns: seq<Turn>, i: nat,
                                           dir: Path, y: Sensor)
    returns (v: MilliCelsius)
    requires IsArmed(u, o, n, s) && ProperNames(n.tree)
    requires EntryOf(u, n).sensor != "" && WasMatched(n, o.classDir, dir, EntryOf(u, n).chip)
    requires y in DeviceSensors(n.tree, dir) && GoesBy(y, EntryOf(u, n).sensor)
    requires i < |turns| && VerdictAt(Passes(u, s, turns), i, s.max, s.readRetries) == OK
    requires FromSensors(s, turns[i].seen)
    ensures var g := turns[i].seen.glimpse(y.path);
            && g.content.Some? && SpellsInteger(Trim(g.content.value), 10, v) && v <= EntryOf(u, n).max
            && ChipNameOf(g.tree, dir) == ChipNameOf(n.tree, dir) == Some(y.chip)
  {
    hide ChipNameOf, VerdictAt, DeviceSensors, FromSensors, WasMatched, CanArm, ProperNames, Selected, GoesBy,
         SpellsInteger;
    EveryNamedSensorIsGuarded(u, o, n, s, dir, y);
    v := GoodPassReadsEverySensor(u, s, turns, i, y);
  }

  /**
   No silent OK. When no sensor is named and a pass is OK on the sensors' word, then every device that
   was there at arming with a matching chip has a lowest-numbered temperature that could be read in this
   very pass, held a number at or below the limit, and was confirmed afterwards to be on the same chip still.
   */
  lemma {:induction false} NoSilentOk(u: FloatUnit, o: Options, n: Node, s: Settings, turns: seq<Turn>, i: nat, dir: Path)
    returns (x: Sensor, v: MilliCelsius)
    requires IsArmed(u, o, n, s) && ProperNames(n.tree)
    requires EntryOf(u, n).sensor == "" && WasMatched(n, o.classDir, dir, EntryOf(u, n).chip)
    requires i < |turns| && VerdictAt(Passes(u, s, turns), i, s.max, s.readRetries) == OK
    requires FromSensors(s, turns[i].seen)
    ensures x in DeviceSensors(n.tree, dir) && forall y :: y in DeviceSensors(n.tree, dir) ==> x.index <= y.index
    ensures var g := turns[i].seen.glimpse(x.path);
            && g.content.Some? && SpellsInteger(Trim(g.content.value), 10, v) && v <= EntryOf(u, n).max
            && ChipNameOf(g.tree, dir) == ChipNameOf(n.tree, dir) == Some(x.chip)
  {
    hide ChipNameOf, VerdictAt, DeviceSensors, FromSensors, WasMatched, CanArm, ProperNames, Selected, SpellsInteger;
    x := EveryMatchedDeviceIsGuarded(u, o, n, s, dir);
    v := GoodPassReadsEverySensor(u, s, turns, i, x);
  }

  // ----- what a reference can reach

  function DriverOf(t: Tree, dir: Path): string
    requires ChipNameOf(t, dir).Some?
  {
    Trim(t.contents[Join(dir, "name")])
  }

  /** No driver name on the node has a dash in it. */
  predicate DashFree(t: Tree) {
    forall dir :: dir in t.entries && ChipNameOf(t, dir).Some? ==> '-' !in DriverOf(t, dir)
  }

  lemma {:induction false} SelectedIsOnChip(found: seq<Sensor>, chipRef: string, sensorRef: string, s: Sensor)
    requires Selected(found, chipRef, sensorRef).Ok? && s in Selected(found, chipRef, sensorRef).value
    ensures s in found && RefersTo(chipRef, s.chip) && (sensorRef == "" || GoesBy(s, sensorRef))
  {
    hide Matches, RefersTo, IsNamed, GoesBy;
    MatchesReference(s.chip, chipRef);
    NamedByLabelOrAttribute(s, sensorRef);
    var onChip := OnChip(found, chipRef);
    OnChipIsFilter(found, chipRef);
    if sensorRef == "" {
      FirstPerDeviceIsSubsequence(onChip);
      MembersOfSubsequence(FirstPerDevice(onChip), onChip, s);
    } else {
      NamedIsFilter(onChip, sensorRef);
    }
  }

  /** On a node without dashed driver names, a full reference selects only devices composing to exactly it. */
  lemma {:induction false} FullReferenceSelectsOneName(n: Node, classDir: Path, found: seq<Sensor>, driver: string, a: Address,
                                                       sensorRef: string, s: Sensor)
    requires IsDiscovery(n.tree, classDir, found) && ProperNames(n.tree) && DashFree(n.tree) && '-' !in driver
    requires var r := Selected(found, Compose(driver, a), sensorRef); r.Ok? && s in r.value
    ensures ChipNameOf(n.tree, s.Device()) == Some(Compose(driver, a))
  {
    hide Sorted, AllSensors, Matches, RefersTo, Selected, ProperNames, OwnAddressFrom, Suffix;
    SelectedIsOnChip(found, Compose(driver, a), sensorRef, s);
    MatchesReference(s.chip, Compose(driver, a));
    DiscoveryIsComplete(n.tree, classDir, found, s);
    ReferencesAreExact(driver, a, DriverOf(n.tree, s.Device()), OwnAddressFrom(n.tree, s.Device(), 0));
  }

  /** There, a driver reference selects only that driver's devices, never a longer-named driver's. */
  lemma {:induction false} DriverReferenceSelectsOneDriver(n: Node, classDir: Path, found: seq<Sensor>, driver: string,
                                                           sensorRef: string, s: Sensor)
    requires IsDiscovery(n.tree, classDir, found) && ProperNames(n.tree) && DashFree(n.tree) && '-' !in driver
    requires var r := Selected(found, driver, sensorRef); r.Ok? && s in r.value
    ensures ChipNameOf(n.tree, s.Device()).Some? && DriverOf(n.tree, s.Device()) == driver
  {
    hide Sorted, AllSensors, Matches, RefersTo, Selected, ProperNames, OwnAddressFrom, Suffix;
    SelectedIsOnChip(found, driver, sensorRef, s);
    MatchesReference(s.chip, driver);
    DiscoveryIsComplete(n.tree, classDir, found, s);
    ReferencesAreExact(driver, Virtual, DriverOf(n.tree, s.Device()), OwnAddressFrom(n.tree, s.Device(), 0));
  }

  // ----- a recycled hwmon index

  /** From turn `k` on the watched directory of `x` no longer composes to the chip it was selected for. */
  predicate ReplacedFrom(x: Sensor, turns: seq<Turn>, k: nat) {
    forall i :: k <= i < |turns| ==> ChipNameOf(turns[i].seen.glimpse(x.path).tree, x.Device()) != Some(x.chip)
  }

  lemma {:induction false} ReplacedSensorFails(u: FloatUnit, s: Settings, turns: seq<Turn>, i: nat, x: Sensor)
    requires i < |turns| && x in s.sensors && FromSensors(s, turns[i].seen)
    requires ChipNameOf(turns[i].seen.glimpse(x.path).tree, x.Device()) != Some(x.chip)
    ensures Passes(u, s, turns)[i].Failed?
  {
    hide ChipNameOf;
    var readings := Readings(s.sensors, turns[i].seen.glimpse);
    var k :| 0 <= k < |s.sensors| && s.sensors[k] == x;
    assert readings[k] == ReadSensor(x, turns[i].seen.glimpse(x.path));
    OneFailureFailsAll(readings, k);
  }

  /** Neither the disable file nor a good override reading interrupts this pass. */
  predicate IsUninterrupted(u: FloatUnit, s: Settings, o: Observation) {
    !IsSuspended(s, o) && (IsOverridden(s, o) ==> OverrideReading(u, o.override).None?)
  }

  predicate WholeWindow(u: FloatUnit, s: Settings, turns: seq<Turn>, k: nat) {
    k + s.readRetries < |turns| && forall i :: k <= i <= k + s.readRetries && i < |turns| ==> IsUninterrupted(u, s, turns[i].seen)
  }

  /**
   A recycled hwmon index cannot keep a node running: once a watched directory holds another chip, no
   pass is OK on the sensors' word, and a whole retry window of uninterrupted passes ends the loop.
   */
  lemma {:induction false} RecycledIndexTrips(u: FloatUnit, s: Settings, turns: seq<Turn>, x: Sensor, k: nat,
                                              n: nat, outcome: Outcome)
    requires s.readRetries >= 0 && x in s.sensors && ReplacedFrom(x, turns, k)
    requires EndsAt(Passes(u, s, turns), Stops(turns), s.max, s.readRetries, n, outcome)
    ensures forall i ::
      k <= i < |turns| && FromSensors(s, turns[i].seen) ==> VerdictAt(Passes(u, s, turns), i, s.max, s.readRetries) != OK
    ensures WholeWindow(u, s, turns, k) ==>
      n <= k + s.readRetries + 1 && (outcome.TrippedOn? || (outcome.Stopped? && turns[n - 1].stop))
  {
    hide ChipNameOf, EndsAt;
    forall i | k <= i < |turns| && FromSensors(s, turns[i].seen)
      ensures VerdictAt(Passes(u, s, turns), i, s.max, s.readRetries) != OK
    {
      ReplacedSensorFails(u, s, turns, i, x);
      assert Passes(u, s, turns)[..i + 1][i].Failed?;
    }
    if WholeWindow(u, s, turns, k) {
      forall i | k <= i <= k + s.readRetries
        ensures Passes(u, s, turns)[i].Failed?
      {
        if FromSensors(s, turns[i].seen) {
          ReplacedSensorFails(u, s, turns, i, x);
        }
      }
      FailuresEndTheLoop(Passes(u, s, turns), Stops(turns), s.max, s.readRetries, k, n, outcome);
    }
  }
}

/** Temperature sensors: finding them, ordering them, and reading one with its chip re-confirmed. */
module Hwmon {
  import opened Numerals
  import opened Ordering
  import opened Sysfs
  import opened Text
  import opened Units
  import opened Wrappers

  datatype Sensor = Sensor(chip: string, attr: string, labelText: string, index: int, path: Path) {
    function Device(): Path {
      Dir(path)
    }

    function Name(): string {
      chip + "/" + if labelText != "" then labelText else attr
    }
  }

  // ----- one device

  /** The digits of `temp<digits>_input`. */
  function TempDigits(file: string): Option<string> {
    if |file| > 10 && HasPrefix(file, "temp") && HasSuffix(file, "_input") && AllDecimal(file[4..|file| - 6])
    then Some(file[4..|file| - 6])
    else None
  }

  /** The sensor an attribute file stands for, if it is a temperature with a representable index. */
  function SensorOf(t: Tree, dir: Path, chip: string, file: string): Option<Sensor> {
    match TempDigits(file)
    case None => None
    case Some(digits) =>
      match ParseInt(digits, 10, 64)
      case None => None
      case Some(index) =>
        var attr := "temp" + digits;
        var labelFile := Join(dir, attr + "_label");
        var labelText := if labelFile in t.contents then Trim(t.contents[labelFile]) else "";
        Some(Sensor(chip, attr, labelText, index, Join(dir, file)))
  }

  /** The attribute files are exactly those named `temp<digits>_input`, and the number is the sensor's index. */
  lemma {:induction false} AttributeFilesAreTemperatures(t: Tree, dir: Path, chip: string, file: string, digits: string)
    requires digits != "" && AllDecimal(digits)
    ensures TempDigits(file) == Some(digits) <==> file == "temp" + digits + "_input"
    ensures file == "temp" + digits + "_input" ==>
      match SensorOf(t, dir, chip, file)
      case Some(s) =>
        && s.chip == chip && s.attr == "temp" + digits && s.path == Join(dir, file)
        && Digits(digits, 10) == Some(s.index) && s.index < Limit(64)
        && s.labelText == (var labelFile := Join(dir, s.attr + "_label");
                           if labelFile in t.contents then Trim(t.contents[labelFile]) else "")
      case None => Digits(digits, 10).None? || Digits(digits, 10).value >= Limit(64)
  {
    hide Digits, Join, Trim;
    var whole := "temp" + digits + "_input";
    assert whole[4..|whole| - 6] == digits;
    assert whole[..4] == "temp" && whole[|whole| - 6..] == "_input";
    if TempDigits(file) == Some(digits) {
      assert file == file[..4] + file[4..|file| - 6] + file[|file| - 6..];
    }
  }

  function SensorsOf(t: Tree, dir: Path, chip: string, files: seq<string>): seq<Sensor> {
    if files == [] then []
    else
      var n := |files| - 1;
      SensorsOf(t, dir, chip, files[..n])
      + match SensorOf(t, dir, chip, files[n]) { case None => [] case Some(s) => [s] }
  }

  /** All temperature sensors of the device in `dir`; none when it has no name or cannot be listed. */
  function DeviceSensors(t: Tree, dir: Path): seq<Sensor> {
    if ChipNameOf(t, dir).None? || dir !in t.entries then []
    else SensorsOf(t, dir, ChipNameOf(t, dir).value, t.entries[dir])
  }

  function AllSensors(t: Tree, classDir: Path, devices: seq<string>): seq<Sensor> {
    if devices == [] then []
    else
      var n := |devices| - 1;
      AllSensors(t, classDir, devices[..n]) + DeviceSensors(t, Join(classDir, devices[n]))
  }

  // ----- discovery order

  predicate SensorLess(a: Sensor, b: Sensor) {
    if a.chip != b.chip then Less(a.chip, b.chip) else a.index < b.index
  }

  predicate Sorted(s: seq<Sensor>) {
    forall i, j :: 0 <= i < j < |s| ==> !SensorLess(s[j], s[i])
  }

  lemma {:induction false} NotLessIsTransitive(a: Sensor, b: Sensor, c: Sensor)
    requires !SensorLess(b, a) && !SensorLess(c, b)
    ensures !SensorLess(c, a)
  {
    LessIsTotal(a.chip, b.chip);
    LessIsTotal(b.chip, c.chip);
    LessIsTotal(a.chip, c.chip);
    if Less(a.chip, b.chip) && Less(b.chip, c.chip) {
      LessIsTransitive(a.chip, b.chip, c.chip);
    }
  }

  function InsertSensor(x: Sensor, s: seq<Sensor>): seq<Sensor> {
    if s == [] || !SensorLess(s[0], x) then [x] + s
    else [s[0]] + InsertSensor(x, s[1..])
  }

  lemma {:induction false} InsertSensorIsSorted(x: Sensor, s: seq<Sensor>)
    requires Sorted(s)
    ensures Sorted(InsertSensor(x, s)) && multiset(InsertSensor(x, s)) == multiset(s) + multiset{x}
  {
    hide SensorLess;
    if s != [] {
      assert s == [s[0]] + s[1..];
      if SensorLess(s[0], x) {
        var rest := InsertSensor(x, s[1..]);
        InsertSensorIsSorted(x, s[1..]);
        forall y | y in rest
          ensures !SensorLess(y, s[0])
        {
          assert y in multiset(rest);
          SensorLessIsStrict(s[0], x);
        }
        PrependSensor(s[0], rest);
      } else {
        forall y | y in s
          ensures !SensorLess(y, x)
        {
          if y != s[0] {
            NotLessIsTransitive(x, s[0], y);
          }
        }
        PrependSensor(x, s);
      }
    }
  }

  lemma {:induction false} SensorLessIsStrict(a: Sensor, b: Sensor)
    ensures !(SensorLess(a, b) && SensorLess(b, a))
  {
    LessIsTotal(a.chip, b.chip);
  }

  lemma {:induction false} PrependSensor(first: Sensor, rest: seq<Sensor>)
    requires Sorted(rest) && forall y :: y in rest ==> !SensorLess(y, first)
    ensures Sorted([first] + rest)
  {
    hide SensorLess;
  }

  /** What `sort.Slice` promises: the same sensors, none before a lesser one. Ties may fall either way. */
  method SortSensors(s: seq<Sensor>) returns (r: seq<Sensor>)
    ensures Sorted(r) && multiset(r) == multiset(s)
  {
    r := [];
    for i := 0 to |s|
      invariant Sorted(r) && multiset(r) == multiset(s[..i])
    {
      InsertSensorIsSorted(s[i], r);
      r := InsertSensor(s[i], r);
      assert s[..i + 1] == s[..i] + [s[i]];
    }
    assert s[..|s|] == s;
  }

  // ----- discovery

  method ChipSensors(t: Tree, dir: Path, chip: string) returns (r: Option<seq<Sensor>>)
    ensures r == if dir in t.entries then Some(SensorsOf(t, dir, chip, t.entries[dir])) else None
  {
    if dir !in t.entries {
      return None;
    }
    var files := t.entries[dir];
    var found := [];
    for i := 0 to |files|
      invariant found == SensorsOf(t, dir, chip, files[..i])
    {
      var sensor := SensorOf(t, dir, chip, files[i]);
      if sensor.Some? {
        found := found + [sensor.value];
      }
      assert files[..i + 1][..i] == files[..i];
    }
    assert files[..|files|] == files;
    return Some(found);
  }

  /** Every temperature sensor below `classDir`, ordered by chip name and then by index. */
  method Discover(t: Tree, classDir: Path) returns (r: Option<seq<Sensor>>)
    ensures r.None? <==> classDir !in t.entries
    ensures r.Some? ==> IsDiscovery(t, classDir, r.value)
  {
    if classDir !in t.entries {
      return None;
    }
    var devices := t.entries[classDir];
    var found := [];
    for i := 0 to |devices|
      invariant found == AllSensors(t, classDir, devices[..i])
    {
      assert devices[..i + 1][..i] == devices[..i];
      var dir := Join(classDir, devices[i]);
      var chip := ComposeChipName(t, dir);
      if chip.None? {
        continue;
      }
      var sensors := ChipSensors(t, dir, chip.value);
      if sensors.None? {
        continue;
      }
      found := found + sensors.value;
    }
    assert devices[..|devices|] == devices;
    var sorted := SortSensors(found);
    return Some(sorted);
  }

  ghost predicate IsDiscovery(t: Tree, classDir: Path, sensors: seq<Sensor>) {
    && classDir in t.entries
    && Sorted(sensors)
    && multiset(sensors) == multiset(AllSensors(t, classDir, t.entries[classDir]))
  }

  /**
   Discovery order, spelled out: of two sensors the earlier has the chip name that is smaller at the first
   character where they differ, or the same chip name and no greater index.
   */
  lemma {:induction false} DiscoveryOrder(t: Tree, classDir: Path, sensors: seq<Sensor>, i: nat, j: nat)
    requires IsDiscovery(t, classDir, sensors) && i < j < |sensors|
    ensures var a, b := sensors[i], sensors[j];
            if a.chip == b.chip then a.index <= b.index else exists k: nat :: DiffersFirstAt(a.chip, b.chip, k)
  {
    hide AllSensors, DiffersFirstAt, Less;
    var a, b := sensors[i], sensors[j];
    LessIsTotal(a.chip, b.chip);
    LessIsFirstDifference(a.chip, b.chip);
    assert !SensorLess(b, a);
  }

  /** File names cannot hold a slash. */
  predicate ProperNames(t: Tree) {
    forall dir, i :: dir in t.entries && 0 <= i < |t.entries[dir]| ==> '/' !in t.entries[dir][i]
  }

  /** `s` is what some attribute file of the class device in `dir` stands for, under the chip name composed there. */
  ghost predicate Exports(t: Tree, classDir: Path, dir: Path, s: Sensor) {
    && classDir in t.entries
    && (exists i :: 0 <= i < |t.entries[classDir]| && dir == Join(classDir, t.entries[classDir][i]))
    && HasAttribute(t, dir, s)
  }

  ghost predicate HasAttribute(t: Tree, dir: Path, s: Sensor) {
    && dir in t.entries
    && ChipNameOf(t, dir) == Some(s.chip)
    && exists i :: 0 <= i < |t.entries[dir]| && SensorOf(t, dir, s.chip, t.entries[dir][i]) == Some(s)
  }

  lemma {:induction false} SensorsOfAreFiles(t: Tree, dir: Path, chip: string, files: seq<string>, s: Sensor)
    ensures s in SensorsOf(t, dir, chip, files) <==> exists i :: 0 <= i < |files| && SensorOf(t, dir, chip, files[i]) == Some(s)
  {
    hide SensorOf;
    if files != [] {
      var n := |files| - 1;
      SensorsOfAreFiles(t, dir, chip, files[..n], s);
      assert forall i :: 0 <= i < n ==> files[..n][i] == files[i];
    }
  }

  lemma {:induction false} DeviceSensorsAreAttributes(t: Tree, dir: Path, s: Sensor)
    ensures s in DeviceSensors(t, dir) <==> HasAttribute(t, dir, s)
  {
    hide ChipNameOf, SensorOf;
    if ChipNameOf(t, dir).Some? && dir in t.entries {
      SensorsOfAreFiles(t, dir, ChipNameOf(t, dir).value, t.entries[dir], s);
      if s in SensorsOf(t, dir, ChipNameOf(t, dir).value, t.entries[dir]) {
        ChipOfSensor(t, dir, ChipNameOf(t, dir).value, t.entries[dir], s);
      }
    }
  }

  lemma {:induction false} ChipOfSensor(t: Tree, dir: Path, chip: string, files: seq<string>, s: Sensor)
    requires s in SensorsOf(t, dir, chip, files)
    ensures s.chip == chip
  {
    SensorsOfAreFiles(t, dir, chip, files, s);
    hide SensorsOf;
  }

  lemma {:induction false} SensorsOfDevice(t: Tree, dir: Path, chip: string, files: seq<string>, s: Sensor)
    requires s in SensorsOf(t, dir, chip, files)
    requires forall i :: 0 <= i < |files| ==> '/' !in files[i]
    ensures s.chip == chip && s.Device() == dir
  {
    var n := |files| - 1;
    if s in SensorsOf(t, dir, chip, files[..n]) {
      SensorsOfDevice(t, dir, chip, files[..n], s);
    } else {
      DirOfJoin(dir, files[n]);
    }
  }

  lemma {:induction false} AllSensorsAreExported(t: Tree, classDir: Path, devices: seq<string>, s: Sensor)
    ensures s in AllSensors(t, classDir, devices)
       <==> exists i :: 0 <= i < |devices| && s in DeviceSensors(t, Join(classDir, devices[i]))
  {
    hide DeviceSensors, Join;
    if devices != [] {
      var n := |devices| - 1;
      AllSensorsAreExported(t, classDir, devices[..n], s);
      assert forall i :: 0 <= i < n ==> devices[..n][i] == devices[i];
    }
  }

  /** Discovery finds exactly the sensors the class exports, each under its device's own chip name. */
  lemma {:induction false} DiscoveryIsComplete(t: Tree, classDir: Path, sensors: seq<Sensor>, s: Sensor)
    requires IsDiscovery(t, classDir, sensors) && ProperNames(t)
    ensures s in sensors <==> Exports(t, classDir, s.Device(), s)
    ensures s in sensors ==> ChipNameOf(t, s.Device()) == Some(s.chip)
  {
    hide ChipNameOf, Sorted, Dir, HasAttribute;
    var devices := t.entries[classDir];
    AllSensorsAreExported(t, classDir, devices, s);
    DeviceSensorsAreAttributes(t, s.Device(), s);
    assert s in sensors <==> s in multiset(sensors);
    assert s in AllSensors(t, classDir, devices) <==> s in multiset(AllSensors(t, classDir, devices));
    if s in sensors {
      var i :| 0 <= i < |devices| && s in DeviceSensors(t, Join(classDir, devices[i]));
      var dir := Join(classDir, devices[i]);
      SensorsOfDevice(t, dir, ChipNameOf(t, dir).value, t.entries[dir], s);
    }
  }

  // ----- reading

  /** What a pass sees of one sensor: its attribute file, and then the tree its chip is confirmed in. */
  datatype Glimpse = Glimpse(content: Option<string>, tree: Tree)

  /** A reading counts only while the sensor's directory still composes to the chip it was selected for. */
  function ReadSensor(s: Sensor, g: Glimpse): Option<MilliCelsius> {
    match g.content
    case None => None
    case Some(text) =>
      match ParseInt(Trim(text), 10, 64)
      case None => None
      case Some(v) => if ChipNameOf(g.tree, s.Device()) == Some(s.chip) then Some(v) else None
  }

  /**
   A pass reads `v`: the attribute could be read, holds a sign and decimal digits for the 64-bit number
   `v` between whitespace, and its directory then composes to the selected chip still.
   */
  predicate ReadsAs(s: Sensor, g: Glimpse, v: MilliCelsius) {
    && g.content.Some?
    && SpellsInteger(Trim(g.content.value), 10, v)
    && -9223372036854775808 <= v <= 9223372036854775807
    && ChipNameOf(g.tree, s.Device()) == Some(s.chip)
  }

  /** A sensor has a reading exactly then; an unreadable attribute, another text or another chip gives none. */
  lemma {:induction false} ReadingsAreExact(s: Sensor, g: Glimpse, v: MilliCelsius)
    ensures ReadSensor(s, g) == Some(v) <==> ReadsAs(s, g, v)
  {
    hide ParseInt, SpellsInteger, Trim, ChipNameOf;
    if g.content.Some? {
      ParseIntIsExact(Trim(g.content.value), 10, 64, v);
    }
  }

  /** The kernel ends the number with a newline. */
  lemma {:induction false} KernelLinesReadBack(s: Sensor, g: Glimpse, v: int)
    requires -9223372036854775808 <= v <= 9223372036854775807 && g.content == Some(Format(v, 10, 0) + "\n")
    ensures ReadSensor(s, g) == if ChipNameOf(g.tree, s.Device()) == Some(s.chip) then Some(v) else None
  {
    hide ChipNameOf, Format, ReadSensor;
    assert Blank("\n") && "" + Format(v, 10, 0) + "\n" == Format(v, 10, 0) + "\n";
    KernelReadingsReadBack(s, g, "", v, "\n");
  }

  /**
   Every number the kernel can print, with whatever whitespace around it, is read back as that number, if
   the directory composes to the selected chip at the time of the confirmation, and refused if it does not.
   */
  lemma {:induction false} KernelReadingsReadBack(s: Sensor, g: Glimpse, left: string, v: int, right: string)
    requires Blank(left) && Blank(right) && -Limit(64) <= v < Limit(64)
    requires g.content == Some(left + Format(v, 10, 0) + right)
    ensures ReadSensor(s, g) == if ChipNameOf(g.tree, s.Device()) == Some(s.chip) then Some(v) else None
  {
    hide ChipNameOf, Format, Digits, ParseInt;
    var text := Format(v, 10, 0);
    FormatShape(v, 10, 0);
    DigitsAreNoSpaces(text, v < 0);
    TrimPadded(left, text, right);
    TrimOfTrimmed(text);
    ParseIntOfFormat(v, 10, 0, 64);
  }

  lemma {:induction false} DigitsAreNoSpaces(s: string, signed: bool)
    requires s != "" && if signed then |s| >= 2 && s[0] == '-' && AllHex(s[1..]) else AllHex(s)
    ensures Trimmed(s)
  {
    var last := |s| - 1;
    assert signed ==> s[last] == s[1..][last - 1];
  }

  /** Reads the attribute, then re-composes the chip name; any doubt is an error. */
  method Read(s: Sensor, g: Glimpse) returns (r: Option<MilliCelsius>)
    ensures r == ReadSensor(s, g)
    ensures forall v :: r == Some(v) <==> ReadsAs(s, g, v)
  {
    hide ParseInt, Trim, ChipNameOf, ReadsAs;
    forall v
      ensures ReadSensor(s, g) == Some(v) <==> ReadsAs(s, g, v)
    {
      ReadingsAreExact(s, g, v);
    }
    if g.content.None? {
      return None;
    }
    var v := ParseInt(Trim(g.content.value), 10, 64);
    if v.None? {
      return None;
    }
    var chip := ComposeChipName(g.tree, s.Device());
    if chip.None? || chip.value != s.chip {
      return None;
    }
    return v;
  }
}

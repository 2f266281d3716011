/** Resolving a board's chip and sensor references against the sensors a node exports. */
module Selection {
  import opened ChipNames
  import opened Hwmon
  import opened Sysfs
  import opened Wrappers

  datatype SelectError = NoChipConfigured | NoSuchChip | NoSuchSensor

  function Fold(c: char): char {
    if 'A' <= c <= 'Z' then 'a' + (c - 'A') else c
  }

  /** `strings.EqualFold`, over ASCII. */
  predicate EqualFold(a: string, b: string) {
    |a| == |b| && forall i :: 0 <= i < |a| ==> Fold(a[i]) == Fold(b[i])
  }

  /** The same character, or the two cases of one letter. */
  predicate IsSameLetter(c: char, d: char) {
    c == d || ('A' <= c <= 'Z' && d as int - c as int == 32) || ('A' <= d <= 'Z' && c as int - d as int == 32)
  }

  /** The same text up to the case of its letters. */
  predicate SameUpToCase(a: string, b: string) {
    |a| == |b| && forall i :: 0 <= i < |a| ==> IsSameLetter(a[i], b[i])
  }

  /** Labels match exactly up to the case of their letters. */
  lemma {:induction false} EqualFoldIsUpToCase(a: string, b: string)
    ensures EqualFold(a, b) <==> SameUpToCase(a, b)
  {
    forall i | 0 <= i < |a| == |b|
      ensures Fold(a[i]) == Fold(b[i]) <==> IsSameLetter(a[i], b[i])
    {
      FoldsAlike(a[i], b[i]);
    }
  }

  lemma {:induction false} FoldsAlike(c: char, d: char)
    ensures Fold(c) == Fold(d) <==> IsSameLetter(c, d)
  {
    assert 'a' as int - 'A' as int == 32;
  }

  predicate IsNamed(s: Sensor, sensorRef: string) {
    EqualFold(s.labelText, sensorRef) || s.attr == sensorRef
  }

  /** A sensor goes by its label, in whatever case, and by its attribute. */
  predicate GoesBy(s: Sensor, sensorRef: string) {
    SameUpToCase(s.labelText, sensorRef) || s.attr == sensorRef
  }

  lemma {:induction false} NamedByLabelOrAttribute(s: Sensor, sensorRef: string)
    ensures IsNamed(s, sensorRef) <==> GoesBy(s, sensorRef)
  {
    EqualFoldIsUpToCase(s.labelText, sensorRef);
  }

  // ----- what is selected

  function OnChip(sensors: seq<Sensor>, chipRef: string): seq<Sensor> {
    if sensors == [] then []
    else
      var n := |sensors| - 1;
      var kept := OnChip(sensors[..n], chipRef);
      if Matches(sensors[n].chip, chipRef) then kept + [sensors[n]] else kept
  }

  function Named(sensors: seq<Sensor>, sensorRef: string): seq<Sensor> {
    if sensors == [] then []
    else
      var n := |sensors| - 1;
      var kept := Named(sensors[..n], sensorRef);
      if IsNamed(sensors[n], sensorRef) then kept + [sensors[n]] else kept
  }

  function Devices(sensors: seq<Sensor>): set<Path> {
    set s | s in sensors :: s.Device()
  }

  /** The first sensor of each device. */
  function FirstPerDevice(sensors: seq<Sensor>): seq<Sensor> {
    if sensors == [] then []
    else
      var n := |sensors| - 1;
      var kept := FirstPerDevice(sensors[..n]);
      if sensors[n].Device() in Devices(sensors[..n]) then kept else kept + [sensors[n]]
  }

  function Selected(sensors: seq<Sensor>, chipRef: string, sensorRef: string): Result<seq<Sensor>, SelectError> {
    if chipRef == "" then Err(NoChipConfigured)
    else
      var onChip := OnChip(sensors, chipRef);
      if onChip == [] then Err(NoSuchChip)
      else if sensorRef == "" then Ok(FirstPerDevice(onChip))
      else if Named(onChip, sensorRef) == [] then Err(NoSuchSensor)
      else Ok(Named(onChip, sensorRef))
  }

  method Select(sensors: seq<Sensor>, chipRef: string, sensorRef: string) returns (r: Result<seq<Sensor>, SelectError>)
    ensures r == Selected(sensors, chipRef, sensorRef)
  {
    if chipRef == "" {
      return Err(NoChipConfigured);
    }
    var onChip := [];
    for i := 0 to |sensors|
      invariant onChip == OnChip(sensors[..i], chipRef)
    {
      assert sensors[..i + 1][..i] == sensors[..i];
      if Matches(sensors[i].chip, chipRef) {
        onChip := onChip + [sensors[i]];
      }
    }
    assert sensors[..|sensors|] == sensors;
    if |onChip| == 0 {
      return Err(NoSuchChip);
    }
    var out := [];
    if sensorRef == "" {
      var seen: map<Path, bool> := map[];
      for i := 0 to |onChip|
        invariant out == FirstPerDevice(onChip[..i])
        invariant seen.Keys == Devices(onChip[..i])
      {
        assert onChip[..i + 1][..i] == onChip[..i];
        DevicesGrow(onChip, i);
        var device := onChip[i].Device();
        if device !in seen {
          seen := seen[device := true];
          out := out + [onChip[i]];
        }
      }
      assert onChip[..|onChip|] == onChip;
      return Ok(out);
    }
    for i := 0 to |onChip|
      invariant out == Named(onChip[..i], sensorRef)
    {
      assert onChip[..i + 1][..i] == onChip[..i];
      if IsNamed(onChip[i], sensorRef) {
        out := out + [onChip[i]];
      }
    }
    assert onChip[..|onChip|] == onChip;
    if |out| == 0 {
      return Err(NoSuchSensor);
    }
    return Ok(out);
  }

  lemma {:induction false} DevicesGrow(sensors: seq<Sensor>, i: nat)
    requires i < |sensors|
    ensures Devices(sensors[..i + 1]) == Devices(sensors[..i]) + {sensors[i].Device()}
  {
    assert sensors[..i + 1] == sensors[..i] + [sensors[i]];
  }

  // ----- what the selection covers

  /** `a` is what is left of `b` after dropping some of its elements. */
  ghost predicate IsSubsequence(a: seq<Sensor>, b: seq<Sensor>) {
    if a == [] then true
    else if b == [] then false
    else
      var n := |b| - 1;
      IsSubsequence(a, b[..n]) || (a[|a| - 1] == b[n] && IsSubsequence(a[..|a| - 1], b[..n]))
  }

  lemma {:induction false} SubsequenceIsTransitive(a: seq<Sensor>, b: seq<Sensor>, c: seq<Sensor>)
    requires IsSubsequence(a, b) && IsSubsequence(b, c)
    ensures IsSubsequence(a, c)
    decreases |c|, |b|
  {
    if a != [] {
      var n := |c| - 1;
      if IsSubsequence(b, c[..n]) {
        SubsequenceIsTransitive(a, b, c[..n]);
      } else if IsSubsequence(a, b[..|b| - 1]) {
        SubsequenceIsTransitive(a, b[..|b| - 1], c[..n]);
      } else {
        SubsequenceIsTransitive(a[..|a| - 1], b[..|b| - 1], c[..n]);
      }
    }
  }

  lemma {:induction false} SubsequenceExtends(kept: seq<Sensor>, s: seq<Sensor>)
    requires s != [] && IsSubsequence(kept, s[..|s| - 1])
    ensures IsSubsequence(kept, s) && IsSubsequence(kept + [s[|s| - 1]], s)
  {
    assert (kept + [s[|s| - 1]])[..|kept|] == kept;
  }

  lemma {:induction false} OnChipIsFilter(sensors: seq<Sensor>, chipRef: string)
    ensures IsSubsequence(OnChip(sensors, chipRef), sensors)
    ensures forall s :: s in OnChip(sensors, chipRef) <==> s in sensors && Matches(s.chip, chipRef)
  {
    hide Matches, IsSubsequence;
    if sensors == [] {
      SubsequenceOfNothing();
    } else {
      var n := |sensors| - 1;
      OnChipIsFilter(sensors[..n], chipRef);
      assert sensors == sensors[..n] + [sensors[n]];
      SubsequenceExtends(OnChip(sensors[..n], chipRef), sensors);
    }
  }

  lemma {:induction false} NamedIsFilter(sensors: seq<Sensor>, sensorRef: string)
    ensures IsSubsequence(Named(sensors, sensorRef), sensors)
    ensures forall s :: s in Named(sensors, sensorRef) <==> s in sensors && IsNamed(s, sensorRef)
  {
    hide IsNamed, IsSubsequence;
    if sensors == [] {
      SubsequenceOfNothing();
    } else {
      var n := |sensors| - 1;
      NamedIsFilter(sensors[..n], sensorRef);
      assert sensors == sensors[..n] + [sensors[n]];
      SubsequenceExtends(Named(sensors[..n], sensorRef), sensors);
    }
  }

  lemma {:induction false} SubsequenceOfNothing()
    ensures IsSubsequence([], [])
  {
  }

  lemma {:induction false} FirstPerDeviceIsSubsequence(sensors: seq<Sensor>)
    ensures IsSubsequence(FirstPerDevice(sensors), sensors)
    ensures Devices(FirstPerDevice(sensors)) == Devices(sensors)
  {
    hide IsSubsequence;
    if sensors == [] {
      SubsequenceOfNothing();
    } else {
      var n := |sensors| - 1;
      var first := FirstPerDevice(sensors[..n]);
      FirstPerDeviceIsSubsequence(sensors[..n]);
      SubsequenceExtends(first, sensors);
      AddDevice(first, sensors[n]);
      AddDevice(sensors[..n], sensors[n]);
      assert sensors == sensors[..n] + [sensors[n]];
    }
  }

  lemma {:induction false} AddDevice(sensors: seq<Sensor>, s: Sensor)
    ensures Devices(sensors + [s]) == Devices(sensors) + {s.Device()}
  {
  }

  predicate OnePerDevice(sensors: seq<Sensor>) {
    forall i, j :: 0 <= i < j < |sensors| ==> sensors[i].Device() != sensors[j].Device()
  }

  lemma {:induction false} FirstPerDeviceIsInjective(sensors: seq<Sensor>)
    ensures OnePerDevice(FirstPerDevice(sensors))
  {
    if sensors != [] {
      var n := |sensors| - 1;
      var first := FirstPerDevice(sensors[..n]);
      FirstPerDeviceIsInjective(sensors[..n]);
      FirstPerDeviceIsSubsequence(sensors[..n]);
      assert forall i :: 0 <= i < |first| ==> first[i].Device() in Devices(first);
    }
  }

  predicate OneChipPerDevice(sensors: seq<Sensor>) {
    forall s, u :: s in sensors && u in sensors && s.Device() == u.Device() ==> s.chip == u.chip
  }

  /** In discovery order, the first sensor of a device is its lowest-numbered one. */
  lemma {:induction false} FirstIsLowest(sensors: seq<Sensor>, w: Sensor, s: Sensor)
    requires Sorted(sensors) && OneChipPerDevice(sensors)
    requires w in FirstPerDevice(sensors) && s in sensors && w.Device() == s.Device()
    ensures w.index <= s.index
  {
    var n := |sensors| - 1;
    var earlier := FirstPerDevice(sensors[..n]);
    FirstPerDeviceIsSubsequence(sensors[..n]);
    assert sensors == sensors[..n] + [sensors[n]];
    if w in earlier {
      MembersOfSubsequence(earlier, sensors[..n], w);
      if s in sensors[..n] {
        FirstIsLowest(sensors[..n], w, s);
      } else {
        LastIsNotLower(sensors, w);
      }
    } else {
      OnlyOneOfNewDevice(sensors, s);
    }
  }

  lemma {:induction false} OnlyOneOfNewDevice(sensors: seq<Sensor>, s: Sensor)
    requires sensors != [] && sensors[|sensors| - 1].Device() !in Devices(sensors[..|sensors| - 1])
    requires s in sensors && s.Device() == sensors[|sensors| - 1].Device()
    ensures s == sensors[|sensors| - 1]
  {
    var n := |sensors| - 1;
    assert sensors == sensors[..n] + [sensors[n]];
    assert forall u :: u in sensors[..n] ==> u.Device() in Devices(sensors[..n]);
  }

  lemma {:induction false} LastIsNotLower(sensors: seq<Sensor>, w: Sensor)
    requires sensors != [] && Sorted(sensors) && w in sensors
    requires w.chip == sensors[|sensors| - 1].chip
    ensures w.index <= sensors[|sensors| - 1].index
  {
    var k :| 0 <= k < |sensors| && sensors[k] == w;
    assert k < |sensors| - 1 ==> !SensorLess(sensors[|sensors| - 1], sensors[k]);
  }

  lemma {:induction false} OnChipIsSorted(sensors: seq<Sensor>, chipRef: string)
    requires Sorted(sensors)
    ensures Sorted(OnChip(sensors, chipRef))
  {
    hide Matches, SensorLess;
    if sensors != [] {
      var n := |sensors| - 1;
      OnChipIsSorted(sensors[..n], chipRef);
      OnChipIsFilter(sensors[..n], chipRef);
      forall i | 0 <= i < |OnChip(sensors[..n], chipRef)|
        ensures !SensorLess(sensors[n], OnChip(sensors[..n], chipRef)[i])
      {
        assert OnChip(sensors[..n], chipRef)[i] in sensors[..n];
      }
    }
  }

  /**
   With no sensor named, every device with a matching chip is watched by exactly one sensor, its
   lowest-numbered one. That holds when several devices compose to one name, so that their sensors
   interleave in discovery order.
   */
  lemma {:induction false} EveryMatchingDeviceIsWatched(sensors: seq<Sensor>, chipRef: string)
    requires Sorted(sensors) && OneChipPerDevice(sensors) && chipRef != ""
    requires exists s :: s in sensors && RefersTo(chipRef, s.chip)
    ensures var r := Selected(sensors, chipRef, "");
            && r.Ok?
            && IsSubsequence(r.value, sensors)
            && OnePerDevice(r.value)
            && (forall w :: w in r.value ==> w in sensors && RefersTo(chipRef, w.chip))
            && (forall s :: s in sensors && RefersTo(chipRef, s.chip) ==> s.Device() in Devices(r.value))
            && (forall w, s :: w in r.value && s in sensors && s.Device() == w.Device() ==> w.index <= s.index)
  {
    hide Matches, RefersTo;
    forall s: Sensor
      ensures Matches(s.chip, chipRef) <==> RefersTo(chipRef, s.chip)
    {
      MatchesReference(s.chip, chipRef);
    }
    var onChip := OnChip(sensors, chipRef);
    OnChipIsFilter(sensors, chipRef);
    OnChipIsSorted(sensors, chipRef);
    FirstPerDeviceIsSubsequence(onChip);
    FirstPerDeviceIsInjective(onChip);
    SubsequenceIsTransitive(FirstPerDevice(onChip), onChip, sensors);
    forall w, s | w in FirstPerDevice(onChip) && s in sensors && s.Device() == w.Device()
      ensures w in onChip && w.index <= s.index
    {
      MembersOfSubsequence(FirstPerDevice(onChip), onChip, w);
      assert s in onChip;
      FirstIsLowest(onChip, w, s);
    }
    forall w | w in FirstPerDevice(onChip)
      ensures w in onChip
    {
      MembersOfSubsequence(FirstPerDevice(onChip), onChip, w);
    }
  }

  lemma {:induction false} MembersOfSubsequence(a: seq<Sensor>, b: seq<Sensor>, s: Sensor)
    requires IsSubsequence(a, b) && s in a
    ensures s in b
  {
    var n := |b| - 1;
    if IsSubsequence(a, b[..n]) {
      MembersOfSubsequence(a, b[..n], s);
    } else if s != b[n] {
      MembersOfSubsequence(a[..|a| - 1], b[..n], s);
    }
  }

  /** A sensor reference selects every sensor that goes by it on a matching chip, and nothing else. */
  lemma {:induction false} NamedSelectionIsExact(sensors: seq<Sensor>, chipRef: string, sensorRef: string)
    requires chipRef != "" && sensorRef != ""
    ensures var r := Selected(sensors, chipRef, sensorRef);
            && (r.Ok? <==> exists s :: s in sensors && RefersTo(chipRef, s.chip) && GoesBy(s, sensorRef))
            && (r.Ok? ==> IsSubsequence(r.value, sensors))
            && (r.Ok? ==> forall s :: s in r.value <==> s in sensors && RefersTo(chipRef, s.chip) && GoesBy(s, sensorRef))
  {
    hide Matches, IsNamed, GoesBy, RefersTo;
    forall s: Sensor
      ensures Matches(s.chip, chipRef) <==> RefersTo(chipRef, s.chip)
      ensures IsNamed(s, sensorRef) <==> GoesBy(s, sensorRef)
    {
      MatchesReference(s.chip, chipRef);
      NamedByLabelOrAttribute(s, sensorRef);
    }
    var onChip := OnChip(sensors, chipRef);
    OnChipIsFilter(sensors, chipRef);
    NamedIsFilter(onChip, sensorRef);
    SubsequenceIsTransitive(Named(onChip, sensorRef), onChip, sensors);
    if Named(onChip, sensorRef) != [] {
      assert Named(onChip, sensorRef)[0] in Named(onChip, sensorRef);
    }
    if s :| s in sensors && Matches(s.chip, chipRef) && IsNamed(s, sensorRef) {
      assert s in onChip && s in Named(onChip, sensorRef);
    }
  }

  /** Selecting nothing is an error, and the first of the three reasons is the one given. */
  lemma {:induction false} NothingSelectedIsAnError(sensors: seq<Sensor>, chipRef: string, sensorRef: string)
    ensures Selected(sensors, chipRef, sensorRef) == Err(NoChipConfigured) <==> chipRef == ""
    ensures Selected(sensors, chipRef, sensorRef) == Err(NoSuchChip)
       <==> chipRef != "" && forall s :: s in sensors ==> !RefersTo(chipRef, s.chip)
    ensures Selected(sensors, chipRef, sensorRef) == Err(NoSuchSensor)
       <==> chipRef != "" && sensorRef != "" && (exists s :: s in sensors && RefersTo(chipRef, s.chip))
            && forall s :: s in sensors && RefersTo(chipRef, s.chip) ==> !GoesBy(s, sensorRef)
    ensures Selected(sensors, chipRef, sensorRef).Ok? ==> Selected(sensors, chipRef, sensorRef).value != []
  {
    hide Matches, IsNamed, GoesBy, RefersTo;
    forall s: Sensor
      ensures Matches(s.chip, chipRef) <==> RefersTo(chipRef, s.chip)
      ensures IsNamed(s, sensorRef) <==> GoesBy(s, sensorRef)
    {
      MatchesReference(s.chip, chipRef);
      NamedByLabelOrAttribute(s, sensorRef);
    }
    var onChip := OnChip(sensors, chipRef);
    OnChipIsFilter(sensors, chipRef);
    NamedIsFilter(onChip, sensorRef);
    FirstPerDeviceIsSubsequence(onChip);
    if onChip != [] {
      assert onChip[0] in onChip && onChip[0].Device() in Devices(onChip);
    }
    if Named(onChip, sensorRef) != [] {
      assert Named(onChip, sensorRef)[0] in Named(onChip, sensorRef);
    }
  }
}

/**
 The board table line by line: what each raw line has to look like, where it may stand, and what it
 contributes. This is the format as its documentation describes it, without sections or an outline.
 */
module BoardLines {
  import opened BoardLaws
  import opened BoardParser
  import opened BoardTable
  import opened Rounding
  import opened Text
  import opened Wrappers

  // ----- the forms of a line

  /** Blank, or a comment after optional whitespace. */
  ghost predicate IsSkipLine(line: string) {
    Blank(line) || exists i :: 0 <= i < |line| && Blank(line[..i]) && line[i] in "#;"
  }

  predicate IsBracketed(line: string, a: string, b: string, name: string, c: string, d: string) {
    Blank(a) && Blank(b) && Blank(c) && Blank(d) && line == a + ("[" + (b + name + c) + "]") + d
  }

  /** A name in brackets, with whitespace anywhere but inside the name. */
  ghost predicate IsHeaderLine(line: string, name: string) {
    name != "" && Trimmed(name) && exists a, b, c, d :: IsBracketed(line, a, b, name, c, d)
  }

  predicate IsAssignment(line: string, a: string, key: string, b: string, c: string, value: string, d: string) {
    Blank(a) && Blank(b) && Blank(c) && Blank(d) && line == a + (key + b) + "=" + (c + value) + d
  }

  /** A key and a value around the first equals sign, with whitespace on either side of both. */
  ghost predicate IsEntryLine(line: string, key: string, value: string) {
    && Trimmed(key) && Trimmed(value) && '=' !in key && (key == "" || key[0] !in "#;[")
    && exists a, b, c, d :: IsAssignment(line, a, key, b, c, value, d)
  }

  lemma {:induction false} SkipLinesAreSkipped(line: string)
    ensures Classify(line) == Skip <==> IsSkipLine(line)
  {
    if IsSkipLine(line) {
      BlankIsSkipped(line);
    }
    if Classify(line) == Skip {
      var left, right := TrimIsMiddle(line);
      var middle := Trim(line);
      if middle == "" {
        assert line == left + right;
      } else {
        assert line[..|left|] == left && line[|left|] == middle[0];
      }
    }
  }

  lemma {:induction false} HeaderLinesAreHeaders(line: string, name: string)
    ensures Classify(line) == Header(name) <==> IsHeaderLine(line, name)
  {
    hide Trim;
    if IsHeaderLine(line, name) {
      var a, b, c, d :| IsBracketed(line, a, b, name, c, d);
      var middle := "[" + (b + name + c) + "]";
      TrimOfMiddle(a, middle, d);
      assert middle[1..|middle| - 1] == b + name + c;
      TrimOfMiddle(b, name, c);
    }
    if Classify(line) == Header(name) {
      var a, d := TrimIsMiddle(line);
      var middle := Trim(line);
      var inner := middle[1..|middle| - 1];
      var b, c := TrimIsMiddle(inner);
      assert middle == "[" + (b + name + c) + "]";
      assert IsBracketed(line, a, b, name, c, d);
    }
  }

  lemma {:induction false} EntryLinesAreEntries(line: string, key: string, value: string)
    ensures Classify(line) == Entry(key, value) <==> IsEntryLine(line, key, value)
  {
    if IsEntryLine(line, key, value) {
      var a, b, c, d :| IsAssignment(line, a, key, b, c, value, d);
      AssignmentsAreEntries(line, a, key, b, c, value, d);
    }
    if Classify(line) == Entry(key, value) {
      EntriesAreAssignments(line, key, value);
    }
  }

  lemma {:induction false} AssignmentsAreEntries(line: string, a: string, key: string, b: string, c: string, value: string,
                                                 d: string)
    requires Trimmed(key) && Trimmed(value) && '=' !in key && (key == "" || key[0] !in "#;[")
    requires IsAssignment(line, a, key, b, c, value, d)
    ensures Classify(line) == Entry(key, value)
  {
    hide Classify, IsSpace, Trimmed, Trim;
    var front, afterKey := if key == "" then "" else key + b, if key == "" then b else "";
    var back, beforeValue := if value == "" then "" else c + value, if value == "" then c else "";
    PaddedKey(key, b);
    PaddedValue(c, value);
    assert key + b == afterKey + front && c + value == back + beforeValue;
    BothBlank(a, afterKey);
    BothBlank(beforeValue, d);
    hide Blank;
    Regrouped(a, afterKey, front, back, beforeValue, d);
    EntryBetweenBlanks(line, a + afterKey, front, back, beforeValue + d);
  }

  lemma {:induction false} Regrouped(a: string, x: string, front: string, back: string, y: string, d: string)
    ensures a + (x + front) + "=" + (back + y) + d == (a + x) + (front + "=" + back) + (y + d)
  {
  }

  lemma {:induction false} PaddedKey(key: string, b: string)
    requires Trimmed(key) && Blank(b) && '=' !in key
    ensures var front := if key == "" then "" else key + b;
            && Trim(front) == key && '=' !in front
            && (front != "" ==> front[0] == key[0] && !IsSpace(front[0]))
  {
    TrimOfMiddle("", key, b);
    TrimOfTrimmed("");
    NoEqualsInBlank(b);
    hide Trim, IsSpace;
    assert "" + key + b == key + b;
  }

  lemma {:induction false} NoEqualsInBlank(b: string)
    requires Blank(b)
    ensures '=' !in b
  {
  }

  lemma {:induction false} PaddedValue(c: string, value: string)
    requires Trimmed(value) && Blank(c)
    ensures var back := if value == "" then "" else c + value;
            Trim(back) == value && (back != "" ==> !IsSpace(back[|back| - 1]))
  {
    TrimOfMiddle(c, value, "");
    assert c + value + "" == c + value;
    TrimOfTrimmed("");
    hide Trim;
  }

  lemma {:induction false} EntryBetweenBlanks(line: string, left: string, front: string, back: string, right: string)
    requires Blank(left) && Blank(right) && line == left + (front + "=" + back) + right
    requires '=' !in front && (front != "" ==> !IsSpace(front[0]) && front[0] !in "#;[")
    requires back != "" ==> !IsSpace(back[|back| - 1])
    ensures Classify(line) == Entry(Trim(front), Trim(back))
  {
    hide Trim;
    var middle := front + "=" + back;
    assert middle[0] == if front == "" then '=' else front[0];
    assert middle[|middle| - 1] == if back == "" then '=' else back[|back| - 1];
    TrimOfMiddle(left, middle, right);
    CutAtFirst(front, back);
    hide Cut;
  }

  lemma {:induction false} CutAtFirst(front: string, back: string)
    requires '=' !in front
    ensures Cut(front + "=" + back, '=') == Some((front, back))
  {
    BeforeIsUnique(front, '=', back, "=");
    assert (front + "=" + back)[|front| + 1..] == back;
  }

  lemma {:induction false} EntriesAreAssignments(line: string, key: string, value: string)
    requires Classify(line) == Entry(key, value)
    ensures IsEntryLine(line, key, value)
  {
    var left, front, back, right := EntryParts(line, key, value);
    hide Classify, Trim, Trimmed, Blank, IsSpace, IsAssignment;
    var p, b := TrimIsMiddle(front);
    var c, t := TrimIsMiddle(back);
    KeyIsInFront(front, p, key, b);
    AssignmentAround(line, left, p, key, b, c, value, t, right);
  }

  lemma {:induction false} AssignmentAround(line: string, left: string, p: string, key: string, b: string, c: string,
                                            value: string, t: string, right: string)
    requires Blank(left) && Blank(p) && Blank(b) && Blank(c) && Blank(t) && Blank(right)
    requires line == left + (p + key + b + "=" + (c + value + t)) + right
    ensures IsAssignment(line, left + p, key, b, c, value, t + right)
  {
    BothBlank(left, p);
    BothBlank(t, right);
    hide Blank;
    Ungrouped(left, p, key + b, c + value, t, right);
    assert p + key + b == p + (key + b);
  }

  lemma {:induction false} BothBlank(a: string, b: string)
    requires Blank(a) && Blank(b)
    ensures Blank(a + b)
  {
  }

  lemma {:induction false} Ungrouped(left: string, p: string, x: string, y: string, t: string, right: string)
    ensures left + ((p + x) + "=" + (y + t)) + right == (left + p) + x + "=" + y + (t + right)
  {
  }

  lemma {:induction false} EntryParts(line: string, key: string, value: string)
    returns (left: string, front: string, back: string, right: string)
    requires Classify(line) == Entry(key, value)
    ensures Blank(left) && Blank(right) && line == left + (front + "=" + back) + right
    ensures Trim(front) == key && Trim(back) == value && '=' !in front
    ensures front != "" ==> !IsSpace(front[0]) && front[0] !in "#;["
  {
    hide Trim;
    left, right := TrimIsMiddle(line);
    var middle := Trim(line);
    BeforeShape(middle, "=");
    front, back := Before(middle, "="), middle[|Before(middle, "=")| + 1..];
    assert middle == front + "=" + back;
    assert front != "" ==> front[0] == middle[0];
  }

  lemma {:induction false} KeyIsInFront(front: string, p: string, key: string, b: string)
    requires front == p + key + b && Blank(p) && '=' !in front
    requires front != "" ==> !IsSpace(front[0]) && front[0] !in "#;["
    ensures '=' !in key && (key == "" || key[0] !in "#;[")
  {
    assert forall i :: 0 <= i < |key| ==> front[|p| + i] == key[i];
    assert front[..|p|] == p;
  }

  /** Between whitespace, an open bracket without its end, empty brackets, or a text without an equals sign is a fault. */
  lemma {:induction false} OtherLinesAreFaults(left: string, text: string, right: string)
    requires Blank(left) && Blank(right) && text != "" && Trimmed(text)
    ensures text[0] == '[' && text[|text| - 1] != ']' ==> Classify(left + text + right) == UnterminatedHeader
    ensures text[0] == '[' && text[|text| - 1] == ']' && Blank(text[1..|text| - 1]) ==>
      Classify(left + text + right) == EmptyHeader
    ensures text[0] !in "#;[" && '=' !in text ==> Classify(left + text + right) == NotAPair
  {
    hide Trim;
    TrimOfMiddle(left, text, right);
    if text[0] == '[' && text[|text| - 1] == ']' && Blank(text[1..|text| - 1]) {
      TrimOfBlank(text[1..|text| - 1]);
    }
    if '=' !in text {
      BeforeWithoutStop(text, "=");
    }
  }

  /** Such a line refuses the table, and it is the line that is reported if all before it are in order. */
  lemma {:induction false} FaultsAreRefused(u: FloatUnit, lines: seq<string>, i: nat, left: string, text: string, right: string)
    requires i < |lines| && lines[i] == left + text + right && Blank(left) && Blank(right) && text != "" && Trimmed(text)
    requires || (text[0] == '[' && text[|text| - 1] != ']')
             || (text[0] == '[' && text[|text| - 1] == ']' && Blank(text[1..|text| - 1]))
             || (text[0] !in "#;[" && '=' !in text)
    ensures !WellFormed(u, Items(lines))
    ensures LinesOk(u, Items(lines)[..i]) ==> FirstFault(u, Items(lines), i + 1)
  {
    hide Classify, LinesOk;
    OtherLinesAreFaults(left, text, right);
    assert IsFault(Items(lines)[i]);
    LinesOkStep(u, Items(lines), i);
    FaultsPersist(u, Items(lines), i + 1);
  }

  // ----- where the entries of a section come from

  /** Item `i` comes after item `h` with no header in between or there. */
  predicate Follows(items: seq<Item>, h: nat, i: nat) {
    h < i < |items| && forall k :: h < k <= i ==> !items[k].Header?
  }

  ghost predicate HasEntryAfter(items: seq<Item>, h: nat, key: string, value: string) {
    exists i: nat :: Follows(items, h, i) && items[i] == Entry(key, value)
  }

  /** Sections have the names and lines of their headers, in the order of the file. */
  predicate AreInOrder(items: seq<Item>, s: seq<Section>) {
    && (forall j :: 0 <= j < |s| ==> 1 <= s[j].line <= |items| && items[s[j].line - 1] == Header(s[j].name))
    && (forall i, j :: 0 <= i < j < |s| ==> s[i].line < s[j].line)
  }

  /** No header comes after the last section's. */
  predicate NoneLater(items: seq<Item>, s: seq<Section>) {
    forall k :: (if s == [] then 0 else s[|s| - 1].line) <= k < |items| ==> !items[k].Header?
  }

  lemma {:induction false} SectionsAreInOrder(items: seq<Item>)
    ensures AreInOrder(items, OutlineOf(items).sections) && NoneLater(items, OutlineOf(items).sections)
  {
    if items != [] {
      Unfolded(items);
      hide OutlineOf, Extend;
      var n := |items| - 1;
      SectionsAreInOrder(items[..n]);
      OneMoreItem(OutlineOf(items[..n]), items[n], n + 1);
      StillInOrder(items, OutlineOf(items[..n]).sections, OutlineOf(items).sections);
    }
  }

  lemma {:induction false} StillInOrder(items: seq<Item>, s: seq<Section>, t: seq<Section>)
    requires items != []
    requires var n := |items| - 1;
             && AreInOrder(items[..n], s) && NoneLater(items[..n], s)
             && if items[n].Header? then t == s + [Section(items[n].name, n + 1, [])]
                else |t| == |s| && forall j :: 0 <= j < |s| ==> t[j].name == s[j].name && t[j].line == s[j].line
    ensures AreInOrder(items, t) && NoneLater(items, t)
  {
    var n := |items| - 1;
    assert forall k :: 0 <= k < n ==> items[..n][k] == items[k];
  }

  lemma {:induction false} OneMoreItem(o: Outline, item: Item, line: nat)
    ensures var s, t := o.sections, Extend(o, item, line).sections;
            if item.Header? then t == s + [Section(item.name, line, [])]
            else
              && |t| == |s|
              && (forall j :: 0 <= j < |s| ==> t[j].name == s[j].name && t[j].line == s[j].line)
              && (forall j :: 0 <= j < |s| - 1 ==> t[j] == s[j])
              && (s != [] ==> t[|s| - 1].entries == s[|s| - 1].entries
                                                    + if item.Entry? then [(item.key, item.value)] else [])
  {
  }

  /** Every header opens a section. */
  lemma {:induction false} HeadersOpenSections(items: seq<Item>, h: nat) returns (j: nat)
    requires h < |items| && items[h].Header?
    ensures j < |OutlineOf(items).sections| && OutlineOf(items).sections[j].line == h + 1
    ensures OutlineOf(items).sections[j].name == items[h].name
  {
    var n := |items| - 1;
    OneMoreItem(OutlineOf(items[..n]), items[n], n + 1);
    if h < n {
      j := HeadersOpenSections(items[..n], h);
    } else {
      j := |OutlineOf(items[..n]).sections|;
    }
  }

  /** A section holds exactly the entries that follow its header. */
  lemma {:induction false} SectionHoldsItsEntries(items: seq<Item>, j: nat, key: string, value: string)
    requires j < |OutlineOf(items).sections|
    ensures var s := OutlineOf(items).sections[j];
            && 1 <= s.line <= |items|
            && ((key, value) in s.entries <==> HasEntryAfter(items, s.line - 1, key, value))
  {
    hide OutlineOf, HasEntryAfter;
    SectionsAreInOrder(items);
    var n := |items| - 1;
    var front := items[..n];
    SectionsAreInOrder(front);
    Unfolded(items);
    OneMoreItem(OutlineOf(front), items[n], n + 1);
    var s := OutlineOf(front).sections;
    var h := OutlineOf(items).sections[j].line - 1;
    if j < |s| {
      SectionHoldsItsEntries(front, j, key, value);
      EntriesAfterGrow(items, h, key, value);
      if items[n].Entry? {
        if j < |s| - 1 {
          assert items[s[|s| - 1].line - 1].Header?;
          assert !Follows(items, h, n);
        } else {
          assert Follows(items, h, n);
        }
      }
    } else {
      NothingAfterLast(items, h, key, value);
    }
  }

  lemma {:induction false} Unfolded(items: seq<Item>)
    requires items != []
    ensures OutlineOf(items) == Extend(OutlineOf(items[..|items| - 1]), items[|items| - 1], |items|)
  {
  }

  lemma {:induction false} EntriesAfterGrow(items: seq<Item>, h: nat, key: string, value: string)
    requires items != [] && h < |items| - 1
    ensures var n := |items| - 1;
            HasEntryAfter(items, h, key, value)
            <==> HasEntryAfter(items[..n], h, key, value) || (Follows(items, h, n) && items[n] == Entry(key, value))
  {
    var n := |items| - 1;
    var front := items[..n];
    forall i: nat | i < n
      ensures Follows(items, h, i) <==> Follows(front, h, i)
      ensures front[i] == items[i]
    {
      FollowsInPrefix(items, h, i);
    }
    hide Follows;
    if HasEntryAfter(items, h, key, value) {
      var i: nat :| Follows(items, h, i) && items[i] == Entry(key, value);
      assert i < n ==> Follows(front, h, i) && front[i] == Entry(key, value);
    }
  }

  lemma {:induction false} FollowsInPrefix(items: seq<Item>, h: nat, i: nat)
    requires i < |items| - 1
    ensures Follows(items, h, i) <==> Follows(items[..|items| - 1], h, i)
  {
  }

  lemma {:induction false} NothingAfterLast(items: seq<Item>, h: nat, key: string, value: string)
    requires h + 1 >= |items|
    ensures !HasEntryAfter(items, h, key, value)
  {
  }

  // ----- the table as its lines

  /** `chip` with a value, `sensor` with any, or `max_celsius` with a plausible number. */
  ghost predicate IsSetting(u: FloatUnit, key: string, value: string) {
    || (key == "chip" && value != "")
    || key == "sensor"
    || (key == "max_celsius" && value != "" && exists m :: IsTemperature(u, value, 20.0, 150.0, m))
  }

  ghost predicate IsHeader(lines: seq<string>, i: int) {
    0 <= i < |lines| && exists name :: IsHeaderLine(lines[i], name)
  }

  /** A header not seen before, or a setting below some header that its section does not have yet, or nothing. */
  ghost predicate Fits(u: FloatUnit, lines: seq<string>, i: nat)
    requires i < |lines|
  {
    || IsSkipLine(lines[i])
    || (exists name :: IsHeaderLine(lines[i], name) && forall h :: 0 <= h < i ==> !IsHeaderLine(lines[h], name))
    || (exists key, value ::
          && IsEntryLine(lines[i], key, value) && IsSetting(u, key, value)
          && (exists h :: h < i && IsHeader(lines, h))
          && forall j, v :: 0 <= j < i && IsEntryLine(lines[j], key, v) ==> exists h :: j < h < i && IsHeader(lines, h))
  }

  /** Line `i` is in the section whose header is line `h`. */
  ghost predicate IsInSection(lines: seq<string>, h: nat, i: nat) {
    h < i < |lines| && forall k :: h < k <= i ==> !IsHeader(lines, k)
  }

  ghost predicate Sets(lines: seq<string>, h: nat, key: string, value: string) {
    exists i: nat :: IsInSection(lines, h, i) && IsEntryLine(lines[i], key, value)
  }

  ghost predicate SetsSome(lines: seq<string>, h: nat, key: string) {
    exists value :: Sets(lines, h, key, value)
  }

  /** Every line fits where it stands, there is a header, and each header's section sets a chip and a limit. */
  ghost predicate IsTable(u: FloatUnit, lines: seq<string>) {
    && (forall i: nat :: i < |lines| ==> Fits(u, lines, i))
    && (exists h :: IsHeader(lines, h))
    && forall h: nat :: IsHeader(lines, h) ==> SetsSome(lines, h, "chip") && SetsSome(lines, h, "max_celsius")
  }

  lemma {:induction false} SettingsAreOk(u: FloatUnit, key: string, value: string)
    ensures EntryOk(u, (key, value)) <==> IsSetting(u, key, value)
  {
    hide ParseThreshold, IsTemperature;
    forall m
      ensures ParseThreshold(u, value) == Ok(m) <==> value != "" && IsTemperature(u, value, 20.0, 150.0, m)
    {
      ThresholdsAreExact(u, value, m);
    }
    if ParseThreshold(u, value).Ok? {
      assert IsTemperature(u, value, 20.0, 150.0, ParseThreshold(u, value).value);
    }
  }

  /** The item of a line is what the line looks like. */
  lemma {:induction false} FormOf(line: string)
    ensures Classify(line).Skip? <==> IsSkipLine(line)
    ensures Classify(line).Header? <==> exists name :: IsHeaderLine(line, name)
    ensures forall name :: IsHeaderLine(line, name) <==> Classify(line) == Header(name)
    ensures forall key, value :: IsEntryLine(line, key, value) <==> Classify(line) == Entry(key, value)
  {
    hide Classify, IsSkipLine, IsHeaderLine, IsEntryLine;
    SkipLinesAreSkipped(line);
    forall name
      ensures IsHeaderLine(line, name) <==> Classify(line) == Header(name)
    {
      HeaderLinesAreHeaders(line, name);
    }
    forall key, value
      ensures IsEntryLine(line, key, value) <==> Classify(line) == Entry(key, value)
    {
      EntryLinesAreEntries(line, key, value);
    }
    if Classify(line).Header? {
      assert IsHeaderLine(line, Classify(line).name);
    }
  }

  // ----- the same, on items

  ghost predicate ItemFits(u: FloatUnit, items: seq<Item>, i: nat)
    requires i < |items|
  {
    match items[i]
    case Skip => true
    case Header(name) => forall h :: 0 <= h < i ==> items[h] != Header(name)
    case Entry(key, value) =>
      && IsSetting(u, key, value)
      && (exists h :: 0 <= h < i && items[h].Header?)
      && forall j :: 0 <= j < i && items[j].Entry? && items[j].key == key ==> exists h :: j < h < i && items[h].Header?
    case _ => false
  }

  lemma {:induction false} FittingLines(u: FloatUnit, lines: seq<string>, i: nat)
    requires i < |lines|
    ensures Fits(u, lines, i) <==> ItemFits(u, Items(lines), i)
  {
    hide Classify, IsSkipLine, IsHeaderLine, IsEntryLine, IsSetting;
    forall k | 0 <= k < |lines|
      ensures IsHeader(lines, k) <==> Items(lines)[k].Header?
      ensures forall name :: IsHeaderLine(lines[k], name) <==> Items(lines)[k] == Header(name)
      ensures forall key, value :: IsEntryLine(lines[k], key, value) <==> Items(lines)[k] == Entry(key, value)
      ensures IsSkipLine(lines[k]) <==> Items(lines)[k].Skip?
    {
      FormOf(lines[k]);
    }
    match Items(lines)[i]
    case Header(name) => assert IsHeaderLine(lines[i], name);
    case Entry(key, value) => assert IsEntryLine(lines[i], key, value);
    case _ =>
  }

  lemma {:induction false} SectionsHaveNames(items: seq<Item>, name: string)
    ensures (exists j :: 0 <= j < |OutlineOf(items).sections| && OutlineOf(items).sections[j].name == name)
       <==> exists h :: 0 <= h < |items| && items[h] == Header(name)
  {
    hide OutlineOf;
    SectionsAreInOrder(items);
    var s := OutlineOf(items).sections;
    if j :| 0 <= j < |s| && s[j].name == name {
      assert items[s[j].line - 1] == Header(name);
    }
    if h :| 0 <= h < |items| && items[h] == Header(name) {
      var j := HeadersOpenSections(items, h);
      assert s[j].name == name;
    }
  }

  /** The section at the end has the key exactly if an entry with no header after it has. */
  lemma {:induction false} KeysOfLastSection(items: seq<Item>, key: string)
    requires OutlineOf(items).sections != []
    ensures var s := OutlineOf(items).sections;
            key in Keys(s[|s| - 1].entries)
            <==> exists j :: 0 <= j < |items| && items[j].Entry? && items[j].key == key
                             && forall h :: j < h < |items| ==> !items[h].Header?
  {
    hide OutlineOf;
    SectionsAreInOrder(items);
    var s := OutlineOf(items).sections;
    var last := s[|s| - 1];
    if key in Keys(last.entries) {
      var e :| e in last.entries && e.0 == key;
      SectionHoldsItsEntries(items, |s| - 1, key, e.1);
      var i: nat :| Follows(items, last.line - 1, i) && items[i] == Entry(key, e.1);
    }
    if j :| 0 <= j < |items| && items[j].Entry? && items[j].key == key && forall h :: j < h < |items| ==> !items[h].Header? {
      SectionHoldsItsEntries(items, |s| - 1, key, items[j].value);
      assert items[last.line - 1].Header?;
      assert Follows(items, last.line - 1, j);
      assert (key, items[j].value) in last.entries;
    }
  }

  /** One more item keeps the lines in order exactly if it fits. */
  lemma {:induction false} NextItemFits(u: FloatUnit, items: seq<Item>)
    requires items != [] && LinesOk(u, items[..|items| - 1])
    ensures !IsFault(items[|items| - 1]) && OutlineOk(u, OutlineOf(items)) <==> ItemFits(u, items, |items| - 1)
  {
    hide OutlineOf, IsSetting, EntryOk, SectionOk;
    var n := |items| - 1;
    match items[n]
    case Header(name) =>
      HeaderFits(u, items, name);
    case Entry(key, value) =>
      EntryFits(u, items, key, value);
    case _ =>
      Unfolded(items);
  }

  lemma {:induction false} HeaderFits(u: FloatUnit, items: seq<Item>, name: string)
    requires items != [] && LinesOk(u, items[..|items| - 1]) && items[|items| - 1] == Header(name)
    ensures OutlineOk(u, OutlineOf(items)) <==> ItemFits(u, items, |items| - 1)
  {
    hide OutlineOf, OutlineOk, Denotation;
    var n := |items| - 1;
    var front := items[..n];
    Unfolded(items);
    assert OutlineOk(u, OutlineOf(front));
    AfterHeader(u, OutlineOf(front), name, n + 1);
    KeysOfDenotation(u, OutlineOf(front).sections);
    SectionsHaveNames(front, name);
    assert forall k :: 0 <= k < n ==> front[k] == items[k];
    hide Extend;
  }

  lemma {:induction false} EntryFits(u: FloatUnit, items: seq<Item>, key: string, value: string)
    requires items != [] && LinesOk(u, items[..|items| - 1]) && items[|items| - 1] == Entry(key, value)
    ensures OutlineOk(u, OutlineOf(items)) <==> ItemFits(u, items, |items| - 1)
  {
    hide OutlineOf, IsSetting, EntryOk, Keys, OutlineOk;
    var n := |items| - 1;
    var front := items[..n];
    assert OutlineOk(u, OutlineOf(front));
    Unfolded(items);
    assert forall k :: 0 <= k < n ==> front[k] == items[k];
    SectionsAreInOrder(front);
    SettingsAreOk(u, key, value);
    var s := OutlineOf(front).sections;
    if s == [] {
      OrphansAreRefused(u, OutlineOf(front), key, value, n + 1);
    } else {
      assert front[s[|s| - 1].line - 1].Header?;
      AfterEntry(u, OutlineOf(front), key, value, n + 1);
      KeysOfLastSection(front, key);
    }
    hide Extend;
  }

  lemma {:induction false} OrphansAreRefused(u: FloatUnit, o: Outline, key: string, value: string, line: nat)
    requires o.sections == []
    ensures !OutlineOk(u, Extend(o, Entry(key, value), line))
  {
  }

  /** The lines are in order exactly if each item fits where it stands. */
  lemma {:induction false} OrderIsFitting(u: FloatUnit, items: seq<Item>)
    ensures LinesOk(u, items) <==> forall i: nat :: i < |items| ==> ItemFits(u, items, i)
  {
    if items != [] {
      var n := |items| - 1;
      OrderIsFitting(u, items[..n]);
      LinesOkStep(u, items, n);
      assert items[..n + 1] == items;
      hide OutlineOf, IsFault, OutlineOk;
      forall i: nat | i < n
        ensures ItemFits(u, items, i) <==> ItemFits(u, items[..n], i)
      {
        FitsInPrefix(u, items, n, i);
      }
      if LinesOk(u, items[..n]) {
        NextItemFits(u, items);
      }
      hide ItemFits;
    }
  }

  lemma {:induction false} SettingsAreEntries(lines: seq<string>, h: nat, key: string, value: string)
    ensures Sets(lines, h, key, value) <==> HasEntryAfter(Items(lines), h, key, value)
  {
    hide Classify, IsHeaderLine, IsEntryLine;
    forall k | 0 <= k < |lines|
      ensures IsHeader(lines, k) <==> Items(lines)[k].Header?
      ensures IsEntryLine(lines[k], key, value) <==> Items(lines)[k] == Entry(key, value)
    {
      FormOf(lines[k]);
    }
    forall i: nat
      ensures IsInSection(lines, h, i) <==> Follows(Items(lines), h, i)
    {
    }
  }

  lemma {:induction false} KeysAreSet(lines: seq<string>, j: nat, h: nat, key: string)
    requires j < |OutlineOf(Items(lines)).sections| && h + 1 == OutlineOf(Items(lines)).sections[j].line
    ensures key in Keys(OutlineOf(Items(lines)).sections[j].entries) <==> SetsSome(lines, h, key)
  {
    hide OutlineOf, Sets, Items;
    var entries := OutlineOf(Items(lines)).sections[j].entries;
    forall v
      ensures Sets(lines, h, key, v) <==> (key, v) in entries
    {
      SectionHoldsItsEntries(Items(lines), j, key, v);
      SettingsAreEntries(lines, h, key, v);
    }
    if key in Keys(entries) {
      var e :| e in entries && e.0 == key;
      assert (key, e.1) in entries && Sets(lines, h, key, e.1);
    }
    if v :| Sets(lines, h, key, v) {
      assert (key, v) in entries;
    }
  }

  /** The parser's grammar is this reading of the lines: it accepts exactly the tables. */
  lemma {:induction false} TablesAreExact(u: FloatUnit, lines: seq<string>)
    ensures WellFormed(u, Items(lines)) <==> IsTable(u, lines)
  {
    hide LinesOk, OutlineOf, ItemFits, Fits, Sets, IsHeader, Classify;
    var items := Items(lines);
    var s := OutlineOf(items).sections;
    OrderIsFitting(u, items);
    forall i: nat | i < |lines|
      ensures Fits(u, lines, i) <==> ItemFits(u, items, i)
    {
      FittingLines(u, lines, i);
    }
    CompleteSections(lines);
  }

  lemma {:induction false} CompleteSections(lines: seq<string>)
    ensures var s := OutlineOf(Items(lines)).sections;
            && (s != [] <==> exists h :: IsHeader(lines, h))
            && ((forall j :: 0 <= j < |s| ==> IsComplete(s[j])) <==>
                forall h: nat :: IsHeader(lines, h) ==> SetsSome(lines, h, "chip") && SetsSome(lines, h, "max_celsius"))
  {
    hide OutlineOf, SetsSome, Classify, IsHeader, IsComplete;
    var s := OutlineOf(Items(lines)).sections;
    forall h: nat | IsHeader(lines, h)
      ensures s != []
      ensures (forall j :: 0 <= j < |s| ==> IsComplete(s[j])) ==> SetsSome(lines, h, "chip") && SetsSome(lines, h, "max_celsius")
    {
      HeaderHasSection(lines, h);
      var j: nat :| j < |s| && s[j].line == h + 1;
      SectionIsHeaded(lines, j);
    }
    forall j: nat | j < |s|
      ensures s[j].line >= 1 && IsHeader(lines, s[j].line - 1)
      ensures SetsSome(lines, s[j].line - 1, "chip") && SetsSome(lines, s[j].line - 1, "max_celsius") ==> IsComplete(s[j])
    {
      SectionIsHeaded(lines, j);
    }
    if s != [] {
      assert IsHeader(lines, s[0].line - 1);
    }
    if h :| IsHeader(lines, h) {
      HeaderHasSection(lines, h);
    }
  }

  lemma {:induction false} SectionIsHeaded(lines: seq<string>, j: nat)
    requires j < |OutlineOf(Items(lines)).sections|
    ensures var s := OutlineOf(Items(lines)).sections[j];
            && s.line >= 1 && IsHeader(lines, s.line - 1)
            && (IsComplete(s) <==> SetsSome(lines, s.line - 1, "chip") && SetsSome(lines, s.line - 1, "max_celsius"))
  {
    hide OutlineOf, SetsSome, Classify, Keys;
    SectionsAreInOrder(Items(lines));
    var h := OutlineOf(Items(lines)).sections[j].line - 1;
    FormOf(lines[h]);
    KeysAreSet(lines, j, h, "chip");
    KeysAreSet(lines, j, h, "max_celsius");
  }

  lemma {:induction false} HeaderHasSection(lines: seq<string>, h: int)
    requires IsHeader(lines, h)
    ensures exists j: nat :: j < |OutlineOf(Items(lines)).sections| && OutlineOf(Items(lines)).sections[j].line == h + 1
  {
    hide OutlineOf, Classify;
    FormOf(lines[h]);
    var j := HeadersOpenSections(Items(lines), h);
  }

  // ----- what the lines say about a board

  lemma {:induction false} OneValue(u: FloatUnit, s: Section, key: string, value: string)
    requires SectionOk(u, s)
    ensures (key, value) in s.entries <==> ValueOf(s.entries, key) == Some(value)
  {
    KeysHaveValues(s.entries, key);
    if (key, value) in s.entries {
      assert key in Keys(s.entries);
      var v := ValueOf(s.entries, key).value;
      var i :| 0 <= i < |s.entries| && s.entries[i] == (key, value);
      var j :| 0 <= j < |s.entries| && s.entries[j] == (key, v);
    }
  }

  /**
   An accepted table has exactly the boards of its headers, and a board is what its section's lines set: its
   chip, its sensor, or none, and its limit in millidegrees.
   */
  lemma {:induction false} BoardsAreRead(u: FloatUnit, lines: seq<string>, h: nat, name: string)
    requires WellFormed(u, Items(lines)) && h < |lines| && IsHeaderLine(lines[h], name)
    ensures name in Meaning(u, lines)
    ensures var b := Meaning(u, lines)[name];
            && b.name == name && b.line == h + 1
            && (forall c :: Sets(lines, h, "chip", c) <==> c == b.chip)
            && (forall t :: Sets(lines, h, "sensor", t) ==> t == b.sensor)
            && ((forall t :: !Sets(lines, h, "sensor", t)) ==> b.sensor == "")
            && (exists t :: Sets(lines, h, "max_celsius", t) && IsTemperature(u, t, 20.0, 150.0, b.max))
  {
    hide OutlineOf, Sets, IsHeaderLine, Classify, Keys, ParseThreshold, IsTemperature;
    var items := Items(lines);
    var sections := OutlineOf(items).sections;
    FormOf(lines[h]);
    var j := HeadersOpenSections(items, h);
    var s := sections[j];
    DenotationAt(u, sections, j);
    forall key, v
      ensures Sets(lines, h, key, v) <==> ValueOf(s.entries, key) == Some(v)
    {
      SettingsAreEntries(lines, h, key, v);
      SectionHoldsItsEntries(items, j, key, v);
      OneValue(u, s, key, v);
    }
    KeysHaveValues(s.entries, "chip");
    var limit := LimitIsRead(u, s);
    hide ValueOf, Meaning, SectionOk;
    assert Sets(lines, h, "max_celsius", limit);
    assert BoardOf(u, s) == Meaning(u, lines)[name];
    assert BoardOf(u, s).chip == TextOf(s.entries, "chip") && BoardOf(u, s).sensor == TextOf(s.entries, "sensor");
    if ValueOf(s.entries, "sensor").Some? {
      assert Sets(lines, h, "sensor", ValueOf(s.entries, "sensor").value);
    }
  }

  lemma {:induction false} LimitIsRead(u: FloatUnit, s: Section) returns (limit: string)
    requires SectionOk(u, s) && IsComplete(s)
    ensures ValueOf(s.entries, "max_celsius") == Some(limit) && IsTemperature(u, limit, 20.0, 150.0, BoardOf(u, s).max)
  {
    hide ParseThreshold, IsTemperature;
    KeysHaveValues(s.entries, "max_celsius");
    limit := ValueOf(s.entries, "max_celsius").value;
    var k :| 0 <= k < |s.entries| && s.entries[k] == ("max_celsius", limit);
    assert EntryOk(u, s.entries[k]);
    ThresholdsAreExact(u, limit, ParseThreshold(u, limit).value);
  }

  /** There are no other boards. */
  lemma {:induction false} BoardsHaveHeaders(u: FloatUnit, lines: seq<string>, name: string)
    requires WellFormed(u, Items(lines)) && name in Meaning(u, lines)
    ensures exists h :: 0 <= h < |lines| && IsHeaderLine(lines[h], name)
  {
    hide Classify, WellFormed, Meaning;
    BoardsRecordTheirHeaders(u, lines, name);
    HeaderLinesAreHeaders(lines[Meaning(u, lines)[name].line - 1], name);
  }

  /** The line an error points at is the first that does not fit. */
  lemma {:induction false} FirstFaultIsFirstMisfit(u: FloatUnit, lines: seq<string>, n: nat)
    requires 1 <= n <= |lines|
    ensures FirstFault(u, Items(lines), n) <==>
      !Fits(u, lines, n - 1) && forall i: nat :: i < n - 1 ==> Fits(u, lines, i)
  {
    hide Fits, LinesOk, Items;
    PrefixFits(u, lines, n);
    PrefixFits(u, lines, n - 1);
  }

  lemma {:induction false} PrefixFits(u: FloatUnit, lines: seq<string>, n: nat)
    requires n <= |lines|
    ensures LinesOk(u, Items(lines)[..n]) <==> forall i: nat :: i < n ==> Fits(u, lines, i)
  {
    hide Fits, ItemFits, LinesOk, Classify;
    OrderIsFitting(u, Items(lines)[..n]);
    forall i: nat | i < n
      ensures Fits(u, lines, i) <==> ItemFits(u, Items(lines)[..n], i)
    {
      FittingLines(u, lines, i);
      FitsInPrefix(u, Items(lines), n, i);
    }
  }

  lemma {:induction false} FitsInPrefix(u: FloatUnit, items: seq<Item>, n: nat, i: nat)
    requires i < n <= |items|
    ensures ItemFits(u, items, i) <==> ItemFits(u, items[..n], i)
  {
    hide IsSetting;
    assert forall k :: 0 <= k < n ==> items[..n][k] == items[k];
  }
}

/** The board table: its grammar, stated on the outline of a whole file, and what a table means. */
module BoardTable {
  import opened Rounding
  import opened Text
  import opened Units
  import opened Wrappers

  datatype Board = Board(name: string, chip: string, sensor: string, max: MilliCelsius, line: nat)

  type Boards = map<string, Board>

  // ----- lines

  datatype Item =
    | Skip
    | Header(name: string)
    | Entry(key: string, value: string)
    | UnterminatedHeader
    | EmptyHeader
    | NotAPair

  function Classify(raw: string): Item {
    var line := Trim(raw);
    if line == "" || line[0] == '#' || line[0] == ';' then Skip
    else if line[0] == '[' then
      if line[|line| - 1] != ']' then UnterminatedHeader
      else
        var name := Trim(line[1..|line| - 1]);
        if name == "" then EmptyHeader else Header(name)
    else
      match Cut(line, '=')
      case None => NotAPair
      case Some((key, value)) => Entry(Trim(key), Trim(value))
  }

  function Items(lines: seq<string>): (r: seq<Item>)
    ensures |r| == |lines|
  {
    seq(|lines|, i requires 0 <= i < |lines| => Classify(lines[i]))
  }

  predicate IsFault(item: Item) {
    item.UnterminatedHeader? || item.EmptyHeader? || item.NotAPair?
  }

  // ----- the grammar

  datatype Section = Section(name: string, line: nat, entries: seq<(string, string)>)

  datatype Outline = Outline(orphans: seq<(string, string)>, sections: seq<Section>)

  /** Headers open sections, and an entry belongs to the section opened last. */
  function OutlineOf(items: seq<Item>): Outline {
    if items == [] then Outline([], [])
    else
      var n := |items| - 1;
      Extend(OutlineOf(items[..n]), items[n], |items|)
  }

  function Extend(o: Outline, item: Item, line: nat): Outline {
    match item
    case Header(name) => o.(sections := o.sections + [Section(name, line, [])])
    case Entry(key, value) =>
      if o.sections == [] then o.(orphans := o.orphans + [(key, value)])
      else o.(sections := WithEntry(o.sections, (key, value)))
    case _ => o
  }

  function WithEntry(sections: seq<Section>, e: (string, string)): seq<Section>
    requires sections != []
  {
    var n := |sections| - 1;
    sections[..n] + [sections[n].(entries := sections[n].entries + [e])]
  }

  predicate EntryOk(u: FloatUnit, e: (string, string)) {
    || (e.0 == "chip" && e.1 != "")
    || e.0 == "sensor"
    || (e.0 == "max_celsius" && ParseThreshold(u, e.1).Ok?)
  }

  /** Every key is known and carries a usable value, and none is set twice. */
  predicate SectionOk(u: FloatUnit, s: Section) {
    && (forall i :: 0 <= i < |s.entries| ==> EntryOk(u, s.entries[i]))
    && (forall i, j :: 0 <= i < j < |s.entries| ==> s.entries[i].0 != s.entries[j].0)
  }

  predicate DistinctNames(sections: seq<Section>) {
    forall i, j :: 0 <= i < j < |sections| ==> sections[i].name != sections[j].name
  }

  predicate OutlineOk(u: FloatUnit, o: Outline) {
    && o.orphans == []
    && DistinctNames(o.sections)
    && forall i :: 0 <= i < |o.sections| ==> SectionOk(u, o.sections[i])
  }

  /** Nothing is wrong with any line, given the lines before it. */
  predicate LinesOk(u: FloatUnit, items: seq<Item>) {
    && (forall i :: 0 <= i < |items| ==> !IsFault(items[i]))
    && OutlineOk(u, OutlineOf(items))
  }

  predicate IsComplete(s: Section) {
    "chip" in Keys(s.entries) && "max_celsius" in Keys(s.entries)
  }

  predicate WellFormed(u: FloatUnit, items: seq<Item>) {
    && LinesOk(u, items)
    && OutlineOf(items).sections != []
    && forall i :: 0 <= i < |OutlineOf(items).sections| ==> IsComplete(OutlineOf(items).sections[i])
  }

  // ----- what a table means

  function Keys(entries: seq<(string, string)>): set<string> {
    set e | e in entries :: e.0
  }

  function ValueOf(entries: seq<(string, string)>, key: string): Option<string> {
    if entries == [] then None
    else
      var n := |entries| - 1;
      if entries[n].0 == key then Some(entries[n].1) else ValueOf(entries[..n], key)
  }

  function TextOf(entries: seq<(string, string)>, key: string): string {
    match ValueOf(entries, key)
    case None => ""
    case Some(v) => v
  }

  function LimitOf(u: FloatUnit, entries: seq<(string, string)>): MilliCelsius {
    match ValueOf(entries, "max_celsius")
    case None => 0
    case Some(v) => match ParseThreshold(u, v) { case Ok(m) => m case Err(_) => 0 }
  }

  function BoardOf(u: FloatUnit, s: Section): Board {
    Board(s.name, TextOf(s.entries, "chip"), TextOf(s.entries, "sensor"), LimitOf(u, s.entries), s.line)
  }

  function Denotation(u: FloatUnit, sections: seq<Section>): Boards {
    if sections == [] then map[]
    else
      var n := |sections| - 1;
      Denotation(u, sections[..n])[sections[n].name := BoardOf(u, sections[n])]
  }

  function SeenIn(sections: seq<Section>): map<string, set<string>> {
    if sections == [] then map[]
    else
      var n := |sections| - 1;
      SeenIn(sections[..n])[sections[n].name := Keys(sections[n].entries)]
  }

  lemma {:induction false} KeysOfDenotation(u: FloatUnit, sections: seq<Section>)
    ensures Denotation(u, sections).Keys == SeenIn(sections).Keys
    ensures forall name :: name in Denotation(u, sections)
              <==> exists i :: 0 <= i < |sections| && sections[i].name == name
  {
    hide BoardOf;
    if sections != [] {
      var n := |sections| - 1;
      KeysOfDenotation(u, sections[..n]);
      assert forall i :: 0 <= i < n ==> sections[..n][i] == sections[i];
    }
  }

  /** With distinct names, each section is what the table says about its board. */
  lemma {:induction false} DenotationAt(u: FloatUnit, sections: seq<Section>, i: nat)
    requires i < |sections| && DistinctNames(sections)
    ensures sections[i].name in Denotation(u, sections) && sections[i].name in SeenIn(sections)
    ensures Denotation(u, sections)[sections[i].name] == BoardOf(u, sections[i])
    ensures SeenIn(sections)[sections[i].name] == Keys(sections[i].entries)
  {
    hide BoardOf, Keys;
    var n := |sections| - 1;
    if i < n {
      DenotationAt(u, sections[..n], i);
    }
  }

  lemma {:induction false} KeysHaveValues(entries: seq<(string, string)>, key: string)
    ensures key in Keys(entries) <==> ValueOf(entries, key).Some?
    ensures ValueOf(entries, key).Some? ==> (key, ValueOf(entries, key).value) in entries
  {
    if entries != [] {
      var n := |entries| - 1;
      KeysHaveValues(entries[..n], key);
      assert entries == entries[..n] + [entries[n]];
    }
  }

  // ----- one line more

  lemma {:induction false} AddKey(entries: seq<(string, string)>, e: (string, string))
    ensures Keys(entries + [e]) == Keys(entries) + {e.0}
  {
  }

  lemma {:induction false} AfterHeader(u: FloatUnit, o: Outline, name: string, line: nat)
    requires OutlineOk(u, o)
    ensures var next := Extend(o, Header(name), line);
            && (OutlineOk(u, next) <==> name !in Denotation(u, o.sections))
            && Denotation(u, next.sections) == Denotation(u, o.sections)[name := Board(name, "", "", 0, line)]
            && SeenIn(next.sections) == SeenIn(o.sections)[name := {}]
  {
    var s := Section(name, line, []);
    KeysOfDenotation(u, o.sections);
    assert (o.sections + [s])[..|o.sections|] == o.sections;
    assert SectionOk(u, s) && Keys(s.entries) == {};
    var next := o.sections + [s];
    if name in Denotation(u, o.sections) {
      var i :| 0 <= i < |o.sections| && o.sections[i].name == name;
      assert next[i].name == next[|o.sections|].name;
    }
  }

  lemma {:induction false} AfterEntry(u: FloatUnit, o: Outline, key: string, value: string, line: nat)
    requires OutlineOk(u, o) && o.sections != []
    ensures var next := Extend(o, Entry(key, value), line);
            var last := o.sections[|o.sections| - 1];
            && (OutlineOk(u, next) <==> key !in Keys(last.entries) && EntryOk(u, (key, value)))
            && Denotation(u, next.sections)
               == Denotation(u, o.sections)[last.name := BoardOf(u, last.(entries := last.entries + [(key, value)]))]
            && SeenIn(next.sections) == SeenIn(o.sections)[last.name := Keys(last.entries) + {key}]
            && next.sections != [] && next.sections[|next.sections| - 1].name == last.name
  {
    hide BoardOf, EntryOk, SectionOk, DistinctNames, Denotation, SeenIn, Keys;
    var n := |o.sections| - 1;
    var last := o.sections[n];
    GrownSectionOk(u, last, (key, value));
    LastReplaced(u, o.sections, last.(entries := last.entries + [(key, value)]));
    AddKey(last.entries, (key, value));
  }

  lemma {:induction false} LastReplaced(u: FloatUnit, sections: seq<Section>, s: Section)
    requires sections != [] && s.name == sections[|sections| - 1].name && DistinctNames(sections)
    requires forall i :: 0 <= i < |sections| ==> SectionOk(u, sections[i])
    ensures var next := sections[..|sections| - 1] + [s];
            && DistinctNames(next)
            && ((forall i :: 0 <= i < |next| ==> SectionOk(u, next[i])) <==> SectionOk(u, s))
            && Denotation(u, next) == Denotation(u, sections)[s.name := BoardOf(u, s)]
            && SeenIn(next) == SeenIn(sections)[s.name := Keys(s.entries)]
  {
    hide BoardOf, SectionOk, Keys;
    var n := |sections| - 1;
    var next := sections[..n] + [s];
    assert next[..n] == sections[..n];
    assert next[n] == s && forall i :: 0 <= i < n ==> next[i] == sections[i];
  }

  lemma {:induction false} GrownSectionOk(u: FloatUnit, s: Section, e: (string, string))
    requires SectionOk(u, s)
    ensures SectionOk(u, s.(entries := s.entries + [e])) <==> e.0 !in Keys(s.entries) && EntryOk(u, e)
  {
    hide EntryOk;
    var grown := s.entries + [e];
    var n := |s.entries|;
    assert grown[n] == e && forall i :: 0 <= i < n ==> grown[i] == s.entries[i];
    if e.0 in Keys(s.entries) {
      var f :| f in s.entries && f.0 == e.0;
      var i :| 0 <= i < n && s.entries[i] == f;
      assert grown[i].0 == grown[n].0;
    } else {
      assert forall i :: 0 <= i < n ==> s.entries[i].0 in Keys(s.entries);
    }
  }

  /** How one more entry changes its board. */
  lemma {:induction false} BoardGrows(u: FloatUnit, s: Section, key: string, value: string)
    requires key !in Keys(s.entries)
    ensures var b := BoardOf(u, s);
            BoardOf(u, s.(entries := s.entries + [(key, value)]))
            == if key == "chip" then b.(chip := value)
               else if key == "sensor" then b.(sensor := value)
               else if key == "max_celsius" then
                 b.(max := match ParseThreshold(u, value) { case Ok(m) => m case Err(_) => 0 })
               else b
  {
    hide ParseThreshold;
    var grown := s.entries + [(key, value)];
    assert grown[..|s.entries|] == s.entries;
    assert forall k :: ValueOf(grown, k) == if k == key then Some(value) else ValueOf(s.entries, k);
  }

  lemma {:induction false} LinesOkStep(u: FloatUnit, items: seq<Item>, i: nat)
    requires i < |items|
    ensures OutlineOf(items[..i + 1]) == Extend(OutlineOf(items[..i]), items[i], i + 1)
    ensures LinesOk(u, items[..i + 1]) ==> LinesOk(u, items[..i])
    ensures LinesOk(u, items[..i]) && !IsFault(items[i]) && OutlineOk(u, OutlineOf(items[..i + 1]))
        ==> LinesOk(u, items[..i + 1])
    ensures IsFault(items[i]) ==> !LinesOk(u, items[..i + 1])
  {
    var now, next := items[..i], items[..i + 1];
    assert next[..i] == now && next[i] == items[i];
    assert forall j :: 0 <= j < i ==> next[j] == now[j];
    if OutlineOk(u, OutlineOf(next)) {
      ExtendingKeepsFaults(u, OutlineOf(now), items[i], i + 1);
    }
    hide OutlineOk, IsFault, Extend;
  }

  /** A fault in an outline is never mended by what follows. */
  lemma {:induction false} ExtendingKeepsFaults(u: FloatUnit, o: Outline, item: Item, line: nat)
    requires OutlineOk(u, Extend(o, item, line))
    ensures OutlineOk(u, o)
  {
    hide EntryOk;
    var next := Extend(o, item, line);
    if item.Header? {
      assert forall i :: 0 <= i < |o.sections| ==> next.sections[i] == o.sections[i];
    } else if item.Entry? && o.sections != [] {
      var n := |o.sections| - 1;
      assert forall i :: 0 <= i < n ==> next.sections[i] == o.sections[i];
      var last, grown := o.sections[n], next.sections[n];
      assert SectionOk(u, grown);
      assert forall i :: 0 <= i < |last.entries| ==> grown.entries[i] == last.entries[i];
      assert SectionOk(u, last);
    }
  }

  lemma {:induction false} FaultsPersist(u: FloatUnit, items: seq<Item>, i: nat)
    requires i <= |items| && !LinesOk(u, items[..i])
    ensures !LinesOk(u, items)
    decreases |items| - i
  {
    hide LinesOk;
    if i == |items| {
      assert items[..i] == items;
    } else {
      LinesOkStep(u, items, i);
      FaultsPersist(u, items, i + 1);
    }
  }

  /** A section carries the name and the number of its own header line. */
  lemma {:induction false} SectionsHaveHeaders(items: seq<Item>, j: nat)
    requires j < |OutlineOf(items).sections|
    ensures var s := OutlineOf(items).sections[j];
            1 <= s.line <= |items| && items[s.line - 1] == Header(s.name)
  {
    hide Extend;
    var n := |items| - 1;
    var before := OutlineOf(items[..n]);
    ExtendedSections(before, items[n], n + 1, j);
    if j < |before.sections| {
      SectionsHaveHeaders(items[..n], j);
    }
  }

  lemma {:induction false} ExtendedSections(o: Outline, item: Item, line: nat, j: nat)
    requires j < |Extend(o, item, line).sections|
    ensures var s := Extend(o, item, line).sections[j];
            if j < |o.sections| then s.name == o.sections[j].name && s.line == o.sections[j].line
            else item == Header(s.name) && s.line == line
  {
  }

  lemma {:induction false} ChipOfOkSection(u: FloatUnit, s: Section)
    requires SectionOk(u, s)
    ensures BoardOf(u, s).chip == "" <==> "chip" !in Keys(s.entries)
  {
    KeysHaveValues(s.entries, "chip");
    if "chip" in Keys(s.entries) {
      var i :| 0 <= i < |s.entries| && s.entries[i] == ("chip", ValueOf(s.entries, "chip").value);
      assert EntryOk(u, s.entries[i]);
    }
  }
}

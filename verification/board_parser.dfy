/** The single-pass parser of the board table, and the lookups on its result. */
module BoardParser {
  import opened BoardTable
  import opened Ordering
  import opened Rounding
  import opened Wrappers

  datatype ParseError =
    | Unterminated(line: nat)
    | Unnamed(line: nat)
    | AlreadyDefined(line: nat, board: string, before: nat)
    | NeitherHeaderNorPair(line: nat)
    | BeforeFirstBoard(line: nat, key: string)
    | SetTwice(line: nat, board: string, key: string)
    | EmptyChip(line: nat, board: string)
    | BadThreshold(line: nat, board: string, why: ThresholdError)
    | UnknownKey(line: nat, board: string, key: string)
    | ReadFailed
    | NoChip(board: string)
    | NoThreshold(board: string)
    | NoBoards

  /** The section an entry on the line after `items` would belong to. */
  function Current(items: seq<Item>): Option<Section> {
    var sections := OutlineOf(items).sections;
    if sections == [] then None else Some(sections[|sections| - 1])
  }

  /** Line `n` is the first one that breaks the grammar, whatever follows it. */
  predicate FirstFault(u: FloatUnit, items: seq<Item>, n: nat) {
    1 <= n <= |items| && LinesOk(u, items[..n - 1]) && !LinesOk(u, items[..n])
  }

  /** The section of `name` is the first, in name order, to lack `chip` or the limit. */
  ghost predicate FirstIncomplete(sections: seq<Section>, name: string, missing: string) {
    exists i :: 0 <= i < |sections|
      && sections[i].name == name
      && missing in {"chip", "max_celsius"} && missing !in Keys(sections[i].entries)
      && (missing == "max_celsius" ==> "chip" in Keys(sections[i].entries))
      && forall j :: 0 <= j < |sections| && !IsComplete(sections[j]) ==> !Less(sections[j].name, name)
  }

  /** What each error says about the file. */
  ghost predicate Diagnoses(u: FloatUnit, items: seq<Item>, readFailed: bool, e: ParseError) {
    match e
    case Unterminated(n) => FirstFault(u, items, n) && items[n - 1].UnterminatedHeader?
    case Unnamed(n) => FirstFault(u, items, n) && items[n - 1].EmptyHeader?
    case NeitherHeaderNorPair(n) => FirstFault(u, items, n) && items[n - 1].NotAPair?
    case AlreadyDefined(n, board, before) =>
      && FirstFault(u, items, n) && items[n - 1] == Header(board)
      && 1 <= before < n && items[before - 1] == Header(board)
    case BeforeFirstBoard(n, key) =>
      FirstFault(u, items, n) && items[n - 1].Entry? && items[n - 1].key == key && Current(items[..n - 1]).None?
    case SetTwice(n, board, key) =>
      && FirstFault(u, items, n) && InSection(items, n, board) && items[n - 1].key == key
      && key in Keys(Current(items[..n - 1]).value.entries)
    case EmptyChip(n, board) =>
      FirstFault(u, items, n) && InSection(items, n, board) && items[n - 1] == Entry("chip", "")
    case BadThreshold(n, board, why) =>
      && FirstFault(u, items, n) && InSection(items, n, board) && items[n - 1].key == "max_celsius"
      && ParseThreshold(u, items[n - 1].value) == Err(why)
    case UnknownKey(n, board, key) =>
      && FirstFault(u, items, n) && InSection(items, n, board) && items[n - 1].key == key
      && key !in {"chip", "sensor", "max_celsius"}
    case ReadFailed => LinesOk(u, items) && readFailed
    case NoChip(board) => LinesOk(u, items) && FirstIncomplete(OutlineOf(items).sections, board, "chip")
    case NoThreshold(board) => LinesOk(u, items) && FirstIncomplete(OutlineOf(items).sections, board, "max_celsius")
    case NoBoards => LinesOk(u, items) && OutlineOf(items).sections == []
  }

  predicate InSection(items: seq<Item>, n: nat, board: string)
    requires 1 <= n <= |items|
  {
    items[n - 1].Entry? && Current(items[..n - 1]).Some? && Current(items[..n - 1]).value.name == board
  }

  /** The configured names in sorted order. */
  method BoardNames(boards: Boards) returns (names: seq<string>)
    ensures Ascending(names) && multiset(names) == multiset(boards.Keys)
  {
    names := [];
    var rest := boards.Keys;
    while rest != {}
      invariant rest <= boards.Keys && Ascending(names)
      invariant multiset(names) + multiset(rest) == multiset(boards.Keys)
      decreases rest
    {
      var name :| name in rest;
      assert name !in names by {
        assert multiset(names)[name] + multiset(rest)[name] == multiset(boards.Keys)[name];
      }
      InsertIsOrdered(name, names);
      names := Insert(name, names);
      assert multiset(rest) == multiset(rest - {name}) + multiset{name};
      rest := rest - {name};
    }
  }

  /** What the loop has built after reading the lines of `o`. */
  predicate Tracks(u: FloatUnit, o: Outline, boards: Boards, seen: map<string, set<string>>, current: string) {
    && boards == Denotation(u, o.sections)
    && seen == SeenIn(o.sections)
    && current == if o.sections == [] then "" else o.sections[|o.sections| - 1].name
  }

  lemma {:induction false} NothingRead(u: FloatUnit, items: seq<Item>)
    ensures LinesOk(u, items[..0]) && Tracks(u, OutlineOf(items[..0]), map[], map[], "")
  {
  }

  lemma {:induction false} SkipStep(u: FloatUnit, items: seq<Item>, i: nat)
    requires i < |items| && LinesOk(u, items[..i]) && items[i].Skip?
    ensures LinesOk(u, items[..i + 1]) && OutlineOf(items[..i + 1]) == OutlineOf(items[..i])
  {
    LinesOkStep(u, items, i);
  }

  lemma {:induction false} FaultStep(u: FloatUnit, items: seq<Item>, i: nat)
    requires i < |items| && LinesOk(u, items[..i]) && IsFault(items[i])
    ensures FirstFault(u, items, i + 1) && !LinesOk(u, items)
  {
    hide LinesOk;
    LinesOkStep(u, items, i);
    FaultsPersist(u, items, i + 1);
  }

  lemma {:induction false} HeaderStep(u: FloatUnit, items: seq<Item>, i: nat, name: string)
    requires i < |items| && LinesOk(u, items[..i]) && items[i] == Header(name)
    ensures var o, next := OutlineOf(items[..i]), OutlineOf(items[..i + 1]);
            if name in Denotation(u, o.sections) then
              var before := Denotation(u, o.sections)[name].line;
              && FirstFault(u, items, i + 1) && !LinesOk(u, items)
              && 1 <= before <= i && items[before - 1] == Header(name)
            else
              && LinesOk(u, items[..i + 1])
              && Tracks(u, next, Denotation(u, o.sections)[name := Board(name, "", "", 0, i + 1)],
                        SeenIn(o.sections)[name := {}], name)
  {
    hide Denotation, SeenIn, OutlineOk, BoardOf, OutlineOf;
    var o := OutlineOf(items[..i]);
    LinesOkStep(u, items, i);
    AfterHeader(u, o, name, i + 1);
    if name in Denotation(u, o.sections) {
      FaultsPersist(u, items, i + 1);
      DefinedBefore(u, items[..i], name);
      assert forall k :: 0 <= k < i ==> items[..i][k] == items[k];
    }
  }

  lemma {:induction false} DefinedBefore(u: FloatUnit, items: seq<Item>, name: string)
    requires LinesOk(u, items) && name in Denotation(u, OutlineOf(items).sections)
    ensures var before := Denotation(u, OutlineOf(items).sections)[name].line;
            1 <= before <= |items| && items[before - 1] == Header(name)
  {
    hide SectionOk, IsFault, OutlineOf;
    var sections := OutlineOf(items).sections;
    KeysOfDenotation(u, sections);
    var j :| 0 <= j < |sections| && sections[j].name == name;
    DenotationAt(u, sections, j);
    SectionsHaveHeaders(items, j);
    hide Denotation;
  }

  lemma {:induction false} EntryStep(u: FloatUnit, items: seq<Item>, i: nat, key: string, value: string)
    requires i < |items| && LinesOk(u, items[..i]) && items[i] == Entry(key, value)
    ensures var o, next := OutlineOf(items[..i]), OutlineOf(items[..i + 1]);
            if o.sections == [] then FirstFault(u, items, i + 1) && !LinesOk(u, items)
            else
              var last := o.sections[|o.sections| - 1];
              if key in Keys(last.entries) || !EntryOk(u, (key, value)) then
                FirstFault(u, items, i + 1) && !LinesOk(u, items)
              else
                && LinesOk(u, items[..i + 1])
                && next.sections != [] && next.sections[|next.sections| - 1].name == last.name
                && Denotation(u, next.sections)
                   == Denotation(u, o.sections)[last.name := BoardOf(u, last.(entries := last.entries + [(key, value)]))]
                && SeenIn(next.sections) == SeenIn(o.sections)[last.name := Keys(last.entries) + {key}]
  {
    hide EntryOk, BoardOf, Denotation, SeenIn, Keys, IsFault;
    var o := OutlineOf(items[..i]);
    LinesOkStep(u, items, i);
    NotAFault(items[i]);
    if o.sections == [] {
      assert OutlineOf(items[..i + 1]).orphans != [];
      FaultsPersist(u, items, i + 1);
    } else {
      AfterEntry(u, o, key, value, i + 1);
      if !OutlineOk(u, OutlineOf(items[..i + 1])) {
        FaultsPersist(u, items, i + 1);
      }
    }
    hide SectionOk, DistinctNames, Extend;
  }

  lemma {:induction false} NotAFault(item: Item)
    requires item.Entry?
    ensures !IsFault(item)
  {
  }

  predicate HeadersAreNamed(items: seq<Item>) {
    forall i :: 0 <= i < |items| && items[i].Header? ==> items[i].name != ""
  }

  lemma {:induction false} ClassifyNamesHeaders(lines: seq<string>)
    ensures HeadersAreNamed(Items(lines))
  {
  }

  /** The board and the keys the parser holds for the section it is in. */
  lemma {:induction false} CurrentIsTracked(u: FloatUnit, items: seq<Item>)
    requires LinesOk(u, items) && OutlineOf(items).sections != [] && HeadersAreNamed(items)
    ensures var sections := OutlineOf(items).sections;
            var last := sections[|sections| - 1];
            && last.name != ""
            && last.name in Denotation(u, sections) && Denotation(u, sections)[last.name] == BoardOf(u, last)
            && last.name in SeenIn(sections) && SeenIn(sections)[last.name] == Keys(last.entries)
  {
    var sections := OutlineOf(items).sections;
    DenotationAt(u, sections, |sections| - 1);
    SectionsHaveHeaders(items, |sections| - 1);
  }

  // ----- the parser

  type Seen = map<string, set<string>>

  /** One `key = value` line, for the section the parser is in. */
  method AddEntry(u: FloatUnit, boards: Boards, seen: Seen, current: string, key: string, value: string,
                  lineNo: nat, ghost items: seq<Item>, ghost readFailed: bool)
    returns (r: Result<(Boards, Seen), ParseError>)
    requires 1 <= lineNo <= |items| && items[lineNo - 1] == Entry(key, value) && HeadersAreNamed(items)
    requires LinesOk(u, items[..lineNo - 1]) && Tracks(u, OutlineOf(items[..lineNo - 1]), boards, seen, current)
    ensures r.Ok? ==> LinesOk(u, items[..lineNo])
    ensures r.Ok? ==> Tracks(u, OutlineOf(items[..lineNo]), r.value.0, r.value.1, current)
    ensures r.Err? ==> Diagnoses(u, items, readFailed, r.error) && !LinesOk(u, items)
  {
    hide LinesOk, Denotation, SeenIn, BoardOf, OutlineOf, FirstIncomplete, ParseThreshold, Keys;
    ghost var before := items[..lineNo - 1];
    EntryStep(u, items, lineNo - 1, key, value);
    if current == "" {
      NoSectionYet(u, before);
      return Err(BeforeFirstBoard(lineNo, key));
    }
    CurrentIsTracked(u, before);
    if key in seen[current] {
      return Err(SetTwice(lineNo, current, key));
    }
    var nextSeen := seen[current := seen[current] + {key}];
    BoardGrows(u, Current(before).value, key, value);
    var b := boards[current];
    if key == "chip" {
      if value == "" {
        return Err(EmptyChip(lineNo, current));
      }
      b := b.(chip := value);
    } else if key == "sensor" {
      b := b.(sensor := value);
    } else if key == "max_celsius" {
      var m := ParseThreshold(u, value);
      if m.Err? {
        return Err(BadThreshold(lineNo, current, m.error));
      }
      b := b.(max := m.value);
    } else {
      return Err(UnknownKey(lineNo, current, key));
    }
    return Ok((boards[current := b], nextSeen));
  }

  lemma {:induction false} NoSectionYet(u: FloatUnit, items: seq<Item>)
    requires LinesOk(u, items) && HeadersAreNamed(items)
    ensures OutlineOf(items).sections != [] ==> OutlineOf(items).sections[|OutlineOf(items).sections| - 1].name != ""
  {
    if OutlineOf(items).sections != [] {
      CurrentIsTracked(u, items);
    }
  }

  // ----- the check that every board is complete

  predicate CompleteUpTo(sections: seq<Section>, names: seq<string>, k: nat)
    requires k <= |names|
  {
    forall j :: 0 <= j < |sections| && sections[j].name in names[..k] ==> IsComplete(sections[j])
  }

  lemma {:induction false} NamedSection(u: FloatUnit, items: seq<Item>, names: seq<string>, k: nat) returns (j: nat)
    requires LinesOk(u, items) && k < |names|
    requires multiset(names) == multiset(Denotation(u, OutlineOf(items).sections).Keys)
    ensures var sections := OutlineOf(items).sections;
            && j < |sections| && sections[j].name == names[k]
            && names[k] in Denotation(u, sections) && names[k] in SeenIn(sections)
            && SeenIn(sections)[names[k]] == Keys(sections[j].entries)
            && (Denotation(u, sections)[names[k]].chip == "" <==> "chip" !in Keys(sections[j].entries))
  {
    var sections := OutlineOf(items).sections;
    assert names[k] in multiset(names);
    KeysOfDenotation(u, sections);
    j :| 0 <= j < |sections| && sections[j].name == names[k];
    DenotationAt(u, sections, j);
    ChipOfOkSection(u, sections[j]);
  }

  lemma {:induction false} StillComplete(u: FloatUnit, items: seq<Item>, names: seq<string>, k: nat, j: nat)
    requires LinesOk(u, items) && k < |names| && CompleteUpTo(OutlineOf(items).sections, names, k)
    requires j < |OutlineOf(items).sections| && OutlineOf(items).sections[j].name == names[k]
    requires IsComplete(OutlineOf(items).sections[j])
    ensures CompleteUpTo(OutlineOf(items).sections, names, k + 1)
  {
    hide IsComplete, SectionOk;
    assert names[..k + 1] == names[..k] + [names[k]];
  }

  lemma {:induction false} FoundIncomplete(u: FloatUnit, items: seq<Item>, names: seq<string>, k: nat, j: nat, missing: string)
    requires LinesOk(u, items) && k < |names| && CompleteUpTo(OutlineOf(items).sections, names, k)
    requires Ascending(names)
    requires multiset(names) == multiset(Denotation(u, OutlineOf(items).sections).Keys)
    requires j < |OutlineOf(items).sections| && OutlineOf(items).sections[j].name == names[k]
    requires missing in {"chip", "max_celsius"} && missing !in Keys(OutlineOf(items).sections[j].entries)
    requires missing == "max_celsius" ==> "chip" in Keys(OutlineOf(items).sections[j].entries)
    ensures FirstIncomplete(OutlineOf(items).sections, names[k], missing)
    ensures !WellFormed(u, items)
  {
    hide LinesOk, BoardOf, Keys, OutlineOf, Less;
    var sections := OutlineOf(items).sections;
    KeysOfDenotation(u, sections);
    forall i | 0 <= i < |sections| && !IsComplete(sections[i])
      ensures !Less(sections[i].name, names[k])
    {
      assert sections[i].name in multiset(names);
      assert names == names[..k] + names[k..];
      var m :| 0 <= m < |names[k..]| && names[k..][m] == sections[i].name;
      LessIsTotal(names[k], names[k + m]);
    }
    assert !IsComplete(sections[j]);
  }

  lemma {:induction false} AllComplete(u: FloatUnit, items: seq<Item>, names: seq<string>)
    requires LinesOk(u, items) && CompleteUpTo(OutlineOf(items).sections, names, |names|)
    requires multiset(names) == multiset(Denotation(u, OutlineOf(items).sections).Keys)
    ensures WellFormed(u, items) <==> |Denotation(u, OutlineOf(items).sections)| != 0
    ensures OutlineOf(items).sections == [] <==> |Denotation(u, OutlineOf(items).sections)| == 0
  {
    hide IsComplete, BoardOf;
    var sections := OutlineOf(items).sections;
    KeysOfDenotation(u, sections);
    assert names[..|names|] == names;
    if sections != [] {
      assert sections[0].name in Denotation(u, sections);
    }
    forall i | 0 <= i < |sections|
      ensures IsComplete(sections[i])
    {
      assert sections[i].name in Denotation(u, sections);
      assert sections[i].name in multiset(names);
    }
  }

  /** The first board, in name order, that lacks a required key. */
  method FindIncomplete(u: FloatUnit, boards: Boards, seen: Seen, ghost items: seq<Item>, ghost readFailed: bool)
    returns (r: Option<ParseError>)
    requires LinesOk(u, items)
    requires boards == Denotation(u, OutlineOf(items).sections) && seen == SeenIn(OutlineOf(items).sections)
    ensures r.None? ==> (WellFormed(u, items) <==> |boards| != 0)
    ensures r.None? ==> (OutlineOf(items).sections == [] <==> |boards| == 0)
    ensures r.Some? ==> !WellFormed(u, items) && Diagnoses(u, items, readFailed, r.value)
  {
    hide LinesOk, Denotation, SeenIn, BoardOf, OutlineOf, FirstIncomplete, Keys, WellFormed;
    var names := BoardNames(boards);
    for k := 0 to |names|
      invariant CompleteUpTo(OutlineOf(items).sections, names, k)
    {
      var name := names[k];
      ghost var j := NamedSection(u, items, names, k);
      if boards[name].chip == "" {
        FoundIncomplete(u, items, names, k, j, "chip");
        return Some(NoChip(name));
      }
      if "max_celsius" !in seen[name] {
        FoundIncomplete(u, items, names, k, j, "max_celsius");
        return Some(NoThreshold(name));
      }
      StillComplete(u, items, names, k, j);
    }
    AllComplete(u, items, names);
    return None;
  }

  /**
   Reads a whole table in one pass. It is accepted exactly when it is well formed, an accepted table
   means what its sections say, and an error points at the first line that is wrong.
   */
  method Parse(u: FloatUnit, lines: seq<string>, readFailed: bool) returns (r: Result<Boards, ParseError>)
    ensures r.Ok? <==> !readFailed && WellFormed(u, Items(lines))
    ensures r.Ok? ==> r.value == Denotation(u, OutlineOf(Items(lines)).sections)
    ensures r.Err? ==> Diagnoses(u, Items(lines), readFailed, r.error)
  {
    hide Classify, LinesOk, Denotation, SeenIn, OutlineOf, FirstIncomplete, ParseThreshold;
    ghost var items := Items(lines);
    var boards: Boards := map[];
    var seen: Seen := map[];
    var current := "";
    NothingRead(u, items);
    ClassifyNamesHeaders(lines);
    for i := 0 to |lines|
      invariant LinesOk(u, items[..i])
      invariant Tracks(u, OutlineOf(items[..i]), boards, seen, current)
    {
      var lineNo := i + 1;
      match Classify(lines[i]) {
        case Skip =>
          SkipStep(u, items, i);
        case UnterminatedHeader =>
          FaultStep(u, items, i);
          return Err(Unterminated(lineNo));
        case EmptyHeader =>
          FaultStep(u, items, i);
          return Err(Unnamed(lineNo));
        case NotAPair =>
          FaultStep(u, items, i);
          return Err(NeitherHeaderNorPair(lineNo));
        case Header(name) =>
          HeaderStep(u, items, i, name);
          if name in boards {
            return Err(AlreadyDefined(lineNo, name, boards[name].line));
          }
          boards := boards[name := Board(name, "", "", 0, lineNo)];
          seen := seen[name := {}];
          current := name;
        case Entry(key, value) =>
          var added := AddEntry(u, boards, seen, current, key, value, lineNo, items, readFailed);
          if added.Err? {
            return Err(added.error);
          }
          boards, seen := added.value.0, added.value.1;
      }
    }
    assert items[..|lines|] == items;
    if readFailed {
      return Err(ReadFailed);
    }
    var incomplete := FindIncomplete(u, boards, seen, items, readFailed);
    if incomplete.Some? {
      return Err(incomplete.value);
    }
    if |boards| == 0 {
      return Err(NoBoards);
    }
    return Ok(boards);
  }

  /** An unknown board is an error, never a default. */
  function Lookup(boards: Boards, name: string): Option<Board> {
    if name in boards then Some(boards[name]) else None
  }
}

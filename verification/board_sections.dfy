/** Whole sections of the board table: their order is free, and printed ones read back as they were. */
module BoardSections {
  import opened BoardLaws
  import opened BoardTable
  import opened Numerals
  import opened Rounding
  import opened Text
  import opened Wrappers

  /** A header line and the lines up to the next one. */
  predicate IsBlock(lines: seq<string>) {
    && lines != []
    && Classify(lines[0]).Header?
    && forall i :: 1 <= i < |lines| ==> !Classify(lines[i]).Header?
  }

  function Flatten(blocks: seq<seq<string>>): seq<string> {
    if blocks == [] then [] else Flatten(blocks[..|blocks| - 1]) + blocks[|blocks| - 1]
  }

  function EntriesOf(items: seq<Item>): seq<(string, string)> {
    if items == [] then []
    else
      var n := |items| - 1;
      match items[n]
      case Entry(key, value) => EntriesOf(items[..n]) + [(key, value)]
      case _ => EntriesOf(items[..n])
  }

  function NameOf(block: seq<string>): string
    requires IsBlock(block)
  {
    Classify(block[0]).name
  }

  function SectionOf(block: seq<string>, line: nat): Section
    requires IsBlock(block)
  {
    Section(NameOf(block), line, EntriesOf(Items(block)[1..]))
  }

  predicate AreBlocks(blocks: seq<seq<string>>) {
    forall i :: 0 <= i < |blocks| ==> IsBlock(blocks[i])
  }

  function SectionsOf(blocks: seq<seq<string>>): (r: seq<Section>)
    requires AreBlocks(blocks)
    ensures |r| == |blocks|
  {
    if blocks == [] then []
    else
      var n := |blocks| - 1;
      SectionsOf(blocks[..n]) + [SectionOf(blocks[n], |Flatten(blocks[..n])| + 1)]
  }

  // ----- the outline of blocks in a row

  lemma {:induction false} OutlineOfBlock(before: seq<Item>, name: string, body: seq<Item>)
    requires forall i :: 0 <= i < |body| ==> !body[i].Header?
    ensures var o := OutlineOf(before);
            OutlineOf(before + [Header(name)] + body)
            == o.(sections := o.sections + [Section(name, |before| + 1, EntriesOf(body))])
  {
    var all := before + [Header(name)] + body;
    if body == [] {
      assert all[..|before|] == before;
    } else {
      var n := |body| - 1;
      OutlineOfBlock(before, name, body[..n]);
      assert all[..|all| - 1] == before + [Header(name)] + body[..n];
    }
  }

  lemma {:induction false} OutlineOfBlocks(blocks: seq<seq<string>>)
    requires AreBlocks(blocks)
    ensures OutlineOf(Items(Flatten(blocks))) == Outline([], SectionsOf(blocks))
  {
    hide Classify;
    if blocks != [] {
      var n := |blocks| - 1;
      var before, last := Flatten(blocks[..n]), Items(blocks[n]);
      OutlineOfBlocks(blocks[..n]);
      ItemsAppend(before, blocks[n]);
      assert Items(before) + last == Items(before) + [last[0]] + last[1..];
      OutlineOfBlock(Items(before), last[0].name, last[1..]);
    }
  }

  lemma {:induction false} FaultsOfConcatenation(a: seq<Item>, b: seq<Item>)
    ensures HasFault(a + b) <==> HasFault(a) || HasFault(b)
  {
    hide IsFault;
    var all := a + b;
    assert forall i :: 0 <= i < |a| ==> all[i] == a[i];
    assert forall i :: 0 <= i < |b| ==> all[|a| + i] == b[i];
    assert forall i :: |a| <= i < |all| ==> all[i] == b[i - |a|];
  }

  predicate NoFaults(blocks: seq<seq<string>>) {
    forall i :: 0 <= i < |blocks| ==> !HasFault(Items(blocks[i]))
  }

  lemma {:induction false} FaultsOfBlocks(blocks: seq<seq<string>>)
    ensures !HasFault(Items(Flatten(blocks))) <==> NoFaults(blocks)
  {
    hide Classify;
    if blocks != [] {
      var n := |blocks| - 1;
      FaultsOfBlocks(blocks[..n]);
      ItemsAppend(Flatten(blocks[..n]), blocks[n]);
      hide HasFault;
      FaultsOfConcatenation(Items(Flatten(blocks[..n])), Items(blocks[n]));
    }
  }

  // ----- what a table of blocks means, block by block

  predicate BlockOk(u: FloatUnit, block: seq<string>) {
    && IsBlock(block)
    && !HasFault(Items(block))
    && SectionOk(u, SectionOf(block, 0))
    && IsComplete(SectionOf(block, 0))
  }

  predicate DistinctBlocks(blocks: seq<seq<string>>)
    requires AreBlocks(blocks)
  {
    forall i, j :: 0 <= i < j < |blocks| ==> NameOf(blocks[i]) != NameOf(blocks[j])
  }

  lemma {:induction false} SectionsOfAt(blocks: seq<seq<string>>, i: nat)
    requires AreBlocks(blocks) && i < |blocks|
    ensures SectionsOf(blocks)[i].(line := 0) == SectionOf(blocks[i], 0)
    ensures SectionsOf(blocks)[i].name == NameOf(blocks[i])
  {
    hide IsBlock, EntriesOf;
    var n := |blocks| - 1;
    if i < n {
      SectionsOfAt(blocks[..n], i);
    }
  }

  lemma {:induction false} SectionsMatchBlocks(u: FloatUnit, blocks: seq<seq<string>>)
    requires AreBlocks(blocks)
    ensures forall i :: 0 <= i < |blocks| ==>
      && SectionsOf(blocks)[i].name == NameOf(blocks[i])
      && (SectionOk(u, SectionsOf(blocks)[i]) <==> SectionOk(u, SectionOf(blocks[i], 0)))
      && (IsComplete(SectionsOf(blocks)[i]) <==> IsComplete(SectionOf(blocks[i], 0)))
  {
    hide IsBlock, SectionOk, IsComplete, SectionsOf, NameOf, SectionOf;
    forall i | 0 <= i < |blocks|
      ensures SectionsOf(blocks)[i].name == NameOf(blocks[i])
      ensures SectionOk(u, SectionsOf(blocks)[i]) <==> SectionOk(u, SectionOf(blocks[i], 0))
      ensures IsComplete(SectionsOf(blocks)[i]) <==> IsComplete(SectionOf(blocks[i], 0))
    {
      SectionsOfAt(blocks, i);
      SameBoard(u, SectionsOf(blocks)[i], SectionOf(blocks[i], 0));
    }
  }

  /** A run of blocks is a table exactly when each block stands on its own and no two share a name. */
  lemma {:induction false} BlocksAreIndependent(u: FloatUnit, blocks: seq<seq<string>>)
    requires AreBlocks(blocks)
    ensures WellFormed(u, Items(Flatten(blocks)))
       <==> blocks != [] && DistinctBlocks(blocks) && forall i :: 0 <= i < |blocks| ==> BlockOk(u, blocks[i])
  {
    hide IsBlock, SectionOk, IsComplete, HasFault, SectionsOf, OutlineOf, NameOf, SectionOf, IsFault,
         NoFaults, BlockOk, Items, Flatten, DistinctNames, DistinctBlocks;
    OutlineOfBlocks(blocks);
    FaultsOfBlocks(blocks);
    SectionsMatchBlocks(u, blocks);
    FaultFree(Items(Flatten(blocks)));
    BlocksVerdict(u, blocks, SectionsOf(blocks));
  }

  lemma {:induction false} FaultFree(items: seq<Item>)
    ensures !HasFault(items) <==> forall i :: 0 <= i < |items| ==> !IsFault(items[i])
  {
    hide IsFault;
  }

  lemma {:induction false} BlocksVerdict(u: FloatUnit, blocks: seq<seq<string>>, s: seq<Section>)
    requires AreBlocks(blocks) && |s| == |blocks|
    requires forall i :: 0 <= i < |blocks| ==>
      && s[i].name == NameOf(blocks[i])
      && (SectionOk(u, s[i]) <==> SectionOk(u, SectionOf(blocks[i], 0)))
      && (IsComplete(s[i]) <==> IsComplete(SectionOf(blocks[i], 0)))
    ensures DistinctNames(s) <==> DistinctBlocks(blocks)
    ensures NoFaults(blocks) && (forall i :: 0 <= i < |s| ==> SectionOk(u, s[i]) && IsComplete(s[i]))
       <==> forall i :: 0 <= i < |blocks| ==> BlockOk(u, blocks[i])
  {
    hide IsBlock, SectionOk, IsComplete, HasFault, NameOf, SectionOf;
  }

  /** The board a block describes, wherever in the table it stands. */
  lemma {:induction false} BoardOfBlock(u: FloatUnit, blocks: seq<seq<string>>, i: nat)
    requires AreBlocks(blocks) && DistinctBlocks(blocks) && i < |blocks|
    ensures NameOf(blocks[i]) in Unnumbered(Meaning(u, Flatten(blocks)))
    ensures Unnumbered(Meaning(u, Flatten(blocks)))[NameOf(blocks[i])] == BoardOf(u, SectionOf(blocks[i], 0))
  {
    OutlineOfBlocks(blocks);
    hide IsBlock, SectionsOf, OutlineOf, NameOf, SectionOf, BoardOf;
    var s := SectionsOf(blocks);
    forall j | 0 <= j < |blocks|
      ensures s[j].name == NameOf(blocks[j])
    {
      SectionsOfAt(blocks, j);
    }
    DenotationAt(u, s, i);
    SectionsOfAt(blocks, i);
    SameBoard(u, s[i], SectionOf(blocks[i], 0));
    BoardOfUnnumbered(u, blocks[i]);
  }

  lemma {:induction false} BoardOfUnnumbered(u: FloatUnit, block: seq<string>)
    requires IsBlock(block)
    ensures BoardOf(u, SectionOf(block, 0)).(line := 0) == BoardOf(u, SectionOf(block, 0))
  {
  }

  lemma {:induction false} NamesOfBlocks(u: FloatUnit, blocks: seq<seq<string>>, name: string)
    requires AreBlocks(blocks)
    ensures name in Unnumbered(Meaning(u, Flatten(blocks)))
       <==> exists i :: 0 <= i < |blocks| && NameOf(blocks[i]) == name
  {
    hide IsBlock, SectionsOf, OutlineOf, NameOf, Denotation, Items, Flatten;
    OutlineOfBlocks(blocks);
    var s := SectionsOf(blocks);
    forall j | 0 <= j < |blocks|
      ensures s[j].name == NameOf(blocks[j])
    {
      SectionsOfAt(blocks, j);
    }
    KeysOfDenotation(u, s);
    SameNames(blocks, s, name);
  }

  lemma {:induction false} SameNames(blocks: seq<seq<string>>, s: seq<Section>, name: string)
    requires AreBlocks(blocks) && |s| == |blocks|
    requires forall j :: 0 <= j < |blocks| ==> s[j].name == NameOf(blocks[j])
    ensures (exists i :: 0 <= i < |s| && s[i].name == name) <==> (exists i :: 0 <= i < |blocks| && NameOf(blocks[i]) == name)
  {
    hide IsBlock, NameOf;
  }

  // ----- the order of sections is free

  lemma {:induction false} DistinctBlocksOccurOnce(blocks: seq<seq<string>>, b: seq<string>)
    requires AreBlocks(blocks) && DistinctBlocks(blocks)
    ensures multiset(blocks)[b] <= 1
  {
    hide IsBlock, NameOf;
    if blocks != [] {
      var n := |blocks| - 1;
      var front, last := blocks[..n], blocks[n];
      DistinctBlocksOccurOnce(front, b);
      assert blocks == front + [last];
      NewNameIsNewBlock(front, last);
    }
  }

  lemma {:induction false} NewNameIsNewBlock(front: seq<seq<string>>, last: seq<string>)
    requires AreBlocks(front) && IsBlock(last)
    requires forall i :: 0 <= i < |front| ==> NameOf(front[i]) != NameOf(last)
    ensures multiset(front)[last] == 0
  {
    hide IsBlock, NameOf;
  }

  lemma {:induction false} OccursTwice(blocks: seq<seq<string>>, i: nat, j: nat)
    requires i < j < |blocks| && blocks[i] == blocks[j]
    ensures multiset(blocks)[blocks[i]] >= 2
  {
    assert blocks == blocks[..j] + blocks[j..];
    assert blocks[i] in blocks[..j] && blocks[j] in blocks[j..];
  }

  lemma {:induction false} DistinctnessPermutes(a: seq<seq<string>>, b: seq<seq<string>>)
    requires AreBlocks(a) && AreBlocks(b) && multiset(a) == multiset(b) && DistinctBlocks(a)
    ensures DistinctBlocks(b)
  {
    hide IsBlock, NameOf;
    forall i, j | 0 <= i < j < |b|
      ensures NameOf(b[i]) != NameOf(b[j])
    {
      DistinctBlocksOccurOnce(a, b[i]);
      if b[i] == b[j] {
        OccursTwice(b, i, j);
      }
      assert b[i] in multiset(a) && b[j] in multiset(a);
      var k :| 0 <= k < |a| && a[k] == b[i];
      var l :| 0 <= l < |a| && a[l] == b[j];
      assert k < l || l < k;
    }
  }

  lemma {:induction false} VerdictPermutes(u: FloatUnit, a: seq<seq<string>>, b: seq<seq<string>>)
    requires AreBlocks(a) && AreBlocks(b) && multiset(a) == multiset(b)
    requires WellFormed(u, Items(Flatten(a)))
    ensures WellFormed(u, Items(Flatten(b))) && DistinctBlocks(a) && DistinctBlocks(b)
  {
    hide IsBlock, BlockOk, WellFormed, Items, Flatten, DistinctBlocks;
    BlocksAreIndependent(u, a);
    BlocksAreIndependent(u, b);
    DistinctnessPermutes(a, b);
    assert a[0] in multiset(b);
    forall j | 0 <= j < |b|
      ensures BlockOk(u, b[j])
    {
      var i := PlaceOf(b, a, j);
    }
  }

  lemma {:induction false} BoardPermutes(u: FloatUnit, a: seq<seq<string>>, b: seq<seq<string>>, name: string)
    requires AreBlocks(a) && AreBlocks(b) && multiset(a) == multiset(b)
    requires DistinctBlocks(a) && DistinctBlocks(b)
    requires name in Unnumbered(Meaning(u, Flatten(a)))
    ensures name in Unnumbered(Meaning(u, Flatten(b)))
    ensures Unnumbered(Meaning(u, Flatten(a)))[name] == Unnumbered(Meaning(u, Flatten(b)))[name]
  {
    hide IsBlock, NameOf, DistinctBlocks, Meaning, Unnumbered, BoardOf, SectionOf, Flatten;
    NamesOfBlocks(u, a, name);
    var i :| 0 <= i < |a| && NameOf(a[i]) == name;
    var j := PlaceOf(a, b, i);
    BoardOfBlock(u, a, i);
    BoardOfBlock(u, b, j);
  }

  lemma {:induction false} BlocksPermuteOneWay(u: FloatUnit, a: seq<seq<string>>, b: seq<seq<string>>)
    requires AreBlocks(a) && AreBlocks(b) && multiset(a) == multiset(b)
    requires WellFormed(u, Items(Flatten(a)))
    ensures WellFormed(u, Items(Flatten(b)))
    ensures Unnumbered(Meaning(u, Flatten(a))) == Unnumbered(Meaning(u, Flatten(b)))
  {
    hide IsBlock, WellFormed, Items, Flatten, DistinctBlocks, Meaning, Unnumbered;
    VerdictPermutes(u, a, b);
    var m, w := Unnumbered(Meaning(u, Flatten(a))), Unnumbered(Meaning(u, Flatten(b)));
    forall name | name in m
      ensures name in w && m[name] == w[name]
    {
      BoardPermutes(u, a, b, name);
    }
    forall name | name in w
      ensures name in m
    {
      BoardPermutes(u, b, a, name);
    }
    assert m == w;
  }

  lemma {:induction false} PlaceOf(a: seq<seq<string>>, b: seq<seq<string>>, i: nat) returns (j: nat)
    requires multiset(a) == multiset(b) && i < |a|
    ensures j < |b| && b[j] == a[i]
  {
    assert a[i] in multiset(b);
    j :| 0 <= j < |b| && b[j] == a[i];
  }

  /** Permuting whole sections leaves the table as it was. */
  lemma {:induction false} SectionOrderIsFree(u: FloatUnit, a: seq<seq<string>>, b: seq<seq<string>>)
    requires AreBlocks(a) && AreBlocks(b) && multiset(a) == multiset(b)
    ensures SameTable(u, Flatten(a), Flatten(b))
  {
    hide WellFormed, Meaning, Unnumbered, IsBlock;
    if WellFormed(u, Items(Flatten(a))) {
      BlocksPermuteOneWay(u, a, b);
    }
    if WellFormed(u, Items(Flatten(b))) {
      BlocksPermuteOneWay(u, b, a);
    }
  }

  // ----- printing

  /** What a table can hold: trimmed texts, a name and a chip, and a plausible limit. */
  predicate Printable(b: Board) {
    && b.name != "" && Trimmed(b.name)
    && b.chip != "" && Trimmed(b.chip)
    && Trimmed(b.sensor)
    && 1000 * MIN_THRESHOLD_CELSIUS <= b.max <= 1000 * MAX_THRESHOLD_CELSIUS
  }

  function PrintPair(key: string, value: string): string {
    key + " = " + value
  }

  function PrintBoard(b: Board): seq<string>
    requires Printable(b)
  {
    [ "[" + b.name + "]",
      PrintPair("chip", b.chip),
      PrintPair("sensor", b.sensor),
      PrintPair("max_celsius", PrintMilli(b.max)) ]
  }

  function PrintTable(boards: seq<Board>): (r: seq<seq<string>>)
    requires forall i :: 0 <= i < |boards| ==> Printable(boards[i])
    ensures |r| == |boards|
  {
    seq(|boards|, i requires 0 <= i < |boards| && Printable(boards[i]) => PrintBoard(boards[i]))
  }

  lemma {:induction false} HeaderReadsBack(name: string)
    requires name != "" && Trimmed(name)
    ensures Classify("[" + name + "]") == Header(name)
  {
    var line := "[" + name + "]";
    TrimOfTrimmed(line);
    assert line[1..|line| - 1] == name;
    TrimOfTrimmed(name);
  }

  /** A key a section can hold. */
  predicate IsKey(key: string) {
    key == "chip" || key == "sensor" || key == "max_celsius"
  }

  lemma {:induction false} KeyShape(key: string)
    requires IsKey(key)
    ensures key != "" && Trimmed(key) && key[0] !in "[#;" && '=' !in key
  {
  }

  lemma {:induction false} ClassifyPair(line: string, before: string, rest: string)
    requires line == before + ['='] + rest && Trim(line) == line
    requires before != "" && before[0] !in "[#;" && '=' !in before
    ensures Classify(line) == Entry(Trim(before), Trim(rest))
  {
    hide Trim;
    BeforeIsUnique(before, '=', rest, "=");
    assert line[|before| + 1..] == rest;
  }

  lemma {:induction false} PairIsTrimmed(key: string, rest: string)
    requires key != "" && !IsSpace(key[0]) && (rest == "" || !IsSpace(rest[|rest| - 1]))
    ensures Trim(key + " =" + rest) == key + " =" + rest
  {
    var line := key + " =" + rest;
    EqualsIsNoSpace();
    hide IsSpace;
    assert line[0] == key[0] && line[|line| - 1] == if rest == "" then '=' else rest[|rest| - 1];
    TrimOfTrimmed(line);
  }

  lemma {:induction false} KeyTrims(key: string)
    requires Trimmed(key)
    ensures Trim(key + " ") == key
  {
    SpaceIsBlank();
    hide IsSpace;
    TrimPadded("", key, " ");
    assert "" + key + " " == key + " ";
    TrimOfTrimmed(key);
  }

  lemma {:induction false} PairOfTrimmed(key: string, rest: string)
    requires IsKey(key) && (rest == "" || !IsSpace(rest[|rest| - 1]))
    ensures Trim(key + " =" + rest) == key + " =" + rest
    ensures Classify(key + " =" + rest) == Entry(key, Trim(rest))
  {
    KeyShape(key);
    hide IsKey, IsSpace, Classify, Trim;
    PairIsTrimmed(key, rest);
    assert key + " =" + rest == (key + " ") + ['='] + rest;
    assert (key + " ")[0] == key[0];
    ClassifyPair(key + " =" + rest, key + " ", rest);
    KeyTrims(key);
  }

  lemma {:induction false} EqualsIsNoSpace()
    ensures !IsSpace('=')
  {
  }

  lemma {:induction false} SpaceIsBlank()
    ensures Blank(" ") && Blank("")
  {
  }

  lemma {:induction false} PairReadsBack(key: string, value: string)
    requires IsKey(key) && Trimmed(value)
    ensures Classify(PrintPair(key, value)) == Entry(key, value)
  {
    hide IsKey, IsSpace;
    var line := PrintPair(key, value);
    SpaceIsBlank();
    TrimOfTrimmed(value);
    if value == "" {
      assert line == "" + (key + " =") + " ";
      TrimPadded("", key + " =", " ");
      assert key + " =" + "" == key + " =";
      PairOfTrimmed(key, "");
    } else {
      assert line == key + " =" + (" " + value);
      PairOfTrimmed(key, " " + value);
      TrimPadded(" ", value, "");
      assert " " + value + "" == " " + value;
    }
  }

  lemma {:induction false} PrintedItems(b: Board)
    requires Printable(b)
    ensures Items(PrintBoard(b))
         == [Header(b.name), Entry("chip", b.chip), Entry("sensor", b.sensor), Entry("max_celsius", PrintMilli(b.max))]
  {
    hide Classify, PrintMilli, PrintPair, Trimmed, Items;
    HeaderReadsBack(b.name);
    MilliOfPrint(b.max);
    PairReadsBack("chip", b.chip);
    PairReadsBack("sensor", b.sensor);
    PairReadsBack("max_celsius", PrintMilli(b.max));
    FourItems("[" + b.name + "]", PrintPair("chip", b.chip), PrintPair("sensor", b.sensor),
              PrintPair("max_celsius", PrintMilli(b.max)));
  }

  lemma {:induction false} PrintedBlock(b: Board)
    requires Printable(b)
    ensures Items(PrintBoard(b))
         == [Header(b.name), Entry("chip", b.chip), Entry("sensor", b.sensor), Entry("max_celsius", PrintMilli(b.max))]
    ensures IsBlock(PrintBoard(b)) && NameOf(PrintBoard(b)) == b.name && !HasFault(Items(PrintBoard(b)))
  {
    hide PrintMilli, PrintPair, IsBlock, NameOf, HasFault, Items;
    PrintedItems(b);
    BlockOfItems(PrintBoard(b));
  }

  lemma {:induction false} BlockOfItems(lines: seq<string>)
    requires lines != [] && Items(lines)[0].Header?
    requires forall i :: 1 <= i < |lines| ==> Items(lines)[i].Entry?
    ensures IsBlock(lines) && NameOf(lines) == Items(lines)[0].name && !HasFault(Items(lines))
  {
    hide Classify;
    assert forall i :: 0 <= i < |lines| ==> Items(lines)[i] == Classify(lines[i]);
  }

  lemma {:induction false} FourItems(a: string, b: string, c: string, d: string)
    ensures Items([a, b, c, d]) == [Classify(a), Classify(b), Classify(c), Classify(d)]
  {
    hide Classify;
  }

  lemma {:induction false} EntriesOfPrinted(b: Board)
    requires Printable(b)
    ensures IsBlock(PrintBoard(b))
    ensures SectionOf(PrintBoard(b), 0)
         == Section(b.name, 0, [("chip", b.chip), ("sensor", b.sensor), ("max_celsius", PrintMilli(b.max))])
  {
    PrintedBlock(b);
    hide PrintBoard, PrintMilli, Items, EntriesOf, IsBlock, NameOf;
    ThreeEntries("chip", b.chip, "sensor", b.sensor, "max_celsius", PrintMilli(b.max));
    assert Items(PrintBoard(b))[1..]
        == [Entry("chip", b.chip), Entry("sensor", b.sensor), Entry("max_celsius", PrintMilli(b.max))];
  }

  lemma {:induction false} ThreeEntries(k: string, v: string, l: string, w: string, m: string, x: string)
    ensures EntriesOf([Entry(k, v), Entry(l, w), Entry(m, x)]) == [(k, v), (l, w), (m, x)]
  {
    AddedEntry([], k, v);
    AddedEntry([Entry(k, v)], l, w);
    AddedEntry([Entry(k, v), Entry(l, w)], m, x);
    assert EntriesOf([]) == [];
    hide EntriesOf;
    assert [] + [Entry(k, v)] == [Entry(k, v)];
    assert [Entry(k, v)] + [Entry(l, w)] == [Entry(k, v), Entry(l, w)];
    assert [Entry(k, v), Entry(l, w)] + [Entry(m, x)] == [Entry(k, v), Entry(l, w), Entry(m, x)];
  }

  lemma {:induction false} AddedEntry(items: seq<Item>, key: string, value: string)
    ensures EntriesOf(items + [Entry(key, value)]) == EntriesOf(items) + [(key, value)]
  {
    assert (items + [Entry(key, value)])[..|items|] == items;
  }

  lemma {:induction false} PrintedBoardIsOk(u: FloatUnit, b: Board)
    requires Faithful(u) && Printable(b)
    ensures BlockOk(u, PrintBoard(b))
    ensures BoardOf(u, SectionOf(PrintBoard(b), 0)) == b.(line := 0)
  {
    PrintedBlock(b);
    EntriesOfPrinted(b);
    MilliOfPrint(b.max);
    DecimalThreshold(u, PrintMilli(b.max), b.max);
    hide PrintBoard, PrintMilli, IsBlock, HasFault, Faithful, ParseThreshold, SectionOk, IsComplete, BoardOf, Items;
    PrintedSectionIsOk(u, b.name, b.chip, b.sensor, PrintMilli(b.max), b.max);
  }

  lemma {:induction false} PrintedSectionIsOk(u: FloatUnit, name: string, chip: string, sensor: string, limit: string, m: int)
    requires chip != "" && ParseThreshold(u, limit) == Ok(m)
    ensures var s := Section(name, 0, [("chip", chip), ("sensor", sensor), ("max_celsius", limit)]);
            SectionOk(u, s) && IsComplete(s) && BoardOf(u, s) == Board(name, chip, sensor, m, 0)
  {
    hide ParseThreshold;
    var entries := [("chip", chip), ("sensor", sensor), ("max_celsius", limit)];
    PrintedValues(chip, sensor, limit);
    KeysHaveValues(entries, "chip");
    KeysHaveValues(entries, "max_celsius");
    KeysDiffer();
  }

  lemma {:induction false} KeysDiffer()
    ensures "chip" != "sensor" && "chip" != "max_celsius" && "sensor" != "max_celsius"
  {
  }

  lemma {:induction false} PrintedValues(chip: string, sensor: string, limit: string)
    ensures var entries := [("chip", chip), ("sensor", sensor), ("max_celsius", limit)];
            && ValueOf(entries, "chip") == Some(chip)
            && ValueOf(entries, "sensor") == Some(sensor)
            && ValueOf(entries, "max_celsius") == Some(limit)
  {
    var entries := [("chip", chip), ("sensor", sensor), ("max_celsius", limit)];
    assert entries[..2] == [("chip", chip), ("sensor", sensor)];
    assert entries[..2][..1] == [("chip", chip)];
    assert ValueOf(entries[..2][..1], "chip") == Some(chip);
    assert ValueOf(entries[..2], "chip") == Some(chip) && ValueOf(entries[..2], "sensor") == Some(sensor);
  }

  lemma {:induction false} PrintedBlocks(u: FloatUnit, boards: seq<Board>)
    requires Faithful(u)
    requires forall j :: 0 <= j < |boards| ==> Printable(boards[j])
    ensures AreBlocks(PrintTable(boards))
    ensures forall j :: 0 <= j < |boards| ==>
      var block := PrintTable(boards)[j];
      && BlockOk(u, block) && NameOf(block) == boards[j].name && |block| == 4
      && BoardOf(u, SectionOf(block, 0)) == boards[j].(line := 0)
  {
    hide PrintBoard, IsBlock, Faithful, BlockOk, NameOf, SectionOf, BoardOf, Items, HasFault;
    forall j | 0 <= j < |boards|
      ensures var block := PrintTable(boards)[j];
        && IsBlock(block)
        && BlockOk(u, block) && NameOf(block) == boards[j].name && |block| == 4
        && BoardOf(u, SectionOf(block, 0)) == boards[j].(line := 0)
    {
      PrintedBlock(boards[j]);
      PrintedBoardIsOk(u, boards[j]);
      FourLines(boards[j]);
    }
  }

  /** Printing a table and parsing it gives back every board, each on the line its header was printed on. */
  lemma {:induction false} PrintedTablesReadBack(u: FloatUnit, boards: seq<Board>, i: nat)
    requires Faithful(u) && i < |boards|
    requires forall j :: 0 <= j < |boards| ==> Printable(boards[j])
    requires forall j, k :: 0 <= j < k < |boards| ==> boards[j].name != boards[k].name
    ensures var lines := Flatten(PrintTable(boards));
            && WellFormed(u, Items(lines))
            && boards[i].name in Meaning(u, lines)
            && Meaning(u, lines)[boards[i].name] == boards[i].(line := 4 * i + 1)
            && Meaning(u, lines).Keys == set j | 0 <= j < |boards| :: boards[j].name
  {
    var blocks := PrintTable(boards);
    PrintedBlocks(u, boards);
    hide PrintTable, WellFormed, IsBlock, Faithful, BlockOk, NameOf, SectionOf, BoardOf, Printable, Meaning, Items;
    assert DistinctBlocks(blocks);
    BlocksAreIndependent(u, blocks);
    BoardOfBlock(u, blocks, i);
    PrintedLine(u, blocks, i);
    PrintedKeys(u, blocks, boards);
    UnnumberedAt(Meaning(u, Flatten(blocks)), boards[i].name, boards[i]);
  }

  lemma {:induction false} PrintedKeys(u: FloatUnit, blocks: seq<seq<string>>, boards: seq<Board>)
    requires AreBlocks(blocks) && |blocks| == |boards|
    requires forall j :: 0 <= j < |boards| ==> NameOf(blocks[j]) == boards[j].name
    ensures Meaning(u, Flatten(blocks)).Keys == set j | 0 <= j < |boards| :: boards[j].name
  {
    hide IsBlock, NameOf, Meaning;
    var m := Meaning(u, Flatten(blocks));
    forall name
      ensures name in m <==> name in set j | 0 <= j < |boards| :: boards[j].name
    {
      NamesOfBlocks(u, blocks, name);
    }
  }

  lemma {:induction false} FourLines(b: Board)
    requires Printable(b)
    ensures |PrintBoard(b)| == 4
  {
  }

  lemma {:induction false} UnnumberedAt(m: Boards, name: string, b: Board)
    requires name in m && Unnumbered(m)[name] == b.(line := 0)
    ensures m[name] == b.(line := m[name].line)
  {
  }

  lemma {:induction false} PrintedLine(u: FloatUnit, blocks: seq<seq<string>>, i: nat)
    requires AreBlocks(blocks) && DistinctBlocks(blocks) && i < |blocks|
    requires forall j :: 0 <= j < |blocks| ==> |blocks[j]| == 4
    ensures NameOf(blocks[i]) in Meaning(u, Flatten(blocks))
    ensures Meaning(u, Flatten(blocks))[NameOf(blocks[i])].line == 4 * i + 1
  {
    OutlineOfBlocks(blocks);
    hide IsBlock, NameOf, OutlineOf, SectionsOf;
    var s := SectionsOf(blocks);
    forall j | 0 <= j < |blocks|
      ensures s[j].name == NameOf(blocks[j])
    {
      SectionsOfAt(blocks, j);
    }
    DenotationAt(u, s, i);
    LineOfSection(blocks, i);
  }

  lemma {:induction false} LineOfSection(blocks: seq<seq<string>>, i: nat)
    requires AreBlocks(blocks) && i < |blocks|
    requires forall j :: 0 <= j < |blocks| ==> |blocks[j]| == 4
    ensures SectionsOf(blocks)[i].line == 4 * i + 1 && |Flatten(blocks)| == 4 * |blocks|
  {
    hide IsBlock, EntriesOf, NameOf;
    var n := |blocks| - 1;
    FlattenLength(blocks);
    FlattenLength(blocks[..n]);
    if i < n {
      LineOfSection(blocks[..n], i);
    }
  }

  lemma {:induction false} FlattenLength(blocks: seq<seq<string>>)
    requires forall j :: 0 <= j < |blocks| ==> |blocks[j]| == 4
    ensures |Flatten(blocks)| == 4 * |blocks|
  {
    if blocks != [] {
      FlattenLength(blocks[..|blocks| - 1]);
    }
  }

  // ----- from lines to text and back

  function DropCarriageReturn(line: string): string {
    if line != "" && line[|line| - 1] == '\r' then line[..|line| - 1] else line
  }

  /** The lines a `bufio.Scanner` splits a text into. */
  function ScanLines(text: string): seq<string> {
    if text == "" then []
    else
      var line := Before(text, "\n");
      [DropCarriageReturn(line)] + if |line| < |text| then ScanLines(text[|line| + 1..]) else []
  }

  function Unlines(lines: seq<string>): string {
    if lines == [] then "" else lines[0] + "\n" + Unlines(lines[1..])
  }

  /** A line the scanner gives back as it was. */
  predicate IsOneLine(line: string) {
    '\n' !in line && (line == "" || line[|line| - 1] != '\r')
  }

  /** A line may end in a newline, or in a carriage return and a newline. */
  lemma {:induction false} EitherLineEnding(line: string, rest: string)
    requires IsOneLine(line)
    ensures ScanLines(line + "\n" + rest) == [line] + ScanLines(rest)
    ensures ScanLines(line + "\r\n" + rest) == [line] + ScanLines(rest)
  {
    hide ScanLines;
    EndsAtNewline(line, rest);
    EndsAtNewline(line + "\r", rest);
    assert line + "\r\n" + rest == line + "\r" + "\n" + rest;
    assert (line + "\r")[..|line|] == line;
  }

  lemma {:induction false} EndsAtNewline(line: string, rest: string)
    requires '\n' !in line
    ensures ScanLines(line + "\n" + rest) == [DropCarriageReturn(line)] + ScanLines(rest)
  {
    BeforeIsUnique(line, '\n', rest, "\n");
    var text := line + "\n" + rest;
    assert text == line + ['\n'] + rest && text[|line| + 1..] == rest;
  }

  lemma {:induction false} ScanOfUnlines(lines: seq<string>)
    requires forall i :: 0 <= i < |lines| ==> IsOneLine(lines[i])
    ensures ScanLines(Unlines(lines)) == lines
  {
    if lines != [] {
      var text, rest := Unlines(lines), Unlines(lines[1..]);
      BeforeIsUnique(lines[0], '\n', rest, "\n");
      assert text == lines[0] + ['\n'] + rest;
      assert text[|lines[0]| + 1..] == rest;
      ScanOfUnlines(lines[1..]);
    }
  }

  /** None of the board's texts has a line break in it. */
  predicate IsOnLines(b: Board) {
    '\n' !in b.name && '\n' !in b.chip && '\n' !in b.sensor
  }

  lemma {:induction false} PairIsOneLine(key: string, value: string)
    requires IsKey(key) && Trimmed(value) && '\n' !in value
    ensures IsOneLine(PrintPair(key, value))
  {
    var line := PrintPair(key, value);
    assert '\n' !in key;
    hide IsKey;
    assert line[|line| - 1] == if value == "" then ' ' else value[|value| - 1];
  }

  lemma {:induction false} MilliIsOneLine(m: nat)
    ensures '\n' !in PrintMilli(m)
  {
    PrintIsHex(m / 1000, 10);
    DigitsOfPad(m % 1000, 10, 3);
    hide Print, Pad;
  }

  lemma {:induction false} PrintedLinesAreLines(b: Board)
    requires Printable(b) && IsOnLines(b)
    ensures forall i :: 0 <= i < |PrintBoard(b)| ==> IsOneLine(PrintBoard(b)[i])
  {
    MilliIsOneLine(b.max);
    MilliOfPrint(b.max);
    hide PrintMilli, IsOneLine, PrintPair;
    HeaderIsOneLine(b.name);
    PairIsOneLine("chip", b.chip);
    PairIsOneLine("sensor", b.sensor);
    PairIsOneLine("max_celsius", PrintMilli(b.max));
  }

  lemma {:induction false} HeaderIsOneLine(name: string)
    requires '\n' !in name
    ensures IsOneLine("[" + name + "]")
  {
  }

  lemma {:induction false} FlattenedLines(blocks: seq<seq<string>>)
    requires forall i, j :: 0 <= i < |blocks| && 0 <= j < |blocks[i]| ==> IsOneLine(blocks[i][j])
    ensures forall i :: 0 <= i < |Flatten(blocks)| ==> IsOneLine(Flatten(blocks)[i])
  {
    hide IsOneLine;
    if blocks != [] {
      FlattenedLines(blocks[..|blocks| - 1]);
    }
  }

  /** Written out as text, a printed table is scanned into the very lines it was printed as. */
  lemma {:induction false} PrintedTextScansBack(boards: seq<Board>)
    requires forall i :: 0 <= i < |boards| ==> Printable(boards[i])
    requires forall i :: 0 <= i < |boards| ==> IsOnLines(boards[i])
    ensures ScanLines(Unlines(Flatten(PrintTable(boards)))) == Flatten(PrintTable(boards))
  {
    hide IsOneLine, PrintBoard, Flatten;
    var blocks := PrintTable(boards);
    forall i | 0 <= i < |boards|
      ensures forall j :: 0 <= j < |blocks[i]| ==> IsOneLine(blocks[i][j])
    {
      PrintedLinesAreLines(boards[i]);
    }
    FlattenedLines(blocks);
    ScanOfUnlines(Flatten(blocks));
  }
}

/**
 Laws of the board table: what an accepted one holds, and which changes to its lines leave it as it was.
 All are stated on the grammar; the parser accepts exactly it.
 */
module BoardLaws {
  import opened BoardTable
  import opened Rounding
  import opened Text

  /** A table without the line numbers its boards were found on. */
  function Unnumbered(boards: Boards): Boards {
    map name | name in boards :: boards[name].(line := 0)
  }

  function Meaning(u: FloatUnit, lines: seq<string>): Boards {
    Denotation(u, OutlineOf(Items(lines)).sections)
  }

  /** Both files are refused, or both are accepted and describe the same boards. */
  predicate SameTable(u: FloatUnit, a: seq<string>, b: seq<string>) {
    && (WellFormed(u, Items(a)) <==> WellFormed(u, Items(b)))
    && (WellFormed(u, Items(a)) ==> Unnumbered(Meaning(u, a)) == Unnumbered(Meaning(u, b)))
  }

  /** In an accepted table every board is a header of the file, on the very line it records. */
  lemma {:induction false} BoardsRecordTheirHeaders(u: FloatUnit, lines: seq<string>, name: string)
    requires WellFormed(u, Items(lines)) && name in Meaning(u, lines)
    ensures var b := Meaning(u, lines)[name];
            b.name == name && 1 <= b.line <= |lines| && Classify(lines[b.line - 1]) == Header(name)
  {
    hide Classify, OutlineOf, SectionOk, IsComplete, IsFault, Denotation;
    var sections := OutlineOf(Items(lines)).sections;
    KeysOfDenotation(u, sections);
    var j :| 0 <= j < |sections| && sections[j].name == name;
    DenotationAt(u, sections, j);
    SectionsHaveHeaders(Items(lines), j);
  }

  /** Every limit an accepted table holds is plausible, and every board names a chip. */
  lemma {:induction false} AcceptedBoardsCanGuard(u: FloatUnit, lines: seq<string>, name: string)
    requires RoundsCorrectly(u.round) && WellFormed(u, Items(lines)) && name in Meaning(u, lines)
    ensures var b := Meaning(u, lines)[name];
            b.chip != "" && 1000 * MIN_THRESHOLD_CELSIUS <= b.max <= 1000 * MAX_THRESHOLD_CELSIUS
  {
    hide RoundsCorrectly, ParseThreshold, Classify;
    var sections := OutlineOf(Items(lines)).sections;
    KeysOfDenotation(u, sections);
    var j :| 0 <= j < |sections| && sections[j].name == name;
    DenotationAt(u, sections, j);
    ChipOfOkSection(u, sections[j]);
    var entries := sections[j].entries;
    KeysHaveValues(entries, "max_celsius");
    var limit := ValueOf(entries, "max_celsius").value;
    var i :| 0 <= i < |entries| && entries[i] == ("max_celsius", limit);
    assert EntryOk(u, entries[i]);
    AcceptedLimitsArePlausible(u, limit);
  }

  // ----- sections that differ only in their line numbers

  predicate SameSections(a: seq<Section>, b: seq<Section>) {
    |a| == |b| && forall i :: 0 <= i < |a| ==> a[i].(line := 0) == b[i].(line := 0)
  }

  lemma {:induction false} SameSectionsSameDenotation(u: FloatUnit, a: seq<Section>, b: seq<Section>)
    requires SameSections(a, b)
    ensures Unnumbered(Denotation(u, a)) == Unnumbered(Denotation(u, b))
  {
    hide BoardOf;
    if a != [] {
      var n := |a| - 1;
      SameSectionsSameDenotation(u, a[..n], b[..n]);
      SameBoard(u, a[n], b[n]);
      UnnumberedUpdate(Denotation(u, a[..n]), a[n].name, BoardOf(u, a[n]));
      UnnumberedUpdate(Denotation(u, b[..n]), b[n].name, BoardOf(u, b[n]));
    }
  }

  lemma {:induction false} UnnumberedUpdate(m: Boards, name: string, b: Board)
    ensures Unnumbered(m[name := b]) == Unnumbered(m)[name := b.(line := 0)]
  {
  }

  lemma {:induction false} SameBoard(u: FloatUnit, s: Section, t: Section)
    requires s.(line := 0) == t.(line := 0)
    ensures BoardOf(u, s).(line := 0) == BoardOf(u, t).(line := 0)
    ensures SectionOk(u, s) <==> SectionOk(u, t)
    ensures IsComplete(s) <==> IsComplete(t)
  {
    assert s.name == t.name && s.entries == t.entries;
  }

  predicate HasFault(items: seq<Item>) {
    exists i :: 0 <= i < |items| && IsFault(items[i])
  }

  lemma {:induction false} SameOutlineSameTable(u: FloatUnit, a: seq<string>, b: seq<string>)
    requires HasFault(Items(a)) <==> HasFault(Items(b))
    requires OutlineOf(Items(a)).orphans == OutlineOf(Items(b)).orphans
    requires SameSections(OutlineOf(Items(a)).sections, OutlineOf(Items(b)).sections)
    ensures SameTable(u, a, b)
  {
    hide Classify, SectionOk, IsComplete, BoardOf, OutlineOf, IsFault, HasFault;
    var s, t := OutlineOf(Items(a)).sections, OutlineOf(Items(b)).sections;
    SameSectionsSameDenotation(u, s, t);
    forall i | 0 <= i < |s|
      ensures s[i].name == t[i].name
      ensures SectionOk(u, s[i]) <==> SectionOk(u, t[i])
      ensures IsComplete(s[i]) <==> IsComplete(t[i])
    {
      assert s[i].(line := 0).name == t[i].(line := 0).name;
      SameBoard(u, s[i], t[i]);
    }
    SameVerdict(u, Items(a), Items(b));
  }

  lemma {:induction false} SameVerdict(u: FloatUnit, a: seq<Item>, b: seq<Item>)
    requires HasFault(a) <==> HasFault(b)
    requires OutlineOf(a).orphans == OutlineOf(b).orphans
    requires |OutlineOf(a).sections| == |OutlineOf(b).sections|
    requires forall i :: 0 <= i < |OutlineOf(a).sections| ==>
      && OutlineOf(a).sections[i].name == OutlineOf(b).sections[i].name
      && (SectionOk(u, OutlineOf(a).sections[i]) <==> SectionOk(u, OutlineOf(b).sections[i]))
      && (IsComplete(OutlineOf(a).sections[i]) <==> IsComplete(OutlineOf(b).sections[i]))
    ensures WellFormed(u, a) <==> WellFormed(u, b)
  {
    hide SectionOk, IsComplete, OutlineOf, IsFault;
    var s, t := OutlineOf(a).sections, OutlineOf(b).sections;
    assert DistinctNames(s) <==> DistinctNames(t);
  }

  // ----- blank lines, comments and spacing

  function Meaningful(items: seq<Item>): seq<Item> {
    if items == [] then []
    else
      var n := |items| - 1;
      if items[n].Skip? then Meaningful(items[..n]) else Meaningful(items[..n]) + [items[n]]
  }

  lemma {:induction false} SkipsAreIgnored(items: seq<Item>)
    ensures OutlineOf(Meaningful(items)).orphans == OutlineOf(items).orphans
    ensures SameSections(OutlineOf(Meaningful(items)).sections, OutlineOf(items).sections)
    ensures HasFault(items) <==> HasFault(Meaningful(items))
  {
    hide HasFault, Extend;
    if items != [] {
      var n := |items| - 1;
      var kept := Meaningful(items[..n]);
      SkipsAreIgnored(items[..n]);
      assert items == items[..n] + [items[n]];
      FaultsAppend(items[..n], items[n]);
      if items[n].Skip? {
        SkipExtends(OutlineOf(items[..n]), n + 1);
      } else {
        FaultsAppend(kept, items[n]);
        assert (kept + [items[n]])[..|kept|] == kept;
        ExtendSame(OutlineOf(kept), OutlineOf(items[..n]), items[n], |kept| + 1, n + 1);
      }
    }
  }

  lemma {:induction false} SkipExtends(o: Outline, line: nat)
    ensures Extend(o, Skip, line) == o && !IsFault(Skip)
  {
  }

  lemma {:induction false} FaultsAppend(items: seq<Item>, last: Item)
    ensures HasFault(items + [last]) <==> HasFault(items) || IsFault(last)
  {
    hide IsFault;
    var all := items + [last];
    assert all[|items|] == last && forall i :: 0 <= i < |items| ==> all[i] == items[i];
  }

  lemma {:induction false} ExtendSame(a: Outline, b: Outline, item: Item, m: nat, n: nat)
    requires a.orphans == b.orphans && SameSections(a.sections, b.sections)
    ensures Extend(a, item, m).orphans == Extend(b, item, n).orphans
    ensures SameSections(Extend(a, item, m).sections, Extend(b, item, n).sections)
  {
    if item.Entry? && a.sections != [] {
      var k := |a.sections| - 1;
      assert a.sections[k].(line := 0) == b.sections[k].(line := 0);
      assert a.sections[k].(line := 0).entries == a.sections[k].entries;
    }
  }

  /** Only the lines that mean something matter, in their order: blank lines and comments are free. */
  lemma {:induction false} BlanksAndCommentsAreFree(u: FloatUnit, a: seq<string>, b: seq<string>)
    requires Meaningful(Items(a)) == Meaningful(Items(b))
    ensures SameTable(u, a, b)
  {
    hide Classify, IsFault, OutlineOf;
    SkipsAreIgnored(Items(a));
    SkipsAreIgnored(Items(b));
    SameOutlineSameTable(u, a, b);
  }

  lemma {:induction false} MeaningfulAppends(a: seq<Item>, b: seq<Item>)
    ensures Meaningful(a + b) == Meaningful(a) + Meaningful(b)
  {
    if b == [] {
      assert a + b == a;
    } else {
      var n := |b| - 1;
      assert (a + b)[..|a| + n] == a + b[..n];
      MeaningfulAppends(a, b[..n]);
    }
  }

  lemma {:induction false} ItemsAppend(a: seq<string>, b: seq<string>)
    ensures Items(a + b) == Items(a) + Items(b)
  {
    hide Classify;
  }

  /** Inserting a blank line or a comment anywhere leaves the table as it was. */
  lemma {:induction false} InsertedBlankIsFree(u: FloatUnit, a: seq<string>, blank: string, b: seq<string>)
    requires Blank(blank) || (exists i :: 0 <= i < |blank| && Blank(blank[..i]) && blank[i] in "#;")
    ensures SameTable(u, a + [blank] + b, a + b)
  {
    BlankIsSkipped(blank);
    hide Classify, SameTable;
    ItemsAppend(a, b);
    ItemsAppend(a + [blank], b);
    ItemsAppend(a, [blank]);
    MeaningfulAppends(Items(a), Items(b));
    MeaningfulAppends(Items(a) + Items([blank]), Items(b));
    MeaningfulAppends(Items(a), Items([blank]));
    assert Items([blank]) == [Skip] && [Skip][..0] == [];
    assert Meaningful([Skip]) == [];
    BlanksAndCommentsAreFree(u, a + [blank] + b, a + b);
  }

  lemma {:induction false} BlankIsSkipped(line: string)
    requires Blank(line) || (exists i :: 0 <= i < |line| && Blank(line[..i]) && line[i] in "#;")
    ensures Classify(line) == Skip
  {
    if Blank(line) {
      TrimOfBlank(line);
    } else {
      var i :| 0 <= i < |line| && Blank(line[..i]) && line[i] in "#;";
      assert line == line[..i] + line[i..] + "";
      TrimPadded(line[..i], line[i..], "");
      TrimKeepsFirst(line[i..]);
    }
  }

  lemma {:induction false} TrimKeepsFirst(s: string)
    requires s != "" && !IsSpace(s[0])
    ensures Trim(s) != "" && Trim(s)[0] == s[0]
  {
    TrimRightKeepsFirst(s);
  }

  lemma {:induction false} TrimRightKeepsFirst(s: string)
    requires s != "" && !IsSpace(s[0])
    ensures TrimRight(s) != "" && TrimRight(s)[0] == s[0]
  {
    if IsSpace(s[|s| - 1]) {
      TrimRightKeepsFirst(s[..|s| - 1]);
    }
  }

  /** Whitespace around any line changes nothing. */
  lemma {:induction false} SpacingIsFree(u: FloatUnit, a: seq<string>, b: seq<string>)
    requires |a| == |b|
    requires forall i :: 0 <= i < |a| ==> IsPadded(a[i], b[i])
    ensures SameTable(u, a, b)
  {
    hide Classify, SameTable;
    forall i | 0 <= i < |a|
      ensures Classify(a[i]) == Classify(b[i])
    {
      PaddedClassifies(a[i], b[i]);
    }
    assert Items(a) == Items(b);
    BlanksAndCommentsAreFree(u, a, b);
  }

  ghost predicate IsPadded(plain: string, padded: string) {
    exists left, right :: Blank(left) && Blank(right) && padded == left + plain + right
  }

  lemma {:induction false} PaddedClassifies(plain: string, padded: string)
    requires IsPadded(plain, padded)
    ensures Classify(plain) == Classify(padded)
  {
    var left, right :| Blank(left) && Blank(right) && padded == left + plain + right;
    TrimPadded(left, plain, right);
  }
}

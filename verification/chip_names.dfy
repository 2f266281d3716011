/**
 Composed chip names: a driver name followed by `-<bus>-<address>`, as libsensors prints them,
 and what a chip reference in the board table can match among them.
 */
module ChipNames {
  import opened Numerals
  import opened Text

  /** The folded bus address of the device that owns a chip's sensors. */
  datatype Address =
    | I2c(bus: nat, addr: int)
    | Spi(bus: nat, chipSelect: int)
    | Pci(folded: int)
    | Acpi
    | Isa(id: int)
    | Virtual

  function Suffix(a: Address): string {
    match a
    case I2c(bus, addr) => "-i2c-" + Format(bus, 10, 0) + "-" + Format(addr, 16, 2)
    case Spi(bus, cs) => "-spi-" + Format(bus, 10, 0) + "-" + Format(cs, 16, 0)
    case Pci(folded) => "-pci-" + Format(folded, 16, 4)
    case Acpi => "-acpi-0"
    case Isa(id) => "-isa-" + Format(id, 16, 4)
    case Virtual => "-virtual-0"
  }

  function Compose(driver: string, a: Address): string {
    driver + Suffix(a)
  }

  /** A chip reference names a chip in full, or by everything before one of its dashes. */
  predicate Matches(chip: string, chipRef: string) {
    chip == chipRef || HasPrefix(chip, chipRef + "-")
  }

  /** A chip is referred to by its whole name, or by what stands before one of its dashes. */
  predicate RefersTo(chipRef: string, chip: string) {
    chip == chipRef || (|chip| > |chipRef| && chip[..|chipRef|] == chipRef && chip[|chipRef|] == '-')
  }

  lemma {:induction false} MatchesReference(chip: string, chipRef: string)
    ensures Matches(chip, chipRef) <==> RefersTo(chipRef, chip)
  {
    if HasPrefix(chip, chipRef + "-") {
      var n := |chipRef|;
      assert chip[..n + 1][..n] == chip[..n] && chip[..n + 1][n] == chip[n];
    }
    if |chip| > |chipRef| && chip[..|chipRef|] == chipRef && chip[|chipRef|] == '-' {
      assert chip[..|chipRef| + 1] == chipRef + "-";
    }
  }

  // ----- decoding a composed name from its right-hand end

  /** Hexadecimal digits and dashes: every character an address can print. */
  predicate IsPayload(c: char) {
    IsHexDigit(c) || c == '-'
  }

  predicate AllPayload(s: string) {
    forall i :: 0 <= i < |s| ==> IsPayload(s[i])
  }

  /** `s` up to and including its last character that no address can print. */
  function Stem(s: string): string {
    if s != "" && IsPayload(s[|s| - 1]) then Stem(s[..|s| - 1]) else s
  }

  /** The suffix up to the last such character of its bus keyword; the rest of it is `Tail`. */
  function Head(a: Address): string {
    match a
    case I2c(_, _) => "-i"
    case Spi(_, _) => "-spi"
    case Pci(_) => "-pci"
    case Acpi => "-acpi"
    case Isa(_) => "-is"
    case Virtual => "-virtual"
  }

  function Tail(a: Address): string {
    match a
    case I2c(bus, addr) => "2c-" + Format(bus, 10, 0) + "-" + Format(addr, 16, 2)
    case Spi(bus, cs) => "-" + Format(bus, 10, 0) + "-" + Format(cs, 16, 0)
    case Pci(folded) => "-" + Format(folded, 16, 4)
    case Acpi => "-0"
    case Isa(id) => "a-" + Format(id, 16, 4)
    case Virtual => "-0"
  }

  lemma {:induction false} AddressIsPayload(v: int, base: Base, width: nat)
    ensures AllPayload(Format(v, base, width))
  {
    FormatShape(v, base, width);
    var s := Format(v, base, width);
    if v < 0 {
      assert forall i :: 1 <= i < |s| ==> s[i] == s[1..][i - 1];
    }
  }

  lemma {:induction false} PayloadPieces(a: string, b: string)
    requires AllPayload(a) && AllPayload(b)
    ensures AllPayload(a + b)
  {
  }

  lemma {:induction false} TailIsPayload(a: Address)
    ensures AllPayload(Tail(a)) && |Tail(a)| >= 2
  {
    match a
    case I2c(bus, addr) =>
      PairIsPayload("2c-", bus, addr, 2);
    case Spi(bus, cs) =>
      PairIsPayload("-", bus, cs, 0);
    case Pci(folded) =>
      AddressIsPayload(folded, 16, 4);
      PayloadPieces("-", Format(folded, 16, 4));
    case Acpi =>
    case Isa(id) =>
      AddressIsPayload(id, 16, 4);
      PayloadPieces("a-", Format(id, 16, 4));
    case Virtual =>
  }

  lemma {:induction false} PairIsPayload(lead: string, bus: nat, addr: int, width: nat)
    requires AllPayload(lead)
    ensures AllPayload(lead + Format(bus, 10, 0) + "-" + Format(addr, 16, width))
    ensures |Format(bus, 10, 0)| >= 1 && |Format(addr, 16, width)| >= 1
  {
    AddressIsPayload(bus, 10, 0);
    AddressIsPayload(addr, 16, width);
    FormatShape(bus, 10, 0);
    FormatShape(addr, 16, width);
    PayloadPieces(lead, Format(bus, 10, 0));
    PayloadPieces(lead + Format(bus, 10, 0), "-");
    PayloadPieces(lead + Format(bus, 10, 0) + "-", Format(addr, 16, width));
  }

  lemma {:induction false} Regroup(keyword: string, head: string, tail: string, address: string)
    requires keyword == head + tail
    ensures keyword + address == head + (tail + address)
  {
  }

  lemma {:induction false} SuffixSplits(a: Address)
    ensures Suffix(a) == Head(a) + Tail(a)
  {
    match a
    case I2c(bus, addr) =>
      RegroupPair("-i2c-", "-i", "2c-", Format(bus, 10, 0), Format(addr, 16, 2));
    case Spi(bus, cs) =>
      RegroupPair("-spi-", "-spi", "-", Format(bus, 10, 0), Format(cs, 16, 0));
    case Pci(folded) =>
      Regroup("-pci-", "-pci", "-", Format(folded, 16, 4));
    case Acpi =>
      assert "-acpi-0" == "-acpi" + "-0";
    case Isa(id) =>
      Regroup("-isa-", "-is", "a-", Format(id, 16, 4));
    case Virtual =>
      assert "-virtual-0" == "-virtual" + "-0";
  }

  lemma {:induction false} RegroupPair(keyword: string, head: string, tail: string, bus: string, addr: string)
    requires keyword == head + tail
    ensures keyword + bus + "-" + addr == head + (tail + bus + "-" + addr)
  {
  }

  lemma {:induction false} HeadShape(a: Address)
    ensures |Head(a)| >= 2 && Head(a)[0] == '-' && !IsPayload(Head(a)[|Head(a)| - 1])
    ensures forall i :: 1 <= i < |Head(a)| ==> Head(a)[i] != '-'
  {
  }

  lemma {:induction false} StemIsUnique(head: string, tail: string)
    requires head != "" && !IsPayload(head[|head| - 1]) && AllPayload(tail)
    ensures Stem(head + tail) == head
  {
    if tail == "" {
      assert head + tail == head;
    } else {
      var n := |tail| - 1;
      assert (head + tail)[..|head| + n] == head + tail[..n];
      StemIsUnique(head, tail[..n]);
    }
  }

  lemma {:induction false} SameEnd(x: string, g: string, y: string, h: string, k: nat)
    requires x + g == y + h
    requires 1 <= k <= |g| && k <= |h|
    ensures g[|g| - k] == h[|h| - k]
  {
    assert (x + g)[|x + g| - k] == g[|g| - k];
    assert (y + h)[|y + h| - k] == h[|h| - k];
  }

  /** Equal stems and equal first address characters leave only one bus keyword. */
  lemma {:induction false} StemsDecode(x: string, a: Address, y: string, b: Address)
    requires x + Head(a) == y + Head(b)
    requires Tail(a)[..1] == Tail(b)[..1]
    ensures x == y && Head(a) == Head(b)
  {
    SameEnd(x, Head(a), y, Head(b), 1);
    SameEnd(x, Head(a), y, Head(b), 2);
    FirstOfTail(a);
    FirstOfTail(b);
    if |Head(a)| >= 4 && |Head(b)| >= 4 {
      SameEnd(x, Head(a), y, Head(b), 4);
    }
    assert Head(a) == Head(b);
    SameLead(x, y, Head(a));
  }

  lemma {:induction false} FirstOfTail(a: Address)
    ensures |Tail(a)| >= 1
    ensures Tail(a)[..1] == if a.I2c? then "2" else if a.Isa? then "a" else "-"
  {
  }

  lemma {:induction false} SameLead(x: string, y: string, h: string)
    requires x + h == y + h
    ensures x == y
  {
    assert (x + h)[..|x|] == x && (y + h)[..|y|] == y;
  }

  // ----- tails

  lemma {:induction false} PairDecodes(bus: nat, x: int, otherBus: nat, y: int, width: nat)
    requires Format(bus, 10, 0) + "-" + Format(x, 16, width)
          == Format(otherBus, 10, 0) + "-" + Format(y, 16, width)
    ensures bus == otherBus && x == y
  {
    hide Format;
    var b, c := Format(bus, 10, 0), Format(otherBus, 10, 0);
    FormatShape(bus, 10, 0);
    FormatShape(otherBus, 10, 0);
    hide Digits;
    BeforeIsUnique(b, '-', Format(x, 16, width), "-");
    BeforeIsUnique(c, '-', Format(y, 16, width), "-");
    FormatIsInjective(bus, otherBus, 10, 0);
    assert (b + "-" + Format(x, 16, width))[|b| + 1..] == Format(x, 16, width);
    assert (c + "-" + Format(y, 16, width))[|c| + 1..] == Format(y, 16, width);
    FormatIsInjective(x, y, 16, width);
  }

  /** The part of a tail after the bus keyword decodes to one address. */
  lemma {:induction false} TailDecodes(a: Address, b: Address)
    requires Head(a) == Head(b) && Tail(a) == Tail(b)
    ensures a == b
  {
    match a
    case I2c(bus, addr) =>
      DropLead("2c-", Format(bus, 10, 0), Format(addr, 16, 2));
      DropLead("2c-", Format(b.bus, 10, 0), Format(b.addr, 16, 2));
      PairDecodes(bus, addr, b.bus, b.addr, 2);
    case Spi(bus, cs) =>
      DropLead("-", Format(bus, 10, 0), Format(cs, 16, 0));
      DropLead("-", Format(b.bus, 10, 0), Format(b.chipSelect, 16, 0));
      PairDecodes(bus, cs, b.bus, b.chipSelect, 0);
    case Pci(folded) =>
      assert Tail(a)[1..] == Format(folded, 16, 4) && Tail(b)[1..] == Format(b.folded, 16, 4);
      FormatIsInjective(folded, b.folded, 16, 4);
    case Acpi =>
    case Isa(id) =>
      assert Tail(a)[2..] == Format(id, 16, 4) && Tail(b)[2..] == Format(b.id, 16, 4);
      FormatIsInjective(id, b.id, 16, 4);
    case Virtual =>
  }

  lemma {:induction false} DropLead(lead: string, bus: string, addr: string)
    ensures (lead + bus + "-" + addr)[|lead|..] == bus + "-" + addr
  {
  }

  lemma {:induction false} DiffersAt(t: string, s: string, i: nat)
    requires i < |s| && (i >= |t| || t[i] != s[i])
    ensures !HasPrefix(t, s)
  {
    if i < |s| <= |t| {
      assert t[..|s|][i] == t[i];
    }
  }

  /** No tail goes on, past a dash, to become another tail of the same bus. */
  lemma {:induction false} TailsArePrefixFree(a: Address, b: Address)
    requires Head(a) == Head(b) && Tail(a)[..1] == Tail(b)[..1]
    ensures !HasPrefix(Tail(b), Tail(a) + "-")
  {
    match a
    case I2c(bus, addr) =>
      KindOfHead(a, b);
      PairsArePrefixFree("2c-", bus, addr, b.bus, b.addr, 2);
    case Spi(bus, cs) =>
      PairsArePrefixFree("-", bus, cs, b.bus, b.chipSelect, 0);
    case Pci(folded) =>
      SinglesArePrefixFree("-", folded, b.folded, 4);
    case Acpi =>
      DiffersAt(Tail(b), Tail(a) + "-", 2);
    case Isa(id) =>
      KindOfHead(a, b);
      SinglesArePrefixFree("a-", id, b.id, 4);
    case Virtual =>
      DiffersAt(Tail(b), Tail(a) + "-", 2);
  }

  lemma {:induction false} KindOfHead(a: Address, b: Address)
    requires Head(a) == Head(b) && Tail(a)[..1] == Tail(b)[..1]
    ensures a.I2c? == b.I2c? && a.Isa? == b.Isa?
  {
    FirstOfTail(a);
    FirstOfTail(b);
  }

  lemma {:induction false} SinglesArePrefixFree(lead: string, v: int, w: int, width: nat)
    ensures !HasPrefix(lead + Format(w, 16, width), lead + Format(v, 16, width) + "-")
  {
    var s := lead + Format(v, 16, width);
    FormatShape(v, 16, width);
    OnlyLeadingDash(lead, w, width);
    DiffersAt(lead + Format(w, 16, width), s + "-", |s|);
  }

  lemma {:induction false} OnlyLeadingDash(lead: string, v: int, width: nat)
    ensures forall i :: |lead| < i < |lead + Format(v, 16, width)| ==> (lead + Format(v, 16, width))[i] != '-'
  {
    FormatShape(v, 16, width);
    var s := Format(v, 16, width);
    forall i | |lead| < i < |lead + s|
      ensures (lead + s)[i] != '-'
    {
      assert (lead + s)[i] == s[i - |lead|];
      if v < 0 {
        assert s[i - |lead|] == s[1..][i - |lead| - 1];
      }
    }
  }

  lemma {:induction false} PairsArePrefixFree(lead: string, bus: nat, x: int, otherBus: nat, y: int, width: nat)
    ensures !HasPrefix(lead + Format(otherBus, 10, 0) + "-" + Format(y, 16, width),
                       lead + Format(bus, 10, 0) + "-" + Format(x, 16, width) + "-")
  {
    var b, c := Format(bus, 10, 0), Format(otherBus, 10, 0);
    FormatShape(bus, 10, 0);
    FormatShape(otherBus, 10, 0);
    FormatShape(x, 16, width);
    OnlyLeadingDash(lead + c + "-", y, width);
    DecimalPairsDiffer(lead, b, Format(x, 16, width), c, Format(y, 16, width));
  }

  lemma {:induction false} DecimalPairsDiffer(lead: string, b: string, x: string, c: string, y: string)
    requires AllDecimal(b) && AllDecimal(c) && x != ""
    requires var t := lead + c + "-" + y; forall i :: |lead + c + "-"| < i < |t| ==> t[i] != '-'
    ensures !HasPrefix(lead + c + "-" + y, lead + b + "-" + x + "-")
  {
    var s, t := lead + b + "-" + x + "-", lead + c + "-" + y;
    assert s[|lead| + |b|] == '-' && t[|lead| + |c|] == '-';
    if |b| < |c| {
      assert t[|lead| + |b|] == c[|b|];
      DiffersAt(t, s, |lead| + |b|);
    } else if |b| > |c| {
      assert s[|lead| + |c|] == b[|c|];
      DiffersAt(t, s, |lead| + |c|);
    } else {
      DiffersAt(t, s, |s| - 1);
    }
  }

  // ----- the two facts about composed names

  /**
   Composed names are uniquely decodable, whatever the driver is called: two of them agree exactly
   when the drivers, the buses and the folded addresses all do.
   */
  lemma {:induction false} ComposedNamesDecode(d: string, a: Address, e: string, b: Address)
    ensures Compose(d, a) == Compose(e, b) <==> d == e && a == b
  {
    if Compose(d, a) == Compose(e, b) {
      SuffixSplits(a);
      SuffixSplits(b);
      TailAfterStem(d, a);
      TailAfterStem(e, b);
      StemsDecode(d, a, e, b);
      TailDecodes(a, b);
    }
  }

  lemma {:induction false} TailAfterStem(d: string, a: Address)
    ensures Stem(Compose(d, a)) == d + Head(a)
    ensures Compose(d, a) == d + Head(a) + Tail(a)
    ensures Compose(d, a)[|d + Head(a)|..] == Tail(a)
  {
    SuffixSplits(a);
    HeadShape(a);
    TailIsPayload(a);
    assert d + (Head(a) + Tail(a)) == d + Head(a) + Tail(a);
    StemIsUnique(d + Head(a), Tail(a));
  }

  /**
   A composed name and a dash begin another composed name only where that other driver's own name
   already begins with them.
   */
  lemma {:induction false} ComposedNamesArePrefixFree(d: string, a: Address, e: string, b: Address)
    ensures HasPrefix(Compose(e, b), Compose(d, a) + "-") <==> HasPrefix(e + "-", Compose(d, a) + "-")
  {
    hide Head, Tail, Suffix;
    var n, m := Compose(d, a), Compose(e, b);
    TailAfterStem(d, a);
    TailAfterStem(e, b);
    HeadShape(b);
    assert m[..|e| + 1] == e + "-";
    if |n| <= |e| {
      assert m[..|n| + 1] == (e + "-")[..|n| + 1];
    } else if HasPrefix(m, n + "-") {
      LongerNamesClash(d, a, e, b);
    }
  }

  lemma {:induction false} LongerNamesClash(d: string, a: Address, e: string, b: Address)
    requires |Compose(d, a)| > |e|
    ensures !HasPrefix(Compose(e, b), Compose(d, a) + "-")
  {
    var n, m := Compose(d, a), Compose(e, b);
    TailAfterStem(d, a);
    TailAfterStem(e, b);
    LastMark(d, a);
    LastMark(e, b);
    var p, q := |d + Head(a)| - 1, |e + Head(b)| - 1;
    if |m| <= |n| || m[|n|] != '-' {
      DiffersAt(m, n + "-", |n|);
    } else {
      KeywordHasNoDash(e, b);
      assert q < |n|;
      if p > q {
        DiffersAt(m, n + "-", p);
      } else if p < q {
        DiffersAt(m, n + "-", q);
      } else {
        StemsAgree(d, a, e, b);
      }
    }
  }

  /** The last character of a name that no address can print is the end of its stem. */
  lemma {:induction false} LastMark(d: string, a: Address)
    ensures var n, p := Compose(d, a), |d + Head(a)| - 1;
            0 <= p < |n| && !IsPayload(n[p]) && forall i :: p < i < |n| ==> IsPayload(n[i])
  {
    hide Compose, Head, Tail;
    TailAfterStem(d, a);
    HeadShape(a);
    TailIsPayload(a);
    var n, p := Compose(d, a), |d + Head(a)| - 1;
    assert n[p] == Head(a)[|Head(a)| - 1];
    assert forall i :: p < i < |n| ==> n[i] == Tail(a)[i - p - 1];
  }

  lemma {:induction false} KeywordHasNoDash(e: string, b: Address)
    ensures |e + Head(b)| <= |Compose(e, b)|
    ensures forall i :: |e| < i < |e + Head(b)| ==> Compose(e, b)[i] != '-'
  {
    TailAfterStem(e, b);
    HeadShape(b);
    assert forall i :: |e| < i < |e + Head(b)| ==> Compose(e, b)[i] == Head(b)[i - |e|];
  }

  lemma {:induction false} StemsAgree(d: string, a: Address, e: string, b: Address)
    requires |d + Head(a)| == |e + Head(b)|
    ensures !HasPrefix(Compose(e, b), Compose(d, a) + "-")
  {
    hide Head, Tail, HasPrefix, Suffix;
    TailAfterStem(d, a);
    TailAfterStem(e, b);
    TailIsPayload(a);
    TailIsPayload(b);
    var x, y := d + Head(a), e + Head(b);
    if x == y && Tail(a)[0] == Tail(b)[0] {
      StemsDecode(d, a, e, b);
      TailsArePrefixFree(a, b);
      CommonLead(x, Tail(b), Tail(a));
    } else {
      EarlyDifference(x, Tail(a), y, Tail(b));
    }
  }

  lemma {:induction false} EarlyDifference(x: string, s: string, y: string, t: string)
    requires |x| == |y| && s != "" && t != ""
    requires x != y || s[0] != t[0]
    ensures !HasPrefix(y + t, x + s + "-")
  {
    if x != y {
      var i :| 0 <= i < |x| && x[i] != y[i];
      DiffersAt(y + t, x + s + "-", i);
    } else {
      DiffersAt(y + t, x + s + "-", |x|);
    }
  }

  lemma {:induction false} CommonLead(x: string, t: string, s: string)
    requires !HasPrefix(t, s + "-")
    ensures !HasPrefix(x + t, x + s + "-")
  {
    if |s| < |t| {
      var i :| 0 <= i < |s + "-"| && t[i] != (s + "-")[i];
      assert (x + t)[|x| + i] == t[i];
      assert (x + s + "-")[|x| + i] == (s + "-")[i];
      DiffersAt(x + t, x + s + "-", |x| + i);
    }
  }

  // ----- what a chip reference matches

  /** A full name matches its own chip, and otherwise only drivers whose name extends it. */
  lemma {:induction false} FullReferenceMatches(d: string, a: Address, e: string, b: Address)
    ensures Matches(Compose(e, b), Compose(d, a))
       <==> (e == d && b == a) || HasPrefix(e + "-", Compose(d, a) + "-")
  {
    ComposedNamesDecode(e, b, d, a);
    ComposedNamesArePrefixFree(d, a, e, b);
  }

  /** A dash-free reference matches its own driver, and otherwise only drivers whose name extends it past a dash. */
  lemma {:induction false} DriverReferenceMatches(driverRef: string, e: string, b: Address)
    requires '-' !in driverRef
    ensures Matches(Compose(e, b), driverRef) <==> e == driverRef || HasPrefix(e, driverRef + "-")
  {
    var m := Compose(e, b);
    TailAfterStem(e, b);
    HeadShape(b);
    assert m[|e|] == '-' && m[..|e| + 1] == e + "-";
    assert '-' in m;
    if |driverRef| > |e| {
      DiffersAt(m, driverRef + "-", |e|);
    } else if |driverRef| == |e| {
      assert HasPrefix(m, driverRef + "-") <==> driverRef + "-" == e + "-";
      assert (driverRef + "-")[..|e|] == driverRef && (e + "-")[..|e|] == e;
    } else {
      assert m[..|driverRef| + 1] == e[..|driverRef| + 1];
    }
  }

  /** Among driver names without dashes, references are exact. */
  lemma {:induction false} ReferencesAreExact(d: string, a: Address, e: string, b: Address)
    requires '-' !in d && '-' !in e
    ensures Matches(Compose(e, b), Compose(d, a)) <==> e == d && b == a
    ensures Matches(Compose(e, b), d) <==> e == d
  {
    hide Matches, Compose, HasPrefix;
    FullReferenceMatches(d, a, e, b);
    DriverReferenceMatches(d, e, b);
    NameAfterDriver(d, a);
    NoInnerDash(e, d, Compose(d, a) + "-");
    NoDashedPrefix(e, d);
  }

  lemma {:induction false} NameAfterDriver(d: string, a: Address)
    ensures var n := Compose(d, a); |n| >= |d| + 2 && n[..|d|] == d && n[|d|] == '-'
  {
    TailAfterStem(d, a);
    HeadShape(a);
    hide Compose, Head, Tail;
  }

  lemma {:induction false} NoDashedPrefix(e: string, d: string)
    requires '-' !in e
    ensures !HasPrefix(e, d + "-")
  {
    if |e| > |d| {
      DiffersAt(e, d + "-", |d|);
    }
  }

  lemma {:induction false} NoInnerDash(e: string, d: string, s: string)
    requires '-' !in e && |s| >= |d| + 2 && s[..|d|] == d && s[|d|] == '-' && '-' !in d
    ensures !HasPrefix(e + "-", s)
  {
    if |e| > |d| {
      DiffersAt(e + "-", s, |d|);
    } else {
      DiffersAt(e + "-", s, |e| + 1);
    }
  }

  /** A driver name with dashes in it defeats that: a full name then selects another driver's chip. */
  lemma {:induction false} DashedDriverIsCaptured()
    ensures Matches(Compose("k10temp-pci-00c3-b", Virtual), Compose("k10temp", Pci(0xc3)))
  {
    assert Print(0xc3, 16) == "c3" by {
      assert Print(0xc, 16) == "c";
    }
    assert Format(0xc3, 16, 4) == "00c3";
    var chip, chipRef := Compose("k10temp-pci-00c3-b", Virtual), Compose("k10temp", Pci(0xc3));
    assert chipRef == "k10temp-pci-00c3";
    assert chip[..|chipRef| + 1] == chipRef + "-";
  }
}

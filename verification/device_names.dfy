/**
 Bus addresses read off a device's sysfs name, and the names the kernel gives the devices a server
 mainboard exposes its temperatures on.
 */
module DeviceNames {
  import opened ChipNames
  import opened Numerals
  import opened Text
  import opened Wrappers

  /** Two numbers around the first dash or dot; the first is never negative, since a dash would have ended it. */
  function SplitPair(s: string, baseA: Base, baseB: Base): Option<(nat, int)> {
    var first := Before(s, "-.");
    BeforeShape(s, "-.");
    if |first| == |s| then None
    else
      match ParseInt(first, baseA, 32)
      case None => None
      case Some(a) =>
        match ParseInt(s[|first| + 1..], baseB, 32)
        case None => None
        case Some(b) => Some((a, b))
  }

  /** Bitwise or on two's-complement integers of any width. */
  function BitOr(a: int, b: int): int
    decreases Magnitude(a) + Magnitude(b)
  {
    if a == 0 then b
    else if b == 0 then a
    else if a == -1 || b == -1 then -1
    else 2 * BitOr(a / 2, b / 2) + if a % 2 == 1 || b % 2 == 1 then 1 else 0
  }

  function Magnitude(a: int): nat {
    if a < 0 then -a else a
  }

  /** `(bus << 8) | (slot << 3) | func` from `domain:bus:slot.func`, all hexadecimal. */
  function PciAddress(name: string): Option<int> {
    var last := AfterLast(name, ':');
    if |last| == |name| then None
    else PciFields(AfterLast(name[..|name| - |last| - 1], ':'), last)
  }

  function PciFields(bus: string, slotAndFunc: string): Option<int> {
    match ParseInt(bus, 16, 32)
    case None => None
    case Some(b) =>
      match SplitPair(slotAndFunc, 16, 16)
      case None => None
      case Some((slot, func)) => Some(BitOr(BitOr(b * 256, slot * 8), func))
  }

  function PlatformId(name: string): int {
    var last := AfterLast(name, '.');
    if |last| == |name| then 0
    else
      match ParseInt(last, 0, 32)
      case None => 0
      case Some(id) => id
  }

  /** The address of a device called `name` on `subsystem`, unless that is not a bus with addresses. */
  function BusAddress(subsystem: string, name: string): Option<Address> {
    if subsystem == "i2c" then
      match SplitPair(name, 10, 16)
      case None => None
      case Some((bus, addr)) => Some(I2c(bus, addr))
    else if subsystem == "spi" then
      match SplitPair(if HasPrefix(name, "spi") then name[3..] else name, 10, 10)
      case None => None
      case Some((bus, chipSelect)) => Some(Spi(bus, chipSelect))
    else if subsystem == "pci" then
      match PciAddress(name)
      case None => None
      case Some(folded) => Some(Pci(folded))
    else if subsystem == "acpi" then Some(Acpi)
    else if subsystem == "platform" || subsystem == "of_node" then Some(Isa(PlatformId(name)))
    else None
  }

  // ----- the devices the kernel names

  datatype KernelDevice =
    | I2cDevice(bus: nat, addr: nat)
    | SpiDevice(bus: nat, chipSelect: nat)
    | PciDevice(domain: nat, bus: nat, slot: nat, func: nat)
    | AcpiDevice(path: string)
    | PlatformDevice(base: string, id: nat)
    | UnnumberedPlatformDevice(name: string)

  const INT_LIMIT: int := 0x8000_0000

  predicate WellShaped(d: KernelDevice) {
    match d
    case I2cDevice(bus, addr) => bus < INT_LIMIT && addr < INT_LIMIT
    case SpiDevice(bus, chipSelect) => bus < INT_LIMIT && chipSelect < INT_LIMIT
    case PciDevice(_, bus, slot, func) => bus < 256 && slot < 32 && func < 8
    case AcpiDevice(_) => true
    case PlatformDevice(_, id) => id < INT_LIMIT
    case UnnumberedPlatformDevice(name) =>
      '.' !in name || ParseInt(AfterLast(name, '.'), 0, 32) == None
  }

  function Subsystem(d: KernelDevice): string {
    match d
    case I2cDevice(_, _) => "i2c"
    case SpiDevice(_, _) => "spi"
    case PciDevice(_, _, _, _) => "pci"
    case AcpiDevice(_) => "acpi"
    case PlatformDevice(_, _) => "platform"
    case UnnumberedPlatformDevice(_) => "platform"
  }

  function SysfsName(d: KernelDevice): string {
    match d
    case I2cDevice(bus, addr) => Format(bus, 10, 0) + "-" + Format(addr, 16, 4)
    case SpiDevice(bus, chipSelect) => "spi" + Format(bus, 10, 0) + "." + Format(chipSelect, 10, 0)
    case PciDevice(domain, bus, slot, func) =>
      Format(domain, 16, 4) + ":" + Format(bus, 16, 2) + ":" + Format(slot, 16, 2) + "." + Format(func, 16, 0)
    case AcpiDevice(path) => path
    case PlatformDevice(base, id) => base + "." + Format(id, 10, 0)
    case UnnumberedPlatformDevice(name) => name
  }

  /** What the address of a kernel device is meant to fold to. */
  function Folded(d: KernelDevice): Address {
    match d
    case I2cDevice(bus, addr) => I2c(bus, addr)
    case SpiDevice(bus, chipSelect) => Spi(bus, chipSelect)
    case PciDevice(_, bus, slot, func) => Pci(256 * bus + 8 * slot + func)
    case AcpiDevice(_) => Acpi
    case PlatformDevice(_, id) => Isa(id)
    case UnnumberedPlatformDevice(_) => Isa(0)
  }

  /** The identity a composed name keeps: all of it but the PCI domain, the ACPI path and a platform device's own name. */
  predicate SameIdentity(d: KernelDevice, e: KernelDevice) {
    match d
    case I2cDevice(_, _) => d == e
    case SpiDevice(_, _) => d == e
    case PciDevice(_, bus, slot, func) => e.PciDevice? && e.bus == bus && e.slot == slot && e.func == func
    case AcpiDevice(_) => e.AcpiDevice?
    case PlatformDevice(_, id) => if e.PlatformDevice? then e.id == id else e.UnnumberedPlatformDevice? && id == 0
    case UnnumberedPlatformDevice(_) => if e.PlatformDevice? then e.id == 0 else e.UnnumberedPlatformDevice?
  }

  // ----- parsing what the kernel printed

  lemma {:induction false} SplitPairOfFormats(a: nat, baseA: Base, widthA: nat, sep: char, b: nat, baseB: Base, widthB: nat)
    requires sep in "-." && a < INT_LIMIT && b < INT_LIMIT
    ensures SplitPair(Format(a, baseA, widthA) + [sep] + Format(b, baseB, widthB), baseA, baseB) == Some((a, b))
  {
    var s, t := Format(a, baseA, widthA), Format(b, baseB, widthB);
    FormatShape(a, baseA, widthA);
    BeforeIsUnique(s, sep, t, "-.");
    ParseIntOfFormat(a, baseA, widthA, 32);
    ParseIntOfFormat(b, baseB, widthB, 32);
    assert (s + [sep] + t)[|s| + 1..] == t;
  }

  function Pow2(k: nat): nat {
    if k == 0 then 1 else 2 * Pow2(k - 1)
  }

  /** Or-ing into the free low bits adds. */
  lemma {:induction false} BitOrAdds(c: int, b: nat, k: nat)
    requires b < Pow2(k)
    ensures BitOr(c * Pow2(k), b) == c * Pow2(k) + b
  {
    if k != 0 {
      var x := c * Pow2(k - 1);
      BitOrAdds(c, b / 2, k - 1);
      TwiceProduct(c, Pow2(k - 1));
      EvenHalves(x);
      BitOrStep(x, b);
    }
  }

  lemma {:induction false} TwiceProduct(c: int, p: int)
    ensures c * (2 * p) == 2 * (c * p)
  {
  }

  lemma {:induction false} EvenHalves(x: int)
    ensures 2 * x / 2 == x && 2 * x % 2 == 0
  {
  }

  lemma {:induction false} BitOrStep(x: int, b: nat)
    requires BitOr(x, b / 2) == x + b / 2
    ensures BitOr(2 * x, b) == 2 * x + b
  {
    EvenHalves(x);
    if x == 0 || b == 0 {
    } else {
      assert BitOr(2 * x, b) == 2 * BitOr(x, b / 2) + b % 2;
    }
  }

  lemma {:induction false} PciFolds(bus: nat, slot: nat, func: nat)
    requires slot < 32 && func < 8
    ensures BitOr(BitOr(bus * 256, slot * 8), func) == 256 * bus + 8 * slot + func
  {
    assert Pow2(3) == 8;
    assert Pow2(8) == 256 by {
      assert Pow2(5) == 4 * Pow2(3);
      assert Pow2(7) == 4 * Pow2(5);
    }
    BitOrAdds(bus, slot * 8, 8);
    BitOrAdds(32 * bus + slot, func, 3);
  }

  lemma {:induction false} PciPartsParse(d: string, b: string, last: string)
    requires ':' !in b && ':' !in last
    ensures PciAddress(d + ":" + b + ":" + last) == PciFields(b, last)
  {
    var name := d + ":" + b + ":" + last;
    AfterLastIsUnique(d + ":" + b, ':', last);
    assert name[..|name| - |last| - 1] == d + ":" + b;
    AfterLastIsUnique(d, ':', b);
  }

  lemma {:induction false} PciFieldsParse(bus: nat, slot: nat, func: nat)
    requires bus < 256 && slot < 32 && func < 8
    ensures PciFields(Format(bus, 16, 2), Format(slot, 16, 2) + "." + Format(func, 16, 0))
         == Some(256 * bus + 8 * slot + func)
  {
    hide Format, ParseInt, SplitPair, BitOr;
    ParseIntOfFormat(bus, 16, 2, 32);
    SplitPairOfFormats(slot, 16, 2, '.', func, 16, 0);
    PciFolds(bus, slot, func);
  }

  lemma {:induction false} PciNameParses(domain: nat, bus: nat, slot: nat, func: nat)
    requires bus < 256 && slot < 32 && func < 8
    ensures PciAddress(SysfsName(PciDevice(domain, bus, slot, func))) == Some(256 * bus + 8 * slot + func)
  {
    var d, b, s, f := Format(domain, 16, 4), Format(bus, 16, 2), Format(slot, 16, 2), Format(func, 16, 0);
    PciFieldsParse(bus, slot, func);
    FormatShape(bus, 16, 2);
    FormatShape(slot, 16, 2);
    FormatShape(func, 16, 0);
    NoColon(s, f);
    PciGrouped(d, b, s, f);
  }

  lemma {:induction false} PciGrouped(d: string, b: string, s: string, f: string)
    requires AllHex(b) && ':' !in s + "." + f
    ensures PciAddress(d + ":" + b + ":" + s + "." + f) == PciFields(b, s + "." + f)
  {
    PciPartsParse(d, b, s + "." + f);
    Regroup4(d + ":" + b + ":", s, f);
  }

  lemma {:induction false} Regroup4(lead: string, s: string, f: string)
    ensures lead + s + "." + f == lead + (s + "." + f)
  {
  }

  lemma {:induction false} NoColon(s: string, t: string)
    requires AllHex(s) && AllHex(t)
    ensures ':' !in s + "." + t
  {
  }

  /** A decimal without leading zeros reads the same when its prefix chooses the base. */
  lemma {:induction false} DecimalInAnyBase(n: nat)
    requires n < INT_LIMIT
    ensures ParseInt(Format(n, 10, 0), 0, 32) == Some(n)
  {
    var s := Format(n, 10, 0);
    FormatShape(n, 10, 0);
    LeadingDigit(n);
    NoUnderscores(s);
    if n == 0 {
      assert s == "0";
      assert Radix(s) == ("", 8);
    } else {
      assert Radix(s) == (s, 10);
    }
  }

  lemma {:induction false} LeadingDigit(n: nat)
    ensures Print(n, 10)[0] == '0' <==> n == 0
  {
    if n >= 10 {
      LeadingDigit(n / 10);
    }
  }

  lemma {:induction false} NoUnderscores(s: string)
    requires AllDecimal(s)
    ensures DropUnderscores(s) == s && '_' !in s
  {
    WithoutUnderscores(s);
  }

  lemma {:induction false} SpiNameParses(b: string, c: string)
    ensures var name := "spi" + b + "." + c;
            HasPrefix(name, "spi") && name[3..] == b + "." + c
  {
  }

  lemma {:induction false} PlatformNameParses(base: string, id: nat)
    requires id < INT_LIMIT
    ensures PlatformId(SysfsName(PlatformDevice(base, id))) == id
  {
    var digits := Format(id, 10, 0);
    FormatShape(id, 10, 0);
    assert '.' !in digits;
    AfterLastIsUnique(base, '.', digits);
    DecimalInAnyBase(id);
  }

  lemma {:induction false} OnI2c(name: string, bus: nat, addr: int)
    requires SplitPair(name, 10, 16) == Some((bus, addr))
    ensures BusAddress("i2c", name) == Some(I2c(bus, addr))
  {
  }

  lemma {:induction false} OnSpi(name: string, bus: nat, chipSelect: int)
    requires HasPrefix(name, "spi") && SplitPair(name[3..], 10, 10) == Some((bus, chipSelect))
    ensures BusAddress("spi", name) == Some(Spi(bus, chipSelect))
  {
  }

  lemma {:induction false} OnPci(name: string, folded: int)
    requires PciAddress(name) == Some(folded)
    ensures BusAddress("pci", name) == Some(Pci(folded))
  {
  }

  lemma {:induction false} OnAcpi(name: string)
    ensures BusAddress("acpi", name) == Some(Acpi)
  {
  }

  lemma {:induction false} OnPlatform(name: string)
    ensures BusAddress("platform", name) == Some(Isa(PlatformId(name)))
    ensures BusAddress("of_node", name) == Some(Isa(PlatformId(name)))
  {
  }

  lemma {:induction false} I2cResolves(bus: nat, addr: nat)
    requires bus < INT_LIMIT && addr < INT_LIMIT
    ensures BusAddress("i2c", SysfsName(I2cDevice(bus, addr))) == Some(I2c(bus, addr))
  {
    SplitPairOfFormats(bus, 10, 0, '-', addr, 16, 4);
    OnI2c(SysfsName(I2cDevice(bus, addr)), bus, addr);
  }

  lemma {:induction false} SpiResolves(bus: nat, chipSelect: nat)
    requires bus < INT_LIMIT && chipSelect < INT_LIMIT
    ensures BusAddress("spi", SysfsName(SpiDevice(bus, chipSelect))) == Some(Spi(bus, chipSelect))
  {
    SplitPairOfFormats(bus, 10, 0, '.', chipSelect, 10, 0);
    SpiNameParses(Format(bus, 10, 0), Format(chipSelect, 10, 0));
    OnSpi(SysfsName(SpiDevice(bus, chipSelect)), bus, chipSelect);
  }

  lemma {:induction false} PciResolves(domain: nat, bus: nat, slot: nat, func: nat)
    requires bus < 256 && slot < 32 && func < 8
    ensures BusAddress("pci", SysfsName(PciDevice(domain, bus, slot, func))) == Some(Pci(256 * bus + 8 * slot + func))
  {
    hide Format, SysfsName, PciAddress;
    PciNameParses(domain, bus, slot, func);
    OnPci(SysfsName(PciDevice(domain, bus, slot, func)), 256 * bus + 8 * slot + func);
  }

  lemma {:induction false} PlatformResolves(d: KernelDevice)
    requires WellShaped(d) && (d.PlatformDevice? || d.UnnumberedPlatformDevice?)
    ensures BusAddress("platform", SysfsName(d)) == Some(Folded(d))
    ensures BusAddress("of_node", SysfsName(d)) == Some(Folded(d))
  {
    if d.PlatformDevice? {
      PlatformNameParses(d.base, d.id);
    } else {
      AfterLastWithoutStop(d.name, '.');
    }
    OnPlatform(SysfsName(d));
  }

  /** Whatever the kernel prints, the parser reads back as the address it stands for. */
  lemma {:induction false} KernelNamesResolve(d: KernelDevice)
    requires WellShaped(d)
    ensures BusAddress(Subsystem(d), SysfsName(d)) == Some(Folded(d))
    ensures Subsystem(d) == "platform" ==> BusAddress("of_node", SysfsName(d)) == Some(Folded(d))
  {
    hide Format, BusAddress;
    match d
    case I2cDevice(bus, addr) => I2cResolves(bus, addr);
    case SpiDevice(bus, chipSelect) => SpiResolves(bus, chipSelect);
    case PciDevice(domain, bus, slot, func) => PciResolves(domain, bus, slot, func);
    case AcpiDevice(path) => OnAcpi(path);
    case _ => PlatformResolves(d);
  }

  /** The suffix `busSuffix` composes for a kernel device, or that of a device with no bus. */
  function SuffixAddress(d: KernelDevice): Address {
    match BusAddress(Subsystem(d), SysfsName(d))
    case None => Virtual
    case Some(a) => a
  }

  /**
   Two kernel devices compose to the same chip name exactly when their drivers and the identity
   their buses keep are the same: the PCI domain, ACPI paths and platform base names are all that is lost.
   */
  lemma {:induction false} NamesIdentifyDevices(driver: string, d: KernelDevice, other: string, e: KernelDevice)
    requires WellShaped(d) && WellShaped(e)
    ensures Compose(driver, SuffixAddress(d)) == Compose(other, SuffixAddress(e))
       <==> driver == other && SameIdentity(d, e)
  {
    KernelNamesResolve(d);
    KernelNamesResolve(e);
    ComposedNamesDecode(driver, Folded(d), other, Folded(e));
    if d.PciDevice? && e.PciDevice? {
      FoldedPciDecodes(d.bus, d.slot, d.func, e.bus, e.slot, e.func);
    }
  }

  /** `digits` spell `n` in lower-case hexadecimal, padded with zeros to `width` and not a digit further. */
  predicate IsPaddedHex(digits: string, n: nat, width: nat) {
    && AllHex(digits) && Digits(digits, 16) == Some(n)
    && |digits| >= width && |digits| >= 1
    && (|digits| > width && |digits| > 1 ==> digits[0] != '0')
  }

  lemma {:induction false} LeadingHexDigit(n: nat)
    ensures Print(n, 16)[0] == '0' <==> n == 0
    ensures n < 16 <==> |Print(n, 16)| == 1
  {
    if n >= 16 {
      LeadingHexDigit(n / 16);
    } else {
      DigitIsItsValue(n);
    }
  }

  lemma {:induction false} DigitIsItsValue(n: nat)
    requires n < 16
    ensures Print(n, 16) == [DigitChar(n)] && (DigitChar(n) == '0' <==> n == 0)
  {
  }

  lemma {:induction false} PaddedHex(n: nat, width: nat)
    ensures IsPaddedHex(Format(n, 16, width), n, width)
    ensures width >= 1 && n < Pow(16, width) ==> |Format(n, 16, width)| == width
  {
    hide Pow, Digits, Print;
    if width >= 1 && n < Pow(16, width) {
      PaddedToWidth(n, 16, width);
    }
    FormatShape(n, 16, width);
    LeadingHexDigit(n);
  }

  lemma {:induction false} Widths()
    ensures Pow(16, 2) == 0x100 && Pow(16, 4) == 0x1_0000
  {
    assert Pow(16, 3) == 16 * Pow(16, 2);
  }

  /**
   The addresses are spelled as libsensors prints them: in hexadecimal, padded to two digits on i2c and to
   four on PCI and for platform ids, which is exact for every PCI address and whatever fits the width.
   */
  lemma {:induction false} AddressesAreSpelledOut(d: KernelDevice) returns (digits: string)
    requires WellShaped(d)
    ensures match d
      case I2cDevice(bus, addr) =>
        && IsPaddedHex(digits, addr, 2) && (addr < 0x100 ==> |digits| == 2)
        && Suffix(SuffixAddress(d)) == "-i2c-" + Print(bus, 10) + "-" + digits
      case SpiDevice(bus, chipSelect) =>
        IsPaddedHex(digits, chipSelect, 0) && Suffix(SuffixAddress(d)) == "-spi-" + Print(bus, 10) + "-" + digits
      case PciDevice(_, bus, slot, func) =>
        && IsPaddedHex(digits, 256 * bus + 8 * slot + func, 4) && |digits| == 4
        && Suffix(SuffixAddress(d)) == "-pci-" + digits
      case AcpiDevice(_) => Suffix(SuffixAddress(d)) == "-acpi-0"
      case PlatformDevice(_, id) =>
        && IsPaddedHex(digits, id, 4) && (id < 0x1_0000 ==> |digits| == 4)
        && Suffix(SuffixAddress(d)) == "-isa-" + digits
      case UnnumberedPlatformDevice(_) =>
        IsPaddedHex(digits, 0, 4) && |digits| == 4 && Suffix(SuffixAddress(d)) == "-isa-" + digits
  {
    hide Print, Pow, IsPaddedHex, BusAddress, SysfsName, Format;
    KernelNamesResolve(d);
    Widths();
    UnpaddedFormats(d);
    match d
    case I2cDevice(bus, addr) =>
      digits := Format(addr, 16, 2);
      PaddedHex(addr, 2);
    case SpiDevice(_, chipSelect) =>
      digits := Format(chipSelect, 16, 0);
      PaddedHex(chipSelect, 0);
    case PciDevice(_, bus, slot, func) =>
      digits := Format(256 * bus + 8 * slot + func, 16, 4);
      PaddedHex(256 * bus + 8 * slot + func, 4);
    case AcpiDevice(_) =>
      digits := "0";
    case PlatformDevice(_, id) =>
      digits := Format(id, 16, 4);
      PaddedHex(id, 4);
    case UnnumberedPlatformDevice(_) =>
      digits := Format(0, 16, 4);
      PaddedHex(0, 4);
  }

  lemma {:induction false} UnpaddedFormats(d: KernelDevice)
    ensures d.I2cDevice? ==> Format(d.bus, 10, 0) == Print(d.bus, 10)
    ensures d.SpiDevice? ==> Format(d.bus, 10, 0) == Print(d.bus, 10)
  {
    hide Print;
  }

  lemma {:induction false} FoldedPciDecodes(bus: nat, slot: nat, func: nat, bus': nat, slot': nat, func': nat)
    requires slot < 32 && func < 8 && slot' < 32 && func' < 8
    ensures 256 * bus + 8 * slot + func == 256 * bus' + 8 * slot' + func'
       <==> bus == bus' && slot == slot' && func == func'
  {
  }

  // ----- every other name

  predicate FitsInt32(v: int) {
    -2147483648 <= v <= 2147483647
  }

  /** The first dash or dot of `s` is at `i`. */
  predicate SeparatesAt(s: string, i: nat) {
    i < |s| && s[i] in "-." && forall j :: 0 <= j < i ==> s[j] !in "-."
  }

  /** `s` is two numerals around its first dash or dot. */
  ghost predicate IsPair(s: string, baseA: Base, baseB: Base, a: int, b: int) {
    && FitsInt32(a) && FitsInt32(b)
    && exists i: nat :: SeparatesAt(s, i) && SpellsInteger(s[..i], baseA, a) && SpellsInteger(s[i + 1..], baseB, b)
  }

  /** The last two of the fields between colons. */
  ghost predicate EndsInFields(s: string, field: string, last: string) {
    ':' !in field && ':' !in last && exists lead :: LeadsUp(s, lead, field, last)
  }

  predicate LeadsUp(s: string, lead: string, field: string, last: string) {
    s == lead + field + ":" + last && (lead == "" || lead[|lead| - 1] == ':')
  }

  ghost predicate IsPciName(s: string, bus: int, slot: int, func: int) {
    && FitsInt32(bus)
    && exists field, last :: EndsInFields(s, field, last) && SpellsInteger(field, 16, bus) && IsPair(last, 16, 16, slot, func)
  }

  lemma {:induction false} PairsAreExact(s: string, baseA: Base, baseB: Base, a: nat, b: int)
    ensures SplitPair(s, baseA, baseB) == Some((a, b)) <==> IsPair(s, baseA, baseB, a, b)
  {
    hide ParseInt, SpellsInteger;
    var i := |Before(s, "-.")|;
    BeforeShape(s, "-.");
    ParseIntIsExact(s[..i], baseA, 32, a);
    if i < |s| {
      ParseIntIsExact(s[i + 1..], baseB, 32, b);
      assert SeparatesAt(s, i);
    }
    forall j: nat | SeparatesAt(s, j)
      ensures j == i
    {
    }
  }

  lemma {:induction false} PairsStartPositive(s: string, baseA: Base, baseB: Base, a: int, b: int)
    requires IsPair(s, baseA, baseB, a, b)
    ensures a >= 0
  {
    var i: nat :| SeparatesAt(s, i) && SpellsInteger(s[..i], baseA, a) && SpellsInteger(s[i + 1..], baseB, b);
    assert i > 0 ==> s[..i][0] == s[0];
  }

  lemma {:induction false} FieldsAreUnique(s: string, field: string, last: string)
    requires EndsInFields(s, field, last)
    ensures AfterLast(s, ':') == last && |last| < |s| && AfterLast(s[..|s| - |last| - 1], ':') == field
  {
    var lead :| LeadsUp(s, lead, field, last);
    AfterLastIsUnique(lead + field, ':', last);
    assert s[..|s| - |last| - 1] == lead + field;
    if lead == "" {
      assert lead + field == field;
      AfterLastWithoutStop(field, ':');
    } else {
      assert lead + field == lead[..|lead| - 1] + [':'] + field;
      AfterLastIsUnique(lead[..|lead| - 1], ':', field);
    }
  }

  lemma {:induction false} AfterLastShape(s: string, stop: char)
    ensures var r := AfterLast(s, stop);
            stop !in r && r == s[|s| - |r|..] && (|r| < |s| ==> s[|s| - |r| - 1] == stop)
  {
    if s != "" {
      LastUnfolded(s, stop);
      hide AfterLast;
      if s[|s| - 1] != stop {
        var r := AfterLast(s[..|s| - 1], stop);
        AfterLastShape(s[..|s| - 1], stop);
        assert r == s[|s| - 1 - |r|..|s| - 1];
        SuffixGrows(s, r);
      }
    }
  }

  lemma {:induction false} LastUnfolded(s: string, stop: char)
    requires s != ""
    ensures AfterLast(s, stop) == if s[|s| - 1] == stop then "" else AfterLast(s[..|s| - 1], stop) + [s[|s| - 1]]
  {
  }

  lemma {:induction false} SuffixGrows(s: string, r: string)
    requires s != "" && |r| < |s| && r == s[|s| - 1 - |r|..|s| - 1]
    ensures var n := |s| - 1;
            && s[..n][n - |r|..] == r
            && r + [s[n]] == s[n - |r|..]
            && (|r| < n ==> s[..n][n - |r| - 1] == s[n - |r| - 1])
  {
  }

  lemma {:induction false} FieldsExist(s: string)
    requires |AfterLast(s, ':')| < |s|
    ensures var last := AfterLast(s, ':');
            EndsInFields(s, AfterLast(s[..|s| - |last| - 1], ':'), last)
  {
    hide AfterLast, EndsInFields;
    var last := AfterLast(s, ':');
    AfterLastShape(s, ':');
    var front := s[..|s| - |last| - 1];
    SplitAt(s, |front|);
    AfterLastShape(front, ':');
    FieldsOf(s, front, AfterLast(front, ':'), last);
  }

  lemma {:induction false} SplitAt(s: string, i: nat)
    requires i < |s|
    ensures s == s[..i] + [s[i]] + s[i + 1..]
  {
  }

  lemma {:induction false} FieldsOf(s: string, front: string, field: string, last: string)
    requires s == front + [':'] + last && ':' !in field && ':' !in last
    requires |field| <= |front| && field == front[|front| - |field|..]
    requires |field| < |front| ==> front[|front| - |field| - 1] == ':'
    ensures EndsInFields(s, field, last)
  {
    var lead := front[..|front| - |field|];
    assert front == lead + field;
    assert LeadsUp(s, lead, field, last);
  }

  lemma {:induction false} PciNamesAreExact(s: string, folded: int)
    ensures PciAddress(s) == Some(folded) <==>
      exists bus: int, slot: nat, func: int ::
        IsPciName(s, bus, slot, func) && folded == BitOr(BitOr(bus * 256, slot * 8), func)
  {
    hide ParseInt, SplitPair, BitOr, SpellsInteger, IsPair, AfterLast, EndsInFields;
    if PciAddress(s) == Some(folded) {
      FieldsExist(s);
      var last := AfterLast(s, ':');
      var field := AfterLast(s[..|s| - |last| - 1], ':');
      var bus, pair := ParseInt(field, 16, 32).value, SplitPair(last, 16, 16).value;
      ParseIntIsExact(field, 16, 32, bus);
      PairsAreExact(last, 16, 16, pair.0, pair.1);
      assert IsPciName(s, bus, pair.0, pair.1);
    }
    if bus: int, slot: nat, func: int :|
      IsPciName(s, bus, slot, func) && folded == BitOr(BitOr(bus * 256, slot * 8), func) {
      var field, last :| EndsInFields(s, field, last) && SpellsInteger(field, 16, bus) && IsPair(last, 16, 16, slot, func);
      FieldsAreUnique(s, field, last);
      ParseIntIsExact(field, 16, 32, bus);
      PairsAreExact(last, 16, 16, slot, func);
    }
  }

  /** The id of a platform device: its last dotted part, if that is a number in whatever base, and else 0. */
  ghost predicate IsPlatformId(name: string, id: int) {
    if '.' !in name then id == 0
    else exists front, last ::
           && name == front + "." + last && '.' !in last
           && id == match ParseInt(last, 0, 32) { case Some(v) => v case None => 0 }
  }

  lemma {:induction false} PlatformIdsAreExact(name: string, id: int)
    ensures PlatformId(name) == id <==> IsPlatformId(name, id)
  {
    hide ParseInt;
    AfterLastWithoutStop(name, '.');
    AfterLastShape(name, '.');
    if '.' in name {
      var last := AfterLast(name, '.');
      var front := name[..|name| - |last| - 1];
      assert name == front + "." + last;
      forall f, l | name == f + "." + l && '.' !in l
        ensures l == last
      {
        AfterLastIsUnique(f, '.', l);
      }
    }
  }

  /**
   A device called `name` on `subsystem` has the address `a`: two numbers on i2c and SPI, the last two
   fields on PCI, whatever its name on ACPI and platform, and none on any other subsystem.
   */
  ghost predicate IsAddress(subsystem: string, name: string, a: Address) {
    match a
    case I2c(bus, addr) => subsystem == "i2c" && IsPair(name, 10, 16, bus, addr)
    case Spi(bus, chipSelect) =>
      subsystem == "spi" && IsPair(if |name| >= 3 && name[..3] == "spi" then name[3..] else name, 10, 10, bus, chipSelect)
    case Pci(folded) =>
      subsystem == "pci" && exists bus: int, slot: nat, func: int ::
        IsPciName(name, bus, slot, func) && folded == BitOr(BitOr(bus * 256, slot * 8), func)
    case Acpi => subsystem == "acpi"
    case Isa(id) => (subsystem == "platform" || subsystem == "of_node") && IsPlatformId(name, id)
    case Virtual => false
  }

  /** Those are exactly the names that resolve, and their addresses. */
  lemma {:induction false} AddressesAreExact(subsystem: string, name: string, a: Address)
    ensures BusAddress(subsystem, name) == Some(a) <==> IsAddress(subsystem, name, a)
  {
    hide SplitPair, PciAddress, PlatformId, IsPair, IsPlatformId, IsPciName, BitOr;
    match a
    case I2c(bus, addr) => PairsAreExact(name, 10, 16, bus, addr);
    case Spi(bus, chipSelect) => PairsAreExact(if HasPrefix(name, "spi") then name[3..] else name, 10, 10, bus, chipSelect);
    case Pci(folded) => PciNamesAreExact(name, folded);
    case Isa(id) => PlatformIdsAreExact(name, id);
    case _ =>
  }

  predicate Bit(a: int, k: nat)
    decreases k
  {
    if k == 0 then a % 2 == 1 else Bit(a / 2, k - 1)
  }

  /** Each bit is the or of the two bits. */
  lemma {:induction false} OrIsBitwise(a: int, b: int, k: nat)
    ensures Bit(BitOr(a, b), k) <==> Bit(a, k) || Bit(b, k)
    decreases k
  {
    NoBits(k);
    if a != 0 && b != 0 && a != -1 && b != -1 {
      var low := if a % 2 == 1 || b % 2 == 1 then 1 else 0;
      assert BitOr(a, b) == 2 * BitOr(a / 2, b / 2) + low;
      assert BitOr(a, b) / 2 == BitOr(a / 2, b / 2) && BitOr(a, b) % 2 == low;
      if k > 0 {
        OrIsBitwise(a / 2, b / 2, k - 1);
      }
    }
  }

  lemma {:induction false} NoBits(k: nat)
    ensures !Bit(0, k) && Bit(-1, k)
  {
    if k > 0 {
      NoBits(k - 1);
    }
  }
}

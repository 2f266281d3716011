/**
 The hwmon class as the program can observe it, and the walk from an hwmon directory up its `device`
 links to the bus that gives the chip its address.
 */
module Sysfs {
  import opened DeviceNames
  import opened ChipNames
  import opened Text
  import opened Wrappers

  type Path = string

  /**
   One state of the tree. A key that is missing stands for a file that cannot be read or a link that
   cannot be resolved; links are recorded with the directory they resolve to.
   */
  datatype Tree = Tree(
    entries: map<Path, seq<string>>,
    contents: map<Path, string>,
    deviceLinks: map<Path, Path>,
    subsystemLinks: map<Path, Path>)

  function Join(dir: Path, name: string): Path {
    dir + "/" + name
  }

  function Base(path: Path): string {
    AfterLast(path, '/')
  }

  function Dir(path: Path): Path {
    var base := Base(path);
    if |base| == |path| then "." else path[..|path| - |base| - 1]
  }

  lemma {:induction false} DirOfJoin(dir: Path, name: string)
    requires '/' !in name
    ensures Dir(Join(dir, name)) == dir
  {
    AfterLastIsUnique(dir, '/', name);
    assert Join(dir, name)[..|dir|] == dir;
  }

  function Follow(links: map<Path, Path>, dir: Path): Option<Path> {
    if dir in links then Some(links[dir]) else None
  }

  /** The address of a device, when its subsystem is a bus that has addresses. */
  function AddressOf(t: Tree, device: Path): Option<Address> {
    match Follow(t.subsystemLinks, device)
    case None => None
    case Some(link) => BusAddress(Base(link), Base(device))
  }

  const MAX_DEVICE_LINKS: nat := 8

  // ----- what the walk is meant to find

  /** The device `k` links above the one that `dir` itself links to. */
  function Ancestor(t: Tree, dir: Path, k: nat): Option<Path> {
    if k == 0 then Follow(t.deviceLinks, dir)
    else
      match Ancestor(t, dir, k - 1)
      case None => None
      case Some(device) => Follow(t.deviceLinks, device)
  }

  function AncestorAddress(t: Tree, dir: Path, k: nat): Option<Address> {
    match Ancestor(t, dir, k)
    case None => None
    case Some(device) => AddressOf(t, device)
  }

  /** `path` is something called `name`, in whatever directory. */
  predicate IsCalled(path: Path, name: string) {
    && '/' !in name
    && (path == name || (|path| > |name| && path[|path| - |name|..] == name && path[|path| - |name| - 1] == '/'))
  }

  /** The device's subsystem is a bus on which a device of that name has the address `a`. */
  ghost predicate HasAddress(t: Tree, device: Path, a: Address) {
    && device in t.subsystemLinks
    && exists bus, name ::
         IsCalled(t.subsystemLinks[device], bus) && IsCalled(device, name) && IsAddress(bus, name, a)
  }

  /** `chain` follows the `device` links up from `dir`. */
  predicate IsChain(t: Tree, dir: Path, chain: seq<Path>) {
    && chain != []
    && dir in t.deviceLinks && chain[0] == t.deviceLinks[dir]
    && forall i :: 0 <= i < |chain| - 1 ==> chain[i] in t.deviceLinks && chain[i + 1] == t.deviceLinks[chain[i]]
  }

  ghost predicate HasNoAddress(t: Tree, device: Path) {
    forall a :: !HasAddress(t, device, a)
  }

  /** `a` is the address of the nearest of the first eight devices up the chain that has one; `Virtual` stands for none. */
  ghost predicate IsOwnAddress(t: Tree, dir: Path, a: Address) {
    if a == Virtual then
      forall chain :: IsChain(t, dir, chain) && |chain| <= 8 ==> HasNoAddress(t, chain[|chain| - 1])
    else
      exists chain ::
        && IsChain(t, dir, chain) && |chain| <= 8
        && HasAddress(t, chain[|chain| - 1], a)
        && forall j :: 0 <= j < |chain| - 1 ==> HasNoAddress(t, chain[j])
  }

  lemma {:induction false} BaseIsName(path: Path, name: string)
    ensures Base(path) == name <==> IsCalled(path, name)
  {
    AfterLastShape(path, '/');
    AfterLastWithoutStop(path, '/');
    if IsCalled(path, name) && path != name {
      var front := path[..|path| - |name| - 1];
      assert path == front + ['/'] + name;
      AfterLastIsUnique(front, '/', name);
    }
  }

  lemma {:induction false} AddressOfIsExact(t: Tree, device: Path, a: Address)
    ensures AddressOf(t, device) == Some(a) <==> HasAddress(t, device, a)
  {
    hide BusAddress, IsAddress, Base, IsCalled;
    if device in t.subsystemLinks {
      var link := t.subsystemLinks[device];
      BaseIsName(link, Base(link));
      BaseIsName(device, Base(device));
      forall bus | IsCalled(link, bus)
        ensures bus == Base(link)
      {
        BaseIsName(link, bus);
      }
      forall name | IsCalled(device, name)
        ensures name == Base(device)
      {
        BaseIsName(device, name);
      }
      AddressesAreExact(Base(link), Base(device), a);
    }
  }

  lemma {:induction false} NoAddressIsNone(t: Tree, device: Path)
    ensures AddressOf(t, device).None? <==> HasNoAddress(t, device)
  {
    hide AddressOf, HasAddress;
    forall a
      ensures AddressOf(t, device) == Some(a) <==> HasAddress(t, device, a)
    {
      AddressOfIsExact(t, device, a);
    }
  }

  /** The chain of length `k + 1`, if there is one, ends in ancestor `k` and goes through the ones before. */
  lemma {:induction false} ChainsAreAncestors(t: Tree, dir: Path, chain: seq<Path>)
    requires IsChain(t, dir, chain)
    ensures forall j: nat :: j < |chain| ==> Ancestor(t, dir, j) == Some(chain[j])
  {
    var n := |chain| - 1;
    if n > 0 {
      ChainsAreAncestors(t, dir, chain[..n]);
      assert forall j: nat :: j < n ==> chain[..n][j] == chain[j];
      assert Ancestor(t, dir, n - 1) == Some(chain[n - 1]);
    }
  }

  lemma {:induction false} AncestorsHaveChains(t: Tree, dir: Path, k: nat) returns (chain: seq<Path>)
    requires Ancestor(t, dir, k).Some?
    ensures IsChain(t, dir, chain) && |chain| == k + 1 && chain[k] == Ancestor(t, dir, k).value
  {
    if k == 0 {
      chain := [t.deviceLinks[dir]];
    } else {
      chain := AncestorsHaveChains(t, dir, k - 1);
      chain := chain + [t.deviceLinks[chain[k - 1]]];
    }
  }

  lemma {:induction false} OwnAddressIsUnique(t: Tree, dir: Path, a: Address, b: Address)
    requires IsOwnAddress(t, dir, a) && IsOwnAddress(t, dir, b)
    ensures a == b
  {
    OwnIsFrom(t, dir, a);
    OwnIsFrom(t, dir, b);
  }

  function OwnAddressFrom(t: Tree, dir: Path, k: nat): Address
    decreases MAX_DEVICE_LINKS - k
  {
    if k >= MAX_DEVICE_LINKS then Virtual
    else
      match AncestorAddress(t, dir, k)
      case Some(a) => a
      case None => OwnAddressFrom(t, dir, k + 1)
  }

  lemma {:induction false} FirstAddressIsFound(t: Tree, dir: Path, k: nat, n: nat)
    requires k <= n < MAX_DEVICE_LINKS && AncestorAddress(t, dir, n).Some?
    requires forall j: nat :: k <= j < n ==> AncestorAddress(t, dir, j).None?
    ensures OwnAddressFrom(t, dir, k) == AncestorAddress(t, dir, n).value
    decreases n - k
  {
    hide AncestorAddress;
    if k < n {
      FirstAddressIsFound(t, dir, k + 1, n);
    }
  }

  lemma {:induction false} NoAddressIsFound(t: Tree, dir: Path, k: nat)
    requires forall j: nat :: k <= j < MAX_DEVICE_LINKS ==> AncestorAddress(t, dir, j).None?
    ensures OwnAddressFrom(t, dir, k) == Virtual
    decreases MAX_DEVICE_LINKS - k
  {
    hide AncestorAddress;
    if k < MAX_DEVICE_LINKS {
      NoAddressIsFound(t, dir, k + 1);
    }
  }

  lemma {:induction false} OwnIsFrom(t: Tree, dir: Path, a: Address)
    requires IsOwnAddress(t, dir, a)
    ensures OwnAddressFrom(t, dir, 0) == a
  {
    hide AddressOf, HasAddress, Ancestor;
    if a == Virtual {
      forall k: nat | k < MAX_DEVICE_LINKS
        ensures AncestorAddress(t, dir, k).None?
      {
        if Ancestor(t, dir, k).Some? {
          var chain := AncestorsHaveChains(t, dir, k);
          NoAddressIsNone(t, chain[k]);
        }
      }
      NoAddressIsFound(t, dir, 0);
    } else {
      var chain :|
        && IsChain(t, dir, chain) && |chain| <= 8
        && HasAddress(t, chain[|chain| - 1], a)
        && forall j :: 0 <= j < |chain| - 1 ==> HasNoAddress(t, chain[j]);
      hide IsChain;
      ChainsAreAncestors(t, dir, chain);
      AddressOfIsExact(t, chain[|chain| - 1], a);
      forall j: nat | j < |chain| - 1
        ensures AncestorAddress(t, dir, j).None?
      {
        assert Ancestor(t, dir, j) == Some(chain[j]);
        NoAddressIsNone(t, chain[j]);
      }
      FirstAddressIsFound(t, dir, 0, |chain| - 1);
    }
  }

  lemma {:induction false} NonEmptyChain(t: Tree, dir: Path, chain: seq<Path>)
    requires IsChain(t, dir, chain)
    ensures chain != []
  {
  }

  lemma {:induction false} OwnAddressFromIsOwn(t: Tree, dir: Path, k: nat)
    requires k <= MAX_DEVICE_LINKS
    requires forall j: nat :: j < k ==> AncestorAddress(t, dir, j).None?
    ensures IsOwnAddress(t, dir, OwnAddressFrom(t, dir, k))
    decreases MAX_DEVICE_LINKS - k
  {
    hide AddressOf, HasAddress, IsChain, Ancestor, HasNoAddress, AncestorAddress;
    if k < MAX_DEVICE_LINKS && AncestorAddress(t, dir, k).None? {
      OwnAddressFromIsOwn(t, dir, k + 1);
    } else {
      forall chain | IsChain(t, dir, chain)
        ensures chain != [] && forall j: nat :: j < |chain| && j < k ==> HasNoAddress(t, chain[j])
      {
        NonEmptyChain(t, dir, chain);
        ChainsAreAncestors(t, dir, chain);
        forall j: nat | j < |chain| && j < k
          ensures HasNoAddress(t, chain[j])
        {
          AddressAt(t, dir, j, chain[j]);
          NoAddressIsNone(t, chain[j]);
        }
      }
      if k < MAX_DEVICE_LINKS {
        FoundAt(t, dir, k);
      }
    }
  }

  lemma {:induction false} AddressAt(t: Tree, dir: Path, k: nat, device: Path)
    requires Ancestor(t, dir, k) == Some(device)
    ensures AncestorAddress(t, dir, k) == AddressOf(t, device)
  {
  }

  lemma {:induction false} FoundAt(t: Tree, dir: Path, k: nat)
    requires k < MAX_DEVICE_LINKS && AncestorAddress(t, dir, k).Some?
    requires forall chain :: IsChain(t, dir, chain) ==>
      chain != [] && forall j: nat :: j < |chain| && j < k ==> HasNoAddress(t, chain[j])
    ensures IsOwnAddress(t, dir, AncestorAddress(t, dir, k).value)
  {
    hide AddressOf, HasAddress, IsChain, HasNoAddress;
    var chain := AncestorsHaveChains(t, dir, k);
    BusesAreNotVirtual(t, chain[k]);
    AddressOfIsExact(t, chain[k], AddressOf(t, chain[k]).value);
  }

  lemma {:induction false} BusesAreNotVirtual(t: Tree, device: Path)
    ensures AddressOf(t, device) != Some(Virtual)
  {
  }

  /** The name the chip in `dir` composes to, or nothing when it has no driver name. */
  function ChipNameOf(t: Tree, dir: Path): Option<string> {
    if Join(dir, "name") !in t.contents || Trim(t.contents[Join(dir, "name")]) == "" then None
    else Some(Compose(Trim(t.contents[Join(dir, "name")]), OwnAddressFrom(t, dir, 0)))
  }

  /** A chip has a name exactly when its driver's name can be read and is not blank. */
  lemma {:induction false} NamedChips(t: Tree, dir: Path)
    ensures ChipNameOf(t, dir).None? <==> dir + "/name" !in t.contents || Blank(t.contents[dir + "/name"])
  {
    hide OwnAddressFrom, Trim;
    assert Join(dir, "name") == dir + "/name";
    if dir + "/name" in t.contents {
      BlankTrims(t.contents[dir + "/name"]);
    }
  }

  lemma {:induction false} BlankTrims(s: string)
    ensures Trim(s) == "" <==> Blank(s)
  {
    if Blank(s) {
      TrimOfBlank(s);
    } else {
      var left, right := TrimIsMiddle(s);
      assert s == left + Trim(s) + right;
    }
  }

  /** The name is the driver's, with the address of the nearest addressable device on the chain. */
  lemma {:induction false} ChipNameIsOwn(t: Tree, dir: Path, a: Address)
    requires dir + "/name" in t.contents && !Blank(t.contents[dir + "/name"])
    ensures ChipNameOf(t, dir) == Some(Compose(Trim(t.contents[dir + "/name"]), a)) <==> IsOwnAddress(t, dir, a)
  {
    hide OwnAddressFrom, Trim, IsOwnAddress, Compose;
    assert Join(dir, "name") == dir + "/name";
    NamedChips(t, dir);
    var own := OwnAddressFrom(t, dir, 0);
    OwnAddressFromIsOwn(t, dir, 0);
    var driver := Trim(t.contents[dir + "/name"]);
    ComposedNamesDecode(driver, own, driver, a);
    if IsOwnAddress(t, dir, a) {
      OwnAddressIsUnique(t, dir, a, own);
    }
  }

  /** The buses whose devices have addresses. */
  predicate IsKnownBus(bus: string) {
    bus in {"i2c", "spi", "pci", "acpi", "platform", "of_node"}
  }

  /** A device on any other subsystem, or on none, has no address, so the walk goes on past it. */
  lemma {:induction false} OtherBusesArePassed(t: Tree, device: Path)
    requires device in t.subsystemLinks ==> forall bus :: IsCalled(t.subsystemLinks[device], bus) ==> !IsKnownBus(bus)
    ensures HasNoAddress(t, device)
  {
    hide IsCalled, IsPair, IsPciName, IsPlatformId;
  }

  /**
   A chip whose nearest device on a known bus, within eight links, is one the kernel names as `d`, is
   called after its driver and the address of `d`.
   */
  lemma {:induction false} ChipIsNamedAfterItsDevice(t: Tree, dir: Path, chain: seq<Path>, d: KernelDevice)
    requires dir + "/name" in t.contents && !Blank(t.contents[dir + "/name"])
    requires IsChain(t, dir, chain) && |chain| <= 8 && WellShaped(d)
    requires var device := chain[|chain| - 1];
             && IsCalled(device, SysfsName(d))
             && device in t.subsystemLinks && IsCalled(t.subsystemLinks[device], Subsystem(d))
    requires forall j, bus :: 0 <= j < |chain| - 1 && chain[j] in t.subsystemLinks && IsCalled(t.subsystemLinks[chain[j]], bus)
               ==> !IsKnownBus(bus)
    ensures ChipNameOf(t, dir) == Some(Compose(Trim(t.contents[dir + "/name"]), Folded(d)))
  {
    hide IsCalled, SysfsName, Subsystem, WellShaped, IsAddress, ChipNameOf, Compose, Trim, HasNoAddress, IsKnownBus;
    var device := chain[|chain| - 1];
    KernelNamesResolve(d);
    AddressesAreExact(Subsystem(d), SysfsName(d), Folded(d));
    assert HasAddress(t, device, Folded(d));
    forall j | 0 <= j < |chain| - 1
      ensures HasNoAddress(t, chain[j])
    {
      OtherBusesArePassed(t, chain[j]);
    }
    assert Folded(d) != Virtual;
    ChipNameIsOwn(t, dir, Folded(d));
  }

  /** With no such device among the first eight, or no link at all, the name is the virtual one. */
  lemma {:induction false} ChipIsVirtual(t: Tree, dir: Path)
    requires dir + "/name" in t.contents && !Blank(t.contents[dir + "/name"])
    requires forall chain :: IsChain(t, dir, chain) && |chain| <= 8 ==> HasNoAddress(t, chain[|chain| - 1])
    ensures ChipNameOf(t, dir) == Some(Trim(t.contents[dir + "/name"]) + "-virtual-0")
  {
    hide ChipNameOf, Trim, HasNoAddress;
    ChipNameIsOwn(t, dir, Virtual);
  }

  /** Past a break in the chain, or a device that links to itself, there is nothing more to find. */
  lemma {:induction false} NothingFurther(t: Tree, dir: Path, k: nat, device: Path)
    requires Ancestor(t, dir, k) == Some(device) && AddressOf(t, device).None?
    requires Follow(t.deviceLinks, device).Some? ==> Follow(t.deviceLinks, device).value == device
    ensures OwnAddressFrom(t, dir, k + 1) == Virtual
    decreases MAX_DEVICE_LINKS - k
  {
    if k + 1 < MAX_DEVICE_LINKS {
      if Follow(t.deviceLinks, device).Some? {
        NothingFurther(t, dir, k + 1, device);
      } else {
        NothingAbove(t, dir, k + 1);
      }
    }
  }

  lemma {:induction false} NothingAbove(t: Tree, dir: Path, k: nat)
    requires Ancestor(t, dir, k).None?
    ensures OwnAddressFrom(t, dir, k) == Virtual
    decreases MAX_DEVICE_LINKS - k
  {
    if k < MAX_DEVICE_LINKS {
      NothingAbove(t, dir, k + 1);
    }
  }

  // ----- the walk itself

  /**
   Composes the name of the chip in `dir`. The walk stops early at a broken chain or a device that
   links to itself, and after eight devices on any other loop; none of that changes what it finds.
   */
  method ComposeChipName(t: Tree, dir: Path) returns (name: Option<string>)
    ensures name == ChipNameOf(t, dir)
  {
    hide AddressOf;
    if Join(dir, "name") !in t.contents {
      return None;
    }
    var driver := Trim(t.contents[Join(dir, "name")]);
    if driver == "" {
      return None;
    }
    var linked := Follow(t.deviceLinks, dir);
    if linked.None? {
      NothingAbove(t, dir, 0);
      return Some(driver + Suffix(Virtual));
    }
    var device := linked.value;
    var i := 0;
    while i < MAX_DEVICE_LINKS
      invariant 0 <= i <= MAX_DEVICE_LINKS
      invariant i < MAX_DEVICE_LINKS ==> Ancestor(t, dir, i) == Some(device)
      invariant OwnAddressFrom(t, dir, i) == OwnAddressFrom(t, dir, 0)
    {
      var address := AddressOf(t, device);
      if address.Some? {
        return Some(driver + Suffix(address.value));
      }
      var next := Follow(t.deviceLinks, device);
      if next.None? || next.value == device {
        NothingFurther(t, dir, i, device);
        break;
      }
      if i + 1 == MAX_DEVICE_LINKS {
        assert OwnAddressFrom(t, dir, i + 1) == Virtual;
      }
      device := next.value;
      i := i + 1;
    }
    return Some(driver + Suffix(Virtual));
  }
}

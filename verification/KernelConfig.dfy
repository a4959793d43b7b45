/** From detected devices to the settings of the kernel: the pipeline of the kernel step. */
module KernelConfig {
  import opened BootPath
  import opened Closure
  import opened Devices
  import opened Generator
  import opened Kconfig
  import opened SourceIndex
  import opened Wrappers
  import Ascii
  import Glob

  datatype AcpiInfo = AcpiInfo(hasAcpi: bool, tables: set<string>)

  // Module name to configuration symbols, as the Makefile scan answers it.
  type ModuleConfigs = string -> set<string>

  function AcpiSymbols(acpi: AcpiInfo): set<string> {
    if !acpi.hasAcpi then {}
    else
      {"ACPI"}
      + (if "HPET" in acpi.tables then {"HPET_TIMER"} else {})
      + (if "APIC" in acpi.tables then {"X86_LOCAL_APIC", "X86_IO_APIC"} else {})
      + (if "MCFG" in acpi.tables then {"PCI_MMCONFIG"} else {})
  }

  // The symbols each table stands for, where there is ACPI at all.
  const TABLE_SYMBOLS: map<string, set<string>> := map[
    "HPET" := {"HPET_TIMER"}, "APIC" := {"X86_LOCAL_APIC", "X86_IO_APIC"}, "MCFG" := {"PCI_MMCONFIG"}]

  lemma AcpiSymbolsExact(acpi: AcpiInfo, sym: string)
    ensures sym in AcpiSymbols(acpi)
       <==> acpi.hasAcpi
            && (sym == "ACPI" || exists t :: t in acpi.tables && t in TABLE_SYMBOLS && sym in TABLE_SYMBOLS[t])
  {
    assert TABLE_SYMBOLS.Keys == {"HPET", "APIC", "MCFG"};
  }

  // ---- which symbols are wanted ----

  // Some driver whose pattern matches the alias is configured by the symbol.
  ghost predicate DrivenBy(alias: string, index: seq<DriverEntry>, configs: ModuleConfigs, sym: string) {
    exists e :: e in index && Glob.Matches(e.aliasPattern, alias) && sym in configs(e.moduleName)
  }

  ghost predicate SomeDrivenBy(aliases: seq<string>, index: seq<DriverEntry>, configs: ModuleConfigs, sym: string) {
    exists k :: 0 <= k < |aliases| && DrivenBy(aliases[k], index, configs, sym)
  }

  // Some file has a macro that accepts the device, and its module is configured by the symbol.
  ghost predicate PciWants(files: seq<SourceFile>, configs: ModuleConfigs, dev: PCIDevice, sym: string) {
    exists f, t :: f in files && t in f.tables && TableAccepts(t, dev) && sym in configs(f.name)
  }

  ghost predicate TableAccepts(t: Table, dev: PCIDevice) {
    t.PciTable? && exists i :: 0 <= i < |PciIds(t.pci)| && PciMacroAccepts(t.pci, i, dev)
  }

  ghost predicate UsbWants(files: seq<SourceFile>, configs: ModuleConfigs, dev: USBDevice, sym: string) {
    exists f, t :: f in files && t in f.tables && TableAcceptsUsb(t, dev) && sym in configs(f.name)
  }

  ghost predicate TableAcceptsUsb(t: Table, dev: USBDevice) {
    t.UsbTable? && exists i :: 0 <= i < |UsbIds(t.usb)| && UsbMacroAccepts(t.usb, i, dev)
  }

  // What a kernel source tree has to say about drivers.
  datatype Tree = Tree(files: seq<SourceFile>, configs: ModuleConfigs)

  // The hardware as it was saved.
  datatype Hardware = Hardware(pci: seq<SavedPci>, usb: seq<SavedUsb>, acpi: AcpiInfo)

  // The symbols of every driver of some saved device, and of the ACPI tables.
  ghost predicate IsWanted(tree: Tree, hw: Hardware, sym: string) {
    || sym in AcpiSymbols(hw.acpi)
    || (exists k :: 0 <= k < |hw.pci| && PciWants(tree.files, tree.configs, RebuildPci(hw.pci[k]), sym))
    || (exists k :: 0 <= k < |hw.usb| && UsbWants(tree.files, tree.configs, RebuildUsb(hw.usb[k]), sym))
  }

  lemma PciTableDrivers(f: SourceFile, t: Table, dev: PCIDevice)
    ensures TableAccepts(t, dev) <==> exists e :: AcceptsInTable(f, t, dev, e)
    ensures forall e | AcceptsInTable(f, t, dev, e) :: e.moduleName == f.name
  {
    hide PciMacroAccepts;
    hide PciIds;
    if TableAccepts(t, dev) {
      var i :| 0 <= i < |PciIds(t.pci)| && PciMacroAccepts(t.pci, i, dev);
      assert AcceptsInTable(f, t, dev, PciEntries(PciIds(t.pci), f.name, f.src)[i]);
    }
  }

  lemma PciWantsExact(tree: Tree, dev: PCIDevice, sym: string)
    ensures DrivenBy(dev.Alias(), IndexEntries(tree.files), tree.configs, sym)
       <==> PciWants(tree.files, tree.configs, dev, sym)
  {
    var index := IndexEntries(tree.files);
    hide IndexEntries;
    hide AcceptsInTable;
    hide TableAccepts;
    hide PCIDevice.Alias;
    PciDriversExact(tree.files, dev);
    MatchSelects(index, dev.Alias());
    hide Match;
    hide Glob.Matches;
    if DrivenBy(dev.Alias(), index, tree.configs, sym) {
      var e :| e in index && Glob.Matches(e.aliasPattern, dev.Alias()) && sym in tree.configs(e.moduleName);
      assert e in Match(index, dev.Alias());
      var f, t :| f in tree.files && t in f.tables && AcceptsInTable(f, t, dev, e);
      PciTableDrivers(f, t, dev);
    }
    if PciWants(tree.files, tree.configs, dev, sym) {
      var f, t :| f in tree.files && t in f.tables && TableAccepts(t, dev) && sym in tree.configs(f.name);
      PciTableDrivers(f, t, dev);
      var e :| AcceptsInTable(f, t, dev, e);
      assert e in Match(index, dev.Alias());
    }
  }

  lemma UsbTableDrivers(f: SourceFile, t: Table, dev: USBDevice)
    ensures TableAcceptsUsb(t, dev) <==> exists e :: AcceptsUsbInTable(f, t, dev, e)
    ensures forall e | AcceptsUsbInTable(f, t, dev, e) :: e.moduleName == f.name
  {
    hide UsbMacroAccepts;
    hide UsbIds;
    if TableAcceptsUsb(t, dev) {
      var i :| 0 <= i < |UsbIds(t.usb)| && UsbMacroAccepts(t.usb, i, dev);
      assert AcceptsUsbInTable(f, t, dev, UsbEntries(UsbIds(t.usb), f.name, f.src)[i]);
    }
  }

  lemma UsbWantsExact(tree: Tree, dev: USBDevice, sym: string)
    ensures DrivenBy(dev.Alias(), IndexEntries(tree.files), tree.configs, sym)
       <==> UsbWants(tree.files, tree.configs, dev, sym)
  {
    var index := IndexEntries(tree.files);
    hide IndexEntries;
    hide AcceptsUsbInTable;
    hide TableAcceptsUsb;
    hide USBDevice.Alias;
    UsbDriversExact(tree.files, dev);
    MatchSelects(index, dev.Alias());
    hide Match;
    hide Glob.Matches;
    if DrivenBy(dev.Alias(), index, tree.configs, sym) {
      var e :| e in index && Glob.Matches(e.aliasPattern, dev.Alias()) && sym in tree.configs(e.moduleName);
      assert e in Match(index, dev.Alias());
      var f, t :| f in tree.files && t in f.tables && AcceptsUsbInTable(f, t, dev, e);
      UsbTableDrivers(f, t, dev);
    }
    if UsbWants(tree.files, tree.configs, dev, sym) {
      var f, t :| f in tree.files && t in f.tables && TableAcceptsUsb(t, dev) && sym in tree.configs(f.name);
      UsbTableDrivers(f, t, dev);
      var e :| AcceptsUsbInTable(f, t, dev, e);
      assert e in Match(index, dev.Alias());
    }
  }

  // ---- what a symbol ends up as ----

  function ValueIn(c: Config, sym: string): Option<string> {
    if sym in c then Some(c[sym].value) else None
  }

  // Boot-critical and essential `y` win, then the drivers, then the essentials.
  function FinalValue(sym: string, detectedAcpi: bool, needed: set<string>, driverValue: string,
                      static_: set<string>): Option<string> {
    var essential := Essential(detectedAcpi);
    if sym in static_ || (sym in essential && essential[sym] == "y") then Some("y")
    else if sym in needed then Some(driverValue)
    else if sym in essential then Some(essential[sym])
    else None
  }

  lemma BaseValue(detectedAcpi: bool, sym: string)
    ensures ValueIn(Base(detectedAcpi), sym)
         == if sym in Essential(detectedAcpi) then Some(Essential(detectedAcpi)[sym]) else None
  {
    hide Essential;
  }

  lemma OverlayValue(c: Config, syms: set<string>, value: string, section: string, c': Config, sym: string)
    requires Overlaid(c, syms, value, section, c')
    ensures ValueIn(c', sym) == if sym in syms && ValueIn(c, sym) != Some("y") then Some(value) else ValueIn(c, sym)
  {}

  lemma FinalValues(detectedAcpi: bool, needed: set<string>, driverValue: string, static_: set<string>,
                    c1: Config, c2: Config)
    requires Overlaid(Base(detectedAcpi), needed, driverValue, "hardware", c1)
    requires Overlaid(c1, static_, "y", "boot-critical", c2)
    ensures forall sym :: ValueIn(c2, sym) == FinalValue(sym, detectedAcpi, needed, driverValue, static_)
    ensures forall sym | sym in static_ :: IsLocked(c2, sym)
  {
    forall sym | sym in static_ ensures IsLocked(c2, sym) {
      OverlayValue(c1, static_, "y", "boot-critical", c2, sym);
    }
    hide IsLocked;
    hide Overlaid;
    hide Essential;
    hide Base;
    hide ValueIn;
    forall sym ensures ValueIn(c2, sym) == FinalValue(sym, detectedAcpi, needed, driverValue, static_) {
      BaseValue(detectedAcpi, sym);
      OverlayValue(Base(detectedAcpi), needed, driverValue, "hardware", c1, sym);
      OverlayValue(c1, static_, "y", "boot-critical", c2, sym);
    }
  }

  // Which of the three put a symbol there: it stays in the section it had when it became `y`, and
  // else is in the last one that set it.
  function FinalSection(sym: string, detectedAcpi: bool, needed: set<string>, driverValue: string,
                        static_: set<string>): string {
    var essential := Essential(detectedAcpi);
    if sym in essential && essential[sym] == "y" then "essential"
    else if sym in static_ && !(sym in needed && driverValue == "y") then "boot-critical"
    else if sym in needed then "hardware"
    else "essential"
  }

  function SectionIn(c: Config, sym: string): Option<string> {
    if sym in c then Some(c[sym].section) else None
  }

  lemma OverlaySection(c: Config, syms: set<string>, value: string, section: string, c': Config, sym: string)
    requires Overlaid(c, syms, value, section, c')
    ensures SectionIn(c', sym)
         == if sym in syms && ValueIn(c, sym) != Some("y") then Some(section) else SectionIn(c, sym)
    ensures SectionIn(c', sym).Some? <==> ValueIn(c', sym).Some?
  {}

  lemma BaseSection(detectedAcpi: bool, sym: string)
    ensures SectionIn(Base(detectedAcpi), sym) == if sym in Essential(detectedAcpi) then Some("essential") else None
  {
    hide Essential;
  }

  lemma FinalSections(detectedAcpi: bool, needed: set<string>, driverValue: string, static_: set<string>,
                      c1: Config, c2: Config)
    requires Overlaid(Base(detectedAcpi), needed, driverValue, "hardware", c1)
    requires Overlaid(c1, static_, "y", "boot-critical", c2)
    ensures forall sym | sym in c2 :: c2[sym].section == FinalSection(sym, detectedAcpi, needed, driverValue, static_)
  {
    hide Overlaid;
    hide Essential;
    hide Base;
    hide ValueIn;
    forall sym | sym in c2
      ensures SectionIn(c2, sym) == Some(FinalSection(sym, detectedAcpi, needed, driverValue, static_))
    {
      BaseValue(detectedAcpi, sym);
      BaseSection(detectedAcpi, sym);
      OverlayValue(Base(detectedAcpi), needed, driverValue, "hardware", c1, sym);
      OverlaySection(Base(detectedAcpi), needed, driverValue, "hardware", c1, sym);
      OverlaySection(c1, static_, "y", "boot-critical", c2, sym);
    }
  }

  // Boot-critical symbols stay `y` whatever is added later.
  lemma BootCriticalForever(c1: Config, static_: set<string>, c2: Config, rs: seq<Request>, sym: string)
    requires Overlaid(c1, static_, "y", "boot-critical", c2) && sym in static_
    ensures sym in AddEach(c2, rs) && AddEach(c2, rs)[sym].value == "y"
  {
    LockedForever(c2, rs, sym);
  }

  // ---- the pipeline ----

  // Rebuilding, matching, dependency closure, merging and locking; the steps on files are left out.
  method Configure(tree: Tree, hw: Hardware, db: KconfigDB, driverValue: string, storage: Storage)
    returns (generator: ConfigGenerator, r: Result<set<string>, BootPath.Error>, ghost needed: set<string>)
    ensures r.Ok? <==> Ascii.Lower(storage.rootFs) in FS_CONFIG
    ensures exists wanted: set<string> ::
      && (forall sym :: sym in wanted <==> IsWanted(tree, hw, sym))
      && IsClosure(SymbolGraph(db.entries), wanted, needed)
    ensures r.Ok? ==> r.value == StaticSymbols(storage) && forall sym ::
      ValueIn(generator.entries, sym) == FinalValue(sym, hw.acpi.hasAcpi, needed, driverValue, r.value)
    ensures r.Ok? ==> forall sym | sym in generator.entries ::
      generator.entries[sym].section == FinalSection(sym, hw.acpi.hasAcpi, needed, driverValue, r.value)
  {
    hide FinalValue;
    hide FinalSection;
    hide StaticSymbols;
    hide IsClosure;
    var wanted := Wanted(tree, hw);
    var resolved := db.ResolveDependencies(wanted);
    needed := resolved;
    generator := new ConfigGenerator(hw.acpi.hasAcpi);
    generator.AddMany(resolved, driverValue, "hardware");
    ghost var c1 := generator.entries;
    r := ApplyBootPath(generator, storage);
    if r.Ok? {
      FinalValues(hw.acpi.hasAcpi, resolved, driverValue, r.value, c1, generator.entries);
      FinalSections(hw.acpi.hasAcpi, resolved, driverValue, r.value, c1, generator.entries);
    }
  }

  // All symbols the hardware asks for.
  method Wanted(tree: Tree, hw: Hardware) returns (wanted: set<string>)
    ensures forall sym :: sym in wanted <==> IsWanted(tree, hw, sym)
  {
    hide DrivenBy;
    hide PciWants;
    hide UsbWants;
    hide IndexEntries;
    hide PCIDevice.Alias;
    hide USBDevice.Alias;
    hide AcpiSymbols;
    var pci, usb := RebuildDevices(hw.pci, hw.usb);
    var index := IndexEntries(tree.files);
    var aliases := Aliases(pci, usb);
    wanted := Matched(aliases, index, tree.configs);
    wanted := wanted + AcpiSymbols(hw.acpi);
    forall sym ensures SomeDrivenBy(aliases, index, tree.configs, sym)
      <==> || (exists k :: 0 <= k < |pci| && PciWants(tree.files, tree.configs, pci[k], sym))
           || (exists k :: 0 <= k < |usb| && UsbWants(tree.files, tree.configs, usb[k], sym))
    {
      SomeWants(tree, pci, usb, sym);
    }
  }

  function Aliases(pci: seq<PCIDevice>, usb: seq<USBDevice>): seq<string> {
    seq(|pci|, i requires 0 <= i < |pci| => pci[i].Alias()) + seq(|usb|, i requires 0 <= i < |usb| => usb[i].Alias())
  }

  lemma SomeWants(tree: Tree, pci: seq<PCIDevice>, usb: seq<USBDevice>, sym: string)
    ensures SomeDrivenBy(Aliases(pci, usb), IndexEntries(tree.files), tree.configs, sym)
       <==> || (exists k :: 0 <= k < |pci| && PciWants(tree.files, tree.configs, pci[k], sym))
            || (exists k :: 0 <= k < |usb| && UsbWants(tree.files, tree.configs, usb[k], sym))
  {
    hide DrivenBy;
    hide PciWants;
    hide UsbWants;
    hide IndexEntries;
    hide PCIDevice.Alias;
    hide USBDevice.Alias;
    var aliases, index := Aliases(pci, usb), IndexEntries(tree.files);
    forall k | 0 <= k < |pci|
      ensures DrivenBy(aliases[k], index, tree.configs, sym) <==> PciWants(tree.files, tree.configs, pci[k], sym)
    {
      PciWantsExact(tree, pci[k], sym);
    }
    forall k | 0 <= k < |usb|
      ensures DrivenBy(aliases[|pci| + k], index, tree.configs, sym)
         <==> UsbWants(tree.files, tree.configs, usb[k], sym)
    {
      UsbWantsExact(tree, usb[k], sym);
    }
    if SomeDrivenBy(aliases, index, tree.configs, sym) {
      var k :| 0 <= k < |aliases| && DrivenBy(aliases[k], index, tree.configs, sym);
      assert k >= |pci| ==> UsbWants(tree.files, tree.configs, usb[k - |pci|], sym);
    }
  }

  method Matched(aliases: seq<string>, index: seq<DriverEntry>, configs: ModuleConfigs) returns (symbols: set<string>)
    ensures forall sym :: sym in symbols <==> SomeDrivenBy(aliases, index, configs, sym)
  {
    symbols := {};
    for i := 0 to |aliases|
      invariant forall sym :: sym in symbols <==> exists k :: 0 <= k < i && DrivenBy(aliases[k], index, configs, sym)
    {
      var more := MatchedBy(aliases[i], index, configs);
      symbols := symbols + more;
    }
  }

  method MatchedBy(alias: string, index: seq<DriverEntry>, configs: ModuleConfigs) returns (symbols: set<string>)
    ensures forall sym :: sym in symbols <==> DrivenBy(alias, index, configs, sym)
  {
    symbols := {};
    var found := Match(index, alias);
    MatchSelects(index, alias);
    for j := 0 to |found|
      invariant forall sym :: sym in symbols <==> exists e :: e in found[..j] && sym in configs(e.moduleName)
    {
      assert found[..j + 1] == found[..j] + [found[j]];
      symbols := symbols + configs(found[j].moduleName);
    }
    assert found[..|found|] == found;
  }

  // ---- scanned devices ----

  // A PCI device that was saved wants what it wanted when it was scanned.
  lemma SavedPciWantsSame(tree: Tree, dev: PCIDevice, sym: string)
    ensures PciWants(tree.files, tree.configs, RebuildPci(SavePci(dev)), sym)
       <==> PciWants(tree.files, tree.configs, dev, sym)
  {
    PciWantsExact(tree, dev, sym);
    PciWantsExact(tree, RebuildPci(SavePci(dev)), sym);
    hide PCIDevice.Alias;
    hide IndexEntries;
    hide PciWants;
    hide RebuildPci;
    IndexSurvivesForPci(tree.files, dev);
    hide Glob.Matches;
  }
}

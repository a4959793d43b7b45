/** The index of driver patterns: how it is filled, matched, and matched again
    after the detected hardware went through the saved state. */
module SourceIndex {
  import opened Devices
  import opened Matchers
  import Ascii
  import Glob

  datatype DriverEntry = DriverEntry(aliasPattern: string, moduleName: string, sourceFile: string)

  // Entries whose pattern matches, in index order.
  function Match(entries: seq<DriverEntry>, alias: string): seq<DriverEntry> {
    if entries == [] then []
    else (if Glob.Matches(entries[0].aliasPattern, alias) then [entries[0]] else []) + Match(entries[1..], alias)
  }

  // ---- extraction from driver tables ----

  // What the macro expressions find in one file, in order of appearance.
  datatype PciMacros = PciMacros(devices: seq<(nat, nat)>, vdevices: seq<(string, nat)>, classes: seq<(nat, nat)>)

  datatype UsbMacros = UsbMacros(devices: seq<(nat, nat)>, ifaces: seq<(nat, nat, nat)>,
                                 devIfaces: seq<(nat, nat, nat, nat, nat)>)

  const VENDOR_NAMES: map<string, nat> := map[
    "INTEL" := 0x8086, "AMD" := 0x1022, "NVIDIA" := 0x10DE, "BROADCOM" := 0x14E4,
    "REALTEK" := 0x10EC, "MARVELL" := 0x11AB, "ATHEROS" := 0x168C, "QUALCOMM" := 0x17CB,
    "SAMSUNG" := 0x144D, "SANDISK" := 0x15B7, "WESTERN_DIGITAL" := 0x1B96,
    "SEAGATE" := 0x1BB1, "TOSHIBA" := 0x1179, "MICRON" := 0x1344,
    "REDHAT" := 0x1AF4, "VIRTIO" := 0x1AF4, "VMWARE" := 0x15AD,
    "QEMU" := 0x1234, "XEN" := 0x5853,
    "MELLANOX" := 0x15B3, "CHELSIO" := 0x1425, "SOLARFLARE" := 0x1924,
    "NETRONOME" := 0x19EE, "CAVIUM" := 0x177D]

  function VendorByName(name: string): nat {
    var key := Ascii.Upper(name);
    if key in VENDOR_NAMES then VENDOR_NAMES[key] else PCI_ANY_ID
  }

  function ByDevice(vendor: nat, device: nat): PciId {
    PciId(vendor, device, PCI_ANY_ID, PCI_ANY_ID, 0, 0)
  }

  function ByClass(cls: nat, mask: nat): PciId {
    PciId(PCI_ANY_ID, PCI_ANY_ID, PCI_ANY_ID, PCI_ANY_ID, cls, mask)
  }

  function PciIdAt(m: PciMacros, i: nat): PciId
    requires i < |m.devices| + |m.vdevices| + |m.classes|
  {
    var j := i - |m.devices|;
    if j < 0 then ByDevice(m.devices[i].0, m.devices[i].1)
    else if j < |m.vdevices| then ByDevice(VendorByName(m.vdevices[j].0), m.vdevices[j].1)
    else ByClass(m.classes[j - |m.vdevices|].0, m.classes[j - |m.vdevices|].1)
  }

  function PciIds(m: PciMacros): (ids: seq<PciId>)
    ensures |ids| == |m.devices| + |m.vdevices| + |m.classes|
  {
    var n := |m.devices| + |m.vdevices| + |m.classes|;
    seq(n, i requires 0 <= i < n => PciIdAt(m, i))
  }

  function AnyClass(vendor: nat, product: nat): UsbId {
    UsbId(vendor, product, USB_ANY_BYTE, USB_ANY_BYTE, USB_ANY_BYTE, USB_ANY_BYTE, USB_ANY_BYTE, USB_ANY_BYTE)
  }

  function UsbIdAt(m: UsbMacros, i: nat): UsbId
    requires i < |m.devices| + |m.ifaces| + |m.devIfaces|
  {
    var j := i - |m.devices|;
    if j < 0 then AnyClass(m.devices[i].0, m.devices[i].1)
    else if j < |m.ifaces| then
      var f := m.ifaces[j];
      AnyClass(USB_ANY_ID, USB_ANY_ID).(ic := f.0, isc := f.1, ip := f.2)
    else
      var f := m.devIfaces[j - |m.ifaces|];
      AnyClass(f.0, f.1).(ic := f.2, isc := f.3, ip := f.4)
  }

  function UsbIds(m: UsbMacros): (ids: seq<UsbId>)
    ensures |ids| == |m.devices| + |m.ifaces| + |m.devIfaces|
  {
    var n := |m.devices| + |m.ifaces| + |m.devIfaces|;
    seq(n, i requires 0 <= i < n => UsbIdAt(m, i))
  }

  function PciEntries(ids: seq<PciId>, name: string, src: string): (entries: seq<DriverEntry>)
    ensures |entries| == |ids|
  {
    seq(|ids|, i requires 0 <= i < |ids| => DriverEntry(PciAlias(ids[i]), name, src))
  }

  function UsbEntries(ids: seq<UsbId>, name: string, src: string): (entries: seq<DriverEntry>)
    ensures |entries| == |ids|
  {
    seq(|ids|, i requires 0 <= i < |ids| => DriverEntry(UsbAlias(ids[i]), name, src))
  }

  // ---- what a macro asks of a device ----

  // Vendor and device of PCI_DEVICE, vendor name and device of PCI_VDEVICE where a name that is
  // not known asks for no vendor, class and mask of PCI_DEVICE_CLASS.
  predicate PciMacroAccepts(m: PciMacros, i: nat, dev: PCIDevice)
    requires i < |m.devices| + |m.vdevices| + |m.classes|
  {
    var v, c := i - |m.devices|, i - |m.devices| - |m.vdevices|;
    if v < 0 then
      var (vendor, device) := m.devices[i];
      Accepts(vendor, PCI_ANY_ID, dev.vendor) && Accepts(device, PCI_ANY_ID, dev.device)
    else if c < 0 then
      var (name, device) := m.vdevices[v];
      && (Ascii.Upper(name) in VENDOR_NAMES ==> VENDOR_NAMES[Ascii.Upper(name)] == dev.vendor)
      && Accepts(device, PCI_ANY_ID, dev.device)
    else
      var (cls, mask) := m.classes[c];
      ClassAccepts(cls, mask, dev.cls)
  }

  // Vendor and product of USB_DEVICE, the interface triple of USB_INTERFACE_INFO, both of
  // USB_DEVICE_AND_INTERFACE_INFO.
  predicate UsbMacroAccepts(m: UsbMacros, i: nat, dev: USBDevice)
    requires i < |m.devices| + |m.ifaces| + |m.devIfaces|
  {
    var f, b := i - |m.devices|, i - |m.devices| - |m.ifaces|;
    if f < 0 then
      var (vendor, product) := m.devices[i];
      Accepts(vendor, USB_ANY_ID, dev.vendor) && Accepts(product, USB_ANY_ID, dev.product)
    else if b < 0 then
      var (cls, sub, proto) := m.ifaces[f];
      InterfaceAccepts(cls, sub, proto, dev)
    else
      var (vendor, product, cls, sub, proto) := m.devIfaces[b];
      && Accepts(vendor, USB_ANY_ID, dev.vendor) && Accepts(product, USB_ANY_ID, dev.product)
      && InterfaceAccepts(cls, sub, proto, dev)
  }

  predicate InterfaceAccepts(cls: nat, sub: nat, proto: nat, dev: USBDevice) {
    && Accepts(cls, USB_ANY_BYTE, dev.ifaceClass)
    && Accepts(sub, USB_ANY_BYTE, dev.ifaceSubclass)
    && Accepts(proto, USB_ANY_BYTE, dev.ifaceProtocol)
  }

  lemma NoVendorIsAny(key: string)
    requires key in VENDOR_NAMES
    ensures VENDOR_NAMES[key] < 0x10000
  {}

  lemma PciMacroIs(m: PciMacros, i: nat, dev: PCIDevice)
    requires i < |PciIds(m)|
    ensures PciAccepts(PciIds(m)[i], dev) <==> PciMacroAccepts(m, i, dev)
  {
    var v := i - |m.devices|;
    if 0 <= v < |m.vdevices| {
      var key := Ascii.Upper(m.vdevices[v].0);
      if key in VENDOR_NAMES { NoVendorIsAny(key); }
    }
  }

  lemma UsbMacroIs(m: UsbMacros, i: nat, dev: USBDevice)
    requires i < |UsbIds(m)|
    ensures UsbAccepts(UsbIds(m)[i], dev) <==> UsbMacroAccepts(m, i, dev)
  {}

  // The entry of a PCI macro matches a device exactly when the device has what the macro asks for.
  lemma PciEntryMatches(m: PciMacros, i: nat, name: string, src: string, dev: PCIDevice)
    requires i < |PciIds(m)|
    ensures Glob.Matches(PciEntries(PciIds(m), name, src)[i].aliasPattern, dev.Alias()) <==> PciMacroAccepts(m, i, dev)
  {
    PciMatchIsFieldwise(PciIds(m)[i], dev);
    PciMacroIs(m, i, dev);
  }

  lemma UsbEntryMatches(m: UsbMacros, i: nat, name: string, src: string, dev: USBDevice)
    requires i < |UsbIds(m)|
    ensures Glob.Matches(UsbEntries(UsbIds(m), name, src)[i].aliasPattern, dev.Alias()) <==> UsbMacroAccepts(m, i, dev)
  {
    UsbMatchIsFieldwise(UsbIds(m)[i], dev);
    UsbMacroIs(m, i, dev);
  }

  // Each entry matches the devices that have what its macro asks for.
  ghost predicate PciEntriesAsk(entries: seq<DriverEntry>, m: PciMacros) {
    && |entries| == |PciIds(m)|
    && forall i, dev: PCIDevice | 0 <= i < |entries| ::
         Glob.Matches(entries[i].aliasPattern, dev.Alias()) <==> PciMacroAccepts(m, i, dev)
  }

  lemma PciEntriesAreAsked(m: PciMacros, name: string, src: string)
    ensures PciEntriesAsk(PciEntries(PciIds(m), name, src), m)
  {
    var entries := PciEntries(PciIds(m), name, src);
    forall i, dev: PCIDevice | 0 <= i < |entries|
      ensures Glob.Matches(entries[i].aliasPattern, dev.Alias()) <==> PciMacroAccepts(m, i, dev)
    {
      PciEntryMatches(m, i, name, src, dev);
    }
  }

  // Each entry matches the devices that have what its macro asks for.
  ghost predicate UsbEntriesAsk(entries: seq<DriverEntry>, m: UsbMacros) {
    && |entries| == |UsbIds(m)|
    && forall i, dev: USBDevice | 0 <= i < |entries| ::
         Glob.Matches(entries[i].aliasPattern, dev.Alias()) <==> UsbMacroAccepts(m, i, dev)
  }

  lemma UsbEntriesAreAsked(m: UsbMacros, name: string, src: string)
    ensures UsbEntriesAsk(UsbEntries(UsbIds(m), name, src), m)
  {
    var entries := UsbEntries(UsbIds(m), name, src);
    forall i, dev: USBDevice | 0 <= i < |entries|
      ensures Glob.Matches(entries[i].aliasPattern, dev.Alias()) <==> UsbMacroAccepts(m, i, dev)
    {
      UsbEntryMatches(m, i, name, src, dev);
    }
  }

  // ---- the extraction loops ----

  method ExtractPciEntries(m: PciMacros, name: string, src: string) returns (entries: seq<DriverEntry>)
    ensures entries == PciEntries(PciIds(m), name, src)
    ensures PciEntriesAsk(entries, m)
  {
    PciEntriesAreAsked(m, name, src);
    hide PciEntriesAsk;
    hide PciAlias;
    ghost var all := PciEntries(PciIds(m), name, src);
    entries := [];
    for i := 0 to |m.devices|
      invariant entries == all[..i]
    {
      var (v, d) := m.devices[i];
      entries := entries + [DriverEntry(PciAlias(ByDevice(v, d)), name, src)];
    }
    for i := 0 to |m.vdevices|
      invariant entries == all[..|m.devices| + i]
    {
      var (vname, did) := m.vdevices[i];
      entries := entries + [DriverEntry(PciAlias(ByDevice(VendorByName(vname), did)), name, src)];
    }
    for i := 0 to |m.classes|
      invariant entries == all[..|m.devices| + |m.vdevices| + i]
    {
      var (cls, mask) := m.classes[i];
      entries := entries + [DriverEntry(PciAlias(ByClass(cls, mask)), name, src)];
    }
    assert entries == all;
  }

  method ExtractUsbEntries(m: UsbMacros, name: string, src: string) returns (entries: seq<DriverEntry>)
    ensures entries == UsbEntries(UsbIds(m), name, src)
    ensures UsbEntriesAsk(entries, m)
  {
    UsbEntriesAreAsked(m, name, src);
    hide UsbEntriesAsk;
    hide UsbAlias;
    ghost var all := UsbEntries(UsbIds(m), name, src);
    entries := [];
    for i := 0 to |m.devices|
      invariant entries == all[..i]
    {
      var (v, p) := m.devices[i];
      entries := entries + [DriverEntry(UsbAlias(AnyClass(v, p)), name, src)];
    }
    for i := 0 to |m.ifaces|
      invariant entries == all[..|m.devices| + i]
    {
      var (ic, isc, ip) := m.ifaces[i];
      var id := AnyClass(USB_ANY_ID, USB_ANY_ID).(ic := ic, isc := isc, ip := ip);
      entries := entries + [DriverEntry(UsbAlias(id), name, src)];
    }
    for i := 0 to |m.devIfaces|
      invariant entries == all[..|m.devices| + |m.ifaces| + i]
    {
      var (v, p, ic, isc, ip) := m.devIfaces[i];
      entries := entries + [DriverEntry(UsbAlias(AnyClass(v, p).(ic := ic, isc := isc, ip := ip)), name, src)];
    }
    assert entries == all;
  }

  // ---- hardware through the saved state ----

  datatype SavedPci = SavedPci(slot: Slot, vendor: nat, device: nat, cls: nat)

  datatype SavedUsb = SavedUsb(vendor: nat, product: nat, devClass: nat)

  function SavePci(d: PCIDevice): SavedPci { SavedPci(d.slot, d.vendor, d.device, d.cls) }

  function SaveUsb(d: USBDevice): SavedUsb { SavedUsb(d.vendor, d.product, d.devClass) }

  // Fields that were not saved come back as their defaults.
  function RebuildPci(s: SavedPci): PCIDevice {
    PCIDevice(s.slot, s.vendor, s.device, 0xFFFF, 0xFFFF, s.cls, 0)
  }

  function RebuildUsb(s: SavedUsb): USBDevice {
    USBDevice(0, 0, s.vendor, s.product, 0, s.devClass, 0, 0, 0, 0, 0)
  }

  method RebuildDevices(savedPci: seq<SavedPci>, savedUsb: seq<SavedUsb>)
    returns (pci: seq<PCIDevice>, usb: seq<USBDevice>)
    ensures |pci| == |savedPci| && forall i | 0 <= i < |pci| :: pci[i] == RebuildPci(savedPci[i])
    ensures |usb| == |savedUsb| && forall i | 0 <= i < |usb| :: usb[i] == RebuildUsb(savedUsb[i])
  {
    pci, usb := [], [];
    for i := 0 to |savedPci|
      invariant |pci| == i && forall k | 0 <= k < i :: pci[k] == RebuildPci(savedPci[k])
    {
      pci := pci + [RebuildPci(savedPci[i])];
    }
    for i := 0 to |savedUsb|
      invariant |usb| == i && forall k | 0 <= k < i :: usb[k] == RebuildUsb(savedUsb[k])
    {
      usb := usb + [RebuildUsb(savedUsb[i])];
    }
  }

  // ---- what one source file contributes to the index ----

  datatype Table =
    | PciTable(pci: PciMacros)
    | UsbTable(usb: UsbMacros)
    | NameTable(bus: NameBus, names: seq<string>)

  // ACPI and device-tree tables, and the platform, I2C and SPI ones, which print alike.
  datatype NameBus = AcpiBus | PlatformBus | TreeBus
  {
    function Prefix(): string {
      match this
      case AcpiBus => "acpi:"
      case PlatformBus => "platform:"
      case TreeBus => "of:"
    }
  }

  function TableEntries(t: Table, name: string, src: string): seq<DriverEntry> {
    match t
    case PciTable(m) => PciEntries(PciIds(m), name, src)
    case UsbTable(m) => UsbEntries(UsbIds(m), name, src)
    case NameTable(bus, names) =>
      seq(|names|, i requires 0 <= i < |names| =>
        DriverEntry(bus.Prefix() + names[i] + (if bus.AcpiBus? then ":" else ""), name, src))
  }

  datatype SourceFile = SourceFile(name: string, src: string, tables: seq<Table>)

  function FileEntries(f: SourceFile, k: nat): seq<DriverEntry>
    requires k <= |f.tables|
  {
    if k == 0 then [] else FileEntries(f, k - 1) + TableEntries(f.tables[k - 1], f.name, f.src)
  }

  function IndexEntries(files: seq<SourceFile>): seq<DriverEntry> {
    if files == [] then []
    else FileEntries(files[0], |files[0].tables|) + IndexEntries(files[1..])
  }

  // ---- matching is settled entry by entry ----

  ghost predicate SameMatches(entries: seq<DriverEntry>, alias: string, alias': string) {
    forall e | e in entries :: Glob.Matches(e.aliasPattern, alias) == Glob.Matches(e.aliasPattern, alias')
  }

  lemma {:induction false} SameMatchesSameResult(entries: seq<DriverEntry>, alias: string, alias': string)
    requires SameMatches(entries, alias, alias')
    ensures Match(entries, alias) == Match(entries, alias')
  {
    if entries != [] {
      assert entries[0] in entries;
      SameMatchesSameResult(entries[1..], alias, alias');
    }
  }

  lemma {:induction false} MatchSelects(entries: seq<DriverEntry>, alias: string)
    ensures forall e :: e in Match(entries, alias) <==> e in entries && Glob.Matches(e.aliasPattern, alias)
  {
    if entries != [] {
      MatchSelects(entries[1..], alias);
    }
  }

  // The PCI IDs a device answers to, in table order.
  function AcceptedPci(ids: seq<PciId>, dev: PCIDevice): seq<PciId> {
    if ids == [] then []
    else (if PciAccepts(ids[0], dev) then [ids[0]] else []) + AcceptedPci(ids[1..], dev)
  }

  // Matching the alias text against a PCI table selects the entries of exactly the accepting IDs, in order.
  lemma {:induction false} MatchPciTable(ids: seq<PciId>, name: string, src: string, dev: PCIDevice)
    ensures Match(PciEntries(ids, name, src), dev.Alias()) == PciEntries(AcceptedPci(ids, dev), name, src)
  {
    if ids != [] {
      var all := PciEntries(ids, name, src);
      assert all[1..] == PciEntries(ids[1..], name, src);
      PciMatchIsFieldwise(ids[0], dev);
      MatchPciTable(ids[1..], name, src, dev);
    }
  }

  // ---- patterns of other buses ----

  // The first two characters decide which bus a pattern or an alias belongs to.
  ghost predicate Starts(s: string, a: char, b: char) { |s| >= 2 && s[0] == a && s[1] == b }

  lemma PciPatternStart(id: PciId)
    ensures Starts(PciAlias(id), 'p', 'c')
  {
  }

  lemma UsbDeviceStart(dev: USBDevice)
    ensures Starts(dev.Alias(), 'u', 's')
  {
  }

  lemma UsbPatternStart(id: UsbId)
    ensures Starts(UsbAlias(id), 'u', 's')
  {
  }

  lemma PciDeviceStart(dev: PCIDevice)
    ensures Starts(dev.Alias(), 'p', 'c')
  {
  }

  lemma OtherBus(pattern: string, a: char, b: char, alias: string, c: char, d: char)
    requires Starts(pattern, a, b) && Starts(alias, c, d)
    requires (a, b) != (c, d) && !Glob.IsMeta(a) && !Glob.IsMeta(b)
    ensures !Glob.Matches(pattern, alias)
  {
    assert pattern[1..][0] == b && alias[1..][0] == d;
  }

  // Names from other tables never match a PCI or USB alias.
  lemma NameTableElsewhere(bus: NameBus, names: seq<string>, i: nat, name: string, src: string, alias: string)
    requires i < |names| && (Starts(alias, 'p', 'c') || Starts(alias, 'u', 's'))
    ensures !Glob.Matches(TableEntries(NameTable(bus, names), name, src)[i].aliasPattern, alias)
  {
    var pattern := TableEntries(NameTable(bus, names), name, src)[i].aliasPattern;
    OtherBus(pattern, bus.Prefix()[0], bus.Prefix()[1], alias, alias[0], alias[1]);
  }

  // ---- the drivers of a device, field by field ----

  // The entry comes from a macro of a PCI table that accepts the device.
  ghost predicate IsPciDriver(files: seq<SourceFile>, dev: PCIDevice, e: DriverEntry) {
    exists f, t :: f in files && t in f.tables && AcceptsInTable(f, t, dev, e)
  }

  ghost predicate AcceptsInTable(f: SourceFile, t: Table, dev: PCIDevice, e: DriverEntry) {
    && t.PciTable?
    && exists i :: 0 <= i < |PciIds(t.pci)| && PciMacroAccepts(t.pci, i, dev)
                   && e == PciEntries(PciIds(t.pci), f.name, f.src)[i]
  }

  ghost predicate IsUsbDriver(files: seq<SourceFile>, dev: USBDevice, e: DriverEntry) {
    exists f, t :: f in files && t in f.tables && AcceptsUsbInTable(f, t, dev, e)
  }

  ghost predicate AcceptsUsbInTable(f: SourceFile, t: Table, dev: USBDevice, e: DriverEntry) {
    && t.UsbTable?
    && exists i :: 0 <= i < |UsbIds(t.usb)| && UsbMacroAccepts(t.usb, i, dev)
                   && e == UsbEntries(UsbIds(t.usb), f.name, f.src)[i]
  }

  lemma PciTableMatch(f: SourceFile, t: Table, dev: PCIDevice, e: DriverEntry)
    ensures e in TableEntries(t, f.name, f.src) && Glob.Matches(e.aliasPattern, dev.Alias())
       <==> AcceptsInTable(f, t, dev, e)
  {
    hide PciAlias;
    hide UsbAlias;
    hide PCIDevice.Alias;
    hide PciMacroAccepts;
    hide Glob.Matches;
    hide PciIds;
    hide UsbIds;
    hide PciEntries;
    var entries, alias := TableEntries(t, f.name, f.src), dev.Alias();
    PciDeviceStart(dev);
    forall i | 0 <= i < |entries|
      ensures t.PciTable? ==> (Glob.Matches(entries[i].aliasPattern, alias) <==> PciMacroAccepts(t.pci, i, dev))
      ensures !t.PciTable? ==> !Glob.Matches(entries[i].aliasPattern, alias)
    {
      match t
      case PciTable(m) => PciEntryMatches(m, i, f.name, f.src, dev);
      case UsbTable(m) =>
        UsbPatternStart(UsbIds(m)[i]);
        OtherBus(entries[i].aliasPattern, 'u', 's', alias, 'p', 'c');
      case NameTable(bus, names) => NameTableElsewhere(bus, names, i, f.name, f.src, alias);
    }
  }

  lemma UsbTableMatch(f: SourceFile, t: Table, dev: USBDevice, e: DriverEntry)
    ensures e in TableEntries(t, f.name, f.src) && Glob.Matches(e.aliasPattern, dev.Alias())
       <==> AcceptsUsbInTable(f, t, dev, e)
  {
    hide PciAlias;
    hide UsbAlias;
    hide USBDevice.Alias;
    hide UsbMacroAccepts;
    hide Glob.Matches;
    hide PciIds;
    hide UsbIds;
    hide UsbEntries;
    var entries, alias := TableEntries(t, f.name, f.src), dev.Alias();
    UsbDeviceStart(dev);
    forall i | 0 <= i < |entries|
      ensures t.UsbTable? ==> (Glob.Matches(entries[i].aliasPattern, alias) <==> UsbMacroAccepts(t.usb, i, dev))
      ensures !t.UsbTable? ==> !Glob.Matches(entries[i].aliasPattern, alias)
    {
      match t
      case UsbTable(m) => UsbEntryMatches(m, i, f.name, f.src, dev);
      case PciTable(m) =>
        PciPatternStart(PciIds(m)[i]);
        OtherBus(entries[i].aliasPattern, 'p', 'c', alias, 'u', 's');
      case NameTable(bus, names) => NameTableElsewhere(bus, names, i, f.name, f.src, alias);
    }
  }

  lemma {:induction false} FileEntriesMembers(f: SourceFile, k: nat, e: DriverEntry)
    requires k <= |f.tables|
    ensures e in FileEntries(f, k) <==> exists j :: 0 <= j < k && e in TableEntries(f.tables[j], f.name, f.src)
  {
    hide TableEntries;
    if k > 0 {
      FileEntriesMembers(f, k - 1, e);
    }
  }

  lemma {:induction false} IndexMembers(files: seq<SourceFile>, e: DriverEntry)
    ensures e in IndexEntries(files)
       <==> exists f, t :: f in files && t in f.tables && e in TableEntries(t, f.name, f.src)
  {
    hide TableEntries;
    hide FileEntries;
    if files != [] {
      var f := files[0];
      IndexMembers(files[1..], e);
      FileEntriesMembers(f, |f.tables|, e);
      if t :| t in f.tables && e in TableEntries(t, f.name, f.src) {
        var j :| 0 <= j < |f.tables| && f.tables[j] == t;
        assert e in TableEntries(f.tables[j], f.name, f.src);
      }
    }
  }

  // The drivers found for a PCI device in a whole index are exactly those with an ID that accepts it.
  lemma PciDriversExact(files: seq<SourceFile>, dev: PCIDevice)
    ensures forall e :: e in Match(IndexEntries(files), dev.Alias()) <==> IsPciDriver(files, dev, e)
  {
    hide PCIDevice.Alias;
    hide AcceptsInTable;
    hide TableEntries;
    hide Glob.Matches;
    hide Match;
    hide IndexEntries;
    MatchSelects(IndexEntries(files), dev.Alias());
    forall e ensures e in Match(IndexEntries(files), dev.Alias()) <==> IsPciDriver(files, dev, e) {
      IndexMembers(files, e);
      forall f: SourceFile, t: Table
        ensures e in TableEntries(t, f.name, f.src) && Glob.Matches(e.aliasPattern, dev.Alias())
           <==> AcceptsInTable(f, t, dev, e)
      {
        PciTableMatch(f, t, dev, e);
      }
    }
  }

  // The same for a USB device.
  lemma UsbDriversExact(files: seq<SourceFile>, dev: USBDevice)
    ensures forall e :: e in Match(IndexEntries(files), dev.Alias()) <==> IsUsbDriver(files, dev, e)
  {
    hide USBDevice.Alias;
    hide AcceptsUsbInTable;
    hide TableEntries;
    hide Glob.Matches;
    hide Match;
    hide IndexEntries;
    MatchSelects(IndexEntries(files), dev.Alias());
    forall e ensures e in Match(IndexEntries(files), dev.Alias()) <==> IsUsbDriver(files, dev, e) {
      IndexMembers(files, e);
      forall f: SourceFile, t: Table
        ensures e in TableEntries(t, f.name, f.src) && Glob.Matches(e.aliasPattern, dev.Alias())
           <==> AcceptsUsbInTable(f, t, dev, e)
      {
        UsbTableMatch(f, t, dev, e);
      }
    }
  }

  // ---- rebuilding keeps the PCI matches ----

  // No macro asks for the sub-IDs, which are the fields the saved state loses.
  lemma SameInTable(f: SourceFile, t: Table, dev: PCIDevice, e: DriverEntry)
    ensures AcceptsInTable(f, t, dev, e) <==> AcceptsInTable(f, t, RebuildPci(SavePci(dev)), e)
  {
    if t.PciTable? {
      forall i | 0 <= i < |PciIds(t.pci)|
        ensures PciMacroAccepts(t.pci, i, RebuildPci(SavePci(dev))) == PciMacroAccepts(t.pci, i, dev)
      {
      }
      hide PciMacroAccepts;
      hide PciEntries;
      hide PciIds;
    }
  }

  lemma IndexSurvivesForPci(files: seq<SourceFile>, dev: PCIDevice)
    ensures SameMatches(IndexEntries(files), dev.Alias(), RebuildPci(SavePci(dev)).Alias())
  {
    hide PCIDevice.Alias;
    hide AcceptsInTable;
    hide TableEntries;
    hide Glob.Matches;
    hide IndexEntries;
    hide RebuildPci;
    hide SavePci;
    var dev' := RebuildPci(SavePci(dev));
    forall e | e in IndexEntries(files)
      ensures Glob.Matches(e.aliasPattern, dev.Alias()) == Glob.Matches(e.aliasPattern, dev'.Alias())
    {
      IndexMembers(files, e);
      var f: SourceFile, t: Table :| f in files && t in f.tables && e in TableEntries(t, f.name, f.src);
      PciTableMatch(f, t, dev, e);
      PciTableMatch(f, t, dev', e);
      SameInTable(f, t, dev, e);
    }
  }

  // A PCI device rebuilt from the saved state finds the same drivers in the whole index.
  lemma RebuiltPciFindsSameDrivers(files: seq<SourceFile>, dev: PCIDevice)
    ensures Match(IndexEntries(files), RebuildPci(SavePci(dev)).Alias()) == Match(IndexEntries(files), dev.Alias())
  {
    IndexSurvivesForPci(files, dev);
    SameMatchesSameResult(IndexEntries(files), dev.Alias(), RebuildPci(SavePci(dev)).Alias());
  }

  // ---- what rebuilding does to the USB matches ----

  predicate AsksZeros(id: UsbId) {
    id.ic in {0, USB_ANY_BYTE} && id.isc in {0, USB_ANY_BYTE} && id.ip in {0, USB_ANY_BYTE}
  }

  // An entry matches the rebuilt device exactly when vendor and product do and its interface bytes
  // ask for nothing or for zero. So of the entries that matched the scanned device those stay that
  // ask for no more than zeros, those by vendor and product among them.
  lemma RebuiltUsbKeepsMatch(m: UsbMacros, i: nat, dev: USBDevice)
    requires i < |UsbIds(m)|
    ensures var id := UsbIds(m)[i];
            var kept := Glob.Matches(UsbAlias(id), RebuildUsb(SaveUsb(dev)).Alias());
            var matched := Glob.Matches(UsbAlias(id), dev.Alias());
            ( && (i < |m.devices| ==> kept == matched)
              && (matched ==> (kept <==> AsksZeros(id)))
              && (kept <==> Accepts(id.vendor, USB_ANY_ID, dev.vendor) && Accepts(id.product, USB_ANY_ID, dev.product)
                            && AsksZeros(id)) )
  {
    var id := UsbIds(m)[i];
    UsbMatchIsFieldwise(id, dev);
    UsbMatchIsFieldwise(id, RebuildUsb(SaveUsb(dev)));
    assert AsksNoClass(id) && (i < |m.devices| ==> AsksNoInterface(id));
    hide UsbIds;
    hide Glob.Matches;
  }

  // A device whose IDs have the widths of USB descriptors.
  predicate InWidth(dev: USBDevice) {
    && dev.vendor < 0x10000 && dev.product < 0x10000
    && dev.ifaceClass < 0x100 && dev.ifaceSubclass < 0x100 && dev.ifaceProtocol < 0x100
  }

  // An entry some such device can match.
  predicate Fits(id: UsbId) {
    id.vendor < 0x10000 && id.product < 0x10000 && id.ic < 0x100 && id.isc < 0x100 && id.ip < 0x100
  }

  predicate AsksNoInterface(id: UsbId) {
    id.ic == USB_ANY_BYTE && id.isc == USB_ANY_BYTE && id.ip == USB_ANY_BYTE
  }

  ghost predicate Survives(id: UsbId, dev: USBDevice) {
    Glob.Matches(UsbAlias(id), RebuildUsb(SaveUsb(dev)).Alias()) == Glob.Matches(UsbAlias(id), dev.Alias())
  }

  lemma SurvivesFieldwise(id: UsbId, dev: USBDevice)
    ensures Survives(id, dev) <==> UsbAccepts(id, RebuildUsb(SaveUsb(dev))) == UsbAccepts(id, dev)
  {
    hide UsbAccepts;
    UsbMatchIsFieldwise(id, dev);
    UsbMatchIsFieldwise(id, RebuildUsb(SaveUsb(dev)));
  }

  // What is asked for, or else a value nobody asks for.
  function Asked(want: nat, any: nat): nat { if want == any then 0 else want }

  // A device that the entry tells from its rebuilt self: one that has all that is asked for when
  // that is more than zeros, and else one with no interface field it asks for.
  function Witness(id: UsbId): USBDevice {
    var dev := USBDevice(0, 0, id.vendor, id.product, 0, 0, 0, 0,
                         Asked(id.ic, USB_ANY_BYTE), Asked(id.isc, USB_ANY_BYTE), Asked(id.ip, USB_ANY_BYTE));
    if dev.ifaceClass == 0 && dev.ifaceSubclass == 0 && dev.ifaceProtocol == 0
    then dev.(ifaceClass := 1, ifaceSubclass := 1, ifaceProtocol := 1)
    else dev
  }

  predicate AsksNoClass(id: UsbId) {
    id.dc == USB_ANY_BYTE && id.dsc == USB_ANY_BYTE && id.dp == USB_ANY_BYTE
  }

  lemma WitnessTells(id: UsbId)
    requires AsksNoClass(id) && !AsksNoInterface(id) && Fits(id)
    ensures InWidth(Witness(id))
    ensures UsbAccepts(id, RebuildUsb(SaveUsb(Witness(id)))) != UsbAccepts(id, Witness(id))
  {
  }

  lemma SameOtherwise(id: UsbId, dev: USBDevice)
    requires AsksNoClass(id) && (AsksNoInterface(id) || !Fits(id)) && InWidth(dev)
    ensures UsbAccepts(id, RebuildUsb(SaveUsb(dev))) == UsbAccepts(id, dev)
  {
  }

  // An extracted entry matches every device as it matches its rebuilt self, if and only if it asks
  // for no interface, or for something no device has.
  lemma UsbEntrySurvives(m: UsbMacros, i: nat)
    requires i < |UsbIds(m)|
    ensures var id := UsbIds(m)[i];
            (forall dev | InWidth(dev) :: Survives(id, dev)) <==> AsksNoInterface(id) || !Fits(id)
  {
    var id := UsbIds(m)[i];
    assert AsksNoClass(id);
    hide UsbIds;
    hide Survives;
    hide UsbAccepts;
    hide InWidth;
    hide Fits;
    hide Witness;
    if AsksNoInterface(id) || !Fits(id) {
      forall dev | InWidth(dev) ensures Survives(id, dev) {
        SurvivesFieldwise(id, dev);
        SameOtherwise(id, dev);
      }
    } else {
      WitnessTells(id);
      SurvivesFieldwise(id, Witness(id));
    }
  }

  // Whatever else an ID asks for, a rebuilt device has it as it was: only the sub-IDs of a PCI
  // device and the sub-class, protocol and interface of a USB device are lost.
  lemma RebuiltKeepsOthers(p: PciId, pci: PCIDevice, u: UsbId, usb: USBDevice)
    requires p.subvendor == PCI_ANY_ID && p.subdevice == PCI_ANY_ID
    requires u.dsc == USB_ANY_BYTE && u.dp == USB_ANY_BYTE && AsksNoInterface(u)
    ensures Glob.Matches(PciAlias(p), RebuildPci(SavePci(pci)).Alias()) == Glob.Matches(PciAlias(p), pci.Alias())
    ensures Glob.Matches(UsbAlias(u), RebuildUsb(SaveUsb(usb)).Alias()) == Glob.Matches(UsbAlias(u), usb.Alias())
    ensures RebuildPci(SavePci(pci)).slot == pci.slot
  {
    PciMatchIsFieldwise(p, pci);
    PciMatchIsFieldwise(p, RebuildPci(SavePci(pci)));
    UsbMatchIsFieldwise(u, usb);
    UsbMatchIsFieldwise(u, RebuildUsb(SaveUsb(usb)));
    hide Glob.Matches;
    hide PciAlias;
    hide UsbAlias;
  }

  // A mass-storage interface driver is found for the scanned device and lost for the rebuilt one.
  lemma InterfaceDriverLost()
    ensures var m := UsbMacros([], [(8, 6, 80)], []);
            var dev := USBDevice(1, 2, 0x0781, 0x5581, 0x0100, 0, 0, 0, 8, 6, 80);
            var entries := UsbEntries(UsbIds(m), "usb-storage", "drivers/usb/storage/usb.c");
            ( && |Match(entries, dev.Alias())| == 1
              && Match(entries, RebuildUsb(SaveUsb(dev)).Alias()) == [] )
  {
    hide UsbAlias;
    hide USBDevice.Alias;
    var m := UsbMacros([], [(8, 6, 80)], []);
    var dev := USBDevice(1, 2, 0x0781, 0x5581, 0x0100, 0, 0, 0, 8, 6, 80);
    UsbMatchIsFieldwise(UsbIds(m)[0], dev);
    RebuiltUsbKeepsMatch(m, 0, dev);
    assert UsbIds(m)[0] == AnyClass(USB_ANY_ID, USB_ANY_ID).(ic := 8, isc := 6, ip := 80);
  }

  // A vendor is known by its name in any case of its letters.
  lemma VendorInAnyCase(name: string)
    ensures VendorByName(Ascii.Lower(name)) == VendorByName(Ascii.Upper(name)) == VendorByName(name)
  {
    Ascii.CaseOnly(name);
    UpperTwice(name);
  }

  lemma UpperTwice(name: string)
    ensures Ascii.Upper(Ascii.Upper(name)) == Ascii.Upper(name)
  {}
}

# Verified model of anaconda-gentoo

anaconda-gentoo installs Gentoo from a live medium: it detects the hardware, builds a kernel
configuration for it, runs a resumable list of installation steps, and finishes with a second
stage after the first boot. This project models the parts of it that decide something, and
proves what they promise. `dafny verify dfyconfig.toml` checks all of it.

## The kernel-configuration engine

* `Glob`, `Hex`, `Alias`, `Devices`, `Matchers`: devices print themselves as alias text, driver
  tables become patterns, and a glob match decides between them. The string match is proved
  equal to a comparison of the ID fields: no `*` can take in a field label. For PCI classes the
  pattern agrees with the kernel's rule `(have ^ cls) & mask == 0` for every device exactly when
  the mask is made of whole bytes and a class is given (`ClassRuleExact`); otherwise
  `MisjudgedClass` computes a 24-bit device class on which they differ.
* `SourceIndex`: what the driver tables of one file contribute, and the way of a device through
  the saved state. The drivers found in a whole index are exactly those with a macro that accepts the
  device. The saved PCI sub-IDs are lost and it does not matter; the USB interface class is lost,
  and an entry's matches survive exactly when it asks for no interface (`UsbEntrySurvives`).
* `KconfigText`, `KconfigDepends`, `KconfigFiles`, `Closure`, `Kconfig`: Kconfig entries from
  text, `depends on` expressions, the walk over files that source each other, and the closure
  over dependencies. Help text that begins like a kind overwrites the kind (`into the kernel` is of
  kind `into`), and a prompt keeps its condition with the quote in front of it. An including file overrides what it sources, if no sourced file leads back to
  its includer; when some does, some includer is parsed too early (`IncludersLastExactly`), and what
  it defines can be lost to the file it sources (`CycleReversesOrder`). A negated group is cut at its
  first `)`, and what stands behind it is asked for although it is negated: the symbols of an
  expression are right exactly when what leaks that way is asked for elsewhere
  (`ExprYieldsPositive`).
* `Sorting`, `Generator`, `BootPath`, `KernelConfig`: settings under the rule that `y` is never
  taken back, the `.config` text and reading it back, the boot-critical symbols, and the whole
  pipeline of the kernel step. Reading back is exact precisely when no symbol with a value holds
  an `=` and no line of meta data looks like an unset symbol (`ReadBack`).

## Parsers and scanners

* `DeviceTree`, `DeviceTreeBlob`: the flattened-device-tree parser (Devicetree Specification v0.4,
  section 5.4), and what it makes of every serialised tree. Its table of properties is emptied
  at every subnode, so it reports leaves only; it finds every described device exactly when no
  node with children describes one (`AllFoundExactlyWhen`).
* `Bits`, `PciConfig`, `PciScan`: configuration access through CF8/CFC and the scan over all
  buses (PCI Local Bus Specification 3.0, sections 3.2.2.3.2 and 6.2.1). A slot whose function 0
  cannot be read is searched further, a failing register behind the vendor ID ends the scan.
* `UsbDescriptors`: the walk to the first interface descriptor (USB 2.0 specification, section 9.6).
* `Acpi`: the root tables (ACPI specification 6.5, sections 5.2.7 and 5.2.8).

## The installer

`InstallerSpec` is the protocol as a state machine: a process with its state in memory, the live
copy, the copy on the target (written only while the target is mounted), and every execute call
ever made. Each call may succeed, fail, be interrupted before, during or after its work, or die.
`Installer` is the program's own form of it, classes and methods proved against that machine.
`InstallerRuns` proves what every history of runs keeps, `InstallerHandoff` what the target holds
when stage 1 is over, `InstallerStage3` what any number of `continue` runs does.

The documentation (lines 28 and 191 of the repository's README.md) says that a re-run resumes where
it stopped. State is read from the live copy alone, so a completed step runs again exactly when the
live copy is lost and a later run gets as far as executing anything (`RepeatsExactly`).
A run that finishes leaves a ready target exactly when it had the mount step still to do, when the
target was ready before, or when it was mounted with a step left to do (`ResumedHandoff`). If the
target is unmounted between two runs, the next run finishes without an error and writes nothing to
it. The first boot then finds the copy that was left there: it is rejected exactly when that copy had
not reached its phase (`BareUnmountLosesTarget`), which happens after any run that stops between the
mount and the agent step (`RejectedAfterUnmount`); a copy from an interrupted agent step is accepted
although it is behind (`StaleCopyAccepted`).
The step name `partition` (installer/state.py:34) is completed by no step; the model's order is
that of `build_stage1_steps`.

## Reading the model

Methods and classes stand where the program changes state or loops; each is proved equal to a
function of its inputs, and the lemmas are about those functions. Python's exceptions are the
`Raised` case of a `Result`. Text is a sequence of characters and binary data a sequence of bytes.
Set iteration takes elements in any order, so nothing proved depends on one.

## Model

| member | source | states |
|---|---|---|
| Hex.FormatRoundTrip | kconfig_builder/matchers.py:127-138 | zero-padded hexadecimal text can be read back to the number at any width, and holds only digits and A to F |
| Hex.FormatInjective | kconfig_builder/hardware/pci.py:54-60 | two numbers print alike exactly when they are equal, so comparing text is comparing IDs |
| Hex.FormatWidth | kconfig_builder/hardware/pci.py:54-60 | a number is printed in exactly the given width if and only if it fits, and never in less |
| Glob.GlobIsFieldwise | kconfig_builder/matchers.py:91-92 | for any labelled fields, the glob match of a whole pattern against a whole alias holds exactly when each field that asks for a value gets it |
| Glob.StarTakesValue | kconfig_builder/matchers.py:91-92 | a `*` takes exactly the value in front of the next label and never a label |
| Glob.Wildcards | kconfig_builder/matchers.py:91-92 | on any pattern and text, `*` stands for any run of characters and `?` for any one |
| Matchers.PciMatchIsFieldwise | kconfig_builder/matchers.py:122-138 | a PCI pattern matches a device's alias text exactly when every ID that is not a wildcard equals the device's and the class bytes under the mask agree |
| Matchers.UsbMatchIsFieldwise | kconfig_builder/matchers.py:178-193 | a USB pattern matches a device's alias text, with its literal trailing `*`, exactly when all eight IDs that are not wildcards agree |
| Matchers.ClassRuleByBytes | kconfig_builder/matchers.py:131-137 | the class part looks at a byte as a whole when the mask touches it and not at all otherwise |
| Matchers.ClassRuleExact | kconfig_builder/matchers.py:131-137 | the pattern decides every 24-bit device class as the kernel's xor-and-mask rule does if and only if the 24-bit mask is made of whole bytes and a class is given (or the mask is 0) |
| Matchers.MisjudgedClass | kconfig_builder/matchers.py:131-137 | for every other class and mask, a 24-bit device class on which pattern and kernel differ |
| SourceIndex.ExtractPciEntries | kconfig_builder/matchers.py:154-175 | the three loops yield one entry per macro, in order, and each entry's pattern matches a device exactly when the device has what the macro's arguments ask for |
| SourceIndex.ExtractUsbEntries | kconfig_builder/matchers.py:196-212 | the same for the three USB macros |
| SourceIndex.PciEntryMatches | kconfig_builder/matchers.py:154-175 | PCI_DEVICE asks for its vendor and device, PCI_VDEVICE for the vendor of that name if the name is known and its device, PCI_DEVICE_CLASS for its class under its mask, and the entry's pattern matches exactly the devices that have that |
| SourceIndex.UsbEntryMatches | kconfig_builder/matchers.py:196-212 | USB_DEVICE asks for vendor and product, USB_INTERFACE_INFO for the interface triple, USB_DEVICE_AND_INTERFACE_INFO for all five, and the entry's pattern matches exactly the devices that have that |
| SourceIndex.VendorInAnyCase | kconfig_builder/matchers.py:161-163 | a vendor is known by its name in any case of its letters |
| SourceIndex.MatchSelects | kconfig_builder/matchers.py:91-92 | matching returns an entry if and only if it is in the index and its pattern matches |
| SourceIndex.MatchPciTable | kconfig_builder/matchers.py:91-92 | for a whole PCI table, matching text returns the entries of exactly the accepting IDs in table order |
| SourceIndex.PciDriversExact | kconfig_builder/matchers.py:249-300 | in the index of any source tree, the drivers found for a PCI alias are exactly those with a macro in a PCI table that accepts the device; tables of other buses never match |
| SourceIndex.UsbDriversExact | kconfig_builder/matchers.py:249-300 | the same for a USB alias and the USB tables |
| SourceIndex.RebuildDevices | installer/steps/s08_kernel.py:35-58 | every saved device is rebuilt, in order, lost fields as their defaults |
| SourceIndex.RebuiltPciFindsSameDrivers | installer/steps/s08_kernel.py:35-45 | a PCI device saved and rebuilt finds the same drivers in the whole index of any source tree, whatever buses its tables are for |
| SourceIndex.RebuiltUsbKeepsMatch | installer/steps/s08_kernel.py:46-57 | an entry matches the rebuilt USB device exactly when vendor and product agree and its interface fields ask for nothing or for zero; entries by vendor and product match as they did for the scanned device |
| SourceIndex.UsbEntrySurvives | installer/steps/s08_kernel.py:46-57 | an entry matches every device as it matches the rebuilt one, nothing lost and nothing gained, if and only if it asks for no interface or for values no device can have |
| SourceIndex.RebuiltKeepsOthers | installer/steps/s08_kernel.py:35-58 | any pattern that asks for none of the lost fields matches the rebuilt device exactly as the scanned one |
| SourceIndex.InterfaceDriverLost | installer/steps/s01_hardware.py:48-52 | a mass-storage interface driver found for a scanned device is lost after saving and rebuilding |
| KconfigText.ParsePrinted | kconfig_builder/kconfig.py:95-147 | reading a file of entries under `config` or `menuconfig`, with any lines of any kind in their bodies and other text between and behind them, gives the table of what those lines say, later duplicates winning |
| KconfigText.ReadBody | kconfig_builder/kconfig.py:109-145 | every entry of words and stripped expressions has a body that reads back as exactly that entry |
| KconfigText.ReadItem | kconfig_builder/kconfig.py:126-143 | what one line does to an entry: a kind with or without prompt, an expression, a symbol whose condition is dropped, and everything else nothing |
| KconfigText.ReadLine | kconfig_builder/kconfig.py:113-145 | the same for the line with any indentation by tabs and spaces and any blanks at its end |
| KconfigText.BodyReads | kconfig_builder/kconfig.py:112-145 | a body of such lines in any order, blank ones among them, does what the lines say one after the other, and ends at the next unindented line |
| KconfigText.BodyIgnoresBlanks | kconfig_builder/kconfig.py:112-145 | blank lines change nothing, and a body ends at the next unindented line, which is left for the next entry |
| KconfigText.ParseOver | kconfig_builder/kconfig.py:147 | reading a file into a table is laying the file's own table over it |
| KconfigDepends.ExprReads | kconfig_builder/kconfig.py:37-47 | of every expression built from words, negated names, connectives, comparisons and plain or negated brackets nested at will, with blanks anywhere, the three passes over its text find the symbols under no negation and those a negated group leaks |
| KconfigDepends.ExprYieldsPositive | kconfig_builder/kconfig.py:37-47 | exactly the symbols under no negation are found if and only if the symbols that stand in a negated group behind its first `)` are asked for elsewhere too |
| KconfigDepends.NestedGroupLeaks | kconfig_builder/kconfig.py:42 | a negated group yields nothing when it holds no bracket of its own, and otherwise everything behind its first inner `)`, as if it were not negated |
| KconfigDepends.ExprSymbolsMatch | kconfig_builder/kconfig.py:25-46 | the symbols of any text are the whole words of at least three capitals, digits and underscores, first a capital, in what the two deletions leave of it |
| KconfigDepends.DependsSymbolsExact | kconfig_builder/kconfig.py:40-47 | an entry's symbols are those of each of its expressions, not of one of them only |
| KconfigDepends.DependsPrinted | kconfig_builder/kconfig.py:37-47 | for expressions printed from trees, those under no negation or leaked in some tree |
| KconfigFiles.WholeWalk | kconfig_builder/kconfig.py:77-93 | on every source graph, cyclic or not, the files visited are the closure of the top file, and each readable one is parsed exactly once |
| KconfigFiles.VisitSourcesFirst | kconfig_builder/kconfig.py:88-93 | a file is parsed after every file it sources, unless that file leads back to it |
| KconfigFiles.LastDefinitionWins | kconfig_builder/kconfig.py:147 | a name is in the table if and only if some parsed file defines it, and it has the definition of the last one in parse order |
| KconfigFiles.IncluderWins | kconfig_builder/kconfig.py:88-93 | a name a file defines is never left with the definition of a file it sources, unless that file leads back to it |
| KconfigFiles.IncludersLastExactly | kconfig_builder/kconfig.py:77-93 | every parsed file stands behind all readable files it sources, itself aside, if and only if no parsed file sources another one that leads back to it |
| KconfigFiles.CycleReversesOrder | kconfig_builder/kconfig.py:77-93 | two files sourcing each other, whatever their lines: the one opened first is parsed last, and a name both define ends with its definition though the other file sources it |
| Kconfig.KconfigDB.Load | kconfig_builder/kconfig.py:58-61 | loading leaves the table and the visited set of the walk from the top file, and changes nothing without one |
| Kconfig.KconfigDB.ParseFile | kconfig_builder/kconfig.py:77-93 | the recursive walk ends on every finite tree and leaves exactly the visited set and the table of the depth-first walk |
| Kconfig.KconfigDB.ParseSources | kconfig_builder/kconfig.py:88-91 | the loop over the sourced files does the same for a list of files |
| Kconfig.KconfigDB.ParseEntries | kconfig_builder/kconfig.py:95-147 | the two nested line loops together read a file as the table function does, each line consumed once |
| Kconfig.KconfigDB.ResolveDependencies | kconfig_builder/kconfig.py:152-177 | the work list ends on cyclic graphs and returns the least set with the seeds that is closed under select, imply and depends edges: exactly the symbols a chain of entries leads to |
| Kconfig.ResolvedByChains | kconfig_builder/kconfig.py:152-177 | a symbol is resolved if and only if a chain of symbols leads to it from a seed, each of whose entries selects or implies the next or reads it in one of its expressions |
| Kconfig.AsksPrinted | kconfig_builder/kconfig.py:165-175 | for expressions printed from trees, one symbol leads to another exactly when it selects it, implies it, or has it under no negation or leaked in some tree |
| Closure.ClosureUnique | kconfig_builder/kconfig.py:152-177 | there is only one such set, so the order in which symbols are taken does not matter |
| Closure.ClosureMonotone | kconfig_builder/kconfig.py:152-177 | more seeds give no fewer symbols |
| Closure.ClosureIdempotent | kconfig_builder/kconfig.py:152-177 | resolving a resolved set adds nothing |
| Closure.ClosureOfUnion | kconfig_builder/kconfig.py:152-177 | resolving a union is the union of resolving its parts |
| Closure.ClosureIsReachability | kconfig_builder/kconfig.py:152-177 | a symbol is resolved if and only if a path of dependencies leads to it from a seed |
| Sorting.Sort | kconfig_builder/generator.py:120 | sorting a set gives its one ascending list, in whatever order the set is iterated |
| Sorting.SortedUnique | kconfig_builder/generator.py:136-140 | a set has only one ascending list |
| Sorting.LessIsLexicographic | kconfig_builder/generator.py:120 | the order is that of strings: a proper prefix first, else the smaller character where they first differ |
| Generator.AddAllOverlays | kconfig_builder/generator.py:111-121 | adding a list under one value sets exactly its symbols that were not `y`, independent of order and repetition |
| Generator.LockedForever | kconfig_builder/generator.py:111-115 | a symbol that is `y` keeps its value and its section under any later requests |
| Generator.ConfigGenerator.AddOne | kconfig_builder/generator.py:111-115 | one request: a symbol at `y` stays, any other takes the value and section |
| Generator.ConfigGenerator.AddMany | kconfig_builder/generator.py:117-121 | the loop over a set lays its value over exactly the symbols of the set that are not `y` and changes no other |
| Generator.ConfigGenerator.GroupBySection | kconfig_builder/generator.py:132-134 | grouping in any order gives each section exactly its symbols |
| Generator.ConfigGenerator.OrderSections | kconfig_builder/generator.py:136-139 | the known sections, then the others by name, each at most once |
| Generator.ConfigGenerator.WriteSections | kconfig_builder/generator.py:139-151 | every section that occurs is written exactly once, in order |
| Generator.ConfigGenerator.WriteSection | kconfig_builder/generator.py:143-151 | a section's header, its settings by name, a blank line |
| Generator.ConfigGenerator.WriteDisabled | kconfig_builder/generator.py:154-158 | the symbols to switch off that nothing set, as unset |
| Generator.ConfigGenerator.Write | kconfig_builder/generator.py:123-159 | the text is a function of the entries, the time stamp and the meta data alone |
| Generator.SettingReadBack | kconfig_builder/generator.py:146-150 | a setting line, `n` included, reads back as its symbol and value |
| Generator.ReadBack | kconfig_builder/generator.py:123-159 | reading the written text back gives each entry with its value and the missing disabled symbols as unset, each symbol on exactly one line, for any section names, if and only if no symbol with a value other than `n` holds an `=` and no meta line looks like an unset symbol |
| Generator.WrittenInOrder | kconfig_builder/generator.py:136-151 | settings are written section by section, the known sections in their order and the others by name, and by name within each |
| BootPath.StaticConfigs | kconfig_builder/bootpath.py:97-133 | the union of what each layer of the storage stack needs, or the error of an unknown file system |
| BootPath.FirstRowOnly | kconfig_builder/bootpath.py:109-113 | of the device table only the first row that occurs in the device path counts, and none when no row does |
| BootPath.UnderlyingCounts | kconfig_builder/bootpath.py:109 | with an underlying device the root device does not matter; without one it counts as if it were the underlying one |
| BootPath.FilesystemCounts | kconfig_builder/bootpath.py:99-106 | the symbols every stack needs and the file system's are there, in whatever case the file system is written |
| BootPath.LvmAdds | kconfig_builder/bootpath.py:116-117 | LVM adds its symbols to those of the other layers |
| BootPath.LuksAdds | kconfig_builder/bootpath.py:120-124 | encryption adds its symbols and the one of its cipher |
| BootPath.RaidAdds | kconfig_builder/bootpath.py:127-128 | RAID adds its symbols |
| BootPath.ExtraAdds | kconfig_builder/bootpath.py:131 | the caller's symbols are added |
| BootPath.CipherNamed | kconfig_builder/bootpath.py:123-124 | the cipher is named by what stands in front of its first dash |
| BootPath.ApplyBootPath | kconfig_builder/bootpath.py:147-158 | the boot-critical symbols become `y` in any iteration order, nothing else changes, and on an unknown file system nothing changes at all |
| KernelConfig.FinalValues | installer/steps/s08_kernel.py:138-142 | after both merges a symbol is `y` if boot-critical or essential `y`, else the driver value if needed, else its essential value, else absent |
| KernelConfig.FinalSections | installer/steps/s08_kernel.py:138-142 | the section of every symbol after both merges: where it became `y`, else where it was set last |
| KernelConfig.AcpiSymbolsExact | installer/steps/s08_kernel.py:122-129 | the ACPI symbols are `ACPI` and those of the tables found, and none without ACPI |
| KernelConfig.BootCriticalForever | kconfig_builder/bootpath.py:147-158 | a boot-critical symbol is still `y` after any later requests |
| KernelConfig.Matched | installer/steps/s08_kernel.py:113-120 | the symbols gathered are exactly those of drivers whose pattern matches some device |
| KernelConfig.Wanted | installer/steps/s08_kernel.py:109-129 | the symbols asked for are exactly those of files with a macro that accepts a saved device, field by field, and of the ACPI tables |
| KernelConfig.SavedPciWantsSame | installer/steps/s08_kernel.py:35-45 | a saved PCI device asks for exactly the symbols it asked for when it was scanned |
| KernelConfig.Configure | installer/steps/s08_kernel.py:109-142 | end to end from the saved hardware: the closure of the wanted symbols, and the final value and section of every symbol |
| DeviceTree.ParseFdt | kconfig_builder/hardware/dt.py:61-130 | on every byte string, header checks, the two blocks and the pass over the structure block give the result of the token-by-token parse, errors included |
| DeviceTree.ParseBlock | kconfig_builder/hardware/dt.py:82-128 | the one-pass loop with its offset, stack, properties and devices does what the tokens say one after the other, on every byte string |
| DeviceTreeBlob.NoTree | kconfig_builder/hardware/dt.py:63-72 | data is read as a tree exactly when it has eight bytes and the magic number in front; of these, exactly a header of fewer than sixteen bytes raises for its length |
| DeviceTreeBlob.DecodeEncoded | kconfig_builder/hardware/dt.py:87-124 | reading one written token, names and values padded to four bytes, gives it back and stops right behind it |
| DeviceTreeBlob.RunTokens | kconfig_builder/hardware/dt.py:87-128 | the byte loop over any written token list does what the tokens say and ends at the end token, whatever follows |
| DeviceTreeBlob.RunUntilCut | kconfig_builder/hardware/dt.py:85-128 | a block that ends behind some tokens or inside a property header yields the devices complete by then; a node name without an end or a property without a name raises |
| DeviceTreeBlob.NopsIgnored | kconfig_builder/hardware/dt.py:124-128 | NOP tokens and codes without a meaning, anywhere, change nothing |
| DeviceTreeBlob.ApplyProps | kconfig_builder/hardware/dt.py:113-122 | a node's properties leave the stack alone, and the last `compatible` counts |
| DeviceTreeBlob.ApplyNode | kconfig_builder/hardware/dt.py:91-111 | over a whole subtree the path stack comes back to the chain of open nodes, and the subtree's leaves are reported |
| DeviceTreeBlob.StringListRoundTrip | kconfig_builder/hardware/dt.py:103-104 | a list of strings closed by NULs splits into the strings it was made of |
| DeviceTreeBlob.ParseSerialised | kconfig_builder/hardware/dt.py:61-130 | parsing any serialised tree reports exactly its childless nodes with compatible strings, in document order, with path and strings |
| DeviceTreeBlob.PathSplits | kconfig_builder/hardware/dt.py:106 | a reported path splits at its slashes into the names of the open nodes |
| DeviceTreeBlob.ParseLeaves | kconfig_builder/hardware/dt.py:61-130 | of any serialised tree whose names hold no slash, the devices found are exactly the childless compatible nodes, each under a path that splits into the names from the root to it |
| DeviceTreeBlob.ReportedFewer | kconfig_builder/hardware/dt.py:97-111 | never more devices than the tree describes, and all of them exactly when only leaves describe one |
| DeviceTreeBlob.AllFoundExactlyWhen | kconfig_builder/hardware/dt.py:97-111 | a parse finds every described device if and only if no node with children describes one |
| DeviceTreeBlob.BlobSerialises | kconfig_builder/hardware/dt.py:61-130 | every well-formed tree of a size 32 bits can tell has a blob that serialises it |
| DeviceTreeBlob.BusIsMissed | kconfig_builder/hardware/dt.py:97 | a bus node with one plain child describes itself, and parsing its blob finds nothing |
| PciConfig.AddressRoundTrip | kconfig_builder/hardware/pci.py:95-101 | the packed address selects exactly the bus, device, function and double word asked for, with the enable bit, in 32 bits |
| PciConfig.AddressInjective | kconfig_builder/hardware/pci.py:95-101 | two addresses are equal exactly when they name the same double word |
| PciConfig.Read32Is | kconfig_builder/hardware/pci.py:95-101 | a double-word read returns the register that was asked for |
| PciConfig.Read16Is | kconfig_builder/hardware/pci.py:103-105 | a word read returns two bytes, low byte first: those at an even offset, and those one below an odd one |
| PciConfig.Read8Is | kconfig_builder/hardware/pci.py:107-109 | a byte read returns the byte at any offset |
| PciScan.PCIScanner.Open | kconfig_builder/hardware/pci.py:76-81 | opening keeps the descriptor, a failure keeps the old one |
| PciScan.PCIScanner.Close | kconfig_builder/hardware/pci.py:83-86 | afterwards the scanner is closed |
| PciScan.PCIScanner.ReadSubsystem | kconfig_builder/hardware/pci.py:132-138 | subsystem IDs are read only behind a header of type 0, multi-function or not |
| PciScan.PCIScanner.ReadFunction | kconfig_builder/hardware/pci.py:126-143 | a device holds what the registers of its function say, or the read fails |
| PciScan.PCIScanner.ScanSlot | kconfig_builder/hardware/pci.py:115-146 | the loop over one slot, with its early exits, adds exactly the slot's visible functions |
| PciScan.PCIScanner.Scan | kconfig_builder/hardware/pci.py:111-147 | the three loops list the visible functions in order, or raise when a register of one cannot be read; a closed scanner finds nothing |
| PciScan.ListingExact | kconfig_builder/hardware/pci.py:111-147 | the list holds exactly the visible functions, in strictly increasing bus, device and function order |
| PciScan.CleanScan | kconfig_builder/hardware/pci.py:111-147 | without read errors the scan succeeds and lists exactly the present functions that are function 0 or stand beside a present function 0 with the multi-function bit, in strictly increasing order |
| PciScan.ScanReturnsDevices | kconfig_builder/hardware/pci.py:111-147 | scanning a space with given devices plugged in returns exactly those devices, every ID as it was, in order |
| UsbDescriptors.ReadFirstInterface | kconfig_builder/hardware/usb.py:144-168 | the loop returns what the walk from the start finds, zeros for a failed or short transfer |
| UsbDescriptors.FirstInterfaceFound | kconfig_builder/hardware/usb.py:144-168 | for every chain of descriptors of any length, padded or cut at 255 bytes, the walk finds the first interface descriptor whose nine bytes are there, or zeros |
| Acpi.ParseRootTable | kconfig_builder/hardware/acpi.py:114-151 | the two table readers return the non-zero entries behind the header, or nothing when memory cannot be mapped |
| Acpi.RootTableRoundTrip | kconfig_builder/hardware/acpi.py:114-151 | reading an encoded root table returns its non-zero addresses in order, of the first 1015 (4 bytes wide) or 507 (8 bytes wide) |
| Installer.InstallerState.Load | installer/state.py:76-85 | the state comes from the live copy alone, or is fresh |
| Installer.InstallerState.Save | installer/state.py:87-101 | both copies are the state in memory, the target's only while mounted |
| Installer.InstallerState.AppendLog | installer/state.py:144-148 | the log is the end of what was logged, 500 messages at most |
| Installer.InstallerState.MarkStarted | installer/state.py:108-112 | starting sets the current step, clears the failure, logs and saves |
| Installer.InstallerState.MarkDone | installer/state.py:114-119 | a step is completed once, however often it is marked, and saved |
| Installer.InstallerState.MarkFailed | installer/state.py:121-125 | failing records the step, logs and saves |
| Installer.InstallerState.Execute | installer/steps/s10_finalize.py:140-211 | what a step's body does to phase, mount and copies for each outcome |
| Installer.InstallerState.RunStep | installer/steps/base.py:34-45 | a completed step is skipped; only a successful execute completes it |
| Installer.InstallerState.RunAllSteps | installer/tui.py:84-124 | the loop over the steps, its stop at the first error and its save on an interrupt |
| Installer.InstallerState.RunTolerant | stage3_agent/agent.py:48-56 | a stage-3 step whose exit code does not matter |
| Installer.InstallerState.RunWorldUpdate | stage3_agent/agent.py:58-72 | the world update with its one resume |
| Installer.InstallerState.RunStage3 | stage3_agent/agent.py:38-102 | the four guarded steps and the final phase |
| Installer.CmdInstall | main.py:92-113 | one install run as a step of the state machine |
| Installer.CmdContinue | main.py:116-126 | one continue run as a step of the state machine |
| InstallerRuns.LogIsEnd | installer/state.py:144-148 | the log is the end of all messages ever logged, all of them up to 500 and then the last 500 |
| InstallerRuns.OneStepOk | installer/tui.py:84-112 | one step with any outcome: what is saved is a prefix of the order and nothing completed is forgotten |
| InstallerRuns.HistoryInOrder | installer/tui.py:115-124 | in every history, losses, reboots and unmounts included, the completed steps are a duplicate-free prefix of the order, and each step was executed only when exactly the steps before it were completed |
| InstallerRuns.HistoryProgress | installer/state.py:105-119 | while the live copy survives, nothing completed is forgotten, no completed step is executed again, and the phase does not fall back |
| InstallerRuns.CompletedNotExecutedAgain | installer/steps/base.py:34-45 | a step completed at some point of a history is not executed later in it |
| InstallerRuns.RepeatsExactly | installer/state.py:76-85 | in every history, one of the steps completed by now is executed again if and only if the live copy is lost and a later run gets as far as executing a step |
| InstallerRuns.LossRepeatsSteps | installer/state.py:76-85 | losing the live copy makes a completed step run again |
| InstallerHandoff.HistoryMirrors | installer/state.py:87-101 | in every history without a bare unmount, the target is mounted from the mount step on until the agent step is done, and from then on its copy is ready |
| InstallerHandoff.Handoff | installer/steps/s10_finalize.py:196-211 | after any such history a successful run leaves a target copy with every step but `unmount` completed and phase `stage1_complete`, which `continue` accepts on the first boot |
| InstallerHandoff.SuccessFinishes | installer/tui.py:115-124 | a run whose steps all succeed finishes, wherever it resumes |
| InstallerHandoff.ResumedHandoff | installer/state.py:87-101 | from every saved state, a run that finishes leaves a ready target if and only if the mount step was still to do, the target was ready before, or it was mounted with a step left to do |
| InstallerHandoff.AcceptedPhases | main.py:116-126 | the first boot rejects a target exactly when it holds no copy or one in another phase |
| InstallerHandoff.BareUnmountLosesTarget | installer/state.py:96-101 | with the target unmounted between runs behind the mount step, every step succeeds and the first boot rejects the target if and only if the copy left on it is absent or had not reached its phase |
| InstallerHandoff.RejectedAfterUnmount | installer/state.py:96-101 | every history of a first run that stops between the mount and the agent step, an unmount and a run without errors ends in a rejected first boot |
| InstallerHandoff.StaleCopyAccepted | installer/steps/s10_finalize.py:196-198 | when the agent step is interrupted after saving its phase and the target is unmounted, the first boot is accepted with steps missing from its copy |
| InstallerHandoff.KilledInAgentStep | installer/steps/s10_finalize.py:196-198 | a process that dies in the agent step has reached its phase, for whoever loads the state next, exactly when it saved it |
| InstallerStage3.WorldUpdateOk | stage3_agent/agent.py:58-72 | the world update is done only after a zero exit, at once or on the resume |
| InstallerStage3.ContinueOk | main.py:116-126 | one continue run keeps stage 3 a prefix, is rejected exactly when all is complete, and never lets the phase fall back |
| InstallerStage3.ContinuesOk | stage3_agent/agent.py:38-102 | over any number of continue runs with any exit codes: a prefix of the stage-3 steps, the world update only after a zero exit, `complete` only when all four are done, the log the last 500 messages of the whole history |
| InstallerStage3.ContinueEnds | stage3_agent/agent.py:38-102 | a continue run completes if and only if each call it still has to make comes back, whatever its exit code, and the update exits with zero at once or on the resume; it ends as failed, recorded in the state, if and only if it gets to an update that fails twice |
| InstallerStage3.InstallationCompletes | stage3_agent/agent.py:38-102 | from a ready target, after any number of failed runs, a run whose update passes and whose calls come back leaves the installation complete |
| InstallerStage3.HistoryTells | installer/steps/base.py:34-45 | in every history the saved state tells of the last message: a step that failed or was interrupted stays current and is not marked as failed |
| InstallerStage3.ContinuesTell | installer/state.py:108-125 | the same over any number of continue runs, where a failed update is marked as failed |
| InstallerStage3.WholeInstallation | main.py:116-126 | from a ready target through the first boot and any continue runs, the same holds of the whole installation |

## Left out

- Bracket classes of fnmatch: no pattern built from device IDs holds a `[`; names in ACPI, platform and device-tree tables that do could match differently there, but never a PCI or USB alias, whose first two characters differ.
- Regular expressions over C source, Makefiles and `source` lines, directory walking, path resolution and JSON: macro arguments, sourced files and saved values are inputs; a tree's paths are taken as resolved.
- `MakefileDB`: its answers are a function from module names to symbols; the prefix fallback depends on directory order.
- Characters beyond ASCII: blanks, word characters and letter case are ASCII only, and names in a device tree stay bytes instead of replaced UTF-8 text.
- Line ends inside values, sections and meta data: a written text is a list of lines.
- KconfigText.ParsePrinted: prompts with stray quotes at their edges, and headers with blanks around them, are not among the printed lines; the parser itself is modelled on all lines.
- KconfigDepends.ExprReads: expressions with quoted strings, macro calls, double negations or negated lower-case words have no tree here; the passes themselves are modelled on all texts.
- Installer.InstallerState.Save: an `OSError` while saving is swallowed by the program; the model has the live copy lost between runs instead, and a mounted target always takes its copy.
- Installer.InstallerState.Execute: foreign effects of the steps (disk, mount, chroot, tar, emerge, make, boot loader) are reduced to the outcome of the call, the mount, the phase and the loss of the target's copy.
- Configuration values, mount point changes, progress counts and pending steps of the installer state: they do not steer the protocol.
- Time stamps in log and `.config` header are opaque; log messages are the events they report.
- USE flags, fstab, host name and network text: single-branch string building.
- The ACPI root pointer, its checksum and the scan over the tables; USB enumeration and transfers; the search for device-tree files and `DTDevice.aliases`: small members on top of what is modelled.
- Reports, summaries, prompts, argument parsing and the service files.

/** The kernel configuration: which symbols are set, and the `.config` text. */
module Generator {
  import opened Ascii
  import opened Sorting
  import opened Wrappers

  datatype Setting = Setting(value: string, section: string)

  type Config = map<string, Setting>

  const ESSENTIAL: map<string, string> := map[
    "64BIT" := "y",
    "PRINTK" := "y", "BUG" := "y", "ELF_CORE" := "y", "MULTIUSER" := "y", "SYSFS" := "y", "PROC_FS" := "y",
    "TMPFS" := "y", "DEVTMPFS" := "y", "DEVTMPFS_MOUNT" := "y",
    "MMU" := "y", "SLUB" := "y",
    "BINFMT_ELF" := "y", "BINFMT_SCRIPT" := "y",
    "EXT4_FS" := "y", "EXT4_USE_FOR_EXT2" := "y", "VFAT_FS" := "y", "FAT_FS" := "y", "ISO9660_FS" := "y",
    "TMPFS_POSIX_ACL" := "y",
    "NET" := "y", "INET" := "y", "IPV6" := "m",
    "PCI" := "y", "PCIEPORTBUS" := "y", "PCI_MSI" := "y",
    "USB_SUPPORT" := "y", "USB" := "m", "USB_ANNOUNCE_NEW_DEVICES" := "y",
    "BLOCK" := "y", "BLK_DEV_BSG" := "y",
    "GENERIC_IRQ_CHIP" := "y", "GENERIC_IRQ_PROBE" := "y", "GENERIC_IRQ_SHOW" := "y",
    "ACPI" := "y", "CLKEVT_HPET" := "y",
    "PM" := "y", "PM_SLEEP" := "y", "SUSPEND" := "y",
    "SHMEM" := "y", "EMBEDDED" := "n",
    "CRYPTO" := "y", "CRYPTO_ALGAPI" := "y", "CRYPTO_HASH" := "y",
    "MODULES" := "y", "MODULE_UNLOAD" := "y", "KALLSYMS" := "y", "PRINTK_TIME" := "y", "EARLY_PRINTK" := "y"]

  const DISABLED := ["LOCALVERSION_AUTO", "WERROR"]

  const SECTION_ORDER := ["essential", "hardware", "dependency", "acpi", ""]

  // ---- settings ----

  function Essential(detectedAcpi: bool): map<string, string> {
    if detectedAcpi then ESSENTIAL else ESSENTIAL - {"ACPI", "CLKEVT_HPET"}
  }

  function Base(detectedAcpi: bool): Config {
    map sym | sym in Essential(detectedAcpi) :: Setting(Essential(detectedAcpi)[sym], "essential")
  }

  predicate IsLocked(c: Config, sym: string) { sym in c && c[sym].value == "y" }

  // A symbol that is `y` stays as it is.
  function Add(c: Config, sym: string, value: string, section: string): Config {
    if IsLocked(c, sym) then c else c[sym := Setting(value, section)]
  }

  function AddAll(c: Config, syms: seq<string>, value: string, section: string): Config
    decreases |syms|
  {
    if syms == [] then c else AddAll(Add(c, syms[0], value, section), syms[1..], value, section)
  }

  datatype Request = Request(sym: string, value: string, section: string)

  function AddEach(c: Config, rs: seq<Request>): Config
    decreases |rs|
  {
    if rs == [] then c else AddEach(Add(c, rs[0].sym, rs[0].value, rs[0].section), rs[1..])
  }

  // What one value laid over a configuration leaves of it.
  ghost predicate Overlaid(c: Config, syms: set<string>, value: string, section: string, c': Config) {
    && c'.Keys == c.Keys + syms
    && forall sym | sym in c' ::
         c'[sym] == if sym in syms && !IsLocked(c, sym) then Setting(value, section) else c[sym]
  }

  // Adding a list of symbols under one value does not depend on its order or repetitions.
  lemma {:induction false} AddAllOverlays(c: Config, syms: seq<string>, value: string, section: string)
    ensures Overlaid(c, (set s | s in syms), value, section, AddAll(c, syms, value, section))
    decreases |syms|
  {
    if syms != [] {
      hide Overlaid;
      var rest := set s | s in syms[1..];
      AddAllOverlays(Add(c, syms[0], value, section), syms[1..], value, section);
      OverlayOne(c, syms[0], rest, value, section, AddAll(c, syms, value, section));
      assert (set s | s in syms) == {syms[0]} + rest;
    }
  }

  lemma OverlayOne(c: Config, sym: string, rest: set<string>, value: string, section: string, c': Config)
    requires Overlaid(Add(c, sym, value, section), rest, value, section, c')
    ensures Overlaid(c, {sym} + rest, value, section, c')
  {}

  // A symbol that is `y` is still `y`, in its old section, after any further requests.
  lemma {:induction false} LockedForever(c: Config, rs: seq<Request>, sym: string)
    requires IsLocked(c, sym)
    ensures sym in AddEach(c, rs) && AddEach(c, rs)[sym] == c[sym]
    decreases |rs|
  {
    if rs != [] {
      LockedForever(Add(c, rs[0].sym, rs[0].value, rs[0].section), rs[1..], sym);
    }
  }

  // ---- the text ----

  function SettingLine(sym: string, value: string): string {
    if value == "n" then "# CONFIG_" + sym + " is not set" else "CONFIG_" + sym + "=" + value
  }

  // `str.capitalize`
  function Capitalize(s: string): string {
    if s == "" then "" else [UpperChar(s[0])] + Lower(s[1..])
  }

  function SectionOf(c: Config, section: string): set<string> {
    set sym | sym in c && c[sym].section == section
  }

  function Sections(c: Config): set<string> {
    set sym | sym in c :: c[sym].section
  }

  function SettingLines(c: Config, syms: seq<string>): seq<string>
    requires forall sym | sym in syms :: sym in c
  {
    seq(|syms|, i requires 0 <= i < |syms| => assert syms[i] in syms; SettingLine(syms[i], c[syms[i]].value))
  }

  function SectionHead(section: string): seq<string> {
    if section == "" then [] else ["# --- " + Capitalize(section) + " ---"]
  }

  // One section: its header, its settings by name, a blank line.
  ghost function SectionText(c: Config, section: string): seq<string> {
    SectionHead(section) + SettingLines(c, Sorted(SectionOf(c, section))) + [""]
  }

  // The known sections in their fixed order, then the others by name.
  ghost function WriteOrder(c: Config): seq<string> {
    SECTION_ORDER + Sorted(Sections(c) - set s | s in SECTION_ORDER)
  }

  // The text of the first k sections of an order.
  ghost function SectionsText(c: Config, order: seq<string>, k: nat): seq<string>
    requires k <= |order|
  {
    if k == 0 then []
    else SectionsText(c, order, k - 1) + (if order[k - 1] in Sections(c) then SectionText(c, order[k - 1]) else [])
  }

  function DisabledText(c: Config, k: nat): seq<string>
    requires k <= |DISABLED|
  {
    if k == 0 then []
    else DisabledText(c, k - 1) + (if DISABLED[k - 1] !in c then [SettingLine(DISABLED[k - 1], "n")] else [])
  }

  function MetaLines(meta: seq<(string, string)>): seq<string> {
    seq(|meta|, i requires 0 <= i < |meta| => "# " + meta[i].0 + ": " + meta[i].1)
  }

  function HeadLines(stamp: string, meta: seq<(string, string)>): seq<string> {
    ["# Linux kernel configuration", "# Generated by kconfig-builder on " + stamp] + MetaLines(meta) + [""]
  }

  ghost function AllSectionsText(c: Config): seq<string> {
    SectionsText(c, WriteOrder(c), |WriteOrder(c)|)
  }

  ghost function Text(c: Config, stamp: string, meta: seq<(string, string)>): seq<string> {
    HeadLines(stamp, meta) + AllSectionsText(c) + ["# --- Disabled ---"] + DisabledText(c, |DISABLED|) + [""]
  }

  class ConfigGenerator {
    var entries: Config

    constructor (detectedAcpi: bool)
      ensures entries == Base(detectedAcpi)
    {
      entries := Base(detectedAcpi);
    }

    method AddOne(symbol: string, value: string, section: string)
      modifies this
      ensures entries == Add(old(entries), symbol, value, section)
    {
      if symbol in entries && entries[symbol].value == "y" {
        return;
      }
      entries := entries[symbol := Setting(value, section)];
    }

    method AddMany(symbols: set<string>, value: string, section: string)
      modifies this
      ensures Overlaid(old(entries), symbols, value, section, entries)
    {
      var list := Sort(symbols);
      AddAllOverlays(entries, list, value, section);
      for i := 0 to |list|
        invariant AddAll(old(entries), list, value, section) == AddAll(entries, list[i..], value, section)
      {
        assert list[i..][0] == list[i] && list[i..][1..] == list[i + 1..];
        AddOne(list[i], value, section);
      }
      assert (set s | s in list) == symbols;
    }

    // The text depends on the entries alone, not on the order they were added or iterated in.
    method Write(stamp: string, meta: seq<(string, string)>) returns (lines: seq<string>)
      ensures lines == Text(entries, stamp, meta)
    {
      var head := WriteHead(stamp, meta);
      var body := WriteSections();
      var tail := WriteDisabled();
      lines := head + body + ["# --- Disabled ---"] + tail + [""];
    }

    method WriteHead(stamp: string, meta: seq<(string, string)>) returns (lines: seq<string>)
      ensures lines == HeadLines(stamp, meta)
    {
      lines := ["# Linux kernel configuration", "# Generated by kconfig-builder on " + stamp];
      for i := 0 to |meta|
        invariant lines == HeadLines(stamp, meta)[..2 + i]
      {
        lines := lines + ["# " + meta[i].0 + ": " + meta[i].1];
      }
      lines := lines + [""];
    }

    method WriteSections() returns (lines: seq<string>)
      ensures lines == AllSectionsText(entries)
    {
      lines := [];
      var sections := GroupBySection();
      var order := OrderSections(sections.Keys);
      hide SectionText;
      hide WriteOrder;
      hide SectionOf;
      hide Sections;
      hide NoneOf;
      hide Distinct;
      var written := {};
      NothingWritten(order);
      for i := 0 to |order|
        invariant NoneOf(order, i, written)
        invariant lines == SectionsText(entries, order, i)
      {
        var sec := order[i];
        NextWritten(order, i, written);
        if sec !in sections || sec in written {
          continue;
        }
        written := written + {sec};
        var text := WriteSection(sec, sections[sec]);
        lines := lines + text;
      }
    }

    method OrderSections(names: set<string>) returns (order: seq<string>)
      requires names == Sections(entries)
      ensures order == WriteOrder(entries)
      ensures Distinct(order)
    {
      var others := Sort(names - set s | s in SECTION_ORDER);
      order := SECTION_ORDER + others;
      OrderDistinct(entries);
    }

    method WriteDisabled() returns (lines: seq<string>)
      ensures lines == DisabledText(entries, |DISABLED|)
    {
      lines := [];
      for i := 0 to |DISABLED|
        invariant lines == DisabledText(entries, i)
      {
        if DISABLED[i] !in entries {
          lines := lines + [SettingLine(DISABLED[i], "n")];
        }
      }
    }

    // The symbols of each section, gathered in no particular order.
    method GroupBySection() returns (sections: map<string, set<string>>)
      ensures sections.Keys == Sections(entries)
      ensures forall sec | sec in sections :: sections[sec] == SectionOf(entries, sec)
    {
      sections := map[];
      var rest := entries.Keys;
      while rest != {}
        invariant rest <= entries.Keys
        invariant sections.Keys == set sym | sym in entries && sym !in rest :: entries[sym].section
        invariant forall sec | sec in sections :: sections[sec] == SectionOf(entries, sec) - rest
        decreases |rest|
      {
        var sym :| sym in rest;
        var sec := entries[sym].section;
        rest := rest - {sym};
        var so := if sec in sections then sections[sec] else {};
        sections := sections[sec := so + {sym}];
      }
    }

    method WriteSection(section: string, members: set<string>) returns (lines: seq<string>)
      requires members == SectionOf(entries, section)
      ensures lines == SectionText(entries, section)
    {
      hide SettingLine;
      hide SectionHead;
      var syms := Sort(members);
      lines := SectionHead(section);
      for i := 0 to |syms|
        invariant lines == SectionHead(section) + SettingLines(entries, syms)[..i]
      {
        assert syms[i] in syms;
        lines := lines + [SettingLine(syms[i], entries[syms[i]].value)];
      }
      lines := lines + [""];
    }
  }

  ghost predicate Distinct(order: seq<string>) {
    forall i, j | 0 <= i < j < |order| :: order[i] != order[j]
  }

  // No section from the i-th on is written yet.
  ghost predicate NoneOf(order: seq<string>, i: nat, written: set<string>) {
    forall k | i <= k < |order| :: order[k] !in written
  }

  lemma NothingWritten(order: seq<string>)
    ensures NoneOf(order, 0, {})
  {}

  lemma NextWritten(order: seq<string>, i: nat, written: set<string>)
    requires i < |order| && Distinct(order) && NoneOf(order, i, written)
    ensures order[i] !in written && NoneOf(order, i + 1, written) && NoneOf(order, i + 1, written + {order[i]})
  {}

  lemma OrderDistinct(c: Config)
    ensures Distinct(WriteOrder(c))
  {
    var others := Sorted(Sections(c) - set s | s in SECTION_ORDER);
    AscendingDistinct(others);
    forall j | 0 <= j < |others| ensures others[j] !in SECTION_ORDER { assert others[j] in others; }
  }

  // ---- reading a `.config` back ----

  // `CONFIG_X=v` sets X to v, `# CONFIG_X is not set` unsets it, any other line is a comment.
  function ReadLine(line: string): Option<(string, string)> {
    if StartsWith(line, "CONFIG_") && '=' in line then
      Some((Before(line[7..], '='), After(line[7..], '=')))
    else if |line| >= 20 && StartsWith(line, "# CONFIG_") && line[|line| - 11..] == " is not set" then
      Some((line[9..|line| - 11], "n"))
    else None
  }

  function Before(s: string, c: char): string {
    if s == "" || s[0] == c then "" else [s[0]] + Before(s[1..], c)
  }

  function After(s: string, c: char): string {
    if s == "" then "" else if s[0] == c then s[1..] else After(s[1..], c)
  }

  // The symbols and values of a text, line by line.
  function Read(lines: seq<string>): seq<(string, string)> {
    if lines == [] then []
    else
      match ReadLine(lines[0])
      case Some(item) => [item] + Read(lines[1..])
      case None => Read(lines[1..])
  }

  function ValueOf(c: Config, sym: string): string { if sym in c then c[sym].value else "n" }

  // The items name each of these symbols once, with its value, and no other symbol.
  ghost predicate Lists(items: seq<(string, string)>, syms: set<string>, c: Config) {
    && (forall i, j | 0 <= i < j < |items| :: items[i].0 != items[j].0)
    && (forall p :: p in items <==> p.0 in syms && p.1 == ValueOf(c, p.0))
  }

  lemma {:induction false} ReadConcat(a: seq<string>, b: seq<string>)
    ensures Read(a + b) == Read(a) + Read(b)
  {
    hide ReadLine;
    if a == [] {
      assert a + b == b;
    } else {
      assert (a + b)[0] == a[0] && (a + b)[1..] == a[1..] + b;
      ReadConcat(a[1..], b);
    }
  }

  lemma {:induction false} SplitAt(s: string, c: char, t: string)
    requires c !in s
    ensures Before(s + [c] + t, c) == s && After(s + [c] + t, c) == t
  {
    var u := s + [c] + t;
    if s == "" {
      assert u[0] == c && u[1..] == t;
    } else {
      assert u[0] == s[0] && u[1..] == s[1..] + [c] + t;
      SplitAt(s[1..], c, t);
      assert s == [s[0]] + s[1..];
    }
  }

  // What a line can hold: a value ends the symbol at the first `=`.
  predicate Writable(sym: string, value: string) { '=' !in sym || value == "n" }

  // A setting line reads back as the setting.
  lemma SettingReadBack(sym: string, value: string)
    requires Writable(sym, value)
    ensures ReadLine(SettingLine(sym, value)) == Some((sym, value))
  {
    var line := SettingLine(sym, value);
    if value == "n" {
      assert line[0] == '#' && line[9..|line| - 11] == sym && line[|line| - 11..] == " is not set";
      assert StartsWith(line, "# CONFIG_");
    } else {
      assert line[7..] == sym + ['='] + value;
      assert line[7 + |sym|] == '=';
      assert StartsWith(line, "CONFIG_");
      SplitAt(sym, '=', value);
    }
  }

  ghost predicate IsComment(line: string) { ReadLine(line) == None }

  lemma {:induction false} CommentsReadNothing(lines: seq<string>)
    requires forall i | 0 <= i < |lines| :: IsComment(lines[i])
    ensures Read(lines) == []
  {
    hide ReadLine;
    if lines != [] {
      CommentsReadNothing(lines[1..]);
    }
  }

  // Reading some settings, each symbol once.
  lemma {:induction false} SettingsRead(c: Config, syms: seq<string>)
    requires forall i | 0 <= i < |syms| :: syms[i] in c && Writable(syms[i], c[syms[i]].value)
    requires forall i, j | 0 <= i < j < |syms| :: syms[i] != syms[j]
    ensures Lists(Read(SettingLines(c, syms)), (set s | s in syms), c)
  {
    hide ReadLine;
    hide SettingLine;
    if syms != [] {
      var sym, rest := syms[0], syms[1..];
      SettingReadBack(sym, c[sym].value);
      SettingsRead(c, rest);
      assert SettingLines(c, syms)[1..] == SettingLines(c, rest);
      assert SettingLines(c, syms)[0] == SettingLine(sym, c[sym].value);
      assert sym !in rest;
      OneMore((sym, c[sym].value), Read(SettingLines(c, rest)), (set s | s in rest), c);
      assert (set s | s in syms) == {sym} + set s | s in rest;
    }
  }

  lemma OneMore(item: (string, string), items: seq<(string, string)>, syms: set<string>, c: Config)
    requires Lists(items, syms, c) && item.0 !in syms && item.1 == ValueOf(c, item.0)
    ensures Lists([item] + items, {item.0} + syms, c)
  {
    assert Lists([item], {item.0}, c);
    ListsConcat([item], {item.0}, items, syms, c);
  }

  lemma ListsConcat(a: seq<(string, string)>, s: set<string>, b: seq<(string, string)>, t: set<string>, c: Config)
    requires Lists(a, s, c) && Lists(b, t, c) && s !! t
    ensures Lists(a + b, s + t, c)
  {
    var ab := a + b;
    forall i, j | 0 <= i < j < |ab| ensures ab[i].0 != ab[j].0 {
      if i < |a| <= j {
        assert ab[i] in a && ab[j] in b;
      }
    }
    forall p ensures p in ab <==> p.0 in s + t && p.1 == ValueOf(c, p.0) {
      assert p in ab <==> p in a || p in b;
    }
  }

  lemma SectionHeadIsComment(section: string)
    ensures Read(SectionHead(section)) == []
  {
    if section != "" {
      var line := SectionHead(section)[0];
      assert line[0] == '#' && line[2] == '-';
      assert !StartsWith(line, "# CONFIG_") by { assert "# CONFIG_"[2] == 'C'; }
      CommentsReadNothing(SectionHead(section));
    }
  }

  ghost predicate AllWritable(c: Config) { forall sym | sym in c :: Writable(sym, c[sym].value) }

  lemma SectionIsSettings(c: Config, section: string)
    ensures Read(SectionText(c, section)) == Read(SettingLines(c, Sorted(SectionOf(c, section))))
  {
    hide Read;
    hide SectionHead;
    hide SettingLines;
    var syms := Sorted(SectionOf(c, section));
    SectionHeadIsComment(section);
    BlankIsComment();
    ReadConcat(SectionHead(section), SettingLines(c, syms));
    ReadConcat(SectionHead(section) + SettingLines(c, syms), [""]);
  }

  lemma SectionRead(c: Config, section: string)
    requires AllWritable(c)
    ensures Lists(Read(SectionText(c, section)), SectionOf(c, section), c)
  {
    hide Read;
    hide Lists;
    hide SectionText;
    var syms := Sorted(SectionOf(c, section));
    forall i | 0 <= i < |syms| ensures syms[i] in c && Writable(syms[i], c[syms[i]].value) { assert syms[i] in syms; }
    AscendingDistinct(syms);
    SettingsRead(c, syms);
    SectionIsSettings(c, section);
    assert (set s | s in syms) == SectionOf(c, section);
  }

  lemma BlankIsComment()
    ensures Read([]) == [] && Read([""]) == [] && Read(["# --- Disabled ---"]) == []
  {
    BlankLine();
    OtherComment("# --- Disabled ---");
    hide ReadLine;
    CommentsReadNothing([]);
    CommentsReadNothing([""]);
    CommentsReadNothing(["# --- Disabled ---"]);
  }

  lemma BlankLine()
    ensures IsComment("")
  {}

  // The symbols of the first k sections of an order.
  ghost function SectionsOf(c: Config, order: seq<string>, k: nat): set<string>
    requires k <= |order|
  {
    set sym | sym in c && c[sym].section in order[..k]
  }

  lemma NothingListed(c: Config)
    ensures Lists([], {}, c)
  {}

  lemma {:induction false} SectionsRead(c: Config, order: seq<string>, k: nat)
    requires AllWritable(c)
    requires k <= |order| && Distinct(order)
    ensures Lists(Read(SectionsText(c, order, k)), SectionsOf(c, order, k), c)
  {
    hide SectionText;
    hide Read;
    hide Lists;
    hide AllWritable;
    if k == 0 {
      BlankIsComment();
      assert SectionsOf(c, order, 0) == {};
      NothingListed(c);
    } else {
      var sec := order[k - 1];
      SectionsRead(c, order, k - 1);
      SectionRead(c, sec);
      assert order[..k] == order[..k - 1] + [sec];
      assert sec !in order[..k - 1];
      assert SectionsOf(c, order, k) == SectionsOf(c, order, k - 1) + SectionOf(c, sec);
      if sec in Sections(c) {
        ReadConcat(SectionsText(c, order, k - 1), SectionText(c, sec));
        ListsConcat(Read(SectionsText(c, order, k - 1)), SectionsOf(c, order, k - 1),
                    Read(SectionText(c, sec)), SectionOf(c, sec), c);
      } else {
        assert SectionOf(c, sec) == {};
        assert SectionsOf(c, order, k) == SectionsOf(c, order, k - 1);
        assert SectionsText(c, order, k) == SectionsText(c, order, k - 1);
      }
    }
  }

  lemma AllSectionsRead(c: Config)
    requires AllWritable(c)
    ensures Lists(Read(AllSectionsText(c)), c.Keys, c)
  {
    var order := WriteOrder(c);
    OrderDistinct(c);
    SectionsRead(c, order, |order|);
    assert order[..|order|] == order;
    forall sym | sym in c ensures c[sym].section in order {
      assert c[sym].section in Sections(c);
      if c[sym].section !in SECTION_ORDER {
        assert c[sym].section in Sorted(Sections(c) - set s | s in SECTION_ORDER);
      }
    }
    assert SectionsOf(c, order, |order|) == c.Keys;
  }

  // The symbols that are switched off unless something set them.
  ghost function Missing(c: Config, k: nat): set<string>
    requires k <= |DISABLED|
  {
    set sym | sym in DISABLED[..k] && sym !in c
  }

  lemma OneDisabled(c: Config, sym: string)
    requires sym !in c
    ensures Lists(Read([SettingLine(sym, "n")]), {sym}, c)
  {
    hide ReadLine;
    hide SettingLine;
    SettingReadBack(sym, "n");
    assert [SettingLine(sym, "n")][1..] == [];
  }

  lemma {:induction false} DisabledRead(c: Config, k: nat)
    requires k <= |DISABLED|
    ensures Lists(Read(DisabledText(c, k)), Missing(c, k), c)
  {
    hide Read;
    hide SettingLine;
    if k == 0 {
      BlankIsComment();
      assert Missing(c, 0) == {};
    } else {
      var sym, before := DISABLED[k - 1], DisabledText(c, k - 1);
      DisabledRead(c, k - 1);
      assert DISABLED[..k] == DISABLED[..k - 1] + [sym];
      if sym !in c {
        hide Lists;
        OneDisabled(c, sym);
        ReadConcat(before, [SettingLine(sym, "n")]);
        assert sym !in DISABLED[..k - 1];
        assert Missing(c, k) == Missing(c, k - 1) + {sym};
        ListsConcat(Read(before), Missing(c, k - 1), Read([SettingLine(sym, "n")]), {sym}, c);
      } else {
        assert Missing(c, k) == Missing(c, k - 1);
        assert DisabledText(c, k) == before;
      }
    }
  }

  lemma BehindHash(entry: string)
    ensures StartsWith("# " + entry, "# CONFIG_") <==> StartsWith(entry, "CONFIG_")
    ensures ("# " + entry)[0] == '#'
  {
    var line, key := "# " + entry, "# CONFIG_";
    assert key[2..] == "CONFIG_";
    if StartsWith(line, key) {
      assert line[..9] == key;
      assert entry[..7] == line[..9][2..];
    }
    if StartsWith(entry, "CONFIG_") {
      assert line[..9] == "# " + entry[..7];
    }
  }

  // A line of meta data that no reader takes for an unset symbol.
  predicate Harmless(m: (string, string)) {
    var entry := m.0 + ": " + m.1;
    !(StartsWith(entry, "CONFIG_") && |entry| >= 18 && entry[|entry| - 11..] == " is not set")
  }

  lemma MetaLineRead(m: (string, string))
    ensures IsComment("# " + m.0 + ": " + m.1) <==> Harmless(m)
  {
    var entry := m.0 + ": " + m.1;
    var line := "# " + entry;
    assert "# " + m.0 + ": " + m.1 == line;
    BehindHash(entry);
    if |entry| >= 11 {
      assert line[|line| - 11..] == entry[|entry| - 11..];
    }
  }

  lemma MetaRead(meta: seq<(string, string)>)
    ensures Read(MetaLines(meta)) == [] <==> forall i | 0 <= i < |meta| :: Harmless(meta[i])
  {
    hide ReadLine;
    hide Harmless;
    var lines := MetaLines(meta);
    forall i | 0 <= i < |lines| ensures IsComment(lines[i]) <==> Harmless(meta[i]) {
      MetaLineRead(meta[i]);
    }
    if forall i | 0 <= i < |lines| :: IsComment(lines[i]) {
      CommentsReadNothing(lines);
    } else {
      var i :| 0 <= i < |lines| && !IsComment(lines[i]);
      SomethingRead(lines, i);
    }
  }

  lemma {:induction false} SomethingRead(lines: seq<string>, i: nat)
    requires i < |lines| && !IsComment(lines[i])
    ensures Read(lines) != []
  {
    hide ReadLine;
    if i > 0 {
      SomethingRead(lines[1..], i - 1);
    }
  }

  lemma StampRead(stamp: string)
    ensures Read(["# Linux kernel configuration", "# Generated by kconfig-builder on " + stamp]) == []
  {
    OtherComment("# Linux kernel configuration");
    OtherComment("# Generated by kconfig-builder on " + stamp);
    hide ReadLine;
    CommentsReadNothing(["# Linux kernel configuration", "# Generated by kconfig-builder on " + stamp]);
  }

  lemma OtherComment(line: string)
    requires |line| > 2 && line[0] == '#' && line[2] != 'C'
    ensures IsComment(line)
  {
    var key := "# CONFIG_";
    assert key[2] == 'C';
    assert !StartsWith(line, key);
  }

  lemma HeadRead(stamp: string, meta: seq<(string, string)>)
    ensures Read(HeadLines(stamp, meta)) == Read(MetaLines(meta))
  {
    hide Read;
    hide MetaLines;
    var top := ["# Linux kernel configuration", "# Generated by kconfig-builder on " + stamp];
    StampRead(stamp);
    BlankIsComment();
    ReadConcat(top, MetaLines(meta));
    ReadConcat(top + MetaLines(meta), [""]);
  }

  // The items of a whole text: those of the meta data, the sections and the disabled symbols.
  lemma TextRead(c: Config, stamp: string, meta: seq<(string, string)>)
    ensures Read(Text(c, stamp, meta))
         == Read(MetaLines(meta)) + (Read(AllSectionsText(c)) + Read(DisabledText(c, |DISABLED|)))
  {
    hide ReadLine;
    hide HeadLines;
    hide MetaLines;
    hide AllSectionsText;
    hide DisabledText;
    var head, body, off := HeadLines(stamp, meta), AllSectionsText(c), DisabledText(c, |DISABLED|);
    HeadRead(stamp, meta);
    BlankIsComment();
    ReadConcat(head, body);
    ReadConcat(head + body, ["# --- Disabled ---"]);
    ReadConcat(head + body + ["# --- Disabled ---"], off);
    ReadConcat(head + body + ["# --- Disabled ---"] + off, [""]);
    hide Read;
  }

  // All symbols a written text speaks of.
  ghost function Spoken(c: Config): set<string> { c.Keys + set sym | sym in DISABLED }

  lemma BodyRead(c: Config)
    requires AllWritable(c)
    ensures Lists(Read(AllSectionsText(c)) + Read(DisabledText(c, |DISABLED|)), Spoken(c), c)
  {
    hide ReadLine;
    hide Read;
    hide Lists;
    hide AllSectionsText;
    hide DisabledText;
    AllSectionsRead(c);
    DisabledRead(c, |DISABLED|);
    assert Missing(c, |DISABLED|) !! c.Keys;
    ListsConcat(Read(AllSectionsText(c)), c.Keys, Read(DisabledText(c, |DISABLED|)), Missing(c, |DISABLED|), c);
    assert DISABLED[..|DISABLED|] == DISABLED;
    assert c.Keys + Missing(c, |DISABLED|) == Spoken(c);
  }

  lemma {:induction false} BeforeHasNone(s: string, c: char)
    ensures c !in Before(s, c)
  {
    if s != "" && s[0] != c {
      BeforeHasNone(s[1..], c);
    }
  }

  // Whatever is read could have been written.
  lemma {:induction false} ReadWritable(lines: seq<string>)
    ensures forall p | p in Read(lines) :: Writable(p.0, p.1)
  {
    if lines != [] {
      ReadWritable(lines[1..]);
      BeforeHasNone(if |lines[0]| >= 7 then lines[0][7..] else "", '=');
    }
  }

  lemma ListsNothingElse(a: seq<(string, string)>, b: seq<(string, string)>, syms: set<string>, c: Config)
    requires Lists(a + b, syms, c) && Lists(b, syms, c)
    ensures a == []
  {
    if a != [] {
      assert (a + b)[0] == a[0] && a[0] in a + b;
      FrontNotBehind(a, b);
    }
  }

  lemma FrontNotBehind(a: seq<(string, string)>, b: seq<(string, string)>)
    requires a != [] && forall i, j | 0 <= i < j < |a + b| :: (a + b)[i].0 != (a + b)[j].0
    ensures a[0] !in b
  {
    forall j | 0 <= j < |b| ensures b[j] != a[0] {
      assert (a + b)[0] == a[0] && (a + b)[|a| + j] == b[j];
    }
  }

  // Reading the written text gives back every entry with its value, and the missing disabled
  // symbols as unset, each symbol on exactly one line, whatever the sections are called: exactly
  // when no symbol with a value holds a `=` and no line of meta data looks like an unset symbol.
  lemma ReadBack(c: Config, stamp: string, meta: seq<(string, string)>)
    ensures Lists(Read(Text(c, stamp, meta)), Spoken(c), c)
       <==> AllWritable(c) && forall i | 0 <= i < |meta| :: Harmless(meta[i])
  {
    hide ReadLine;
    hide Read;
    hide Text;
    hide MetaLines;
    hide Harmless;
    hide AllSectionsText;
    hide DisabledText;
    var items, body := Read(Text(c, stamp, meta)), Read(AllSectionsText(c)) + Read(DisabledText(c, |DISABLED|));
    TextRead(c, stamp, meta);
    MetaRead(meta);
    if Lists(items, Spoken(c), c) {
      ReadWritable(Text(c, stamp, meta));
      forall sym | sym in c ensures Writable(sym, c[sym].value) { assert (sym, c[sym].value) in items; }
    }
    if AllWritable(c) {
      BodyRead(c);
      if Lists(items, Spoken(c), c) {
        ListsNothingElse(Read(MetaLines(meta)), body, Spoken(c), c);
      }
      assert [] + body == body;
    }
  }

  // ---- the order of the lines ----

  // The symbol stands in the p-th section of the order.
  ghost predicate StandsIn(c: Config, order: seq<string>, sym: string, p: nat) {
    p < |order| && sym in c && c[sym].section == order[p]
  }

  // a stands in an earlier section, or earlier by name in the same one.
  ghost predicate Precedes(c: Config, order: seq<string>, a: string, b: string) {
    exists p: nat, q: nat :: StandsIn(c, order, a, p) && StandsIn(c, order, b, q) && (p < q || (p == q && Less(a, b)))
  }

  ghost predicate Arranged(c: Config, order: seq<string>, items: seq<(string, string)>) {
    forall i, j | 0 <= i < j < |items| :: Precedes(c, order, items[i].0, items[j].0)
  }

  ghost predicate StandsBefore(c: Config, order: seq<string>, sym: string, k: nat) {
    exists p: nat :: p < k && StandsIn(c, order, sym, p)
  }

  // All items stand in one of the first k sections.
  ghost predicate Within(c: Config, order: seq<string>, items: seq<(string, string)>, k: nat) {
    forall i | 0 <= i < |items| :: StandsBefore(c, order, items[i].0, k)
  }

  lemma {:induction false} SettingsNames(c: Config, syms: seq<string>)
    requires forall i | 0 <= i < |syms| :: syms[i] in c && Writable(syms[i], c[syms[i]].value)
    ensures |Read(SettingLines(c, syms))| == |syms|
    ensures forall i | 0 <= i < |syms| :: Read(SettingLines(c, syms))[i].0 == syms[i]
  {
    hide ReadLine;
    hide SettingLine;
    if syms != [] {
      SettingReadBack(syms[0], c[syms[0]].value);
      SettingsNames(c, syms[1..]);
      assert SettingLines(c, syms)[1..] == SettingLines(c, syms[1..]);
      assert SettingLines(c, syms)[0] == SettingLine(syms[0], c[syms[0]].value);
    }
  }

  lemma SectionArranged(c: Config, order: seq<string>, p: nat)
    requires AllWritable(c) && p < |order|
    ensures var items := Read(SectionText(c, order[p]));
            && Arranged(c, order, items)
            && forall i | 0 <= i < |items| :: StandsIn(c, order, items[i].0, p)
  {
    var section := order[p];
    var syms := Sorted(SectionOf(c, section));
    hide Writable;
    forall i | 0 <= i < |syms| ensures syms[i] in SectionOf(c, section) && Writable(syms[i], c[syms[i]].value) {
      assert syms[i] in syms;
    }
    SettingsNames(c, syms);
    SectionIsSettings(c, section);
    hide SectionText;
    hide SettingLines;
    hide Read;
    hide Less;
    var items := Read(SectionText(c, section));
    forall i, j | 0 <= i < j < |items| ensures Precedes(c, order, items[i].0, items[j].0) {
      assert StandsIn(c, order, items[i].0, p) && StandsIn(c, order, items[j].0, p);
    }
  }

  lemma ArrangedConcat(c: Config, order: seq<string>, a: seq<(string, string)>, b: seq<(string, string)>, k: nat)
    requires Arranged(c, order, a) && Within(c, order, a, k)
    requires Arranged(c, order, b) && forall i | 0 <= i < |b| :: StandsIn(c, order, b[i].0, k)
    ensures Arranged(c, order, a + b) && Within(c, order, a + b, k + 1)
  {
    var ab := a + b;
    forall i, j | 0 <= i < j < |ab| ensures Precedes(c, order, ab[i].0, ab[j].0) {
      if j < |a| {
        assert ab[i] == a[i] && ab[j] == a[j];
      } else if i >= |a| {
        assert ab[i] == b[i - |a|] && ab[j] == b[j - |a|];
      } else {
        assert ab[i] == a[i] && ab[j] == b[j - |a|];
        assert StandsBefore(c, order, a[i].0, k);
        var p: nat :| p < k && StandsIn(c, order, a[i].0, p);
        assert StandsIn(c, order, b[j - |a|].0, k);
      }
    }
    forall i | 0 <= i < |ab| ensures StandsBefore(c, order, ab[i].0, k + 1) {
      if i < |a| {
        assert ab[i] == a[i] && StandsBefore(c, order, a[i].0, k);
      } else {
        assert ab[i] == b[i - |a|] && StandsIn(c, order, b[i - |a|].0, k);
      }
    }
  }

  lemma {:induction false} SectionsArranged(c: Config, order: seq<string>, k: nat)
    requires AllWritable(c) && k <= |order|
    ensures Arranged(c, order, Read(SectionsText(c, order, k)))
    ensures Within(c, order, Read(SectionsText(c, order, k)), k)
  {
    hide SectionText;
    hide Read;
    hide Arranged;
    hide AllWritable;
    if k == 0 {
      BlankIsComment();
      NothingArranged(c, order);
    } else {
      SectionsArranged(c, order, k - 1);
      var before := Read(SectionsText(c, order, k - 1));
      if order[k - 1] in Sections(c) {
        ReadConcat(SectionsText(c, order, k - 1), SectionText(c, order[k - 1]));
        SectionArranged(c, order, k - 1);
        ArrangedConcat(c, order, before, Read(SectionText(c, order[k - 1])), k - 1);
      } else {
        assert SectionsText(c, order, k) == SectionsText(c, order, k - 1);
        WithinMore(c, order, before, k - 1);
      }
    }
  }

  lemma WithinMore(c: Config, order: seq<string>, items: seq<(string, string)>, k: nat)
    requires Within(c, order, items, k)
    ensures Within(c, order, items, k + 1)
  {
    forall i | 0 <= i < |items| ensures StandsBefore(c, order, items[i].0, k + 1) {
      assert StandsBefore(c, order, items[i].0, k);
    }
  }

  lemma NothingArranged(c: Config, order: seq<string>)
    ensures Arranged(c, order, [])
  {}

  // The settings are written section by section and by name within each: the known sections in
  // their fixed order, then the others by name.
  lemma WrittenInOrder(c: Config)
    requires AllWritable(c)
    ensures Arranged(c, WriteOrder(c), Read(AllSectionsText(c)))
    ensures forall i | 0 <= i < |SECTION_ORDER| :: i < |WriteOrder(c)| && WriteOrder(c)[i] == SECTION_ORDER[i]
    ensures forall i, j | |SECTION_ORDER| <= i < j < |WriteOrder(c)| :: Less(WriteOrder(c)[i], WriteOrder(c)[j])
  {
    SectionsArranged(c, WriteOrder(c), |WriteOrder(c)|);
    hide Arranged;
  }

  // A section's name is shown with its first letter in upper case and the others in lower case.
  lemma CapitalizeIs(s: string)
    ensures Lower(Capitalize(s)) == Lower(s)
    ensures s != "" ==> Capitalize(s)[0] == UpperChar(s[0]) && Capitalize(s)[1..] == Lower(s)[1..]
  {
    if s != "" {
      assert Lower(s)[1..] == Lower(s[1..]);
    }
  }
}

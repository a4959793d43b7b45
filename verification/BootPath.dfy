/** The symbols the path to the root file system needs built in. */
module BootPath {
  import opened Ascii
  import opened Generator
  import opened Wrappers

  const FS_CONFIG: map<string, string> := map[
    "ext2" := "EXT2_FS", "ext3" := "EXT3_FS", "ext4" := "EXT4_FS", "btrfs" := "BTRFS_FS", "xfs" := "XFS_FS",
    "f2fs" := "F2FS_FS", "jfs" := "JFS_FS", "reiserfs" := "REISERFS_FS", "vfat" := "VFAT_FS", "fat" := "FAT_FS"]

  // Tried in order; only the first that occurs in the device path counts.
  const DEVICE_CONFIGS: seq<(string, set<string>)> := [
    ("/dev/nvme", {"BLK_DEV_NVME", "NVME_CORE", "PCI"}),
    ("/dev/sd", {"ATA", "ATA_PIIX", "AHCI", "LIBAHCI", "LIBATA", "PCI"}),
    ("/dev/hd", {"IDE", "BLK_DEV_IDE", "ATA"}),
    ("/dev/vd", {"VIRTIO", "VIRTIO_PCI", "VIRTIO_BLK"}),
    ("/dev/mmcblk", {"MMC", "MMC_BLOCK", "MMC_SDHCI"}),
    ("/dev/xvd", {"XEN_BLKDEV_FRONTEND"}),
    ("/dev/mapper", {})]

  const LUKS_CRYPTO := {"BLK_DEV_DM", "DM_MOD", "DM_CRYPT", "CRYPTO", "CRYPTO_AES", "CRYPTO_XTS",
                        "CRYPTO_CBC", "CRYPTO_SHA256", "CRYPTO_AES_X86_64"}
  const LVM_CONFIGS := {"BLK_DEV_DM", "DM_MOD", "MD"}
  const RAID_CONFIGS := {"MD", "BLK_DEV_MD", "MD_RAID0", "MD_RAID1", "MD_RAID10", "MD_RAID456"}
  const ALWAYS_STATIC := {"BLOCK", "BLK_DEV", "PCI_MSI", "GENERIC_IRQ_CHIP", "GENERIC_IRQ_PROBE"}

  datatype Storage = Storage(rootDevice: string, rootFs: string, underlyingDevice: string,
                             hasLvm: bool, hasLuks: bool, hasRaid: bool, luksCipher: string,
                             extraStatic: set<string>)

  // The ValueError of a file system without a known symbol.
  datatype Error = UnknownFilesystem(name: string)

  predicate Contains(s: string, part: string) {
    exists i | 0 <= i <= |s| :: part <= s[i..]
  }

  function DeviceConfigs(dev: string, k: nat): set<string>
    requires k <= |DEVICE_CONFIGS|
    decreases |DEVICE_CONFIGS| - k
  {
    if k == |DEVICE_CONFIGS| then {}
    else if Contains(dev, DEVICE_CONFIGS[k].0) then DEVICE_CONFIGS[k].1
    else DeviceConfigs(dev, k + 1)
  }

  function Device(b: Storage): string {
    if b.underlyingDevice != "" then b.underlyingDevice else b.rootDevice
  }

  // The part of the cipher name before the first dash.
  function CipherSymbol(cipher: string): string { "CRYPTO_" + Upper(Before(cipher, '-')) }

  // What each layer of the storage stack contributes.
  function StaticSymbols(b: Storage): set<string> {
    ALWAYS_STATIC
    + (if Lower(b.rootFs) in FS_CONFIG then {FS_CONFIG[Lower(b.rootFs)]} else {})
    + DeviceConfigs(Device(b), 0)
    + (if b.hasLvm then LVM_CONFIGS else {})
    + (if b.hasLuks then LUKS_CRYPTO + {CipherSymbol(b.luksCipher)} else {})
    + (if b.hasRaid then RAID_CONFIGS else {})
    + b.extraStatic
  }

  method StaticConfigs(b: Storage) returns (r: Result<set<string>, Error>)
    ensures r == if Lower(b.rootFs) in FS_CONFIG then Ok(StaticSymbols(b)) else Raised(UnknownFilesystem(b.rootFs))
  {
    hide Lower;
    hide Contains;
    hide CipherSymbol;
    var configs := ALWAYS_STATIC;
    if Lower(b.rootFs) !in FS_CONFIG {
      return Raised(UnknownFilesystem(b.rootFs));
    }
    configs := configs + {FS_CONFIG[Lower(b.rootFs)]};
    var dev := Device(b);
    var k := 0;
    while k < |DEVICE_CONFIGS| && !Contains(dev, DEVICE_CONFIGS[k].0)
      invariant k <= |DEVICE_CONFIGS|
      invariant DeviceConfigs(dev, 0) == DeviceConfigs(dev, k)
    {
      k := k + 1;
    }
    assert DeviceConfigs(dev, 0) == if k < |DEVICE_CONFIGS| then DEVICE_CONFIGS[k].1 else {};
    hide DeviceConfigs;
    if k < |DEVICE_CONFIGS| {
      configs := configs + DEVICE_CONFIGS[k].1;
    }
    if b.hasLvm {
      configs := configs + LVM_CONFIGS;
    }
    if b.hasLuks {
      configs := configs + LUKS_CRYPTO;
      configs := configs + {CipherSymbol(b.luksCipher)};
    }
    if b.hasRaid {
      configs := configs + RAID_CONFIGS;
    }
    configs := configs + b.extraStatic;
    assert configs == StaticSymbols(b);
    return Ok(configs);
  }

  // The configs of the first row that occurs in the device path, none when no row does.
  ghost predicate IsFirstRow(dev: string, k: nat) {
    && k < |DEVICE_CONFIGS| && Contains(dev, DEVICE_CONFIGS[k].0)
    && forall j | 0 <= j < k :: !Contains(dev, DEVICE_CONFIGS[j].0)
  }

  lemma {:induction false} FirstRowOnly(dev: string, k: nat)
    requires k <= |DEVICE_CONFIGS| && forall j | 0 <= j < k :: !Contains(dev, DEVICE_CONFIGS[j].0)
    ensures (exists i: nat :: IsFirstRow(dev, i) && DeviceConfigs(dev, k) == DEVICE_CONFIGS[i].1)
         || ((forall j | 0 <= j < |DEVICE_CONFIGS| :: !Contains(dev, DEVICE_CONFIGS[j].0))
             && DeviceConfigs(dev, k) == {})
    decreases |DEVICE_CONFIGS| - k
  {
    hide Contains;
    if k < |DEVICE_CONFIGS| {
      if Contains(dev, DEVICE_CONFIGS[k].0) {
        assert IsFirstRow(dev, k);
      } else {
        FirstRowOnly(dev, k + 1);
      }
    }
  }

  // Forces the boot-critical symbols to `y`, in whatever order the set is iterated.
  method ApplyBootPath(generator: ConfigGenerator, b: Storage) returns (r: Result<set<string>, Error>)
    modifies generator
    ensures r.Ok? <==> Lower(b.rootFs) in FS_CONFIG
    ensures r.Raised? ==> generator.entries == old(generator.entries)
    ensures r.Ok? ==>
      && r.value == StaticSymbols(b)
      && Overlaid(old(generator.entries), r.value, "y", "boot-critical", generator.entries)
  {
    r := StaticConfigs(b);
    hide StaticSymbols;
    hide Lower;
    hide Add;
    if r.Raised? {
      return;
    }
    ghost var done := [];
    var rest := r.value;
    while rest != {}
      invariant rest <= r.value
      invariant forall s :: s in done <==> s in r.value && s !in rest
      invariant generator.entries == AddAll(old(generator.entries), done, "y", "boot-critical")
      decreases |rest|
    {
      var sym :| sym in rest;
      generator.AddOne(sym, "y", "boot-critical");
      AddAllOneMore(old(generator.entries), done, sym, "y", "boot-critical");
      done := done + [sym];
      rest := rest - {sym};
    }
    hide AddAll;
    hide Overlaid;
    AddAllOverlays(old(generator.entries), done, "y", "boot-critical");
    assert r.value == set s | s in done;
  }

  lemma {:induction false} AddAllOneMore(c: Config, syms: seq<string>, sym: string, value: string, section: string)
    ensures AddAll(c, syms + [sym], value, section) == Add(AddAll(c, syms, value, section), sym, value, section)
    decreases |syms|
  {
    var all := syms + [sym];
    if syms == [] {
      assert all[1..] == [];
    } else {
      assert all[0] == syms[0] && all[1..] == syms[1..] + [sym];
      AddAllOneMore(Add(c, syms[0], value, section), syms[1..], sym, value, section);
    }
  }

  // ---- which parts of the storage stack count ----

  // The underlying device is the one that counts; the root device only where there is none.
  lemma UnderlyingCounts(b: Storage, dev: string)
    ensures b.underlyingDevice != "" ==> StaticSymbols(b.(rootDevice := dev)) == StaticSymbols(b)
    ensures b.underlyingDevice == "" && dev != "" ==>
      StaticSymbols(b.(rootDevice := dev)) == StaticSymbols(b.(underlyingDevice := dev))
  {
    hide DeviceConfigs;
    hide Lower;
    hide CipherSymbol;
  }

  // Each layer adds its own symbols, whatever the others are.
  lemma LvmAdds(b: Storage)
    ensures StaticSymbols(b.(hasLvm := true)) == StaticSymbols(b.(hasLvm := false)) + LVM_CONFIGS
  {
    hide DeviceConfigs;
    hide Lower;
    hide CipherSymbol;
  }

  lemma RaidAdds(b: Storage)
    ensures StaticSymbols(b.(hasRaid := true)) == StaticSymbols(b.(hasRaid := false)) + RAID_CONFIGS
  {
    hide DeviceConfigs;
    hide Lower;
    hide CipherSymbol;
  }

  lemma LuksAdds(b: Storage)
    ensures StaticSymbols(b.(hasLuks := true))
         == StaticSymbols(b.(hasLuks := false)) + LUKS_CRYPTO + {CipherSymbol(b.luksCipher)}
  {
    hide DeviceConfigs;
    hide Lower;
    hide CipherSymbol;
  }

  lemma ExtraAdds(b: Storage)
    ensures StaticSymbols(b) == StaticSymbols(b.(extraStatic := {})) + b.extraStatic
  {
    hide DeviceConfigs;
    hide Lower;
    hide CipherSymbol;
  }

  // What every stack needs, and what the file system needs, in whatever case it is written.
  lemma FilesystemCounts(b: Storage)
    ensures ALWAYS_STATIC <= StaticSymbols(b)
    ensures Lower(b.rootFs) in FS_CONFIG ==> FS_CONFIG[Lower(b.rootFs)] in StaticSymbols(b)
    ensures StaticSymbols(b.(rootFs := Upper(b.rootFs))) == StaticSymbols(b)
    ensures StaticSymbols(b.(rootFs := Lower(b.rootFs))) == StaticSymbols(b)
  {
    CaseOnly(b.rootFs);
    LowerTwice(b.rootFs);
    hide DeviceConfigs;
    hide Lower;
    hide Upper;
    hide Before;
  }

  lemma LowerTwice(s: string)
    ensures Lower(Lower(s)) == Lower(s)
  {}

  // Of a cipher such as `aes-xts-plain64` the name in front of the first dash counts.
  lemma CipherNamed(name: string, mode: string)
    requires '-' !in name
    ensures CipherSymbol(name) == CipherSymbol(name + ['-'] + mode) == "CRYPTO_" + Upper(name)
  {
    BeforeAll(name, '-');
    SplitAt(name, '-', mode);
  }

  lemma {:induction false} BeforeAll(s: string, c: char)
    requires c !in s
    ensures Before(s, c) == s
  {
    if s != "" {
      BeforeAll(s[1..], c);
      assert s == [s[0]] + s[1..];
    }
  }
}

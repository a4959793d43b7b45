/** Driver patterns, the glob match between them and device aliases, and the source index. */
module Matchers {
  import opened Wrappers
  import opened Alias
  import opened Devices
  import Bits
  import Glob
  import Hex

  const PCI_ANY_ID := 0xFFFFFFFF
  const USB_ANY_ID := 0xFFFF
  const USB_ANY_BYTE := 0xFF

  // The arguments of a PCI driver-table entry.
  datatype PciId = PciId(vendor: nat, device: nat, subvendor: nat, subdevice: nat, cls: nat, clsMask: nat)

  // The arguments of a USB driver-table entry: IDs, device class triple, interface class triple.
  datatype UsbId = UsbId(vendor: nat, product: nat, dc: nat, dsc: nat, dp: nat, ic: nat, isc: nat, ip: nat)

  function Want(n: nat, any: nat, width: nat): Option<string> {
    if n != any then Some(Hex.Format(n, width)) else None
  }

  function Show(want: Option<string>): string {
    if want.Some? then want.value else "*"
  }

  // The three class-byte patterns: base class, sub-class, programming interface.
  function ClassWants(cls: nat, mask: nat): (Option<string>, Option<string>, Option<string>) {
    if mask == 0 || cls == 0 then (None, None, None)
    else (
      if Bits.And(mask, 0xFF0000) != 0 then Some(Hex.Format(Bits.And(cls / 0x10000, 0xFF), 2)) else None,
      if Bits.And(mask, 0x00FF00) != 0 then Some(Hex.Format(Bits.And(cls / 0x100, 0xFF), 2)) else None,
      if Bits.And(mask, 0x0000FF) != 0 then Some(Hex.Format(Bits.And(cls, 0xFF), 2)) else None)
  }

  function PciAlias(id: PciId): string { Print(PciPieces(id)) }

  function PciPieces(id: PciId): seq<Piece> {
    var (bc, sc, i) := ClassWants(id.cls, id.clsMask);
    [Piece("pci:v", Show(Want(id.vendor, PCI_ANY_ID, 8))), Piece("d", Show(Want(id.device, PCI_ANY_ID, 8))),
     Piece("sv", Show(Want(id.subvendor, PCI_ANY_ID, 8))), Piece("sd", Show(Want(id.subdevice, PCI_ANY_ID, 8))),
     Piece("bc", Show(bc)), Piece("sc", Show(sc)), Piece("i", Show(i))]
  }

  function UsbAlias(id: UsbId): string { Print(UsbPieces(id)) }

  function UsbPieces(id: UsbId): seq<Piece> {
    [Piece("usb:v", Show(Want(id.vendor, USB_ANY_ID, 4))), Piece("p", Show(Want(id.product, USB_ANY_ID, 4))),
     Piece("d", "*"),
     Piece("dc", Show(Want(id.dc, USB_ANY_BYTE, 2))), Piece("dsc", Show(Want(id.dsc, USB_ANY_BYTE, 2))),
     Piece("dp", Show(Want(id.dp, USB_ANY_BYTE, 2))),
     Piece("ic", Show(Want(id.ic, USB_ANY_BYTE, 2))), Piece("isc", Show(Want(id.isc, USB_ANY_BYTE, 2))),
     Piece("ip", Show(Want(id.ip, USB_ANY_BYTE, 2))),
     Piece("in", "*")]
  }

  // ---- what a driver-table entry means ----

  predicate Accepts(want: nat, any: nat, have: nat) { want == any || want == have }

  // The mask as the pattern can express it: a class byte is compared whole or not at all.
  function Widen(mask: nat): nat {
    (if mask / 0x10000 % 0x100 != 0 then 0xFF0000 else 0)
    + (if mask / 0x100 % 0x100 != 0 then 0xFF00 else 0)
    + (if mask % 0x100 != 0 then 0xFF else 0)
  }

  predicate ClassAccepts(cls: nat, mask: nat, have: nat) {
    cls == 0 || mask == 0 || Bits.And(Bits.Xor(have, cls), Widen(mask)) == 0
  }

  predicate PciAccepts(id: PciId, dev: PCIDevice) {
    && Accepts(id.vendor, PCI_ANY_ID, dev.vendor)
    && Accepts(id.device, PCI_ANY_ID, dev.device)
    && Accepts(id.subvendor, PCI_ANY_ID, dev.subvendor)
    && Accepts(id.subdevice, PCI_ANY_ID, dev.subdevice)
    && ClassAccepts(id.cls, id.clsMask, dev.cls)
  }

  predicate UsbAccepts(id: UsbId, dev: USBDevice) {
    && Accepts(id.vendor, USB_ANY_ID, dev.vendor)
    && Accepts(id.product, USB_ANY_ID, dev.product)
    && Accepts(id.dc, USB_ANY_BYTE, dev.devClass)
    && Accepts(id.dsc, USB_ANY_BYTE, dev.devSubclass)
    && Accepts(id.dp, USB_ANY_BYTE, dev.devProtocol)
    && Accepts(id.ic, USB_ANY_BYTE, dev.ifaceClass)
    && Accepts(id.isc, USB_ANY_BYTE, dev.ifaceSubclass)
    && Accepts(id.ip, USB_ANY_BYTE, dev.ifaceProtocol)
  }

  // ---- the string match is the field-by-field match ----

  function PciParts(id: PciId, dev: PCIDevice): seq<Glob.Part> {
    var (bc, sc, i) := ClassWants(id.cls, id.clsMask);
    [ Glob.Part("pci:v", Want(id.vendor, PCI_ANY_ID, 8), Hex.Format(dev.vendor, 8)),
      Glob.Part("d", Want(id.device, PCI_ANY_ID, 8), Hex.Format(dev.device, 8)),
      Glob.Part("sv", Want(id.subvendor, PCI_ANY_ID, 8), Hex.Format(dev.subvendor, 8)),
      Glob.Part("sd", Want(id.subdevice, PCI_ANY_ID, 8), Hex.Format(dev.subdevice, 8)),
      Glob.Part("bc", bc, Hex.Format(dev.BaseClass(), 2)),
      Glob.Part("sc", sc, Hex.Format(dev.SubClass(), 2)),
      Glob.Part("i", i, Hex.Format(dev.ProgIf(), 2)) ]
  }

  function UsbParts(id: UsbId, dev: USBDevice): seq<Glob.Part> {
    [ Glob.Part("usb:v", Want(id.vendor, USB_ANY_ID, 4), Hex.Format(dev.vendor, 4)),
      Glob.Part("p", Want(id.product, USB_ANY_ID, 4), Hex.Format(dev.product, 4)),
      Glob.Part("d", None, Hex.Format(dev.bcdDevice, 4)),
      Glob.Part("dc", Want(id.dc, USB_ANY_BYTE, 2), Hex.Format(dev.devClass, 2)),
      Glob.Part("dsc", Want(id.dsc, USB_ANY_BYTE, 2), Hex.Format(dev.devSubclass, 2)),
      Glob.Part("dp", Want(id.dp, USB_ANY_BYTE, 2), Hex.Format(dev.devProtocol, 2)),
      Glob.Part("ic", Want(id.ic, USB_ANY_BYTE, 2), Hex.Format(dev.ifaceClass, 2)),
      Glob.Part("isc", Want(id.isc, USB_ANY_BYTE, 2), Hex.Format(dev.ifaceSubclass, 2)),
      Glob.Part("ip", Want(id.ip, USB_ANY_BYTE, 2), Hex.Format(dev.ifaceProtocol, 2)),
      Glob.Part("in", None, "*") ]
  }

  lemma {:induction false} PrintedParts(parts: seq<Glob.Part>, wants: seq<Piece>, haves: seq<Piece>)
    requires |wants| == |parts| == |haves|
    requires forall i | 0 <= i < |parts| :: wants[i] == Piece(parts[i].tag, Show(parts[i].want))
    requires forall i | 0 <= i < |parts| :: haves[i] == Piece(parts[i].tag, parts[i].have)
    ensures Glob.Pattern(parts) == Print(wants) && Glob.Text(parts) == Print(haves)
  {
    if parts != [] {
      PrintedParts(parts[1..], wants[1..], haves[1..]);
    }
  }

  lemma PciPrinted(id: PciId, dev: PCIDevice)
    ensures Glob.Pattern(PciParts(id, dev)) == PciAlias(id)
    ensures Glob.Text(PciParts(id, dev)) == dev.Alias()
  {
    PrintedParts(PciParts(id, dev), PciPieces(id), dev.Pieces());
  }

  lemma UsbPrinted(id: UsbId, dev: USBDevice)
    ensures Glob.Pattern(UsbParts(id, dev)) == UsbAlias(id)
    ensures Glob.Text(UsbParts(id, dev)) == dev.Alias()
  {
    PrintedParts(UsbParts(id, dev), UsbPieces(id), dev.Pieces());
  }

  // ---- class bytes ----

  function Byte(x: nat, k: nat): nat {
    if k == 0 then x % 0x100 else if k == 1 then x / 0x100 % 0x100 else x / 0x10000 % 0x100
  }

  lemma MaskAboveByte(x: nat, m: nat, s: nat)
    requires s == 0x100 * m
    ensures Bits.And(x, s) == 0x100 * Bits.And(x / 0x100, m)
  {
    hide Bits.Bitwise;
    Bits.SplitByte(Bits.AndOp, x, s);
    assert s / 0x100 == m && s % 0x100 == 0;
    Bits.AndZero(x % 0x100);
  }

  lemma MaskByte(mask: nat)
    ensures Bits.And(mask, 0xFF0000) != 0 <==> Byte(mask, 2) != 0
    ensures Bits.And(mask, 0x00FF00) != 0 <==> Byte(mask, 1) != 0
    ensures Bits.And(mask, 0x0000FF) != 0 <==> Byte(mask, 0) != 0
  {
    hide Bits.Bitwise;
    Bits.AndByte(mask);
    MaskAboveByte(mask, 0xFF, 0xFF00);
    Bits.AndByte(mask / 0x100);
    MaskAboveByte(mask, 0xFF00, 0xFF0000);
    MaskAboveByte(mask / 0x100, 0xFF, 0xFF00);
    assert mask / 0x100 / 0x100 == mask / 0x10000;
    Bits.AndByte(mask / 0x10000);
  }

  // One byte of `(have ^ cls) & widened mask`.
  lemma WholeByte(x: nat, w: nat)
    requires w == 0 || w == 0xFF
    ensures Bits.And(x, w) == 0 <==> w == 0 || x % 0x100 == 0
  {
    hide Bits.Bitwise;
    if w == 0 { Bits.AndZero(x); } else { Bits.AndByte(x); }
  }

  lemma XorByte(a: nat, b: nat)
    ensures Bits.Xor(a, b) % 0x100 == 0 <==> a % 0x100 == b % 0x100
    ensures Bits.Xor(a, b) / 0x100 == Bits.Xor(a / 0x100, b / 0x100)
  {
    hide Bits.Bitwise;
    Bits.SplitByte(Bits.XorOp, a, b);
    Bits.XorZero(a % 0x100, b % 0x100);
    var x, h, l := Bits.Xor(a, b), Bits.Xor(a / 0x100, b / 0x100), Bits.Xor(a % 0x100, b % 0x100);
    assert x == 0x100 * h + l && l < 0x100;
    assert x / 0x100 == h && x % 0x100 == l;
  }

  // `x & w` for a w whose bytes are whole or empty.
  lemma WholeLowByte(x: nat, h: nat, w0: nat)
    requires w0 == 0 || w0 == 0xFF
    ensures Bits.And(x, 0x100 * h + w0) == 0
       <==> Bits.And(x / 0x100, h) == 0 && (w0 == 0 || x % 0x100 == 0)
  {
    hide Bits.Bitwise;
    var w := 0x100 * h + w0;
    Bits.SplitByte(Bits.AndOp, x, w);
    assert w / 0x100 == h && w % 0x100 == w0;
    WholeByte(x % 0x100, w0);
  }

  lemma WholeBytes(x: nat, w2: nat, w1: nat, w0: nat)
    requires (w2 == 0 || w2 == 0xFF) && (w1 == 0 || w1 == 0xFF) && (w0 == 0 || w0 == 0xFF)
    ensures Bits.And(x, 0x10000 * w2 + 0x100 * w1 + w0) == 0
       <==> (w2 == 0 || Byte(x, 2) == 0) && (w1 == 0 || Byte(x, 1) == 0) && (w0 == 0 || Byte(x, 0) == 0)
  {
    hide Bits.Bitwise;
    WholeLowByte(x, 0x100 * w2 + w1, w0);
    WholeLowByte(x / 0x100, w2, w1);
    WholeByte(x / 0x10000, w2);
    assert x / 0x100 / 0x100 == x / 0x10000;
  }

  lemma XorBytes(a: nat, b: nat, k: nat)
    requires k < 3
    ensures Byte(Bits.Xor(a, b), k) == 0 <==> Byte(a, k) == Byte(b, k)
  {
    hide Bits.Bitwise;
    XorByte(a, b);
    XorByte(a / 0x100, b / 0x100);
    assert a / 0x100 / 0x100 == a / 0x10000 && b / 0x100 / 0x100 == b / 0x10000;
    XorByte(a / 0x10000, b / 0x10000);
    var x := Bits.Xor(a, b);
    assert x / 0x100 / 0x100 == x / 0x10000;
  }

  lemma ClassRuleByBytes(cls: nat, mask: nat, have: nat)
    ensures Bits.And(Bits.Xor(have, cls), Widen(mask)) == 0
       <==> forall k | 0 <= k < 3 :: Byte(mask, k) == 0 || Byte(have, k) == Byte(cls, k)
  {
    hide Bits.Bitwise;
    XorBytes(have, cls, 0);
    XorBytes(have, cls, 1);
    XorBytes(have, cls, 2);
    WholeBytes(Bits.Xor(have, cls), if Byte(mask, 2) != 0 then 0xFF else 0,
               if Byte(mask, 1) != 0 then 0xFF else 0, if Byte(mask, 0) != 0 then 0xFF else 0);
  }

  ghost predicate WantMet(want: Option<string>, have: string) {
    want.Some? ==> want.value == have
  }

  // The three class patterns accept a device exactly when the class rule does.
  lemma ClassPatternsAccept(cls: nat, mask: nat, dev: PCIDevice)
    ensures var (bc, sc, i) := ClassWants(cls, mask);
            ( && WantMet(bc, Hex.Format(dev.BaseClass(), 2))
              && WantMet(sc, Hex.Format(dev.SubClass(), 2))
              && WantMet(i, Hex.Format(dev.ProgIf(), 2))
              <==> ClassAccepts(cls, mask, dev.cls) )
  {
    hide Bits.Bitwise;
    MaskByte(mask);
    ClassRuleByBytes(cls, mask, dev.cls);
    Bits.AndByte(cls);
    Bits.AndByte(cls / 0x100);
    Bits.AndByte(cls / 0x10000);
    Bits.AndByte(dev.cls);
    Bits.AndByte(dev.cls / 0x100);
    Bits.AndByte(dev.cls / 0x10000);
    Hex.FormatInjective(Byte(cls, 0), Byte(dev.cls, 0), 2);
    Hex.FormatInjective(Byte(cls, 1), Byte(dev.cls, 1), 2);
    Hex.FormatInjective(Byte(cls, 2), Byte(dev.cls, 2), 2);
  }

  lemma WantAccepts(want: nat, any: nat, have: nat, width: nat)
    ensures WantMet(Want(want, any, width), Hex.Format(have, width)) <==> Accepts(want, any, have)
  {
    Hex.FormatInjective(want, have, width);
  }

  ghost predicate IsTag(t: string) { t != "" && forall c | c in t :: Glob.IsLabel(c) }

  // A part whose values are printed hexadecimal numbers.
  ghost predicate HexPart(p: Glob.Part) {
    && Hex.IsHex(p.have) && (p.want.Some? ==> Hex.IsHex(p.want.value))
    && IsTag(p.tag)
  }

  ghost predicate AllHex(ps: seq<Glob.Part>) {
    forall p | p in ps :: HexPart(p) || p == Glob.Part("in", None, "*")
  }

  ghost predicate AllMet(ps: seq<Glob.Part>) {
    forall k | 0 <= k < |ps| :: WantMet(ps[k].want, ps[k].have)
  }

  lemma HexPartsAgree(ps: seq<Glob.Part>)
    requires AllHex(ps)
    ensures Glob.Matches(Glob.Pattern(ps), Glob.Text(ps)) <==> AllMet(ps)
  {
    forall p | p in ps ensures Glob.WellFormed(p) {
      assert HexPart(p) || p == Glob.Part("in", None, "*");
    }
    Glob.GlobIsFieldwise(ps);
    if Glob.FieldsAgree(ps) {
      forall k | 0 <= k < |ps| ensures WantMet(ps[k].want, ps[k].have) { assert ps[k] in ps; }
    }
  }

  lemma WantIsHex(n: nat, any: nat, have: nat, width: nat)
    ensures Hex.IsHex(Hex.Format(have, width))
    ensures Want(n, any, width).Some? ==> Hex.IsHex(Want(n, any, width).value)
  {
    Hex.FormatRoundTrip(n, width);
    Hex.FormatRoundTrip(have, width);
  }

  lemma ClassWantsHex(cls: nat, mask: nat, dev: PCIDevice)
    ensures var (bc, sc, i) := ClassWants(cls, mask);
            && Hex.IsHex(Hex.Format(dev.BaseClass(), 2)) && (bc.Some? ==> Hex.IsHex(bc.value))
            && Hex.IsHex(Hex.Format(dev.SubClass(), 2)) && (sc.Some? ==> Hex.IsHex(sc.value))
            && Hex.IsHex(Hex.Format(dev.ProgIf(), 2)) && (i.Some? ==> Hex.IsHex(i.value))
  {
    Hex.FormatRoundTrip(dev.BaseClass(), 2);
    Hex.FormatRoundTrip(dev.SubClass(), 2);
    Hex.FormatRoundTrip(dev.ProgIf(), 2);
    Hex.FormatRoundTrip(Bits.And(cls / 0x10000, 0xFF), 2);
    Hex.FormatRoundTrip(Bits.And(cls / 0x100, 0xFF), 2);
    Hex.FormatRoundTrip(Bits.And(cls, 0xFF), 2);
  }

  lemma PciPartsHex(id: PciId, dev: PCIDevice)
    ensures AllHex(PciParts(id, dev))
  {
    WantPartHex("pci:v", id.vendor, PCI_ANY_ID, dev.vendor, 8);
    WantPartHex("d", id.device, PCI_ANY_ID, dev.device, 8);
    WantPartHex("sv", id.subvendor, PCI_ANY_ID, dev.subvendor, 8);
    WantPartHex("sd", id.subdevice, PCI_ANY_ID, dev.subdevice, 8);
    ClassWantsHex(id.cls, id.clsMask, dev);
  }

  lemma PciPartsMet(id: PciId, dev: PCIDevice)
    ensures AllMet(PciParts(id, dev)) <==> PciAccepts(id, dev)
  {
    var ps := PciParts(id, dev);
    assert AllMet(ps) <==>
      && WantMet(ps[0].want, ps[0].have) && WantMet(ps[1].want, ps[1].have) && WantMet(ps[2].want, ps[2].have)
      && WantMet(ps[3].want, ps[3].have) && WantMet(ps[4].want, ps[4].have) && WantMet(ps[5].want, ps[5].have)
      && WantMet(ps[6].want, ps[6].have);
    WantAccepts(id.vendor, PCI_ANY_ID, dev.vendor, 8);
    WantAccepts(id.device, PCI_ANY_ID, dev.device, 8);
    WantAccepts(id.subvendor, PCI_ANY_ID, dev.subvendor, 8);
    WantAccepts(id.subdevice, PCI_ANY_ID, dev.subdevice, 8);
    ClassPatternsAccept(id.cls, id.clsMask, dev);
  }

  lemma WantPartHex(t: string, n: nat, any: nat, have: nat, width: nat)
    requires IsTag(t)
    ensures HexPart(Glob.Part(t, Want(n, any, width), Hex.Format(have, width)))
  {
    WantIsHex(n, any, have, width);
  }

  lemma UsbPartsHex(id: UsbId, dev: USBDevice)
    ensures AllHex(UsbParts(id, dev))
  {
    WantPartHex("usb:v", id.vendor, USB_ANY_ID, dev.vendor, 4);
    WantPartHex("p", id.product, USB_ANY_ID, dev.product, 4);
    WantPartHex("d", 0, 0, dev.bcdDevice, 4);
    WantPartHex("dc", id.dc, USB_ANY_BYTE, dev.devClass, 2);
    WantPartHex("dsc", id.dsc, USB_ANY_BYTE, dev.devSubclass, 2);
    WantPartHex("dp", id.dp, USB_ANY_BYTE, dev.devProtocol, 2);
    WantPartHex("ic", id.ic, USB_ANY_BYTE, dev.ifaceClass, 2);
    WantPartHex("isc", id.isc, USB_ANY_BYTE, dev.ifaceSubclass, 2);
    WantPartHex("ip", id.ip, USB_ANY_BYTE, dev.ifaceProtocol, 2);
  }

  lemma UsbPartsMet(id: UsbId, dev: USBDevice)
    ensures AllMet(UsbParts(id, dev)) <==> UsbAccepts(id, dev)
  {
    var ps := UsbParts(id, dev);
    assert AllMet(ps) <==>
      && WantMet(ps[0].want, ps[0].have) && WantMet(ps[1].want, ps[1].have) && WantMet(ps[2].want, ps[2].have)
      && WantMet(ps[3].want, ps[3].have) && WantMet(ps[4].want, ps[4].have) && WantMet(ps[5].want, ps[5].have)
      && WantMet(ps[6].want, ps[6].have) && WantMet(ps[7].want, ps[7].have) && WantMet(ps[8].want, ps[8].have)
      && WantMet(ps[9].want, ps[9].have);
    WantAccepts(id.vendor, USB_ANY_ID, dev.vendor, 4);
    WantAccepts(id.product, USB_ANY_ID, dev.product, 4);
    WantAccepts(id.dc, USB_ANY_BYTE, dev.devClass, 2);
    WantAccepts(id.dsc, USB_ANY_BYTE, dev.devSubclass, 2);
    WantAccepts(id.dp, USB_ANY_BYTE, dev.devProtocol, 2);
    WantAccepts(id.ic, USB_ANY_BYTE, dev.ifaceClass, 2);
    WantAccepts(id.isc, USB_ANY_BYTE, dev.ifaceSubclass, 2);
    WantAccepts(id.ip, USB_ANY_BYTE, dev.ifaceProtocol, 2);
  }

  // The glob match of a PCI pattern against a PCI alias is the field-by-field match.
  lemma PciMatchIsFieldwise(id: PciId, dev: PCIDevice)
    ensures Glob.Matches(PciAlias(id), dev.Alias()) <==> PciAccepts(id, dev)
  {
    PciPrinted(id, dev);
    PciPartsHex(id, dev);
    HexPartsAgree(PciParts(id, dev));
    PciPartsMet(id, dev);
  }

  // The glob match of a USB pattern against a USB alias is the field-by-field match.
  lemma UsbMatchIsFieldwise(id: UsbId, dev: USBDevice)
    ensures Glob.Matches(UsbAlias(id), dev.Alias()) <==> UsbAccepts(id, dev)
  {
    UsbPrinted(id, dev);
    UsbPartsHex(id, dev);
    HexPartsAgree(UsbParts(id, dev));
    UsbPartsMet(id, dev);
  }

  // ---- the kernel's class rule, and when the pattern agrees with it ----

  predicate KernelClassRule(cls: nat, mask: nat, have: nat) {
    Bits.And(Bits.Xor(have, cls), mask) == 0
  }

  // Masks made of whole bytes, on which Widen changes nothing.
  predicate ByteGranular(mask: nat) {
    forall k | 0 <= k < 3 :: Byte(mask, k) == 0 || Byte(mask, k) == 0xFF
  }

  lemma BytesOf(x: nat)
    requires x < 0x1000000
    ensures x == 0x10000 * Byte(x, 2) + 0x100 * Byte(x, 1) + Byte(x, 0)
  {
    var h := x / 0x100;
    assert h / 0x100 == x / 0x10000;
  }

  lemma WidenGranular(mask: nat)
    requires mask < 0x1000000
    ensures ByteGranular(mask) <==> Widen(mask) == mask
  {
    BytesOf(mask);
    if Widen(mask) == mask {
      assert Byte(mask, 0) == 0 || Byte(mask, 0) == 0xFF;
      assert Byte(mask, 1) == 0 || Byte(mask, 1) == 0xFF;
      assert Byte(mask, 2) == 0 || Byte(mask, 2) == 0xFF;
    }
  }

  lemma ByteUnderWhole(b: nat, w: nat)
    requires b < 0x100 && w == if b != 0 then 0xFF else 0
    ensures Bits.And(b, w) == b
  {
    hide Bits.Bitwise;
    if b == 0 { Bits.AndZero(0); } else { Bits.AndByte(b); }
  }

  lemma CoverBytes(b2: nat, b1: nat, b0: nat, w2: nat, w1: nat, w0: nat)
    requires b2 < 0x100 && b1 < 0x100 && b0 < 0x100
    requires w2 == if b2 != 0 then 0xFF else 0
    requires w1 == if b1 != 0 then 0xFF else 0
    requires w0 == if b0 != 0 then 0xFF else 0
    ensures Bits.And(0x10000 * b2 + 0x100 * b1 + b0, 0x10000 * w2 + 0x100 * w1 + w0)
         == 0x10000 * b2 + 0x100 * b1 + b0
  {
    hide Bits.Bitwise;
    var b, w := 0x100 * b2 + b1, 0x100 * w2 + w1;
    Bits.SplitAt8(Bits.AndOp, b, b2, b1, w, w2, w1);
    Bits.SplitAt8(Bits.AndOp, 0x100 * b + b0, b, b0, 0x100 * w + w0, w, w0);
    ByteUnderWhole(b0, w0);
    ByteUnderWhole(b1, w1);
    ByteUnderWhole(b2, w2);
  }

  lemma WidenCovers(mask: nat)
    requires mask < 0x1000000
    ensures Bits.And(mask, Widen(mask)) == mask && Bits.And(Widen(mask), mask) == mask
  {
    hide Bits.Bitwise;
    var b2, b1, b0 := Byte(mask, 2), Byte(mask, 1), Byte(mask, 0);
    var w2, w1, w0 := if b2 != 0 then 0xFF else 0, if b1 != 0 then 0xFF else 0, if b0 != 0 then 0xFF else 0;
    CoverBytes(b2, b1, b0, w2, w1, w0);
    BytesOf(mask);
    var w := Widen(mask);
    assert w == 0x10000 * w2 + 0x100 * w1 + w0;
    Bits.AndCommutes(mask, w);
  }

  // ---- the lowest 24 bits ----

  const CLASSES := 0x1000000

  // A mask sees no byte above its own.
  lemma MaskOneByte(a: nat, b: nat, m: nat)
    requires m < 0x100 && a % 0x100 == b % 0x100
    ensures Bits.And(a, m) == Bits.And(b, m)
  {
    hide Bits.Bitwise;
    Bits.SplitByte(Bits.AndOp, a, m);
    Bits.SplitByte(Bits.AndOp, b, m);
    Bits.AndZero(a / 0x100);
    Bits.AndZero(b / 0x100);
  }

  lemma MaskSplit(a: nat, b: nat, m: nat)
    ensures Bits.And(a % 0x100, m % 0x100) == Bits.And(b % 0x100, m % 0x100)
         && Bits.And(a / 0x100, m / 0x100) == Bits.And(b / 0x100, m / 0x100)
         ==> Bits.And(a, m) == Bits.And(b, m)
  {
    hide Bits.Bitwise;
    Bits.SplitByte(Bits.AndOp, a, m);
    Bits.SplitByte(Bits.AndOp, b, m);
  }

  lemma TwoBytesSplit(a: nat)
    ensures a % 0x10000 == 0x100 * (a / 0x100 % 0x100) + a % 0x100
  {
    var h, low := a / 0x100, a % 0x100;
    var q, r := h / 0x100, h % 0x100;
    assert a == 0x10000 * q + (0x100 * r + low) && 0 <= 0x100 * r + low < 0x10000;
  }

  lemma ThreeBytesSplit(a: nat)
    ensures a % CLASSES == 0x100 * (a / 0x100 % 0x10000) + a % 0x100
  {
    var h, low := a / 0x100, a % 0x100;
    var q, r := h / 0x10000, h % 0x10000;
    assert a == CLASSES * q + (0x100 * r + low) && 0 <= 0x100 * r + low < CLASSES;
  }

  lemma MaskTwoBytes(a: nat, b: nat, m: nat)
    requires m < 0x10000 && a % 0x10000 == b % 0x10000
    ensures Bits.And(a, m) == Bits.And(b, m)
  {
    hide Bits.Bitwise;
    hide Bits.And;
    TwoBytesSplit(a);
    TwoBytesSplit(b);
    MaskSplit(a, b, m);
    MaskOneByte(a % 0x100, b % 0x100, m % 0x100);
    MaskOneByte(a / 0x100, b / 0x100, m / 0x100);
  }

  lemma MaskThreeBytes(a: nat, b: nat, m: nat)
    requires m < CLASSES && a % CLASSES == b % CLASSES
    ensures Bits.And(a, m) == Bits.And(b, m)
  {
    hide Bits.Bitwise;
    hide Bits.And;
    ThreeBytesSplit(a);
    ThreeBytesSplit(b);
    MaskSplit(a, b, m);
    MaskOneByte(a % 0x100, b % 0x100, m % 0x100);
    MaskTwoBytes(a / 0x100, b / 0x100, m / 0x100);
  }

  lemma XorInRange(a: nat, b: nat)
    requires a < CLASSES && b < CLASSES
    ensures Bits.Xor(a, b) < CLASSES
  {
    hide Bits.Bitwise;
    Bits.ByteShift(0);
    Bits.Nibble(0, 8);
    Bits.Nibble(0, 12);
    Bits.Nibble(0, 16);
    Bits.Nibble(0, 20);
    Bits.Bound(Bits.XorOp, 24, a, b);
  }

  // Flipping bits of a class shows under a mask as those bits.
  lemma FlippedUnderMask(cls: nat, flip: nat, m: nat)
    requires m < CLASSES
    ensures Bits.And(Bits.Xor(Bits.Xor(cls % CLASSES, flip), cls), m) == Bits.And(flip, m)
  {
    hide Bits.Bitwise;
    var low := cls % CLASSES;
    Bits.XorCancels(low, flip);
    Bits.AndOverXor(Bits.Xor(low, flip), cls, m);
    Bits.AndOverXor(Bits.Xor(low, flip), low, m);
    MaskThreeBytes(cls, low, m);
  }

  // The pattern decides the class exactly as the kernel does, for every device,
  // when the mask is made of whole bytes and a class is given; otherwise some device tells them apart.
  lemma ClassRuleExact(cls: nat, mask: nat)
    requires mask < CLASSES
    ensures (forall have | 0 <= have < CLASSES :: ClassAccepts(cls, mask, have) <==> KernelClassRule(cls, mask, have))
       <==> ByteGranular(mask) && (cls != 0 || mask == 0)
  {
    hide Bits.Bitwise;
    WidenGranular(mask);
    if ByteGranular(mask) && (cls != 0 || mask == 0) {
      forall have | 0 <= have < CLASSES
        ensures ClassAccepts(cls, mask, have) <==> KernelClassRule(cls, mask, have)
      {
        Bits.AndZero(Bits.Xor(have, cls));
      }
    } else {
      var have := MisjudgedClass(cls, mask);
      assert ClassAccepts(cls, mask, have) != KernelClassRule(cls, mask, have);
    }
  }

  // A 24-bit device class on which the pattern and the kernel differ.
  lemma MisjudgedClass(cls: nat, mask: nat) returns (have: nat)
    requires mask < CLASSES
    requires !(ByteGranular(mask) && (cls != 0 || mask == 0))
    ensures have < CLASSES
    ensures ClassAccepts(cls, mask, have) != KernelClassRule(cls, mask, have)
  {
    hide Bits.Bitwise;
    WidenGranular(mask);
    WidenCovers(mask);
    var w := Widen(mask);
    // the bits to flip in the wanted class
    var flip := if cls == 0 then mask else Bits.Xor(w, mask);
    have := Bits.Xor(cls % CLASSES, flip);
    XorInRange(w, mask);
    XorInRange(cls % CLASSES, flip);
    FlippedUnderMask(cls, flip, mask);
    FlippedUnderMask(cls, flip, w);
    Bits.AndSelf(mask);
    Bits.AndSelf(w);
    Bits.AndOverXor(w, mask, mask);
    Bits.AndOverXor(w, mask, w);
    Bits.XorZero(mask, mask);
    Bits.XorZero(w, mask);
  }
}

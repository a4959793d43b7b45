/** Detected PCI and USB devices and the alias text they print for themselves. */
module Devices {
  import opened Alias
  import Bits
  import Hex

  datatype Slot = Slot(bus: nat, dev: nat, fn: nat)

  datatype PCIDevice = PCIDevice(slot: Slot, vendor: nat, device: nat, subvendor: nat, subdevice: nat,
                                 cls: nat, headerType: nat)
  {
    function BaseClass(): nat { Bits.And(cls / 0x10000, 0xFF) }

    function SubClass(): nat { Bits.And(cls / 0x100, 0xFF) }

    function ProgIf(): nat { Bits.And(cls, 0xFF) }

    function Alias(): string { Print(Pieces()) }

    function Pieces(): seq<Piece> {
      [Piece("pci:v", Hex.Format(vendor, 8)), Piece("d", Hex.Format(device, 8)),
       Piece("sv", Hex.Format(subvendor, 8)), Piece("sd", Hex.Format(subdevice, 8)),
       Piece("bc", Hex.Format(BaseClass(), 2)), Piece("sc", Hex.Format(SubClass(), 2)),
       Piece("i", Hex.Format(ProgIf(), 2))]
    }
  }

  datatype USBDevice = USBDevice(bus: nat, address: nat, vendor: nat, product: nat, bcdDevice: nat,
                                 devClass: nat, devSubclass: nat, devProtocol: nat,
                                 ifaceClass: nat, ifaceSubclass: nat, ifaceProtocol: nat)
  {
    // The alias ends in a `*` of its own, which a pattern must match as text.
    function Alias(): string { Print(Pieces()) }

    function Pieces(): seq<Piece> {
      [Piece("usb:v", Hex.Format(vendor, 4)), Piece("p", Hex.Format(product, 4)),
       Piece("d", Hex.Format(bcdDevice, 4)),
       Piece("dc", Hex.Format(devClass, 2)), Piece("dsc", Hex.Format(devSubclass, 2)),
       Piece("dp", Hex.Format(devProtocol, 2)),
       Piece("ic", Hex.Format(ifaceClass, 2)), Piece("isc", Hex.Format(ifaceSubclass, 2)),
       Piece("ip", Hex.Format(ifaceProtocol, 2)),
       Piece("in", "*")]
    }
  }
}

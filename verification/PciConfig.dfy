/** PCI configuration access through the CF8/CFC ports
    (PCI Local Bus Specification 3.0, section 3.2.2.3.2). */
module PciConfig {
  import opened Bits
  import opened Wrappers

  type u32 = x: int | 0 <= x < 0x1_0000_0000

  // Registers by bus, device, function and double word; None where the port read fails.
  type Space = (nat, nat, nat, nat) -> Option<u32>

  predicate ValidSlot(bus: nat, dev: nat, fn: nat) { bus < 256 && dev < 32 && fn < 8 }

  // The address `_read32` writes to CF8.
  function Address(bus: nat, dev: nat, fn: nat, offset: nat): nat {
    Or(Or(Or(Or(0x80000000, Shl(bus, 16)), Shl(dev, 11)), Shl(fn, 8)), And(offset, 0xFC))
  }

  // What the host bridge makes of an address with the enable bit set.
  function Selected(address: nat): (nat, nat, nat, nat) {
    (address / 0x10000 % 0x100, address / 0x800 % 0x20, address / 0x100 % 8, address / 4 % 0x40)
  }

  function PortRead(space: Space, address: nat): Option<u32> {
    var (bus, dev, fn, dword) := Selected(address);
    if address / 0x80000000 % 2 == 1 then space(bus, dev, fn, dword) else None
  }

  function Read32(space: Space, bus: nat, dev: nat, fn: nat, offset: nat): Option<u32> {
    PortRead(space, Address(bus, dev, fn, offset))
  }

  // `(dw >> (8 * (offset & 2))) & 0xFFFF` and `(dw >> (8 * (offset & 3))) & 0xFF`
  function WordAt(dw: u32, offset: nat): nat { And(dw / Pow2(8 * And(offset, 2)), 0xFFFF) }

  function ByteAt(dw: u32, offset: nat): nat { And(dw / Pow2(8 * And(offset, 3)), 0xFF) }

  // `offset & ~1` and `offset & ~3` clear the low bits.
  function Read16(space: Space, bus: nat, dev: nat, fn: nat, offset: nat): Option<nat> {
    match Read32(space, bus, dev, fn, offset / 2 * 2)
    case None => None
    case Some(dw) => Some(WordAt(dw, offset))
  }

  function Read8(space: Space, bus: nat, dev: nat, fn: nat, offset: nat): Option<nat> {
    match Read32(space, bus, dev, fn, offset / 4 * 4)
    case None => None
    case Some(dw) => Some(ByteAt(dw, offset))
  }

  // ---- the packing ----

  lemma Shifts(h: nat)
    ensures Shl(h, 8) == 0x100 * h && Shl(h, 11) == 0x800 * h && Shl(h, 16) == 0x10000 * h
  {
    ByteShift(h);
    Nibble(h, 8);
    Nibble(h, 12);
    assert Shl(h, 11) == 2 * Shl(h, 10) && Shl(h, 10) == 2 * Shl(h, 9) && Shl(h, 9) == 2 * Shl(h, 8);
  }

  lemma Powers()
    ensures Pow2(2) == 4 && Pow2(6) == 0x40 && Pow2(8) == 0x100 && Pow2(11) == 0x800 && Pow2(16) == 0x10000
  {
    ByteShift(0);
    Nibble(0, 2);
    Nibble(0, 8);
    Nibble(0, 12);
    assert Pow2(11) == 2 * Pow2(10) && Pow2(10) == 2 * Pow2(9) && Pow2(9) == 2 * Pow2(8);
  }

  lemma {:induction false} OrZero(a: nat)
    ensures Or(a, 0) == a && Or(0, a) == a
  {
    if a > 0 {
      OrZero(a / 2);
    }
  }

  lemma {:induction false} ShlZero(k: nat)
    ensures Shl(0, k) == 0
  {
    if k > 0 {
      ShlZero(k - 1);
    }
  }

  // `a | b` is a sum when b fits under the bits of a.
  lemma OrIsSum(k: nat, a: nat, h: nat, b: nat)
    requires a == Shl(h, k) && b < Pow2(k)
    ensures Or(a, b) == a + b
  {
    hide Bitwise;
    Split(OrOp, k, h, 0, 0, b);
    ShlZero(k);
    OrZero(h);
    OrZero(b);
  }

  lemma ShiftTwo(h: nat)
    ensures Shl(h, 2) == 4 * h
  {
    assert Shl(h, 2) == 2 * Shl(h, 1);
  }

  lemma RegisterBits(offset: nat)
    requires offset < 0x100
    ensures And(offset, 0xFC) == offset / 4 * 4
  {
    RegisterFields(offset / 4, offset % 4);
    assert offset == 4 * (offset / 4) + offset % 4;
    hide And;
  }

  lemma RegisterFields(q: nat, r: nat)
    requires q < 0x40 && r < 4
    ensures And(4 * q + r, 0xFC) == 4 * q
  {
    Powers();
    hide Bitwise;
    ShiftTwo(q);
    ShiftTwo(0x3F);
    AndAllOnes(6, q);
    AndZero(r);
    hide Shl;
    hide Pow2;
    assert 4 * q + r == Shl(q, 2) + r && 0xFC == Shl(0x3F, 2) + 0;
    Split(AndOp, 2, q, r, 0x3F, 0);
  }

  lemma AddressIsSum(bus: nat, dev: nat, fn: nat, offset: nat)
    requires ValidSlot(bus, dev, fn) && offset < 0x100
    ensures Address(bus, dev, fn, offset) == 0x80000000 + 0x10000 * bus + 0x800 * dev + 0x100 * fn + offset / 4 * 4
  {
    Powers();
    RegisterBits(offset);
    hide And;
    hide Bitwise;
    Shifts(bus);
    Shifts(dev);
    Shifts(fn);
    Shifts(0x80);
    Shifts(0x8000);
    Shifts(0x8000 + bus);
    var y := 0x20 * (0x8000 + bus) + dev;
    var z := 8 * y + fn;
    Shifts(y);
    Shifts(z);
    OrIsSum(8, 0x8000, 0x80, bus);
    EnableBus(bus);
    OrIsSum(16, 0x10000 * (0x8000 + bus), 0x8000 + bus, 0x800 * dev);
    OrIsSum(11, 0x800 * y, y, 0x100 * fn);
    OrIsSum(8, 0x100 * z, z, offset / 4 * 4);
  }

  lemma OrAligned(a: nat, e: nat, b: nat)
    requires a == 0x10000 * e
    ensures Or(a, Shl(b, 16)) == 0x10000 * Or(e, b)
  {
    Powers();
    Shifts(e);
    Shifts(b);
    Shifts(Or(e, b));
    hide Bitwise;
    hide Shl;
    hide Pow2;
    Split(OrOp, 16, e, 0, b, 0);
    OrZero(0);
  }

  lemma EnableBus(bus: nat)
    requires bus < 0x100
    ensures Or(0x80000000, Shl(bus, 16)) == 0x10000 * (0x8000 + bus)
  {
    Powers();
    Shifts(0x80);
    hide Bitwise;
    hide Shl;
    hide Pow2;
    OrIsSum(8, 0x8000, 0x80, bus);
    OrAligned(0x80000000, 0x8000, bus);
  }

  // A field of a number written as `high * 2**k * width + field * 2**k + low`.
  lemma Field(a: nat, unit: nat, high: nat, width: nat, field: nat, low: nat)
    requires unit > 0 && low < unit && field < width
    requires a == unit * (width * high + field) + low
    ensures a / unit % width == field
  {
    Quotient(unit, width * high + field, low);
    Quotient(width, high, field);
  }

  lemma Quotient(p: nat, q: nat, r: nat)
    requires r < p
    ensures (p * q + r) / p == q && (p * q + r) % p == r
  {
    var d := (p * q + r) / p - q;
    assert p * d == r - (p * q + r) % p by {
      assert p * q + r == p * ((p * q + r) / p) + (p * q + r) % p;
      assert p * ((p * q + r) / p) - p * q == p * d;
    }
    assert d == 0;
  }

  lemma SelectedFields(a: nat, bus: nat, dev: nat, fn: nat, q: nat)
    requires ValidSlot(bus, dev, fn) && q < 0x40
    requires a == 0x80000000 + 0x10000 * bus + 0x800 * dev + 0x100 * fn + 4 * q
    ensures Selected(a) == (bus, dev, fn, q) && a / 0x80000000 % 2 == 1
  {
    Field(a, 0x10000, 0x80, 0x100, bus, 0x800 * dev + 0x100 * fn + 4 * q);
    Field(a, 0x800, 0x8000 + bus, 0x20, dev, 0x100 * fn + 4 * q);
    Field(a, 0x100, 0x20 * (0x8000 + bus) + dev, 8, fn, 4 * q);
    Field(a, 4, 8 * (0x20 * (0x8000 + bus) + dev) + fn, 0x40, q, 0);
    Field(a, 0x80000000, 0, 2, 1, 0x10000 * bus + 0x800 * dev + 0x100 * fn + 4 * q);
  }

  // The bridge selects exactly the register that was asked for, so no two addresses collide.
  lemma AddressRoundTrip(bus: nat, dev: nat, fn: nat, offset: nat)
    requires ValidSlot(bus, dev, fn) && offset < 0x100
    ensures Selected(Address(bus, dev, fn, offset)) == (bus, dev, fn, offset / 4)
    ensures Address(bus, dev, fn, offset) / 0x80000000 % 2 == 1
    ensures Address(bus, dev, fn, offset) < 0x1_0000_0000
  {
    hide Address;
    AddressIsSum(bus, dev, fn, offset);
    SelectedFields(Address(bus, dev, fn, offset), bus, dev, fn, offset / 4);
  }

  lemma AddressInjective(b: nat, d: nat, f: nat, o: nat, b': nat, d': nat, f': nat, o': nat)
    requires ValidSlot(b, d, f) && ValidSlot(b', d', f') && o < 0x100 && o' < 0x100
    ensures Address(b, d, f, o) == Address(b', d', f', o') <==> (b, d, f, o / 4) == (b', d', f', o' / 4)
  {
    AddressRoundTrip(b, d, f, o);
    AddressRoundTrip(b', d', f', o');
    AddressIsSum(b, d, f, o);
    AddressIsSum(b', d', f', o');
    hide Address;
  }

  lemma Read32Is(space: Space, bus: nat, dev: nat, fn: nat, offset: nat)
    requires ValidSlot(bus, dev, fn) && offset < 0x100
    ensures Read32(space, bus, dev, fn, offset) == space(bus, dev, fn, offset / 4)
  {
    AddressRoundTrip(bus, dev, fn, offset);
    hide Address;
  }

  // ---- narrow reads ----

  // The byte at an offset, least significant first within its double word.
  function ByteOf(dw: u32, i: nat): nat
    requires i < 4
  {
    if i == 0 then dw % 0x100 else if i == 1 then dw / 0x100 % 0x100
    else if i == 2 then dw / 0x10000 % 0x100 else dw / 0x1000000
  }

  lemma LowTwoBits(offset: nat)
    ensures And(offset, 3) == offset % 4
    ensures And(offset, 2) == offset % 4 / 2 * 2
  {
    var a, x := offset / 2, offset % 2;
    LowBit(AndOp, offset, a, x, 3, 1, 1);
    LowBit(AndOp, offset, a, x, 2, 1, 0);
    LowBit(AndOp, a, a / 2, a % 2, 1, 0, 1);
    AndZero(a / 2);
  }

  lemma ShiftAmounts()
    ensures Pow2(0) == 1 && Pow2(8) == 0x100 && Pow2(16) == 0x10000 && Pow2(24) == 0x1000000
  {
    Powers();
    Nibble(0, 16);
    Nibble(0, 20);
  }

  lemma AndWord(x: nat)
    ensures And(x, 0xFFFF) == x % 0x10000
  {
    Powers();
    Shifts(x / 0x10000);
    Shifts(And(x / 0x10000, 0));
    ShlZero(16);
    AndZero(x / 0x10000);
    hide Bitwise;
    Split(AndOp, 16, x / 0x10000, x % 0x10000, 0, 0xFFFF);
    AndAllOnes(16, x % 0x10000);
  }

  lemma ByteAtIs(dw: u32, offset: nat)
    ensures ByteAt(dw, offset) == ByteOf(dw, offset % 4)
  {
    hide Bitwise;
    hide ByteOf;
    LowTwoBits(offset);
    ByteShifted(dw, offset % 4);
    AndByte(dw / Pow2(8 * (offset % 4)));
  }

  lemma WordAtIs(dw: u32, offset: nat)
    ensures var low := offset % 4 / 2 * 2;
            WordAt(dw, offset) == ByteOf(dw, low) + 0x100 * ByteOf(dw, low + 1)
  {
    hide Bitwise;
    hide ByteOf;
    hide Pow2;
    LowTwoBits(offset);
    WordShifted(dw, offset % 4 / 2 * 2);
    AndWord(dw / Pow2(8 * (offset % 4 / 2 * 2)));
  }

  // A byte read gives the byte at any offset.
  lemma Read8Is(space: Space, bus: nat, dev: nat, fn: nat, offset: nat)
    requires ValidSlot(bus, dev, fn) && offset < 0x100
    ensures Read8(space, bus, dev, fn, offset)
         == match space(bus, dev, fn, offset / 4) case None => None case Some(dw) => Some(ByteOf(dw, offset % 4))
  {
    hide Read32;
    hide ByteAt;
    Read32Is(space, bus, dev, fn, offset / 4 * 4);
    assert offset / 4 * 4 / 4 == offset / 4;
    var r := space(bus, dev, fn, offset / 4);
    if r.Some? {
      ByteAtIs(r.value, offset);
    }
  }

  // A word read gives two bytes, the lower one first: those at the offset when it is even,
  // and those one below when it is odd.
  lemma Read16Is(space: Space, bus: nat, dev: nat, fn: nat, offset: nat)
    requires ValidSlot(bus, dev, fn) && offset < 0x100
    ensures var low := offset % 4 / 2 * 2;
            Read16(space, bus, dev, fn, offset)
            == match space(bus, dev, fn, offset / 4)
               case None => None
               case Some(dw) => Some(ByteOf(dw, low) + 0x100 * ByteOf(dw, low + 1))
  {
    hide Read32;
    hide WordAt;
    Read32Is(space, bus, dev, fn, offset / 2 * 2);
    assert offset / 2 * 2 / 4 == offset / 4;
    var r := space(bus, dev, fn, offset / 4);
    if r.Some? {
      WordAtIs(r.value, offset);
    }
  }

  lemma ByteShifted(dw: u32, i: nat)
    requires i < 4
    ensures dw / Pow2(8 * i) % 0x100 == ByteOf(dw, i)
  {
    ShiftAmounts();
    assert i == 0 || i == 1 || i == 2 || i == 3;
  }

  lemma WordShifted(dw: u32, i: nat)
    requires i == 0 || i == 2
    ensures dw / Pow2(8 * i) % 0x10000 == ByteOf(dw, i) + 0x100 * ByteOf(dw, i + 1)
  {
    ShiftAmounts();
    hide Pow2;
    if i == 0 {
      assert dw % 0x10000 == dw % 0x100 + 0x100 * (dw / 0x100 % 0x100);
    } else {
      assert dw / 0x10000 % 0x10000 == dw / 0x10000 % 0x100 + 0x100 * (dw / 0x1000000);
    }
  }
}

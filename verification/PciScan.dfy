/** The scan over all PCI buses, devices and functions
    (PCI Local Bus Specification 3.0, section 6.2.1). */
module PciScan {
  import opened Bits
  import opened Devices
  import opened PciConfig
  import opened Wrappers

  // An OSError on a register read behind the vendor ID.
  datatype Error = OsError

  // ---- what the registers say ----

  const TOTAL := 0x10000

  // Bus, device and function counted through as one number.
  function SlotAt(i: nat): Slot { Slot(i / 0x100, i / 8 % 0x20, i % 8) }

  function Register(space: Space, s: Slot, dword: nat): Option<u32> { space(s.bus, s.dev, s.fn, dword) }

  // A function answers with a vendor ID other than all ones.
  predicate Present(space: Space, s: Slot) {
    Register(space, s, 0).Some? && Register(space, s, 0).value % 0x10000 != 0xFFFF
  }

  // The header type byte, register 0x0E.
  function HeaderType(space: Space, s: Slot): (h: Option<nat>)
    ensures h.Some? ==> h.value < 0x100
  {
    var r := Register(space, s, 3);
    if r.Some? then Some(r.value / 0x10000 % 0x100) else None
  }

  predicate MultiFunction(space: Space, s: Slot) {
    HeaderType(space, s).Some? && HeaderType(space, s).value >= 0x80
  }

  // Functions 1 to 7 are looked at unless function 0 is absent or single; one whose vendor ID
  // cannot be read does not stop the scan of its slot.
  predicate LooksFurther(space: Space, first: Slot) {
    Register(space, first, 0).None? || (Present(space, first) && MultiFunction(space, first))
  }

  predicate Visible(space: Space, i: nat) {
    Present(space, SlotAt(i)) && (i % 8 == 0 || LooksFurther(space, SlotAt(i / 8 * 8)))
  }

  // Subsystem IDs only exist behind a header of type 0.
  function SubsystemAt(space: Space, s: Slot, hdr: nat): Option<(nat, nat)> {
    var sub := Register(space, s, 11);
    if hdr % 0x80 != 0 then Some((0xFFFF, 0xFFFF))
    else if sub.None? then None
    else Some((LowWord(sub).value, HighWord(sub).value))
  }

  // None when some register of the function cannot be read.
  function DeviceAt(space: Space, s: Slot): Option<PCIDevice> {
    var id, cls, hdr := Register(space, s, 0), Register(space, s, 2), HeaderType(space, s);
    if id.None? || cls.None? || hdr.None? then None
    else
      var sub := SubsystemAt(space, s, hdr.value);
      if sub.None? then None
      else
        Some(PCIDevice(s, LowWord(id).value, HighWord(id).value, sub.value.0, sub.value.1,
                       cls.value / 0x100, hdr.value))
  }

  function LowWord(r: Option<u32>): (w: Option<nat>)
    ensures w.Some? <==> r.Some?
  {
    if r.Some? then Some(r.value % 0x10000) else None
  }

  function HighWord(r: Option<u32>): (w: Option<nat>)
    ensures w.Some? <==> r.Some?
  {
    if r.Some? then Some(r.value / 0x10000) else None
  }

  ghost predicate Readable(space: Space, n: nat) {
    forall i | 0 <= i < n && Visible(space, i) :: DeviceAt(space, SlotAt(i)).Some?
  }

  // The visible functions below n, in order.
  function Listing(space: Space, n: nat): seq<PCIDevice> {
    if n == 0 then []
    else
      var d := DeviceAt(space, SlotAt(n - 1));
      Listing(space, n - 1) + (if Visible(space, n - 1) && d.Some? then [d.value] else [])
  }

  // ---- masks ----

  lemma SevenBits(h: nat)
    requires h < 0x100
    ensures And(h, 0x7F) == h % 0x80
    ensures And(h, 0x80) != 0 <==> h >= 0x80
  {
    var q, r := h / 0x80, h % 0x80;
    SevenShift(q);
    SevenShift(0);
    SevenShift(1);
    hide Bitwise;
    Split(AndOp, 7, q, r, 0, 0x7F);
    Split(AndOp, 7, q, r, 1, 0);
    AndAllOnes(7, r);
    AndZero(q);
    AndZero(r);
    AndAllOnes(1, q);
    SevenShift(And(q, 0));
    SevenShift(And(q, 1));
  }

  lemma SevenShift(h: nat)
    ensures Shl(h, 7) == 0x80 * h && Pow2(7) == 0x80 && Pow2(1) == 2
  {
    Nibble(h, 0);
    assert Shl(h, 7) == 2 * Shl(h, 6) && Shl(h, 6) == 2 * Shl(h, 5) && Shl(h, 5) == 2 * Shl(h, 4);
    assert Pow2(7) == 2 * Pow2(6) && Pow2(6) == 2 * Pow2(5) && Pow2(5) == 2 * Pow2(4);
  }

  // `(cls_raw >> 8) & 0xFFFFFF` keeps everything of a 32-bit register.
  lemma ClassBits(raw: u32)
    ensures And(raw / 0x100, 0xFFFFFF) == raw / 0x100
  {
    Nibble(0, 8);
    Nibble(0, 12);
    Nibble(0, 16);
    Nibble(0, 20);
    ByteShift(0);
    AndAllOnes(24, raw / 0x100);
  }

  ghost predicate IsSlot(s: Slot) { ValidSlot(s.bus, s.dev, s.fn) }

  lemma Words(r: Option<u32>)
    ensures r.Some? ==> ByteOf(r.value, 0) + 0x100 * ByteOf(r.value, 1) == r.value % 0x10000
    ensures r.Some? ==> ByteOf(r.value, 2) + 0x100 * ByteOf(r.value, 3) == r.value / 0x10000
  {}

  // The two word reads and the header read of a register are its fields.
  lemma WordReads(space: Space, s: Slot, dword: nat)
    requires IsSlot(s) && dword < 0x40
    ensures Read16(space, s.bus, s.dev, s.fn, 4 * dword) == LowWord(Register(space, s, dword))
    ensures Read16(space, s.bus, s.dev, s.fn, 4 * dword + 2) == HighWord(Register(space, s, dword))
  {
    hide Read16;
    Read16Is(space, s.bus, s.dev, s.fn, 4 * dword);
    Read16Is(space, s.bus, s.dev, s.fn, 4 * dword + 2);
    assert 4 * dword / 4 == dword && 4 * dword % 4 == 0;
    assert (4 * dword + 2) / 4 == dword && (4 * dword + 2) % 4 == 2;
    Words(Register(space, s, dword));
    hide ByteOf;
  }

  lemma OtherReads(space: Space, s: Slot)
    requires IsSlot(s)
    ensures Read32(space, s.bus, s.dev, s.fn, 0x08) == Register(space, s, 2)
    ensures Read8(space, s.bus, s.dev, s.fn, 0x0E) == HeaderType(space, s)
  {
    hide Read32;
    hide Read8;
    Read32Is(space, s.bus, s.dev, s.fn, 0x08);
    Read8Is(space, s.bus, s.dev, s.fn, 0x0E);
  }

  class PCIScanner {
    var fd: int
    const space: Space

    constructor (space: Space)
      ensures fd == -1 && this.space == space
    {
      fd := -1;
      this.space := space;
    }

    // Opening the port device succeeds or not.
    method Open(descriptor: Option<nat>) returns (ok: bool)
      modifies this
      ensures ok == descriptor.Some? && fd == if ok then descriptor.value else old(fd)
    {
      if descriptor.Some? {
        fd := descriptor.value;
        return true;
      }
      return false;
    }

    method Close()
      modifies this
      ensures fd < 0
    {
      if fd >= 0 {
        fd := -1;
      }
    }

    method ReadSubsystem(s: Slot, hdr: nat) returns (r: Option<(nat, nat)>)
      requires IsSlot(s) && hdr < 0x100
      ensures r == SubsystemAt(space, s, hdr)
    {
      WordReads(space, s, 11);
      SevenBits(hdr);
      hide Read16;
      hide And;
      hide LowWord;
      hide HighWord;
      if And(hdr, 0x7F) != 0 {
        return Some((0xFFFF, 0xFFFF));
      }
      var svid := Read16(space, s.bus, s.dev, s.fn, 0x2C);
      var sdid := Read16(space, s.bus, s.dev, s.fn, 0x2E);
      r := if svid.Some? && sdid.Some? then Some((svid.value, sdid.value)) else None;
    }

    // All of one present function; None stands for the error of a register that cannot be read.
    method ReadFunction(s: Slot, vid: nat) returns (d: Option<PCIDevice>)
      requires IsSlot(s) && LowWord(Register(space, s, 0)) == Some(vid)
      ensures d == DeviceAt(space, s)
    {
      WordReads(space, s, 0);
      OtherReads(space, s);
      hide Read32;
      hide Read16;
      hide Read8;
      hide And;
      hide LowWord;
      hide HighWord;
      hide SubsystemAt;
      var did := Read16(space, s.bus, s.dev, s.fn, 0x02);
      var raw := Read32(space, s.bus, s.dev, s.fn, 0x08);
      var hdr := Read8(space, s.bus, s.dev, s.fn, 0x0E);
      d := None;
      if raw.Some? && hdr.Some? {
        ClassBits(raw.value);
        var sub := ReadSubsystem(s, hdr.value);
        if sub.Some? {
          d := Some(PCIDevice(s, vid, did.value, sub.value.0, sub.value.1,
                              And(raw.value / 0x100, 0xFFFFFF), hdr.value));
        }
      }
    }

    // The functions of one slot, behind the devices found so far.
    method ScanSlot(bus: nat, dev: nat, ghost first: nat, before: seq<PCIDevice>)
      returns (r: Result<seq<PCIDevice>, Error>)
      requires bus < 256 && dev < 32 && first == 0x100 * bus + 8 * dev
      requires Found(space, first, Ok(before))
      ensures Found(space, first + 8, r)
    {
      hide Read16;
      hide DeviceAt;
      hide Visible;
      hide LooksFurther;
      hide MultiFunction;
      hide Found;
      hide SlotAt;
      hide And;
      var devices := before;
      for fn := 0 to 8
        invariant Found(space, first + fn, Ok(devices))
        invariant fn > 0 ==> LooksFurther(space, Slot(bus, dev, 0))
      {
        var s := Slot(bus, dev, fn);
        SlotOf(space, bus, dev, fn);
        WordReads(space, s, 0);
        var vid := Read16(space, bus, dev, fn, 0x00);
        if vid.None? {
          FoundNothing(space, first + fn, devices);
          Further(space, s);
          continue;
        }
        if vid.value == 0xFFFF {
          if fn == 0 {
            Further(space, s);
            SlotEnds(space, bus, dev, 0, devices);
            return Ok(devices);
          }
          FoundNothing(space, first + fn, devices);
          continue;
        }
        var d := ReadFunction(s, vid.value);
        if d.None? {
          FoundError(space, first + fn, first + 8);
          return Raised(OsError);
        }
        FoundOne(space, first + fn, devices);
        devices := devices + [d.value];
        HeaderOfDevice(space, s);
        Further(space, s);
        if fn == 0 && And(d.value.headerType, 0x80) == 0 {
          SlotEnds(space, bus, dev, 1, devices);
          return Ok(devices);
        }
      }
      return Ok(devices);
    }

    method Scan() returns (r: Result<seq<PCIDevice>, Error>)
      ensures fd < 0 ==> r == Ok([])
      ensures fd >= 0 ==> Found(space, TOTAL, r)
    {
      if fd < 0 {
        return Ok([]);
      }
      var devices := [];
      FoundNone(space);
      hide Found;
      ghost var n := 0;
      for bus := 0 to 256
        invariant n == 0x100 * bus && Found(space, n, Ok(devices))
      {
        for dev := 0 to 32
          invariant n == 0x100 * bus + 8 * dev && Found(space, n, Ok(devices))
        {
          var slot := ScanSlot(bus, dev, n, devices);
          n := n + 8;
          if slot.Raised? {
            StillError(space, n, TOTAL);
            return Raised(OsError);
          }
          devices := slot.value;
        }
      }
      return Ok(devices);
    }
  }

  // What the scan has to show for the first n functions.
  ghost predicate Found(space: Space, n: nat, r: Result<seq<PCIDevice>, Error>) {
    r == if Readable(space, n) then Ok(Listing(space, n)) else Raised(OsError)
  }

  lemma SlotOf(space: Space, bus: nat, dev: nat, fn: nat)
    requires bus < 256 && dev < 32 && fn < 8
    ensures var i := 0x100 * bus + 8 * dev + fn;
            && SlotAt(i) == Slot(bus, dev, fn)
            && (Visible(space, i)
                <==> Present(space, Slot(bus, dev, fn)) && (fn == 0 || LooksFurther(space, Slot(bus, dev, 0))))
  {
    var i, k := 0x100 * bus + 8 * dev + fn, 0x20 * bus + dev;
    Quotient(8, k, fn);
    Quotient(0x20, bus, dev);
    Quotient(8, k, 0);
    Quotient(0x100, bus, 8 * dev + fn);
    Quotient(0x100, bus, 8 * dev);
    assert i / 8 == k && i / 8 * 8 == 0x100 * bus + 8 * dev && 8 * k / 8 == k;
  }

  lemma Further(space: Space, s: Slot)
    ensures Register(space, s, 0).None? ==> LooksFurther(space, s)
    ensures Register(space, s, 0).Some? && !Present(space, s) ==> !LooksFurther(space, s)
    ensures Present(space, s) ==> (LooksFurther(space, s) <==> MultiFunction(space, s))
  {}

  lemma FoundNone(space: Space)
    ensures Found(space, 0, Ok([]))
  {}

  // One function more.
  lemma ListingStep(space: Space, n: nat)
    ensures Readable(space, n + 1) <==> Readable(space, n) && (Visible(space, n) ==> DeviceAt(space, SlotAt(n)).Some?)
    ensures !Visible(space, n) ==> Listing(space, n + 1) == Listing(space, n)
    ensures Visible(space, n) && DeviceAt(space, SlotAt(n)).Some? ==>
      Listing(space, n + 1) == Listing(space, n) + [DeviceAt(space, SlotAt(n)).value]
  {
    hide Visible;
    hide DeviceAt;
    hide SlotAt;
    assert Listing(space, n) + [] == Listing(space, n);
  }

  lemma FoundNothing(space: Space, n: nat, devices: seq<PCIDevice>)
    requires Found(space, n, Ok(devices)) && !Visible(space, n)
    ensures Found(space, n + 1, Ok(devices))
  {
    hide Visible;
    hide DeviceAt;
    hide Listing;
    hide Readable;
    ListingStep(space, n);
  }

  lemma FoundOne(space: Space, n: nat, devices: seq<PCIDevice>)
    requires Found(space, n, Ok(devices)) && Visible(space, n) && DeviceAt(space, SlotAt(n)).Some?
    ensures Found(space, n + 1, Ok(devices + [DeviceAt(space, SlotAt(n)).value]))
  {
    hide Visible;
    hide DeviceAt;
    hide Listing;
    hide Readable;
    ListingStep(space, n);
  }

  lemma FoundError(space: Space, n: nat, m: nat)
    requires n < m && Visible(space, n) && DeviceAt(space, SlotAt(n)).None?
    ensures Found(space, m, Raised(OsError))
  {
    hide Visible;
    hide DeviceAt;
    hide Listing;
  }

  lemma StillError(space: Space, n: nat, m: nat)
    requires n <= m && Found(space, n, Raised(OsError))
    ensures Found(space, m, Raised(OsError))
  {
    hide Visible;
    hide DeviceAt;
    hide Listing;
  }

  // From function j on, a slot that is not looked at further shows nothing.
  lemma SlotEnds(space: Space, bus: nat, dev: nat, j: nat, devices: seq<PCIDevice>)
    requires bus < 256 && dev < 32 && j <= 8
    requires Found(space, 0x100 * bus + 8 * dev + j, Ok(devices))
    requires !LooksFurther(space, Slot(bus, dev, 0)) && (j == 0 ==> !Present(space, Slot(bus, dev, 0)))
    ensures Found(space, 0x100 * bus + 8 * dev + 8, Ok(devices))
    decreases 8 - j
  {
    hide Found;
    hide LooksFurther;
    if j < 8 {
      SlotOf(space, bus, dev, j);
      FoundNothing(space, 0x100 * bus + 8 * dev + j, devices);
      SlotEnds(space, bus, dev, j + 1, devices);
    }
  }

  lemma HeaderOfDevice(space: Space, s: Slot)
    requires DeviceAt(space, s).Some?
    ensures var h := DeviceAt(space, s).value.headerType;
            h < 0x100 && (And(h, 0x80) == 0 <==> !MultiFunction(space, s))
  {
    SevenBits(DeviceAt(space, s).value.headerType);
  }

  // ---- the result ----

  function Number(s: Slot): nat { 0x100 * s.bus + 8 * s.dev + s.fn }

  lemma NumberOfSlot(i: nat)
    ensures Number(SlotAt(i)) == i
  {
    var k := i / 8;
    assert i == 8 * k + i % 8 && k == 0x20 * (k / 0x20) + k % 0x20 && k / 0x20 == i / 0x100;
  }

  lemma SlotOfDevice(space: Space, s: Slot)
    requires DeviceAt(space, s).Some?
    ensures DeviceAt(space, s).value.slot == s
  {}

  ghost predicate Ordered(ds: seq<PCIDevice>, n: nat) {
    && (forall j, k | 0 <= j < k < |ds| :: Number(ds[j].slot) < Number(ds[k].slot))
    && forall j | 0 <= j < |ds| :: Number(ds[j].slot) < n
  }

  // d is what the registers of a visible function below n say.
  ghost predicate Listed(space: Space, n: nat, d: PCIDevice) {
    exists i :: 0 <= i < n && Visible(space, i) && DeviceAt(space, SlotAt(i)) == Some(d)
  }

  lemma OrderedMore(ds: seq<PCIDevice>, n: nat, d: PCIDevice)
    requires Ordered(ds, n) && Number(d.slot) == n
    ensures Ordered(ds, n + 1) && Ordered(ds + [d], n + 1)
  {
    hide Number;
  }

  lemma {:induction false} ListingOrdered(space: Space, n: nat)
    requires Readable(space, n)
    ensures Ordered(Listing(space, n), n)
  {
    hide Visible;
    hide DeviceAt;
    hide SlotAt;
    hide Ordered;
    if n == 0 {
      NoneOrdered();
    } else {
      ListingOrdered(space, n - 1);
      ListingStep(space, n - 1);
      NumberOfSlot(n - 1);
      hide Listing;
      hide Readable;
      hide Number;
      var d := DeviceAt(space, SlotAt(n - 1));
      if d.Some? {
        SlotOfDevice(space, SlotAt(n - 1));
        OrderedMore(Listing(space, n - 1), n - 1, d.value);
      } else {
        OrderedLater(Listing(space, n - 1), n - 1);
      }
    }
  }

  lemma NoneOrdered()
    ensures Ordered([], 0)
  {}

  lemma OrderedLater(ds: seq<PCIDevice>, n: nat)
    requires Ordered(ds, n)
    ensures Ordered(ds, n + 1)
  {}

  lemma {:induction false} ListingMembers(space: Space, n: nat, d: PCIDevice)
    requires Readable(space, n)
    ensures d in Listing(space, n) <==> Listed(space, n, d)
  {
    hide Visible;
    hide DeviceAt;
    hide SlotAt;
    if n > 0 {
      ListingStep(space, n - 1);
      hide Listing;
      ListingMembers(space, n - 1, d);
    }
  }

  // The scan lists exactly the visible functions, each once, in strictly increasing order.
  lemma ListingExact(space: Space, n: nat)
    requires Readable(space, n)
    ensures Ordered(Listing(space, n), n)
    ensures forall d :: d in Listing(space, n) <==> Listed(space, n, d)
  {
    ListingOrdered(space, n);
    forall d ensures d in Listing(space, n) <==> Listed(space, n, d) { ListingMembers(space, n, d); }
  }

  ghost predicate NoReadErrors(space: Space) {
    forall s: Slot, dword: nat | IsSlot(s) && dword < 0x40 :: Register(space, s, dword).Some?
  }

  // Function 0 of a slot, and the others when the present function 0 has the multi-function bit.
  ghost predicate Scannable(space: Space, s: Slot) {
    && IsSlot(s) && Present(space, s)
    && (s.fn > 0 ==> Present(space, s.(fn := 0)) && MultiFunction(space, s.(fn := 0)))
  }

  lemma VisibleIsScannable(space: Space, i: nat)
    requires NoReadErrors(space) && i < TOTAL
    ensures Visible(space, i) <==> Scannable(space, SlotAt(i))
    ensures DeviceAt(space, SlotAt(i)).Some?
  {
    var s := SlotAt(i);
    var first := s.(fn := 0);
    assert IsSlot(s) && IsSlot(first);
    SlotOf(space, s.bus, s.dev, s.fn);
    NumberOfSlot(i);
    assert Register(space, s, 0).Some? && Register(space, s, 2).Some? && Register(space, s, 3).Some?
      && Register(space, s, 11).Some? && Register(space, first, 0).Some?;
    hide SlotAt;
    hide Present;
    hide MultiFunction;
  }

  // Without read errors a scan succeeds and lists exactly the scannable functions, in order.
  lemma CleanScan(space: Space)
    requires NoReadErrors(space)
    ensures Found(space, TOTAL, Ok(Listing(space, TOTAL))) && Ordered(Listing(space, TOTAL), TOTAL)
    ensures forall d :: d in Listing(space, TOTAL) <==> Scannable(space, d.slot) && DeviceAt(space, d.slot) == Some(d)
  {
    forall i: nat | i < TOTAL
      ensures (Visible(space, i) <==> Scannable(space, SlotAt(i))) && DeviceAt(space, SlotAt(i)).Some?
    {
      VisibleIsScannable(space, i);
    }
    hide Visible;
    hide Listing;
    ListingExact(space, TOTAL);
    forall d ensures d in Listing(space, TOTAL) <==> Scannable(space, d.slot) && DeviceAt(space, d.slot) == Some(d) {
      ScannableListed(space, d);
    }
  }

  lemma ScannableListed(space: Space, d: PCIDevice)
    requires NoReadErrors(space)
    ensures Listed(space, TOTAL, d) <==> Scannable(space, d.slot) && DeviceAt(space, d.slot) == Some(d)
  {
    hide Visible;
    hide DeviceAt;
    hide Present;
    hide MultiFunction;
    if Listed(space, TOTAL, d) {
      var i :| 0 <= i < TOTAL && Visible(space, i) && DeviceAt(space, SlotAt(i)) == Some(d);
      VisibleIsScannable(space, i);
      SlotOfDevice(space, SlotAt(i));
    }
    if Scannable(space, d.slot) && DeviceAt(space, d.slot) == Some(d) {
      SlotOf(space, d.slot.bus, d.slot.dev, d.slot.fn);
      var i := 0x100 * d.slot.bus + 8 * d.slot.dev + d.slot.fn;
      VisibleIsScannable(space, i);
    }
  }

  // ---- a space that holds given devices ----

  // Devices by slot, as registers can hold them.
  ghost predicate Plugged(ds: map<Slot, PCIDevice>) {
    forall s | s in ds :: IsSlot(s) && ds[s].slot == s && Fits(ds[s]) && Reachable(ds, s)
  }

  // IDs of 16 bits, of which the vendor is not all ones, a class of 24, a header type of 8,
  // and sub-IDs only behind a header of type 0.
  predicate Fits(d: PCIDevice) {
    && d.vendor < 0xFFFF && d.device < 0x10000 && d.subvendor < 0x10000 && d.subdevice < 0x10000
    && d.cls < 0x1000000 && d.headerType < 0x100
    && (d.headerType % 0x80 != 0 ==> d.subvendor == 0xFFFF && d.subdevice == 0xFFFF)
  }

  predicate Reachable(ds: map<Slot, PCIDevice>, s: Slot) {
    s.fn > 0 ==> s.(fn := 0) in ds && ds[s.(fn := 0)].headerType >= 0x80
  }

  // What a device has in the registers the scan reads.
  function Registers(d: PCIDevice, dword: nat): u32
    requires Fits(d)
  {
    if dword == 0 then d.vendor + 0x10000 * d.device
    else if dword == 2 then 0x100 * d.cls
    else if dword == 3 then 0x10000 * d.headerType
    else if dword == 11 then d.subvendor + 0x10000 * d.subdevice
    else 0
  }

  // An empty slot answers with all ones.
  function SpaceOf(ds: map<Slot, PCIDevice>): Space
    requires forall s | s in ds :: Fits(ds[s])
  {
    (bus, dev, fn, dword) =>
      var s := Slot(bus, dev, fn);
      Some(if s in ds then Registers(ds[s], dword) else 0xFFFFFFFF)
  }

  lemma DeviceRead(ds: map<Slot, PCIDevice>, s: Slot)
    requires Plugged(ds)
    ensures Present(SpaceOf(ds), s) <==> s in ds
    ensures s in ds ==> DeviceAt(SpaceOf(ds), s) == Some(ds[s])
    ensures s in ds ==> (MultiFunction(SpaceOf(ds), s) <==> ds[s].headerType >= 0x80)
  {
    if s in ds {
      var d := ds[s];
      Quotient(0x10000, d.device, d.vendor);
      Quotient(0x100, d.cls, 0);
      Quotient(0x10000, d.headerType, 0);
      Quotient(0x10000, d.subdevice, d.subvendor);
      hide Reachable;
    }
  }

  // Scanning a space with devices plugged in returns exactly those devices, as they were, in order.
  lemma ScanReturnsDevices(ds: map<Slot, PCIDevice>)
    requires Plugged(ds)
    ensures var listing := Listing(SpaceOf(ds), TOTAL);
            && Found(SpaceOf(ds), TOTAL, Ok(listing)) && Ordered(listing, TOTAL)
            && forall d :: d in listing <==> d.slot in ds && ds[d.slot] == d
  {
    var space := SpaceOf(ds);
    NoErrors(ds);
    CleanScan(space);
    forall s: Slot ensures Scannable(space, s) <==> s in ds {
      DeviceRead(ds, s);
      DeviceRead(ds, s.(fn := 0));
    }
    forall s: Slot | s in ds ensures DeviceAt(space, s) == Some(ds[s]) {
      DeviceRead(ds, s);
    }
    hide SpaceOf;
    hide DeviceAt;
    hide Listing;
    hide Scannable;
    hide Found;
    hide Ordered;
    forall d: PCIDevice ensures d in Listing(space, TOTAL) <==> d.slot in ds && ds[d.slot] == d {
    }
  }

  lemma NoErrors(ds: map<Slot, PCIDevice>)
    requires forall s | s in ds :: Fits(ds[s])
    ensures NoReadErrors(SpaceOf(ds))
  {}
}

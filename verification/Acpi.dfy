/** The ACPI root tables (ACPI specification 6.5, sections 5.2.7 and 5.2.8). */
module Acpi {
  import opened Bytes
  import opened Wrappers

  const HEADER := 36
  const MAX_TABLE := 4096

  // `struct.unpack_from("<I")` for width 4, `"<Q"` for width 8.
  function Little(data: bytes, offset: nat, width: nat): nat
    requires offset + width <= |data|
    decreases width
  {
    if width == 0 then 0 else data[offset] as nat + 0x100 * Little(data, offset + 1, width - 1)
  }

  // Mapping some bytes of physical memory at an address gives bytes, or fails.
  type Memory = (nat, nat) -> Option<bytes>

  // ---- the root tables ----

  // A zero entry is skipped.
  function Shown(addr: nat): seq<nat> {
    if addr != 0 then [addr] else []
  }

  // The non-zero addresses from an offset on.
  function Addresses(data: bytes, offset: nat, width: nat): seq<nat>
    requires width > 0
    decreases if offset < |data| then |data| - offset else 0
  {
    if offset + width > |data| then []
    else Shown(Little(data, offset, width)) + Addresses(data, offset + width, width)
  }

  function ParseTable(mem: Memory, phys: nat, width: nat): seq<nat>
    requires width > 0
  {
    match mem(phys, 8)
    case None => []
    case Some(hdr) =>
      if |hdr| < 8 then []
      else
        var length := Little(hdr, 4, 4);
        match mem(phys, if length < MAX_TABLE then length else MAX_TABLE)
        case None => []
        case Some(data) => if |data| < HEADER then [] else Addresses(data, HEADER, width)
  }

  // The entry loop.
  method ReadEntries(data: bytes, width: nat) returns (addrs: seq<nat>)
    requires width > 0
    ensures addrs == Addresses(data, HEADER, width)
  {
    hide Little;
    addrs := [];
    var offset := HEADER;
    while offset + width <= |data|
      invariant Addresses(data, HEADER, width) == addrs + Addresses(data, offset, width)
      decreases if offset < |data| then |data| - offset else 0
    {
      var addr := Little(data, offset, width);
      Regroup(addrs, Shown(addr), Addresses(data, offset + width, width));
      if addr != 0 {
        addrs := addrs + [addr];
      }
      offset := offset + width;
    }
  }

  lemma Regroup(a: seq<nat>, b: seq<nat>, c: seq<nat>)
    ensures a + (b + c) == (a + b) + c
    ensures a + [] == a
  {
  }

  // _parse_rsdt with width 4, _parse_xsdt with width 8.
  method ParseRootTable(mem: Memory, phys: nat, width: nat) returns (addrs: seq<nat>)
    requires width == 4 || width == 8
    ensures addrs == ParseTable(mem, phys, width)
  {
    hide Little;
    hide Addresses;
    addrs := [];
    var hdr := mem(phys, 8);
    if hdr.Some? && |hdr.value| >= 8 {
      var length := Little(hdr.value, 4, 4);
      var mapped := mem(phys, if length < MAX_TABLE then length else MAX_TABLE);
      if mapped.Some? && |mapped.value| >= HEADER {
        addrs := ReadEntries(mapped.value, width);
      }
    }
  }

  // ---- encoding ----

  function Power(width: nat): (p: nat)
    ensures p > 0
  {
    if width == 0 then 1 else 0x100 * Power(width - 1)
  }

  function Encode(n: nat, width: nat): (b: bytes)
    ensures |b| == width
  {
    if width == 0 then [] else [n % 0x100] + Encode(n / 0x100, width - 1)
  }

  function EncodeAll(addrs: seq<nat>, width: nat): (b: bytes)
    ensures |b| == width * |addrs|
  {
    if addrs == [] then [] else
      assert width * |addrs| == width + width * |addrs[1..]|;
      Encode(addrs[0], width) + EncodeAll(addrs[1..], width)
  }

  function NonZero(addrs: seq<nat>): seq<nat> {
    if addrs == [] then []
    else if addrs[0] == 0 then NonZero(addrs[1..])
    else [addrs[0]] + NonZero(addrs[1..])
  }

  lemma {:induction false} LittleRoundTrip(pre: bytes, n: nat, width: nat, rest: bytes)
    requires n < Power(width)
    ensures Little(pre + Encode(n, width) + rest, |pre|, width) == n
    decreases width
  {
    if width > 0 {
      var data := pre + Encode(n, width) + rest;
      var pre', low := pre + [n % 0x100], n % 0x100;
      assert data == pre' + Encode(n / 0x100, width - 1) + rest;
      LittleRoundTrip(pre', n / 0x100, width - 1, rest);
      assert data[|pre|] == low;
    }
  }

  // Whole entries followed by a broken one: the broken one is dropped.
  lemma {:induction false} AddressesEncoded(pre: bytes, addrs: seq<nat>, width: nat, tail: bytes)
    requires |tail| < width && forall i | 0 <= i < |addrs| :: addrs[i] < Power(width)
    ensures Addresses(pre + EncodeAll(addrs, width) + tail, |pre|, width) == NonZero(addrs)
    decreases |addrs|
  {
    hide Little;
    hide Encode;
    hide Power;
    var data := pre + EncodeAll(addrs, width) + tail;
    if addrs != [] {
      var code, rest := Encode(addrs[0], width), EncodeAll(addrs[1..], width);
      assert data == pre + code + (rest + tail);
      assert data == (pre + code) + rest + tail;
      LittleRoundTrip(pre, addrs[0], width, rest + tail);
      AddressesEncoded(pre + code, addrs[1..], width, tail);
    }
  }

  // The bytes of the first entries come first.
  lemma {:induction false} EncodeSplit(addrs: seq<nat>, k: nat, width: nat)
    requires k <= |addrs|
    ensures EncodeAll(addrs, width) == EncodeAll(addrs[..k], width) + EncodeAll(addrs[k..], width)
  {
    hide Encode;
    if k > 0 {
      EncodeSplit(addrs[1..], k - 1, width);
      assert addrs[..k][0] == addrs[0] && addrs[..k][1..] == addrs[1..][..k - 1];
      assert addrs[1..][k - 1..] == addrs[k..];
    } else {
      assert addrs[..0] == [] && addrs[0..] == addrs;
    }
  }

  // A root table in memory: any header of 36 bytes that holds the table's length, then the entries.
  ghost predicate HoldsTable(mem: Memory, phys: nat, header: bytes, addrs: seq<nat>, width: nat) {
    && |header| == HEADER && Little(header, 4, 4) == HEADER + width * |addrs|
    && var table := header + EncodeAll(addrs, width);
    && forall n: nat | 0 < n <= |table| :: mem(phys, n) == Some(table[..n])
  }

  // The entries of the given width that fit into the bytes that are read.
  function Limit(width: nat): nat {
    if width == 4 then 1015 else 507
  }

  // Cutting a table at 4096 bytes leaves the first entries and half an entry at most.
  lemma TableCut(header: bytes, addrs: seq<nat>, width: nat)
    requires width == 4 || width == 8
    requires |header| == HEADER && HEADER + width * |addrs| > MAX_TABLE
    requires forall i | 0 <= i < |addrs| :: addrs[i] < Power(width)
    ensures |addrs| >= Limit(width)
    ensures Addresses((header + EncodeAll(addrs, width))[..MAX_TABLE], HEADER, width)
         == NonZero(addrs[..Limit(width)])
  {
    hide Encode;
    hide EncodeAll;
    hide Power;
    hide NonZero;
    hide Addresses;
    var k := Limit(width);
    EncodeSplit(addrs, k, width);
    var whole, rest := EncodeAll(addrs[..k], width), EncodeAll(addrs[k..], width);
    assert |whole| == width * k;
    assert |whole| + |rest| == width * |addrs|;
    var tail := rest[..MAX_TABLE - HEADER - |whole|];
    assert (header + (whole + rest))[..MAX_TABLE] == header + whole + tail;
    AddressesEncoded(header, addrs[..k], width, tail);
  }

  // Reading an encoded root table gives its non-zero addresses in order, up to the entries
  // that fit into 4096 bytes: 1015 of width 4, 507 of width 8.
  lemma RootTableRoundTrip(mem: Memory, phys: nat, header: bytes, addrs: seq<nat>, width: nat)
    requires width == 4 || width == 8
    requires forall i | 0 <= i < |addrs| :: addrs[i] < Power(width)
    requires HoldsTable(mem, phys, header, addrs, width)
    ensures ParseTable(mem, phys, width)
         == NonZero(if |addrs| <= Limit(width) then addrs else addrs[..Limit(width)])
  {
    hide Encode;
    hide EncodeAll;
    hide Power;
    hide NonZero;
    hide Addresses;
    hide Little;
    var table := header + EncodeAll(addrs, width);
    LittleSame(table[..8], header, 4, 4);
    if |table| <= MAX_TABLE {
      assert table[..|table|] == header + EncodeAll(addrs, width) + [];
      AddressesEncoded(header, addrs, width, []);
    } else {
      TableCut(header, addrs, width);
      if |addrs| == Limit(width) {
        assert addrs[..Limit(width)] == addrs;
      }
    }
  }

  lemma {:induction false} LittleSame(a: bytes, b: bytes, offset: nat, width: nat)
    requires offset + width <= |a| && offset + width <= |b|
    requires a[offset..offset + width] == b[offset..offset + width]
    ensures Little(a, offset, width) == Little(b, offset, width)
    decreases width
  {
    if width > 0 {
      var x, y := a[offset..offset + width], b[offset..offset + width];
      assert a[offset] == x[0] == y[0] == b[offset];
      assert a[offset + 1..offset + width] == x[1..] && b[offset + 1..offset + width] == y[1..];
      LittleSame(a, b, offset + 1, width - 1);
    }
  }
}

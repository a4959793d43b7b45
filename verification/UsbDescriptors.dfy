/** The walk over a USB configuration descriptor to its first interface
    (USB 2.0 specification, sections 9.6.3 and 9.6.5). */
module UsbDescriptors {
  import opened Bytes
  import opened Wrappers

  const DT_INTERFACE := 4
  const BUFFER := 255

  // Class, subclass and protocol.
  type Triple = (byte, byte, byte)

  const NO_INTERFACE: Triple := (0, 0, 0)

  // The rest of the walk from an offset.
  function Walk(data: bytes, offset: nat): Triple
    decreases if offset < |data| then |data| - offset else 0
  {
    if offset + 2 > |data| || data[offset] < 2 then NO_INTERFACE
    else if data[offset + 1] == DT_INTERFACE && offset + 9 <= |data| then
      (data[offset + 5], data[offset + 6], data[offset + 7])
    else Walk(data, offset + data[offset])
  }

  // None is a failed transfer.
  method ReadFirstInterface(transfer: Option<bytes>) returns (r: Triple)
    ensures r == if transfer.None? || |transfer.value| < 9 then NO_INTERFACE else Walk(transfer.value, 0)
  {
    if transfer.None? || |transfer.value| < 9 {
      return NO_INTERFACE;
    }
    var data := transfer.value;
    var offset := 0;
    while offset + 2 <= |data|
      invariant Walk(data, 0) == Walk(data, offset)
      decreases if offset < |data| then |data| - offset else 0
    {
      var bLength := data[offset];
      var bType := data[offset + 1];
      if bLength < 2 {
        break;
      }
      if bType == DT_INTERFACE && offset + 9 <= |data| {
        return (data[offset + 5], data[offset + 6], data[offset + 7]);
      }
      offset := offset + bLength;
    }
    return NO_INTERFACE;
  }

  // ---- descriptor chains ----

  // Length, type, and the fields of that type; an interface descriptor has at least 9 bytes.
  ghost predicate IsDescriptor(d: bytes) {
    |d| >= 2 && d[0] == |d| && (d[1] == DT_INTERFACE ==> |d| >= 9)
  }

  ghost predicate IsChain(ds: seq<bytes>) { forall i | 0 <= i < |ds| :: IsDescriptor(ds[i]) }

  function Flat(ds: seq<bytes>): bytes {
    if ds == [] then [] else ds[0] + Flat(ds[1..])
  }

  // What the transfer leaves in the buffer: the chain, cut or zero-padded to 255 bytes.
  function Buffer(bytes: bytes): bytes {
    if |bytes| >= BUFFER then bytes[..BUFFER] else bytes + seq(BUFFER - |bytes|, _ => 0)
  }

  // The first interface descriptor, if its first nine bytes are in the buffer.
  function FirstInterface(ds: seq<bytes>, offset: nat): Triple
    requires forall i | 0 <= i < |ds| :: |ds[i]| >= 2 && (ds[i][1] == DT_INTERFACE ==> |ds[i]| >= 9)
  {
    if ds == [] then NO_INTERFACE
    else if ds[0][1] == DT_INTERFACE then
      if offset + 9 <= BUFFER then (ds[0][5], ds[0][6], ds[0][7]) else NO_INTERFACE
    else FirstInterface(ds[1..], offset + |ds[0]|)
  }

  lemma BufferAt(bytes: bytes, i: nat)
    requires i < BUFFER
    ensures |Buffer(bytes)| == BUFFER
    ensures Buffer(bytes)[i] == if i < |bytes| then bytes[i] else 0
  {}

  // Past the point where an interface descriptor no longer fits, the walk finds nothing.
  lemma {:induction false} WalkTail(data: bytes, offset: nat)
    requires |data| == BUFFER && offset + 9 > BUFFER
    ensures Walk(data, offset) == NO_INTERFACE
    decreases if offset < |data| then |data| - offset else 0
  {
    if offset + 2 <= |data| && data[offset] >= 2 {
      WalkTail(data, offset + data[offset]);
    }
  }

  lemma {:induction false} WalkChain(before: bytes, ds: seq<bytes>)
    requires IsChain(ds)
    ensures Walk(Buffer(before + Flat(ds)), |before|) == FirstInterface(ds, |before|)
    decreases |ds|
  {
    var bytes := before + Flat(ds);
    var data := Buffer(bytes);
    var offset := |before|;
    BufferAt(bytes, 0);
    if offset + 9 > BUFFER {
      WalkTail(data, offset);
      NoneFits(ds, offset);
    } else if ds == [] {
      BufferAt(bytes, offset);
    } else {
      var d := ds[0];
      assert IsDescriptor(d);
      BufferAt(bytes, offset);
      BufferAt(bytes, offset + 1);
      assert bytes[offset] == d[0] && bytes[offset + 1] == d[1];
      if d[1] == DT_INTERFACE {
        BufferAt(bytes, offset + 5);
        BufferAt(bytes, offset + 6);
        BufferAt(bytes, offset + 7);
      } else {
        assert bytes == (before + d) + Flat(ds[1..]);
        WalkChain(before + d, ds[1..]);
      }
    }
  }

  lemma {:induction false} NoneFits(ds: seq<bytes>, offset: nat)
    requires IsChain(ds) && offset + 9 > BUFFER
    ensures FirstInterface(ds, offset) == NO_INTERFACE
    decreases |ds|
  {
    if ds != [] {
      NoneFits(ds[1..], offset + |ds[0]|);
    }
  }

  // The walk over any chain of descriptors returns the first interface that is in the buffer, or zeros.
  lemma FirstInterfaceFound(ds: seq<bytes>)
    requires IsChain(ds)
    ensures Walk(Buffer(Flat(ds)), 0) == FirstInterface(ds, 0)
  {
    assert [] + Flat(ds) == Flat(ds);
    WalkChain([], ds);
  }
}

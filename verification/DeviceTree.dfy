/** The flattened-device-tree parser, and what it makes of a serialised tree
    (Devicetree Specification v0.4, section 5.4). */
module DeviceTree {
  import opened Bytes
  import opened Wrappers

  const FDT_MAGIC := 0xD00DFEED
  const FDT_BEGIN_NODE := 1
  const FDT_END_NODE := 2
  const FDT_PROP := 3
  const FDT_NOP := 4
  const FDT_END := 9

  // "compatible"
  const COMPATIBLE: bytes := [99, 111, 109, 112, 97, 116, 105, 98, 108, 101]
  const SLASH: byte := 47

  datatype DTDevice = DTDevice(nodePath: bytes, compatible: seq<bytes>)

  // The two exceptions the parser lets through: a header of fewer than 16 bytes, a missing NUL.
  datatype Error = StructError | ValueError

  // ---- small readers ----

  function ReadU32(data: bytes, offset: nat): nat
    requires offset + 4 <= |data|
  {
    data[offset] as int * 0x1000000 + data[offset + 1] as int * 0x10000
    + data[offset + 2] as int * 0x100 + data[offset + 3] as int
  }

  // `(n + 3) & ~3`
  function Align4(n: nat): (r: nat)
    ensures r % 4 == 0 && n <= r < n + 4
  {
    (n + 3) / 4 * 4
  }

  // Position of the first NUL at or after i.
  function IndexNul(data: bytes, i: nat): (r: Option<nat>)
    ensures r.Some? ==> i <= r.value < |data|
    decreases if i < |data| then |data| - i else 0
  {
    if i >= |data| then None else if data[i] == 0 then Some(i) else IndexNul(data, i + 1)
  }

  // `data[i:]` and `data[i:j]`, which stop at the end of the data.
  function From(data: bytes, i: nat): bytes { if i <= |data| then data[i..] else [] }

  function Slice(data: bytes, i: nat, j: nat): bytes
    requires i <= j && i <= |data|
  {
    if j <= |data| then data[i..j] else data[i..]
  }

  // The non-empty pieces between NULs.
  function Strings(raw: bytes): seq<bytes> { Pieces(raw, 0, []) }

  // The non-empty pieces between separators, the first of which has already begun.
  function Pieces(raw: bytes, separator: byte, piece: bytes): seq<bytes> {
    var done := if piece == [] then [] else [piece];
    if raw == [] then done
    else if raw[0] == separator then done + Pieces(raw[1..], separator, [])
    else Pieces(raw[1..], separator, piece + [raw[0]])
  }

  // "/" + "/".join(stack)
  function Path(stack: seq<bytes>): bytes
  {
    if |stack| <= 1 then [SLASH] + (if stack == [] then [] else stack[0])
    else Path(stack[..|stack| - 1]) + [SLASH] + stack[|stack| - 1]
  }

  // ---- tokens of the structure block ----

  // NOPs, and all codes without a meaning, are passed over.
  datatype Token = BeginNode(name: bytes) | EndNode | Prop(nameOff: nat, value: bytes) | Other(code: nat) | End

  datatype Decoded = Tok(token: Token, next: nat) | NoNul

  // The token at an offset. A property header cut short ends the block.
  function Decode(data: bytes, offset: nat): (d: Decoded)
    requires offset + 4 <= |data|
    ensures d.Tok? ==> d.next >= offset + 4
  {
    var token, o := ReadU32(data, offset), offset + 4;
    if token == FDT_BEGIN_NODE then
      var end := IndexNul(data, o);
      if end.None? then NoNul else Tok(BeginNode(data[o..end.value]), Align4(end.value + 1))
    else if token == FDT_END_NODE then Tok(EndNode, o)
    else if token == FDT_PROP then
      if o + 8 > |data| then Tok(End, o)
      else
        var len, nameOff := ReadU32(data, o), ReadU32(data, o + 4);
        Tok(Prop(nameOff, Slice(data, o + 8, o + 8 + len)), Align4(o + 8 + len))
    else if token == FDT_END then Tok(End, o)
    else Tok(Other(token), o)
  }

  // What the loop carries besides the offset: open nodes, properties seen, devices found.
  datatype Scan = Scan(stack: seq<bytes>, props: map<bytes, bytes>, devices: seq<DTDevice>)

  const EMPTY_SCAN := Scan([], map[], [])

  function Found(s: Scan): seq<DTDevice> {
    if COMPATIBLE in s.props && s.stack != [] && Strings(s.props[COMPATIBLE]) != []
    then [DTDevice(Path(s.stack), Strings(s.props[COMPATIBLE]))]
    else []
  }

  function Apply(strings: bytes, t: Token, s: Scan): Scan
    requires !NoName(strings, t)
  {
    match t
    case BeginNode(name) => Scan(s.stack + [if name == [] then [SLASH] else name], map[], s.devices)
    case EndNode => Scan(if s.stack == [] then [] else s.stack[..|s.stack| - 1], map[], s.devices + Found(s))
    case Prop(nameOff, value) =>
      s.(props := s.props[strings[nameOff..IndexNul(strings, nameOff).value] := value])
    case Other(_) => s
    case End => s
  }

  // The rest of the loop from an offset.
  function Run(data: bytes, strings: bytes, offset: nat, s: Scan): Result<seq<DTDevice>, Error>
    decreases if offset < |data| then |data| - offset else 0
  {
    if offset + 4 > |data| then Ok(s.devices)
    else
      match Decode(data, offset)
      case NoNul => Raised(ValueError)
      case Tok(t, next) =>
        if t.End? then Ok(s.devices)
        else if NoName(strings, t) then Raised(ValueError)
        else Run(data, strings, next, Apply(strings, t, s))
  }

  // None when the data is no device tree at all.
  function Parse(data: bytes): Result<Option<seq<DTDevice>>, Error> {
    if |data| < 8 then Ok(None)
    else if ReadU32(data, 0) != FDT_MAGIC then Ok(None)
    else if |data| < 16 then Raised(StructError)
    else
      match Run(From(data, ReadU32(data, 8)), From(data, ReadU32(data, 12)), 0, EMPTY_SCAN)
      case Ok(devices) => Ok(Some(devices))
      case Raised(e) => Raised(e)
  }

  // A property whose name is not in the strings block.
  predicate NoName(strings: bytes, t: Token) { t.Prop? && IndexNul(strings, t.nameOff).None? }

  // One turn of the loop.
  lemma RunOnce(data: bytes, strings: bytes, offset: nat, s: Scan)
    requires offset + 4 <= |data|
    ensures var (d, r) := (Decode(data, offset), Run(data, strings, offset, s));
            && (d.NoNul? ==> r == Raised(ValueError))
            && (d.Tok? && d.token.End? ==> r == Ok(s.devices))
            && (d.Tok? && NoName(strings, d.token) ==> r == Raised(ValueError))
            && (d.Tok? && !d.token.End? && !NoName(strings, d.token) ==>
                  r == Run(data, strings, d.next, Apply(strings, d.token, s)))
  {
    hide Decode;
    hide Apply;
    hide IndexNul;
  }

  // The parser itself: the header, and one pass over the structure block.
  method ParseFdt(data: bytes) returns (r: Result<Option<seq<DTDevice>>, Error>)
    ensures r == Parse(data)
  {
    hide ReadU32;
    hide Run;
    if |data| < 8 { return Ok(None); }
    var magic := ReadU32(data, 0);
    if magic != FDT_MAGIC { return Ok(None); }
    if |data| < 16 { return Raised(StructError); }
    var devices := ParseBlock(From(data, ReadU32(data, 8)), From(data, ReadU32(data, 12)));
    r := match devices case Ok(ds) => Ok(Some(ds)) case Raised(e) => Raised(e);
  }

  method ParseBlock(structData: bytes, strings: bytes) returns (r: Result<seq<DTDevice>, Error>)
    ensures r == Run(structData, strings, 0, EMPTY_SCAN)
  {
    hide IndexNul;
    hide Align4;
    hide Strings;
    hide Path;
    hide ReadU32;
    var devices: seq<DTDevice> := [];
    var pathStack: seq<bytes> := [];
    var nodeProps: map<bytes, bytes> := map[];
    var offset := 0;
    while offset + 4 <= |structData|
      invariant Run(structData, strings, 0, EMPTY_SCAN)
             == Run(structData, strings, offset, Scan(pathStack, nodeProps, devices))
      decreases if offset < |structData| then |structData| - offset else 0
    {
      ghost var before, decoded := Scan(pathStack, nodeProps, devices), Decode(structData, offset);
      RunOnce(structData, strings, offset, before);
      hide Run;
      var token := ReadU32(structData, offset);
      offset := offset + 4;
      if token == FDT_BEGIN_NODE {
        var nameEnd := IndexNul(structData, offset);
        if nameEnd.None? { return Raised(ValueError); }
        var name := structData[offset..nameEnd.value];
        offset := Align4(nameEnd.value + 1);
        pathStack := pathStack + [if name == [] then [SLASH] else name];
        nodeProps := map[];
      } else if token == FDT_END_NODE {
        if COMPATIBLE in nodeProps && pathStack != [] {
          var compats := Strings(nodeProps[COMPATIBLE]);
          if compats != [] {
            devices := devices + [DTDevice(Path(pathStack), compats)];
          }
        }
        if pathStack != [] {
          pathStack := pathStack[..|pathStack| - 1];
        }
        nodeProps := map[];
      } else if token == FDT_PROP {
        if offset + 8 > |structData| {
          return Ok(devices);
        }
        var propLen := ReadU32(structData, offset);
        var nameOff := ReadU32(structData, offset + 4);
        offset := offset + 8;
        var propData := Slice(structData, offset, offset + propLen);
        offset := Align4(offset + propLen);
        var nameEnd := IndexNul(strings, nameOff);
        if nameEnd.None? { return Raised(ValueError); }
        nodeProps := nodeProps[strings[nameOff..nameEnd.value] := propData];
      } else if token == FDT_NOP {
      } else if token == FDT_END {
        return Ok(devices);
      }
      assert offset == decoded.next;
      assert Scan(pathStack, nodeProps, devices) == Apply(strings, decoded.token, before);
    }
    return Ok(devices);
  }
}

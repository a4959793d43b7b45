/** Serialised device trees, and the parse of every such blob. */
module DeviceTreeBlob {
  import opened Bytes
  import opened Wrappers
  import opened DeviceTree

  // ---- tokens as bytes ----

  function U32(n: nat): (b: bytes)
    requires n < 0x1_0000_0000
    ensures |b| == 4
  {
    [n / 0x1000000, n / 0x10000 % 0x100, n / 0x100 % 0x100, n % 0x100]
  }

  function Zeros(k: nat): bytes { seq(k, _ => 0) }

  // Padded with zeros to a multiple of four bytes.
  function Padded(s: bytes): bytes { s + Zeros(Align4(|s|) - |s|) }

  // The tokens a writer may emit: no NUL in a node name, lengths and offsets that fit
  // 32 bits, property names that are in the strings block.
  predicate Writable(t: Token, strings: bytes) {
    match t
    case BeginNode(name) => 0 !in name
    case Prop(nameOff, value) =>
      nameOff < 0x1_0000_0000 && |value| < 0x1_0000_0000 && IndexNul(strings, nameOff).Some?
    case Other(code) => code < 0x1_0000_0000 && code !in {FDT_BEGIN_NODE, FDT_END_NODE, FDT_PROP, FDT_END}
    case _ => true
  }

  function Encode(t: Token, strings: bytes): bytes
    requires Writable(t, strings)
  {
    match t
    case BeginNode(name) => U32(FDT_BEGIN_NODE) + Padded(name + [0])
    case EndNode => U32(FDT_END_NODE)
    case Prop(nameOff, value) => U32(FDT_PROP) + U32(|value|) + U32(nameOff) + Padded(value)
    case Other(code) => U32(code)
    case End => U32(FDT_END)
  }

  ghost predicate AllWritable(ts: seq<Token>, strings: bytes) {
    forall t | t in ts :: Writable(t, strings) && !t.End?
  }

  function EncodeAll(ts: seq<Token>, strings: bytes): bytes
    requires AllWritable(ts, strings)
  {
    if ts == [] then [] else Encode(ts[0], strings) + EncodeAll(ts[1..], strings)
  }

  function ApplyAll(strings: bytes, ts: seq<Token>, s: Scan): Scan
    requires AllWritable(ts, strings)
  {
    if ts == [] then s
    else assert ts[0] in ts; ApplyAll(strings, ts[1..], Apply(strings, ts[0], s))
  }

  // ---- from bytes back to tokens ----

  lemma U32RoundTrip(pre: bytes, n: nat, rest: bytes)
    requires n < 0x1_0000_0000
    ensures ReadU32(pre + U32(n) + rest, |pre|) == n
  {
    var d := pre + U32(n) + rest;
    assert d[|pre|] == n / 0x1000000 && d[|pre| + 1] == n / 0x10000 % 0x100;
    assert d[|pre| + 2] == n / 0x100 % 0x100 && d[|pre| + 3] == n % 0x100;
  }

  lemma {:induction false} NulAfter(data: bytes, i: nat, name: bytes)
    requires 0 !in name
    requires i + |name| < |data| && data[i..i + |name|] == name && data[i + |name|] == 0
    ensures IndexNul(data, i) == Some(i + |name|)
    decreases |name|
  {
    if name != [] {
      assert data[i] == data[i..i + |name|][0] == name[0];
      assert data[i + 1..i + 1 + |name[1..]|] == name[1..] by {
        assert data[i..i + |name|][1..] == data[i + 1..i + |name|];
      }
      NulAfter(data, i + 1, name[1..]);
    }
  }

  lemma EncodedLength(t: Token, strings: bytes)
    requires Writable(t, strings)
    ensures |Encode(t, strings)| % 4 == 0 && |Encode(t, strings)| >= 4
  {}

  lemma Middle(a: bytes, b: bytes, c: bytes)
    ensures (a + b + c)[|a|..|a| + |b|] == b
    ensures c != [] ==> (a + b + c)[|a| + |b|] == c[0]
  {}

  lemma AlignShift(a: nat, n: nat)
    requires a % 4 == 0
    ensures Align4(a + n) == a + Align4(n)
  {}

  lemma BeginFields(data: bytes, pre: bytes, name: bytes, rest: bytes)
    requires 0 !in name
    requires data == pre + (U32(FDT_BEGIN_NODE) + Padded(name + [0])) + rest
    ensures var o := |pre| + 4;
            && o + |name| < |data| && ReadU32(data, |pre|) == FDT_BEGIN_NODE
            && data[o..o + |name|] == name && IndexNul(data, o) == Some(o + |name|)
  {
    hide ReadU32;
    hide IndexNul;
    hide U32;
    var code := U32(FDT_BEGIN_NODE);
    var head, padding := pre + code, Zeros(Align4(|name| + 1) - (|name| + 1));
    BeginParts(pre, code, name, padding, rest);
    U32RoundTrip(pre, FDT_BEGIN_NODE, Padded(name + [0]) + rest);
    hide Padded;
    hide Zeros;
    hide Align4;
    Middle(head, name, [0] + padding + rest);
    NulAfter(data, |pre| + 4, name);
  }

  lemma BeginParts(pre: bytes, code: bytes, name: bytes, padding: bytes, rest: bytes)
    ensures pre + (code + (name + [0] + padding)) + rest == pre + code + name + ([0] + padding + rest)
    ensures pre + (code + (name + [0] + padding)) + rest == pre + code + (name + [0] + padding + rest)
  {}

  lemma DecodeBegin(data: bytes, pre: bytes, name: bytes, rest: bytes)
    requires 0 !in name && |pre| % 4 == 0
    requires data == pre + (U32(FDT_BEGIN_NODE) + Padded(name + [0])) + rest
    ensures Decode(data, |pre|) == Tok(BeginNode(name), |pre| + 4 + |Padded(name + [0])|)
  {
    BeginFields(data, pre, name, rest);
    AlignShift(|pre| + 4, |name| + 1);
    assert |Padded(name + [0])| == Align4(|name| + 1);
    hide ReadU32;
    hide IndexNul;
    hide U32;
    hide Padded;
    hide Align4;
  }

  lemma PropFields(data: bytes, pre: bytes, nameOff: nat, value: bytes, rest: bytes)
    requires nameOff < 0x1_0000_0000 && |value| < 0x1_0000_0000
    requires data == pre + (U32(FDT_PROP) + U32(|value|) + U32(nameOff) + Padded(value)) + rest
    ensures var o := |pre| + 4;
            && o + 8 + |value| <= |data| && ReadU32(data, |pre|) == FDT_PROP
            && ReadU32(data, o) == |value| && ReadU32(data, o + 4) == nameOff
            && data[o + 8..o + 8 + |value|] == value
  {
    hide U32;
    hide ReadU32;
    var p, v, n, padding := U32(FDT_PROP), U32(|value|), U32(nameOff), Padded(value)[|value|..];
    assert Padded(value) == value + padding;
    hide Padded;
    var tail := value + padding + rest;
    assert data == pre + p + (v + n + tail);
    U32RoundTrip(pre, FDT_PROP, v + n + tail);
    assert data == (pre + p) + v + (n + tail);
    U32RoundTrip(pre + p, |value|, n + tail);
    assert data == (pre + p + v) + n + tail;
    U32RoundTrip(pre + p + v, nameOff, tail);
    assert data == (pre + p + v + n) + value + (padding + rest);
    Middle(pre + p + v + n, value, padding + rest);
  }

  lemma DecodeProp(data: bytes, pre: bytes, nameOff: nat, value: bytes, rest: bytes)
    requires nameOff < 0x1_0000_0000 && |value| < 0x1_0000_0000 && |pre| % 4 == 0
    requires data == pre + (U32(FDT_PROP) + U32(|value|) + U32(nameOff) + Padded(value)) + rest
    ensures Decode(data, |pre|) == Tok(Prop(nameOff, value), |pre| + 12 + |Padded(value)|)
  {
    PropFields(data, pre, nameOff, value, rest);
    AlignShift(|pre| + 12, |value|);
    assert |Padded(value)| == Align4(|value|);
    hide ReadU32;
    hide U32;
    hide Padded;
    hide Align4;
  }

  lemma DecodeBare(data: bytes, pre: bytes, token: nat, rest: bytes)
    requires token < 0x1_0000_0000
    requires data == pre + U32(token) + rest
    ensures ReadU32(data, |pre|) == token
  {
    U32RoundTrip(pre, token, rest);
  }

  // Reading one written token gives the token back and stops right behind it.
  lemma DecodeEncoded(data: bytes, pre: bytes, t: Token, strings: bytes, rest: bytes)
    requires Writable(t, strings) && |pre| % 4 == 0
    requires data == pre + Encode(t, strings) + rest
    ensures |data| >= |pre| + 4
    ensures Decode(data, |pre|) == Tok(t, |pre| + |Encode(t, strings)|)
  {
    hide U32;
    hide Padded;
    hide IndexNul;
    match t
    case BeginNode(name) => DecodeBegin(data, pre, name, rest);
    case Prop(nameOff, value) => DecodeProp(data, pre, nameOff, value, rest);
    case EndNode => DecodeBare(data, pre, FDT_END_NODE, rest);
    case Other(code) => DecodeBare(data, pre, code, rest);
    case End => DecodeBare(data, pre, FDT_END, rest);
  }

  // One turn of the loop over a written token.
  lemma RunToken(data: bytes, pre: bytes, t: Token, strings: bytes, rest: bytes, s: Scan)
    requires Writable(t, strings) && !t.End? && |pre| % 4 == 0
    requires data == pre + Encode(t, strings) + rest
    ensures |pre + Encode(t, strings)| % 4 == 0
    ensures Run(data, strings, |pre|, s) == Run(data, strings, |pre + Encode(t, strings)|, Apply(strings, t, s))
  {
    hide Encode;
    hide Decode;
    hide Apply;
    DecodeEncoded(data, pre, t, strings, rest);
    EncodedLength(t, strings);
  }

  lemma RunEnd(data: bytes, pre: bytes, strings: bytes, rest: bytes, s: Scan)
    requires |pre| % 4 == 0 && data == pre + U32(FDT_END) + rest
    ensures Run(data, strings, |pre|, s) == Ok(s.devices)
  {
    hide Decode;
    DecodeEncoded(data, pre, End, strings, rest);
  }

  // The byte loop passes written tokens as the token loop does.
  lemma {:induction false} RunPrefix(data: bytes, pre: bytes, ts: seq<Token>, strings: bytes, rest: bytes, s: Scan)
    requires AllWritable(ts, strings) && |pre| % 4 == 0
    requires data == pre + EncodeAll(ts, strings) + rest
    ensures |pre + EncodeAll(ts, strings)| % 4 == 0
    ensures Run(data, strings, |pre|, s)
         == Run(data, strings, |pre + EncodeAll(ts, strings)|, ApplyAll(strings, ts, s))
    decreases |ts|
  {
    hide Encode;
    hide Run;
    hide Apply;
    if ts == [] {
      assert pre + [] == pre;
    } else {
      assert ts[0] in ts;
      var t, code, others := ts[0], Encode(ts[0], strings), EncodeAll(ts[1..], strings);
      assert data == pre + code + (others + rest);
      RunToken(data, pre, t, strings, others + rest, s);
      assert data == (pre + code) + others + rest;
      RunPrefix(data, pre + code, ts[1..], strings, rest, Apply(strings, t, s));
      assert pre + code + others == pre + (code + others);
    }
  }

  // A block that ends too early, behind some tokens or in the header of a property, yields what was
  // complete by then; a node name without an end, and a property without a name, are errors.
  datatype Cut =
    | Missing(tail: bytes)
    | HeaderCut(tail: bytes)
    | NameCut(name: bytes)
    | Nameless(nameOff: nat, value: bytes)

  ghost predicate IsCut(c: Cut, strings: bytes) {
    match c
    case Missing(tail) => |tail| < 4
    case HeaderCut(tail) => |tail| < 8
    case NameCut(name) => 0 !in name
    case Nameless(nameOff, value) =>
      nameOff < 0x1_0000_0000 && |value| < 0x1_0000_0000 && IndexNul(strings, nameOff).None?
  }

  function CutBytes(c: Cut, strings: bytes): bytes
    requires c.Nameless? ==> c.nameOff < 0x1_0000_0000 && |c.value| < 0x1_0000_0000
  {
    match c
    case Missing(tail) => tail
    case HeaderCut(tail) => U32(FDT_PROP) + tail
    case NameCut(name) => U32(FDT_BEGIN_NODE) + name
    case Nameless(nameOff, value) => U32(FDT_PROP) + U32(|value|) + U32(nameOff) + Padded(value)
  }

  lemma {:induction false} NoNulFound(data: bytes, i: nat)
    requires forall k | i <= k < |data| :: data[k] != 0
    ensures IndexNul(data, i) == None
    decreases if i < |data| then |data| - i else 0
  {
    if i < |data| {
      NoNulFound(data, i + 1);
    }
  }

  lemma RunCut(data: bytes, pre: bytes, c: Cut, strings: bytes, s: Scan)
    requires IsCut(c, strings) && |pre| % 4 == 0 && data == pre + CutBytes(c, strings)
    ensures Run(data, strings, |pre|, s)
         == if c.Missing? || c.HeaderCut? then Ok(s.devices) else Raised(ValueError)
  {
    hide U32;
    hide ReadU32;
    match c
    case Missing(tail) =>
    case HeaderCut(tail) =>
      assert data == pre + U32(FDT_PROP) + tail;
      U32RoundTrip(pre, FDT_PROP, tail);
      RunOnce(data, strings, |pre|, s);
    case NameCut(name) =>
      assert data == pre + U32(FDT_BEGIN_NODE) + name;
      U32RoundTrip(pre, FDT_BEGIN_NODE, name);
      NoNulFound(data, |pre| + 4);
      RunOnce(data, strings, |pre|, s);
    case Nameless(nameOff, value) =>
      assert data == pre + CutBytes(c, strings) + [];
      DecodeProp(data, pre, nameOff, value, []);
      hide Decode;
      RunOnce(data, strings, |pre|, s);
  }

  // What a block yields that goes wrong behind some tokens.
  lemma RunUntilCut(ts: seq<Token>, c: Cut, strings: bytes)
    requires AllWritable(ts, strings) && IsCut(c, strings)
    ensures Run(EncodeAll(ts, strings) + CutBytes(c, strings), strings, 0, EMPTY_SCAN)
         == if c.Missing? || c.HeaderCut? then Ok(ApplyAll(strings, ts, EMPTY_SCAN).devices) else Raised(ValueError)
  {
    hide Run;
    hide CutBytes;
    hide EncodeAll;
    hide ApplyAll;
    var none: bytes, code, tail := [], EncodeAll(ts, strings), CutBytes(c, strings);
    assert code + tail == none + code + tail && none + code == code;
    RunPrefix(code + tail, none, ts, strings, tail, EMPTY_SCAN);
    RunCut(code + tail, code, c, strings, ApplyAll(strings, ts, EMPTY_SCAN));
  }

  // The byte loop on written tokens is the token loop.
  lemma RunTokens(data: bytes, pre: bytes, ts: seq<Token>, strings: bytes, rest: bytes, s: Scan)
    requires AllWritable(ts, strings) && |pre| % 4 == 0
    requires data == pre + EncodeAll(ts, strings) + U32(FDT_END) + rest
    ensures Run(data, strings, |pre|, s) == Ok(ApplyAll(strings, ts, s).devices)
  {
    hide Run;
    hide U32;
    hide EncodeAll;
    hide ApplyAll;
    var code := EncodeAll(ts, strings);
    assert data == pre + code + (U32(FDT_END) + rest);
    RunPrefix(data, pre, ts, strings, U32(FDT_END) + rest, s);
    RunEnd(data, pre + code, strings, rest, ApplyAll(strings, ts, s));
  }

  // ---- NOPs and unknown tokens ----

  function WithoutNops(ts: seq<Token>): seq<Token> {
    if ts == [] then []
    else if ts[0].Other? then WithoutNops(ts[1..])
    else [ts[0]] + WithoutNops(ts[1..])
  }

  lemma {:induction false} NopsIgnored(strings: bytes, ts: seq<Token>, s: Scan)
    requires AllWritable(ts, strings)
    ensures AllWritable(WithoutNops(ts), strings)
    ensures ApplyAll(strings, ts, s) == ApplyAll(strings, WithoutNops(ts), s)
  {
    if ts != [] {
      assert ts[0] in ts;
      NopsIgnored(strings, ts[1..], Apply(strings, ts[0], s));
    }
  }

  // ---- trees ----

  datatype Property = Property(nameOff: nat, value: bytes)

  datatype Node = Node(name: bytes, props: seq<Property>, children: seq<Node>)

  // Properties come before subnodes, as the specification requires.
  function Tokens(n: Node): seq<Token> {
    [BeginNode(n.name)] + PropTokens(n.props) + ChildTokens(n.children) + [EndNode]
  }

  function PropTokens(ps: seq<Property>): seq<Token> {
    seq(|ps|, i requires 0 <= i < |ps| => Prop(ps[i].nameOff, ps[i].value))
  }

  function ChildTokens(ns: seq<Node>): seq<Token> {
    if ns == [] then [] else Tokens(ns[0]) + ChildTokens(ns[1..])
  }

  ghost predicate WellFormed(n: Node, strings: bytes) { AllWritable(Tokens(n), strings) }

  function PropName(strings: bytes, nameOff: nat): bytes {
    match IndexNul(strings, nameOff)
    case None => []
    case Some(end) => strings[nameOff..end]
  }

  // The value of the last property called `compatible`, cut at its NULs.
  function Compatible(n: Node, strings: bytes): seq<bytes> { LastCompatible(n.props, strings) }

  function LastCompatible(ps: seq<Property>, strings: bytes): seq<bytes> {
    if ps == [] then []
    else
      var last := ps[|ps| - 1];
      if PropName(strings, last.nameOff) == COMPATIBLE then Strings(last.value)
      else LastCompatible(ps[..|ps| - 1], strings)
  }

  function Opened(n: Node, stack: seq<bytes>): seq<bytes> {
    stack + [if n.name == [] then [SLASH] else n.name]
  }

  function Device(n: Node, strings: bytes, stack: seq<bytes>): seq<DTDevice> {
    if Compatible(n, strings) == [] then [] else [DTDevice(Path(Opened(n, stack)), Compatible(n, strings))]
  }

  // What the parser reports of a tree: its leaves only.
  function Reported(n: Node, strings: bytes, stack: seq<bytes>): seq<DTDevice> {
    if n.children == [] then Device(n, strings, stack)
    else ReportedChildren(n.children, strings, Opened(n, stack))
  }

  function ReportedChildren(ns: seq<Node>, strings: bytes, stack: seq<bytes>): seq<DTDevice> {
    if ns == [] then [] else Reported(ns[0], strings, stack) + ReportedChildren(ns[1..], strings, stack)
  }

  // ---- string lists ----

  // A property value holding a list of strings, each closed by a NUL.
  function StringList(ss: seq<bytes>): bytes {
    if ss == [] then [] else ss[0] + [0] + StringList(ss[1..])
  }

  // A separator ends the piece in front of it.
  lemma {:induction false} PiecesSplit(a: bytes, separator: byte, b: bytes, piece: bytes)
    ensures Pieces(a + [separator] + b, separator, piece) == Pieces(a, separator, piece) + Pieces(b, separator, [])
    decreases |a|
  {
    var all := a + [separator] + b;
    if a == [] {
      assert all[1..] == b;
    } else {
      assert all[0] == a[0] && all[1..] == a[1..] + [separator] + b;
      PiecesSplit(a[1..], separator, b, if a[0] == separator then [] else piece + [a[0]]);
    }
  }

  lemma {:induction false} PieceAlone(s: bytes, separator: byte, piece: bytes)
    requires separator !in s
    ensures Pieces(s, separator, piece) == if piece + s == [] then [] else [piece + s]
    decreases |s|
  {
    if s == [] {
      assert piece + s == piece;
    } else {
      assert piece + [s[0]] + s[1..] == piece + s;
      PieceAlone(s[1..], separator, piece + [s[0]]);
    }
  }

  // The strings of a list come back as they went in.
  lemma {:induction false} StringListRoundTrip(ss: seq<bytes>)
    requires forall i | 0 <= i < |ss| :: ss[i] != [] && 0 !in ss[i]
    ensures Strings(StringList(ss)) == ss
  {
    if ss != [] {
      StringListRoundTrip(ss[1..]);
      PiecesSplit(ss[0], 0, StringList(ss[1..]), []);
      PieceAlone(ss[0], 0, []);
      assert [] + ss[0] == ss[0] && [ss[0]] + ss[1..] == ss;
    }
  }

  // ---- the token loop on a tree ----

  lemma {:induction false} ApplyConcat(strings: bytes, a: seq<Token>, b: seq<Token>, s: Scan)
    requires AllWritable(a, strings) && AllWritable(b, strings)
    ensures AllWritable(a + b, strings)
    ensures ApplyAll(strings, a + b, s) == ApplyAll(strings, b, ApplyAll(strings, a, s))
  {
    hide Apply;
    if a == [] {
      assert a + b == b;
    } else {
      assert a[0] in a && (a + b)[1..] == a[1..] + b;
      ApplyConcat(strings, a[1..], b, Apply(strings, a[0], s));
    }
  }

  // Properties only fill the table, and the table remembers the last `compatible`.
  lemma {:induction false} ApplyProps(strings: bytes, ps: seq<Property>, s: Scan)
    requires AllWritable(PropTokens(ps), strings) && s.props == map[]
    ensures var s' := ApplyAll(strings, PropTokens(ps), s);
            ( && s'.stack == s.stack && s'.devices == s.devices
              && LastCompatible(ps, strings)
                 == if COMPATIBLE in s'.props then Strings(s'.props[COMPATIBLE]) else [] )
  {
    hide IndexNul;
    hide Strings;
    hide Found;
    if ps != [] {
      var k := |ps| - 1;
      var init, last := PropTokens(ps[..k]), Prop(ps[k].nameOff, ps[k].value);
      assert PropTokens(ps) == init + [last];
      assert AllWritable(init, strings) by {
        forall t | t in init ensures Writable(t, strings) && !t.End? { assert t in PropTokens(ps); }
      }
      assert last in PropTokens(ps);
      ApplyProps(strings, ps[..k], s);
      ApplyConcat(strings, init, [last], s);
    }
  }

  // One node: the stack comes back as it was, the table empty, the leaves reported.
  lemma {:induction false} ApplyNode(strings: bytes, n: Node, s: Scan)
    requires WellFormed(n, strings)
    ensures ApplyAll(strings, Tokens(n), s) == Scan(s.stack, map[], s.devices + Reported(n, strings, s.stack))
    decreases n, 0
  {
    hide IndexNul;
    hide Strings;
    var begin, props, kids := [BeginNode(n.name)], PropTokens(n.props), ChildTokens(n.children);
    assert Tokens(n) == begin + (props + (kids + [EndNode]));
    SubWritable(Tokens(n), begin, props, kids, strings);
    var s1 := Scan(Opened(n, s.stack), map[], s.devices);
    assert ApplyAll(strings, begin, s) == s1;
    ApplyProps(strings, n.props, s1);
    var s2 := ApplyAll(strings, props, s1);
    ApplyChildren(strings, n.children, s2);
    var s3 := ApplyAll(strings, kids, s2);
    ApplyConcat(strings, kids, [EndNode], s2);
    ApplyConcat(strings, props, kids + [EndNode], s1);
    ApplyConcat(strings, begin, props + (kids + [EndNode]), s);
    assert Opened(n, s.stack)[..|s.stack|] == s.stack;
  }

  lemma SubWritable(all: seq<Token>, begin: seq<Token>, props: seq<Token>, kids: seq<Token>, strings: bytes)
    requires AllWritable(all, strings) && all == begin + (props + (kids + [EndNode]))
    ensures AllWritable(begin, strings) && AllWritable(props, strings) && AllWritable(kids, strings)
    ensures AllWritable(kids + [EndNode], strings) && AllWritable(props + (kids + [EndNode]), strings)
  {
    assert forall t :: t in begin || t in props || t in kids ==> t in all;
  }

  // Children: with none the scan is untouched, otherwise the last child leaves an empty table.
  lemma {:induction false} ApplyChildren(strings: bytes, ns: seq<Node>, s: Scan)
    requires AllWritable(ChildTokens(ns), strings)
    ensures ApplyAll(strings, ChildTokens(ns), s)
         == if ns == [] then s
            else Scan(s.stack, map[], s.devices + ReportedChildren(ns, strings, s.stack))
    decreases ns, 0
  {
    hide Tokens;
    hide Apply;
    hide Reported;
    if ns != [] {
      var first, others := Tokens(ns[0]), ChildTokens(ns[1..]);
      assert ChildTokens(ns) == first + others;
      assert AllWritable(first, strings) && AllWritable(others, strings) by {
        assert forall t :: t in first || t in others ==> t in ChildTokens(ns);
      }
      ApplyNode(strings, ns[0], s);
      var s' := Scan(s.stack, map[], s.devices + Reported(ns[0], strings, s.stack));
      ApplyChildren(strings, ns[1..], s');
      ApplyConcat(strings, first, others, s);
    }
  }

  // ---- data that is no tree ----

  // Data is read as a tree exactly when it has eight bytes and begins with the magic number; of
  // these, a header of fewer than sixteen bytes raises.
  lemma NoTree(data: bytes)
    ensures Parse(data) == Ok(None) <==> !([0xD0, 0x0D, 0xFE, 0xED] <= data && |data| >= 8)
    ensures Parse(data) == Raised(StructError) <==> [0xD0, 0x0D, 0xFE, 0xED] <= data && 8 <= |data| < 16
  {
    if |data| >= 4 {
      MagicBytes(data);
    }
    hide ReadU32;
    RunRaises(From(data, if |data| >= 16 then ReadU32(data, 8) else 0),
              From(data, if |data| >= 16 then ReadU32(data, 12) else 0), 0, EMPTY_SCAN);
    hide Run;
  }

  lemma MagicBytes(data: bytes)
    requires |data| >= 4
    ensures ReadU32(data, 0) == FDT_MAGIC <==> [0xD0, 0x0D, 0xFE, 0xED] <= data
  {
    assert data[..4] == [data[0], data[1], data[2], data[3]];
  }

  lemma {:induction false} RunRaises(data: bytes, strings: bytes, offset: nat, s: Scan)
    ensures Run(data, strings, offset, s) != Raised(StructError)
    decreases if offset < |data| then |data| - offset else 0
  {
    hide Decode;
    hide Apply;
    if offset + 4 <= |data| {
      var d := Decode(data, offset);
      if d.Tok? && !NoName(strings, d.token) {
        RunRaises(data, strings, d.next, Apply(strings, d.token, s));
      }
    }
  }

  // ---- the whole blob ----

  // A blob with this tree in its structure block, NOPs and unknown tokens anywhere between its tokens,
  // and anything at all before, between and behind the two blocks.
  ghost predicate Serialises(data: bytes, root: Node, ts: seq<Token>, rest: bytes) {
    && |data| >= 16
    && ReadU32(data, 0) == FDT_MAGIC
    && var strings := From(data, ReadU32(data, 12));
    && AllWritable(ts, strings)
    && WithoutNops(ts) == Tokens(root)
    && From(data, ReadU32(data, 8)) == EncodeAll(ts, strings) + U32(FDT_END) + rest
  }

  // Parsing any serialised tree reports exactly its childless nodes with compatible strings,
  // in document order, each under its path from the root.
  lemma ParseSerialised(data: bytes, root: Node, ts: seq<Token>, rest: bytes)
    requires Serialises(data, root, ts, rest)
    ensures Parse(data) == Ok(Some(Reported(root, From(data, ReadU32(data, 12)), [])))
  {
    var strings, block := From(data, ReadU32(data, 12)), From(data, ReadU32(data, 8));
    BlockRun(block, strings, root, ts, rest);
  }

  lemma BlockRun(block: bytes, strings: bytes, root: Node, ts: seq<Token>, rest: bytes)
    requires AllWritable(ts, strings) && WithoutNops(ts) == Tokens(root)
    requires block == EncodeAll(ts, strings) + U32(FDT_END) + rest
    ensures Run(block, strings, 0, EMPTY_SCAN) == Ok(Reported(root, strings, []))
  {
    hide Run;
    hide U32;
    hide EncodeAll;
    var pre: bytes := [];
    assert block == pre + EncodeAll(ts, strings) + U32(FDT_END) + rest;
    RunTokens(block, pre, ts, strings, rest, EMPTY_SCAN);
    NopsIgnored(strings, ts, EMPTY_SCAN);
    ApplyNode(strings, root, EMPTY_SCAN);
    assert EMPTY_SCAN.devices + Reported(root, strings, []) == Reported(root, strings, []);
  }

  // ---- where the reported nodes are ----

  // The names between the slashes of a path.
  function Names(path: bytes): seq<bytes> { Pieces(path, SLASH, []) }

  // The chain of names of the open nodes; a node without a name, as the root, adds none.
  function Chain(stack: seq<bytes>): seq<bytes> {
    if stack == [] then [] else Chain(stack[..|stack| - 1]) + Names(stack[|stack| - 1])
  }

  // A path splits into the names of the open nodes.
  lemma {:induction false} PathSplits(stack: seq<bytes>)
    ensures Names(Path(stack)) == Chain(stack)
    decreases |stack|
  {
    hide Pieces;
    if |stack| <= 1 {
      var only: bytes := if stack == [] then [] else stack[0];
      var none: bytes := [];
      assert Path(stack) == none + [SLASH] + only;
      PiecesSplit(none, SLASH, only, []);
      PieceAlone(none, SLASH, []);
      if |stack| == 1 {
        assert stack[..0] == [] && Chain(stack) == Chain(stack[..0]) + Names(only);
      }
    } else {
      var init, last := stack[..|stack| - 1], stack[|stack| - 1];
      PathSplits(init);
      PiecesSplit(Path(init), SLASH, last, []);
    }
  }

  ghost predicate SlashFree(n: Node) {
    SLASH !in n.name && forall c | c in n.children :: SlashFree(c)
  }

  function Below(n: Node, above: seq<bytes>): seq<bytes> {
    above + (if n.name == [] then [] else [n.name])
  }

  lemma OpenedChain(n: Node, stack: seq<bytes>)
    requires SlashFree(n)
    ensures Chain(Opened(n, stack)) == Below(n, Chain(stack))
  {
    var longer, last := Opened(n, stack), if n.name == [] then [SLASH] else n.name;
    assert longer[..|longer| - 1] == stack && longer[|longer| - 1] == last;
    if n.name == [] {
      var none: bytes := [];
      assert last == none + [SLASH] + none;
      PiecesSplit(none, SLASH, none, []);
      PieceAlone(none, SLASH, []);
    } else {
      PieceAlone(n.name, SLASH, []);
      assert [] + n.name == n.name;
    }
  }

  // The chain of names from the root, and the compatible strings.
  datatype Located = Located(names: seq<bytes>, compatible: seq<bytes>)

  // The childless nodes that have compatible strings, in document order.
  function Leaves(n: Node, strings: bytes, above: seq<bytes>): seq<Located> {
    if n.children == [] then
      if Compatible(n, strings) == [] then [] else [Located(Below(n, above), Compatible(n, strings))]
    else LeavesOf(n.children, strings, Below(n, above))
  }

  function LeavesOf(ns: seq<Node>, strings: bytes, above: seq<bytes>): seq<Located> {
    if ns == [] then [] else Leaves(ns[0], strings, above) + LeavesOf(ns[1..], strings, above)
  }

  function Locate(d: DTDevice): Located { Located(Names(d.nodePath), d.compatible) }

  function LocateAll(ds: seq<DTDevice>): seq<Located> {
    seq(|ds|, i requires 0 <= i < |ds| => Locate(ds[i]))
  }

  lemma {:induction false} ReportedLeaves(n: Node, strings: bytes, stack: seq<bytes>)
    requires SlashFree(n)
    ensures LocateAll(Reported(n, strings, stack)) == Leaves(n, strings, Chain(stack))
    decreases n, 0
  {
    hide Path;
    hide Pieces;
    hide Compatible;
    OpenedChain(n, stack);
    if n.children == [] {
      PathSplits(Opened(n, stack));
    } else {
      ReportedLeavesOf(n.children, strings, Opened(n, stack));
    }
  }

  lemma {:induction false} ReportedLeavesOf(ns: seq<Node>, strings: bytes, stack: seq<bytes>)
    requires forall n | n in ns :: SlashFree(n)
    ensures LocateAll(ReportedChildren(ns, strings, stack)) == LeavesOf(ns, strings, Chain(stack))
    decreases ns, 0
  {
    hide SlashFree;
    hide Locate;
    hide Chain;
    if ns != [] {
      var a, b := Reported(ns[0], strings, stack), ReportedChildren(ns[1..], strings, stack);
      ReportedLeaves(ns[0], strings, stack);
      ReportedLeavesOf(ns[1..], strings, stack);
      assert LocateAll(a + b) == LocateAll(a) + LocateAll(b);
    }
  }

  // Of every serialised tree whose names hold no slash, the devices found are exactly the childless
  // nodes with compatible strings, each under a path that splits into the names from the root to it.
  lemma ParseLeaves(data: bytes, root: Node, ts: seq<Token>, rest: bytes)
    requires Serialises(data, root, ts, rest) && SlashFree(root)
    ensures var r := Parse(data);
            r.Ok? && r.value.Some? && LocateAll(r.value.value) == Leaves(root, From(data, ReadU32(data, 12)), [])
  {
    ParseSerialised(data, root, ts, rest);
    hide Parse;
    hide Serialises;
    ReportedLeaves(root, From(data, ReadU32(data, 12)), []);
  }

  // ---- what is lost ----

  // Every node with compatible strings, in the order the nodes are closed.
  function Described(n: Node, strings: bytes, stack: seq<bytes>): seq<DTDevice> {
    DescribedChildren(n.children, strings, Opened(n, stack)) + Device(n, strings, stack)
  }

  function DescribedChildren(ns: seq<Node>, strings: bytes, stack: seq<bytes>): seq<DTDevice> {
    if ns == [] then [] else Described(ns[0], strings, stack) + DescribedChildren(ns[1..], strings, stack)
  }

  // No node with children describes a device itself.
  predicate OnlyLeavesCompatible(n: Node, strings: bytes) {
    && (n.children != [] ==> Compatible(n, strings) == [])
    && forall c | c in n.children :: OnlyLeavesCompatible(c, strings)
  }

  lemma {:induction false} ReportedFewer(n: Node, strings: bytes, stack: seq<bytes>)
    ensures |Reported(n, strings, stack)| <= |Described(n, strings, stack)|
    ensures |Reported(n, strings, stack)| == |Described(n, strings, stack)| ==> OnlyLeavesCompatible(n, strings)
    ensures OnlyLeavesCompatible(n, strings) ==> Reported(n, strings, stack) == Described(n, strings, stack)
    decreases n, 0
  {
    ReportedFewerChildren(n.children, strings, Opened(n, stack));
  }

  lemma {:induction false} ReportedFewerChildren(ns: seq<Node>, strings: bytes, stack: seq<bytes>)
    ensures |ReportedChildren(ns, strings, stack)| <= |DescribedChildren(ns, strings, stack)|
    ensures |ReportedChildren(ns, strings, stack)| == |DescribedChildren(ns, strings, stack)|
        ==> forall c | c in ns :: OnlyLeavesCompatible(c, strings)
    ensures (forall c | c in ns :: OnlyLeavesCompatible(c, strings))
        ==> ReportedChildren(ns, strings, stack) == DescribedChildren(ns, strings, stack)
    decreases ns, 0
  {
    if ns != [] {
      ReportedFewer(ns[0], strings, stack);
      ReportedFewerChildren(ns[1..], strings, stack);
      assert forall c :: c in ns <==> c == ns[0] || c in ns[1..];
    }
  }

  // The parser finds every described device exactly when only leaves are described.
  lemma AllFoundExactlyWhen(data: bytes, root: Node, ts: seq<Token>, rest: bytes)
    requires Serialises(data, root, ts, rest)
    ensures var strings := From(data, ReadU32(data, 12));
            Parse(data) == Ok(Some(Described(root, strings, []))) <==> OnlyLeavesCompatible(root, strings)
  {
    ParseSerialised(data, root, ts, rest);
    ReportedFewer(root, From(data, ReadU32(data, 12)), []);
  }

  // ---- a blob for every tree ----

  // A header of 16 bytes, the structure block, the strings block.
  function Header(total: nat, offStrings: nat): (b: bytes)
    requires total < 0x1_0000_0000 && offStrings < 0x1_0000_0000
    ensures |b| == 16
  {
    U32(FDT_MAGIC) + U32(total) + U32(16) + U32(offStrings)
  }

  function Block(root: Node, strings: bytes): bytes
    requires WellFormed(root, strings)
  {
    EncodeAll(Tokens(root), strings) + U32(FDT_END)
  }

  function Blob(root: Node, strings: bytes): bytes
    requires WellFormed(root, strings) && 16 + |Block(root, strings)| + |strings| < 0x1_0000_0000
  {
    var block := Block(root, strings);
    Header(16 + |block| + |strings|, 16 + |block|) + block + strings
  }

  lemma HeaderRead(total: nat, offStrings: nat, rest: bytes)
    requires total < 0x1_0000_0000 && offStrings < 0x1_0000_0000
    ensures var data := Header(total, offStrings) + rest;
            ReadU32(data, 0) == FDT_MAGIC && ReadU32(data, 8) == 16 && ReadU32(data, 12) == offStrings
  {
    hide U32;
    hide ReadU32;
    var data := Header(total, offStrings) + rest;
    var m, t, s, o := U32(FDT_MAGIC), U32(total), U32(16), U32(offStrings);
    assert data == [] + m + (t + s + o + rest);
    assert data == (m + t) + s + (o + rest);
    assert data == (m + t + s) + o + rest;
    U32RoundTrip([], FDT_MAGIC, t + s + o + rest);
    U32RoundTrip(m + t, 16, o + rest);
    U32RoundTrip(m + t + s, offStrings, rest);
  }

  lemma {:induction false} NopFree(ts: seq<Token>)
    requires forall t | t in ts :: !t.Other?
    ensures WithoutNops(ts) == ts
  {
    if ts != [] {
      assert ts[0] in ts;
      NopFree(ts[1..]);
    }
  }

  lemma {:induction false} TokensNopFree(n: Node)
    ensures forall t | t in Tokens(n) :: !t.Other?
    decreases n, 0
  {
    ChildTokensNopFree(n.children);
  }

  lemma {:induction false} ChildTokensNopFree(ns: seq<Node>)
    ensures forall t | t in ChildTokens(ns) :: !t.Other?
    decreases ns, 0
  {
    if ns != [] {
      TokensNopFree(ns[0]);
      ChildTokensNopFree(ns[1..]);
    }
  }

  // Every well-formed tree of a size that 32 bits can tell has a blob that serialises it.
  lemma BlobSerialises(root: Node, strings: bytes)
    requires WellFormed(root, strings) && 16 + |Block(root, strings)| + |strings| < 0x1_0000_0000
    ensures var data := Blob(root, strings);
            && Serialises(data, root, Tokens(root), strings)
            && From(data, ReadU32(data, 12)) == strings
  {
    hide Tokens;
    hide EncodeAll;
    hide Encode;
    hide Writable;
    hide ReadU32;
    hide U32;
    var block, data := Block(root, strings), Blob(root, strings);
    var total, off := 16 + |block| + |strings|, 16 + |block|;
    HeaderRead(total, off, block + strings);
    assert data == Header(total, off) + (block + strings);
    hide Header;
    assert data[16..] == block + strings && data[off..] == strings;
    TokensNopFree(root);
    NopFree(Tokens(root));
  }

  // ---- a bus that is missed ----

  // A node `bus` with a compatible string `x`.
  const BUS_STRINGS: bytes := COMPATIBLE + [0]
  const BUS_CHILD := Node([99], [], [])
  const BUS := Node([98, 117, 115], [Property(0, StringList([[120]]))], [BUS_CHILD])

  lemma BusCompatible()
    ensures Compatible(BUS, BUS_STRINGS) == [[120]]
  {
    NulAfter(BUS_STRINGS, 0, COMPATIBLE);
    assert BUS_STRINGS[0..10] == COMPATIBLE;
    assert PropName(BUS_STRINGS, 0) == COMPATIBLE;
    StringListRoundTrip([[120]]);
  }

  lemma BusReported()
    ensures Described(BUS, BUS_STRINGS, []) == [DTDevice(Path([BUS.name]), [[120]])]
    ensures Reported(BUS, BUS_STRINGS, []) == []
  {
    BusCompatible();
    hide Strings;
    hide StringList;
    var stack := Opened(BUS, []);
    assert stack == [BUS.name];
    assert Described(BUS_CHILD, BUS_STRINGS, stack) == [];
    assert [BUS_CHILD][1..] == [];
    assert DescribedChildren([BUS_CHILD], BUS_STRINGS, stack) == [];
    assert ReportedChildren([BUS_CHILD], BUS_STRINGS, stack) == [];
  }

  lemma BusWellFormed()
    ensures WellFormed(BUS, BUS_STRINGS)
    ensures Tokens(BUS) == [BeginNode(BUS.name), Prop(0, [120, 0]), BeginNode([99]), EndNode, EndNode]
  {
    NulAfter(BUS_STRINGS, 0, COMPATIBLE);
    assert StringList([[120]]) == [120, 0] by { assert [[120]][1..] == []; }
    assert PropTokens(BUS.props) == [Prop(0, [120, 0])];
    assert ChildTokens(BUS.children) == Tokens(BUS_CHILD) by { assert BUS.children[1..] == []; }
    assert Tokens(BUS_CHILD) == [BeginNode([99]), EndNode];
  }

  // No token needs more than its text and 16 bytes.
  lemma {:induction false} EncodedBound(ts: seq<Token>, strings: bytes, k: nat)
    requires AllWritable(ts, strings)
    requires forall t | t in ts :: |Encode(t, strings)| <= k
    ensures |EncodeAll(ts, strings)| <= k * |ts|
  {
    hide Encode;
    hide Writable;
    if ts != [] {
      assert ts[0] in ts;
      EncodedBound(ts[1..], strings, k);
      assert k * |ts| == k + k * |ts[1..]|;
    }
  }

  lemma EncodeSize(t: Token, strings: bytes)
    requires Writable(t, strings)
    ensures |Encode(t, strings)| <= 16 + (if t.BeginNode? then |t.name| else if t.Prop? then |t.value| else 0)
  {}

  lemma BusSize()
    requires WellFormed(BUS, BUS_STRINGS)
    ensures |Block(BUS, BUS_STRINGS)| < 0x1000
  {
    BusWellFormed();
    var ts := Tokens(BUS);
    forall t | t in ts ensures |Encode(t, BUS_STRINGS)| <= 32 {
      EncodeSize(t, BUS_STRINGS);
    }
    hide Tokens;
    hide EncodeAll;
    hide Encode;
    EncodedBound(ts, BUS_STRINGS, 32);
  }

  // With one plain child under it, the bus describes itself, and parsing its blob finds nothing.
  lemma BusIsMissed()
    ensures WellFormed(BUS, BUS_STRINGS) && 16 + |Block(BUS, BUS_STRINGS)| + |BUS_STRINGS| < 0x1_0000_0000
    ensures Described(BUS, BUS_STRINGS, []) == [DTDevice(Path([BUS.name]), [[120]])]
    ensures Parse(Blob(BUS, BUS_STRINGS)) == Ok(Some([]))
  {
    BusWellFormed();
    BusSize();
    BusReported();
    BlobSerialises(BUS, BUS_STRINGS);
    hide Tokens;
    hide Parse;
    hide Blob;
    hide Described;
    hide Reported;
    ParseSerialised(Blob(BUS, BUS_STRINGS), BUS, Tokens(BUS), BUS_STRINGS);
  }
}

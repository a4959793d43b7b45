/** Kconfig entries: from lines of text to a table, and the text a table entry prints as. */
module KconfigText {
  import opened Ascii

  datatype Entry = Entry(name: string, kind: string, prompt: string,
                         depends: seq<string>, selects: seq<string>, implies: seq<string>)

  type Table = map<string, Entry>

  const HEADERS := ["config", "menuconfig"]

  const KINDS := ["bool", "tristate", "int", "string", "hex"]

  predicate IsHeader(stripped: string) {
    StartsWith(stripped, "config ") || StartsWith(stripped, "menuconfig ")
  }

  predicate IsKind(stripped: string) {
    exists i | 0 <= i < |KINDS| :: StartsWith(stripped, KINDS[i])
  }

  // The entry after one attribute line.
  function Attribute(e: Entry, stripped: string): Entry {
    if IsKind(stripped) then
      var more := AfterFirstWord(stripped);
      e.(kind := FirstWord(stripped), prompt := if more != "" then StripQuotes(more) else e.prompt)
    else if StartsWith(stripped, "depends on ") then
      e.(depends := e.depends + [Strip(stripped[11..])])
    else if StartsWith(stripped, "select ") then
      var symbol := FirstWord(LStrip(stripped[7..]));
      if symbol != "" then e.(selects := e.selects + [symbol]) else e
    else if StartsWith(stripped, "imply ") then
      var symbol := FirstWord(LStrip(stripped[6..]));
      if symbol != "" then e.(implies := e.implies + [symbol]) else e
    else e
  }

  predicate EndsBody(line: string) {
    line != "" && line[0] != '\t' && line[0] != ' ' && Strip(line) != ""
  }

  // The body of an entry: the entry it makes, and the lines from the first unindented one on.
  function Body(lines: seq<string>, e: Entry): (r: (Entry, seq<string>))
    ensures |r.1| <= |lines|
  {
    if lines == [] then (e, [])
    else if Strip(lines[0]) == "" then Body(lines[1..], e)
    else if EndsBody(lines[0]) then (e, lines)
    else Body(lines[1..], Attribute(e, Strip(lines[0])))
  }

  // The table after a file. A later entry of the same name replaces an earlier one.
  function Parse(lines: seq<string>, table: Table): Table
    decreases |lines|
  {
    if lines == [] then table
    else
      var stripped := Strip(lines[0]);
      var name := FirstWord(AfterFirstWord(stripped));
      if IsHeader(stripped) && name != "" then
        var (e, rest) := Body(lines[1..], Entry(name, "", "", [], [], []));
        Parse(rest, table[name := e])
      else Parse(lines[1..], table)
  }

  // ---- the lines of a body ----

  // A kind alone, a kind with a quoted prompt and perhaps a condition or with any other text, an
  // expression, a symbol with perhaps a condition, and all that says nothing: help text, defaults.
  // A kind is any word that begins like one, so help text such as `into the kernel` is one too.
  datatype Item =
    | Typed(kind: string)
    | Prompted(kind: string, gap: string, prompt: string, tail: string)
    | Loose(kind: string, gap: string, text: string)
    | Depends(gap: string, expr: string)
    | Selects(gap: string, symbol: string, tail: string)
    | Implies(gap: string, symbol: string, tail: string)
    | Other(text: string)

  // What stands behind a symbol or a prompt.
  ghost predicate IsTail(s: string) { s == "" || (IsSpace(s[0]) && !IsSpace(s[|s| - 1])) }

  ghost predicate IsUnquoted(s: string) { s == "" || (s[0] != '"' && s[|s| - 1] != '"') }

  ghost predicate IsItem(item: Item) {
    match item
    case Typed(kind) => IsWord(kind) && IsKind(kind)
    case Prompted(kind, gap, prompt, tail) =>
      && IsWord(kind) && IsKind(kind) && gap != "" && IsBlank(gap) && IsTail(tail)
      && IsUnquoted(prompt) && (tail != "" ==> prompt != "" && tail[|tail| - 1] != '"')
    case Loose(kind, gap, text) =>
      && IsWord(kind) && IsKind(kind) && gap != "" && IsBlank(gap)
      && IsStripped(text) && IsUnquoted(text)
    case Depends(gap, expr) => IsBlank(gap) && IsStripped(expr)
    case Selects(gap, symbol, tail) => IsBlank(gap) && IsWord(symbol) && IsTail(tail)
    case Implies(gap, symbol, tail) => IsBlank(gap) && IsWord(symbol) && IsTail(tail)
    case Other(text) => IsStripped(text) && !IsKind(text) && !SaysMore(text)
  }

  predicate SaysMore(text: string) {
    StartsWith(text, "depends on ") || StartsWith(text, "select ") || StartsWith(text, "imply ")
  }

  function Quoted(prompt: string, tail: string): string { "\"" + prompt + "\"" + tail }

  function Text(item: Item): string {
    match item
    case Typed(kind) => kind
    case Prompted(kind, gap, prompt, tail) => kind + (gap + Quoted(prompt, tail))
    case Loose(kind, gap, text) => kind + (gap + text)
    case Depends(gap, expr) => "depends on " + (gap + expr)
    case Selects(gap, symbol, tail) => "select " + (gap + (symbol + tail))
    case Implies(gap, symbol, tail) => "imply " + (gap + (symbol + tail))
    case Other(text) => text
  }

  // What an item says of the entry. Conditions behind a symbol are dropped; one behind a prompt
  // stays in the prompt, with the quote in front of it.
  function Effect(item: Item, e: Entry): Entry {
    match item
    case Typed(kind) => e.(kind := kind)
    case Prompted(kind, _, prompt, tail) =>
      e.(kind := kind, prompt := if tail == "" then prompt else prompt + "\"" + tail)
    case Loose(kind, _, text) => e.(kind := kind, prompt := text)
    case Depends(_, expr) => e.(depends := e.depends + [expr])
    case Selects(_, symbol, _) => e.(selects := e.selects + [symbol])
    case Implies(_, symbol, _) => e.(implies := e.implies + [symbol])
    case Other(_) => e
  }

  datatype Line = Blank(text: string) | Shown(indent: string, item: Item, trail: string)

  ghost predicate IsLine(line: Line) {
    match line
    case Blank(text) => Strip(text) == ""
    case Shown(indent, item, trail) =>
      && indent != "" && (indent[0] == '\t' || indent[0] == ' ') && IsBlank(indent) && IsBlank(trail)
      && IsItem(item)
  }

  function ShowLine(line: Line): string {
    match line
    case Blank(text) => text
    case Shown(indent, item, trail) => indent + Text(item) + trail
  }

  function ShowAll(lines: seq<Line>): seq<string> {
    seq(|lines|, i requires 0 <= i < |lines| => ShowLine(lines[i]))
  }

  ghost predicate AreLines(lines: seq<Line>) { forall i | 0 <= i < |lines| :: IsLine(lines[i]) }

  function LineEffect(line: Line, e: Entry): Entry {
    if line.Blank? then e else Effect(line.item, e)
  }

  function EffectAll(lines: seq<Line>, e: Entry): Entry {
    if lines == [] then e else EffectAll(lines[1..], LineEffect(lines[0], e))
  }

  // ---- reading one line ----

  lemma TailEnds(s: string, tail: string)
    requires IsStripped(s) && IsTail(tail)
    ensures IsStripped(s + tail)
  {
    assert (s + tail)[0] == s[0];
    if tail != "" { assert (s + tail)[|s + tail| - 1] == tail[|tail| - 1]; } else { assert s + tail == s; }
  }

  // The words behind a keyword: blanks, the symbol, perhaps a condition.
  lemma SymbolRead(gap: string, symbol: string, tail: string)
    requires IsBlank(gap) && IsWord(symbol) && IsTail(tail)
    ensures FirstWord(LStrip(gap + (symbol + tail))) == symbol && IsStripped(symbol + tail)
  {
    WordAlone(symbol);
    TailEnds(symbol, tail);
    LStripBlanks(gap, symbol + tail);
    assert LStrip(symbol + tail) == symbol + tail;
    SplitWord(symbol, tail);
  }

  lemma KeywordKept(keyword: string, gap: string, value: string)
    requires keyword != "" && !IsSpace(keyword[0]) && IsStripped(value)
    ensures var text := keyword + (gap + value);
            IsStripped(text) && keyword <= text && text[|keyword|..] == gap + value
  {
    var text := keyword + (gap + value);
    assert text[0] == keyword[0] && text[|text| - 1] == value[|value| - 1];
  }

  lemma ReadSelects(e: Entry, gap: string, symbol: string, tail: string)
    requires IsBlank(gap) && IsWord(symbol) && IsTail(tail)
    ensures var text := "select " + (gap + (symbol + tail));
            IsStripped(text) && Attribute(e, text) == e.(selects := e.selects + [symbol])
  {
    var text := "select " + (gap + (symbol + tail));
    SymbolRead(gap, symbol, tail);
    KeywordKept("select ", gap, symbol + tail);
    hide FirstWord;
    hide LStrip;
    hide IsStripped;
    assert text[0] == 's' && text[1] == 'e' && text[0] != 'd';
  }

  lemma ReadImplies(e: Entry, gap: string, symbol: string, tail: string)
    requires IsBlank(gap) && IsWord(symbol) && IsTail(tail)
    ensures var text := "imply " + (gap + (symbol + tail));
            IsStripped(text) && Attribute(e, text) == e.(implies := e.implies + [symbol])
  {
    var text := "imply " + (gap + (symbol + tail));
    SymbolRead(gap, symbol, tail);
    KeywordKept("imply ", gap, symbol + tail);
    hide FirstWord;
    hide LStrip;
    hide IsStripped;
    assert text[0] == 'i' && text[1] == 'm';
  }

  lemma ReadDepends(e: Entry, gap: string, expr: string)
    requires IsBlank(gap) && IsStripped(expr)
    ensures var text := "depends on " + (gap + expr);
            IsStripped(text) && Attribute(e, text) == e.(depends := e.depends + [expr])
  {
    var text := "depends on " + (gap + expr);
    KeywordKept("depends on ", gap, expr);
    StripPadded(gap, expr, "");
    assert gap + expr + "" == gap + expr;
    hide Strip;
    hide IsStripped;
    assert text[0] == 'd';
  }

  lemma KindKept(kind: string, rest: string)
    requires IsKind(kind)
    ensures IsKind(kind + rest)
  {
    var i :| 0 <= i < |KINDS| && StartsWith(kind, KINDS[i]);
    assert StartsWith(kind + rest, KINDS[i]);
  }

  lemma ReadTyped(e: Entry, kind: string)
    requires IsWord(kind) && IsKind(kind)
    ensures IsStripped(kind) && Attribute(e, kind) == e.(kind := kind)
  {
    hide IsKind;
    WordAlone(kind);
  }

  // Quotes around a prompt go, and so does nothing of what stands behind it.
  lemma QuotedRead(prompt: string, tail: string)
    requires IsUnquoted(prompt) && (tail != "" ==> prompt != "" && tail[|tail| - 1] != '"')
    ensures StripQuotes(Quoted(prompt, tail)) == if tail == "" then prompt else prompt + "\"" + tail
  {
    if tail == "" {
      assert Quoted(prompt, tail) == "\"" + prompt + "\"";
      StripQuoted(prompt);
    } else {
      var rest := prompt + "\"" + tail;
      assert Quoted(prompt, tail)[0] == '"' && Quoted(prompt, tail)[1..] == rest;
      assert rest[0] == prompt[0] && rest[|rest| - 1] == tail[|tail| - 1];
    }
  }

  lemma ReadPrompted(e: Entry, kind: string, gap: string, prompt: string, tail: string)
    requires IsItem(Prompted(kind, gap, prompt, tail))
    ensures var item := Prompted(kind, gap, prompt, tail);
            IsStripped(Text(item)) && Attribute(e, Text(item)) == Effect(item, e)
  {
    var quoted, text := Quoted(prompt, tail), Text(Prompted(kind, gap, prompt, tail));
    KindKept(kind, gap + quoted);
    hide IsKind;
    assert quoted[0] == '"' && quoted != "";
    if tail == "" {
      assert quoted[|quoted| - 1] == '"';
    } else {
      assert quoted[|quoted| - 1] == tail[|tail| - 1];
    }
    WordAlone(kind);
    KeywordKept(kind, gap, quoted);
    assert gap[0] in gap && (gap + quoted)[0] == gap[0];
    SplitWord(kind, gap + quoted);
    LStripBlanks(gap, quoted);
    assert LStrip(quoted) == quoted;
    QuotedRead(prompt, tail);
    hide FirstWord;
    hide AfterFirstWord;
    hide StripQuotes;
    hide LStrip;
    hide Quoted;
  }

  lemma ReadLoose(e: Entry, kind: string, gap: string, text: string)
    requires IsItem(Loose(kind, gap, text))
    ensures IsStripped(kind + (gap + text))
    ensures Attribute(e, kind + (gap + text)) == e.(kind := kind, prompt := text)
  {
    KindKept(kind, gap + text);
    hide IsKind;
    WordAlone(kind);
    KeywordKept(kind, gap, text);
    assert gap[0] in gap && (gap + text)[0] == gap[0];
    SplitWord(kind, gap + text);
    LStripBlanks(gap, text);
    assert LStrip(text) == text && StripQuotes(text) == text;
    hide FirstWord;
    hide AfterFirstWord;
    hide StripQuotes;
    hide LStrip;
  }

  // Reading the text of an item does to the entry what the item says, and no more.
  lemma ReadItem(e: Entry, item: Item)
    requires IsItem(item)
    ensures IsStripped(Text(item)) && Attribute(e, Text(item)) == Effect(item, e)
  {
    match item
    case Typed(kind) => ReadTyped(e, kind);
    case Prompted(kind, gap, prompt, tail) => ReadPrompted(e, kind, gap, prompt, tail);
    case Loose(kind, gap, text) => ReadLoose(e, kind, gap, text);
    case Depends(gap, expr) => ReadDepends(e, gap, expr);
    case Selects(gap, symbol, tail) => ReadSelects(e, gap, symbol, tail);
    case Implies(gap, symbol, tail) => ReadImplies(e, gap, symbol, tail);
    case Other(text) => ReadOther(e, text);
    hide Attribute;
    hide IsItem;
  }

  lemma ReadOther(e: Entry, text: string)
    requires !IsKind(text) && !SaysMore(text)
    ensures Attribute(e, text) == e
  {
    hide IsKind;
  }

  // An indented line, whatever blanks it begins and ends with, is the text of its item.
  lemma ReadLine(e: Entry, line: Line)
    requires IsLine(line) && line.Shown?
    ensures Strip(ShowLine(line)) != "" && !EndsBody(ShowLine(line))
    ensures Attribute(e, Strip(ShowLine(line))) == Effect(line.item, e)
  {
    ReadItem(e, line.item);
    StripPadded(line.indent, Text(line.item), line.trail);
    hide Attribute;
    hide Strip;
    hide IsItem;
    hide Text;
    assert ShowLine(line)[0] == line.indent[0];
  }

  // ---- any indented lines ----

  function WithoutBlanks(lines: seq<string>): seq<string> {
    if lines == [] then []
    else if Strip(lines[0]) == "" then WithoutBlanks(lines[1..])
    else [lines[0]] + WithoutBlanks(lines[1..])
  }

  // The entry after a run of attribute lines.
  function AttributeAll(lines: seq<string>, e: Entry): Entry {
    if lines == [] then e else AttributeAll(lines[1..], Attribute(e, Strip(lines[0])))
  }

  ghost predicate AllIndented(lines: seq<string>) {
    forall i | 0 <= i < |lines| :: Strip(lines[i]) != "" && !EndsBody(lines[i])
  }

  // What may come after a body: the end of the file or the next header.
  ghost predicate AtNextEntry(rest: seq<string>) { rest == [] || EndsBody(rest[0]) }

  // Blank lines anywhere in a body change nothing.
  lemma {:induction false} BodyIgnoresBlanks(body: seq<string>, rest: seq<string>, e: Entry)
    requires AllIndented(WithoutBlanks(body)) && AtNextEntry(rest)
    ensures Body(body + rest, e) == (AttributeAll(WithoutBlanks(body), e), rest)
  {
    hide Attribute;
    hide Strip;
    hide EndsBody;
    if body == [] {
      assert body + rest == rest;
      NextEntryStops(rest, e);
    } else {
      assert (body + rest)[0] == body[0] && (body + rest)[1..] == body[1..] + rest;
      var tail := WithoutBlanks(body[1..]);
      if Strip(body[0]) == "" {
        BodyIgnoresBlanks(body[1..], rest, e);
      } else {
        assert WithoutBlanks(body)[1..] == tail && WithoutBlanks(body)[0] == body[0];
        assert forall i | 0 <= i < |tail| :: tail[i] == WithoutBlanks(body)[i + 1];
        BodyIgnoresBlanks(body[1..], rest, Attribute(e, Strip(body[0])));
      }
    }
  }

  lemma NextEntryStops(rest: seq<string>, e: Entry)
    requires AtNextEntry(rest)
    ensures Body(rest, e) == (e, rest)
  {}

  // ---- reading a body back ----

  lemma {:induction false} LinesRead(lines: seq<Line>, e: Entry)
    requires AreLines(lines)
    ensures AllIndented(WithoutBlanks(ShowAll(lines)))
    ensures AttributeAll(WithoutBlanks(ShowAll(lines)), e) == EffectAll(lines, e)
    decreases |lines|
  {
    hide Attribute;
    hide Strip;
    hide EndsBody;
    hide Effect;
    hide IsItem;
    hide ShowLine;
    if lines != [] {
      assert ShowAll(lines)[1..] == ShowAll(lines[1..]) && ShowAll(lines)[0] == ShowLine(lines[0]);
      LinesRead(lines[1..], LineEffect(lines[0], e));
      if lines[0].Shown? {
        ReadLine(e, lines[0]);
      } else {
        BlankShown(lines[0]);
      }
    }
  }

  lemma BlankShown(line: Line)
    requires IsLine(line) && line.Blank?
    ensures Strip(ShowLine(line)) == ""
  {}

  // A body of any such lines in any order does to the entry what the lines say, one after the
  // other, and leaves the rest of the file from the next unindented line on.
  lemma BodyReads(lines: seq<Line>, rest: seq<string>, e: Entry)
    requires AreLines(lines) && AtNextEntry(rest)
    ensures Body(ShowAll(lines) + rest, e) == (EffectAll(lines, e), rest)
  {
    hide Attribute;
    hide Strip;
    hide EndsBody;
    hide IsLine;
    LinesRead(lines, e);
    BodyIgnoresBlanks(ShowAll(lines), rest, e);
  }

  // ---- a body for every entry ----

  function Plain(item: Item): Line { Shown("\t", item, "") }

  // The kind and the prompt, then the expressions, then the symbols.
  function Canonical(e: Entry): seq<Line> {
    KindLines(e) + DependsLines(e.depends) + SelectsLines(e.selects) + ImpliesLines(e.implies)
  }

  function KindLines(e: Entry): seq<Line> {
    if e.kind == "" then [] else [Plain(Prompted(e.kind, " ", e.prompt, ""))]
  }

  function DependsLines(values: seq<string>): seq<Line> {
    seq(|values|, i requires 0 <= i < |values| => Plain(Depends("", values[i])))
  }

  function SelectsLines(values: seq<string>): seq<Line> {
    seq(|values|, i requires 0 <= i < |values| => Plain(Selects("", values[i], "")))
  }

  function ImpliesLines(values: seq<string>): seq<Line> {
    seq(|values|, i requires 0 <= i < |values| => Plain(Implies("", values[i], "")))
  }

  // What text can say of an entry.
  ghost predicate Printable(e: Entry) {
    && IsWord(e.name)
    && (e.kind == "" ==> e.prompt == "")
    && (e.kind != "" ==> IsWord(e.kind) && IsKind(e.kind))
    && IsUnquoted(e.prompt)
    && (forall i | 0 <= i < |e.depends| :: IsStripped(e.depends[i]))
    && (forall i | 0 <= i < |e.selects| :: IsWord(e.selects[i]))
    && (forall i | 0 <= i < |e.implies| :: IsWord(e.implies[i]))
  }

  function Start(name: string): Entry { Entry(name, "", "", [], [], []) }

  lemma {:induction false} EffectConcat(a: seq<Line>, b: seq<Line>, e: Entry)
    ensures EffectAll(a + b, e) == EffectAll(b, EffectAll(a, e))
    decreases |a|
  {
    hide LineEffect;
    if a == [] {
      assert a + b == b;
    } else {
      assert (a + b)[0] == a[0] && (a + b)[1..] == a[1..] + b;
      EffectConcat(a[1..], b, LineEffect(a[0], e));
    }
  }

  lemma {:induction false} DependsRead(values: seq<string>, e: Entry)
    ensures EffectAll(DependsLines(values), e) == e.(depends := e.depends + values)
    decreases |values|
  {
    if values == [] {
      assert e.depends + values == e.depends;
    } else {
      assert DependsLines(values)[1..] == DependsLines(values[1..]);
      DependsRead(values[1..], e.(depends := e.depends + [values[0]]));
      assert e.depends + [values[0]] + values[1..] == e.depends + values;
    }
  }

  lemma {:induction false} SelectsRead(values: seq<string>, e: Entry)
    ensures EffectAll(SelectsLines(values), e) == e.(selects := e.selects + values)
    decreases |values|
  {
    if values == [] {
      assert e.selects + values == e.selects;
    } else {
      assert SelectsLines(values)[1..] == SelectsLines(values[1..]);
      SelectsRead(values[1..], e.(selects := e.selects + [values[0]]));
      assert e.selects + [values[0]] + values[1..] == e.selects + values;
    }
  }

  lemma {:induction false} ImpliesRead(values: seq<string>, e: Entry)
    ensures EffectAll(ImpliesLines(values), e) == e.(implies := e.implies + values)
    decreases |values|
  {
    if values == [] {
      assert e.implies + values == e.implies;
    } else {
      assert ImpliesLines(values)[1..] == ImpliesLines(values[1..]);
      ImpliesRead(values[1..], e.(implies := e.implies + [values[0]]));
      assert e.implies + [values[0]] + values[1..] == e.implies + values;
    }
  }

  lemma CanonicalLines(e: Entry)
    requires Printable(e)
    ensures AreLines(Canonical(e))
  {
    hide IsKind;
  }

  // The canonical body of an entry reads back as that entry.
  lemma ReadBody(e: Entry)
    requires Printable(e)
    ensures AreLines(Canonical(e)) && EffectAll(Canonical(e), Start(e.name)) == e
  {
    CanonicalLines(e);
    var k, d, s, l := KindLines(e), DependsLines(e.depends), SelectsLines(e.selects), ImpliesLines(e.implies);
    var e1 := Start(e.name).(kind := e.kind, prompt := e.prompt);
    assert EffectAll(k, Start(e.name)) == e1 by {
      if e.kind != "" { assert k[1..] == []; }
    }
    var e2 := e1.(depends := e1.depends + e.depends);
    var e3 := e2.(selects := e2.selects + e.selects);
    DependsRead(e.depends, e1);
    SelectsRead(e.selects, e2);
    ImpliesRead(e.implies, e3);
    EffectConcat(k, d, Start(e.name));
    EffectConcat(k + d, s, Start(e.name));
    EffectConcat(k + d + s, l, Start(e.name));
    hide EffectAll;
    hide AreLines;
    assert e1.depends + e.depends == e.depends && e2.selects + e.selects == e.selects
        && e3.implies + e.implies == e.implies;
  }

  // ---- files ----

  // An entry under one of the two header keywords, the lines in front of it that belong to no
  // entry, and the lines of its body.
  datatype Printed = Printed(lead: seq<string>, keyword: string, entry: Entry, body: seq<Line>)

  // Unindented text and what follows it, without a header.
  ghost predicate IsLead(lines: seq<string>) {
    AtNextEntry(lines) && forall i | 0 <= i < |lines| :: !IsHeader(Strip(lines[i]))
  }

  ghost predicate IsPrinted(p: Printed) {
    && IsLead(p.lead) && p.keyword in HEADERS && IsWord(p.entry.name)
    && AreLines(p.body) && EffectAll(p.body, Start(p.entry.name)) == p.entry
  }

  function Header(p: Printed): string { p.keyword + " " + p.entry.name }

  function Lines(ps: seq<Printed>, end: seq<string>): seq<string> {
    if ps == [] then end else ps[0].lead + ([Header(ps[0])] + (ShowAll(ps[0].body) + Lines(ps[1..], end)))
  }

  function TableOf(ps: seq<Printed>, table: Table): Table {
    if ps == [] then table else TableOf(ps[1..], table[ps[0].entry.name := ps[0].entry])
  }

  lemma HeaderLine(keyword: string, name: string)
    requires keyword in HEADERS && IsWord(name)
    ensures var line := keyword + " " + name;
            ( && Strip(line) == line && EndsBody(line) && IsHeader(line)
              && FirstWord(AfterFirstWord(line)) == name )
  {
    var line := keyword + " " + name;
    WordAlone(name);
    SplitWordSpace(keyword, name);
    assert line[0] == keyword[0] && line[|line| - 1] == name[|name| - 1];
    StripIndented(' ', line);
    assert keyword + " " <= line;
  }

  lemma HeaderStarts(p: Printed)
    requires IsPrinted(p)
    ensures EndsBody(Header(p))
  {
    hide EndsBody;
    hide AreLines;
    HeaderLine(p.keyword, p.entry.name);
  }

  lemma LinesStart(ps: seq<Printed>, end: seq<string>)
    requires IsLead(end) && forall i | 0 <= i < |ps| :: IsPrinted(ps[i])
    ensures AtNextEntry(Lines(ps, end))
  {
    hide EndsBody;
    hide Header;
    hide AreLines;
    if ps != [] {
      HeaderStarts(ps[0]);
    }
  }

  // Lines that are no header are passed over.
  lemma {:induction false} ParseLead(lead: seq<string>, rest: seq<string>, table: Table)
    requires forall i | 0 <= i < |lead| :: !IsHeader(Strip(lead[i]))
    ensures Parse(lead + rest, table) == Parse(rest, table)
    decreases |lead|
  {
    hide Strip;
    hide IsHeader;
    hide Body;
    if lead == [] {
      assert lead + rest == rest;
    } else {
      assert (lead + rest)[0] == lead[0] && (lead + rest)[1..] == lead[1..] + rest;
      ParseLead(lead[1..], rest, table);
    }
  }

  // One turn of the outer loop on a header line.
  lemma ParseHeader(header: string, name: string, lines: seq<string>, table: Table)
    requires Strip(header) == header && IsHeader(header)
    requires FirstWord(AfterFirstWord(header)) == name && name != ""
    ensures var (e, rest) := Body(lines, Start(name));
            Parse([header] + lines, table) == Parse(rest, table[name := e])
  {
    hide Strip;
    hide IsHeader;
    hide FirstWord;
    hide AfterFirstWord;
    hide Body;
    assert ([header] + lines)[1..] == lines;
  }

  // One printed entry in front of others reads back as the entry.
  lemma ParseEntry(p: Printed, rest: seq<string>, table: Table)
    requires IsPrinted(p) && AtNextEntry(rest)
    ensures Parse([Header(p)] + (ShowAll(p.body) + rest), table) == Parse(rest, table[p.entry.name := p.entry])
  {
    HeaderLine(p.keyword, p.entry.name);
    hide Strip;
    hide EndsBody;
    hide IsHeader;
    hide IsLine;
    hide Parse;
    BodyReads(p.body, rest, Start(p.entry.name));
    ParseHeader(Header(p), p.entry.name, ShowAll(p.body) + rest, table);
  }

  // Reading printed entries gives the table they were printed from, later duplicates winning.
  lemma {:induction false} ParsePrinted(ps: seq<Printed>, end: seq<string>, table: Table)
    requires IsLead(end) && forall i | 0 <= i < |ps| :: IsPrinted(ps[i])
    ensures Parse(Lines(ps, end), table) == TableOf(ps, table)
    decreases |ps|
  {
    if ps == [] {
      ParseLead(end, [], table);
      assert end + [] == end;
    } else {
      hide Parse;
      hide Header;
      hide ShowAll;
      var p, rest := ps[0], Lines(ps[1..], end);
      LinesStart(ps[1..], end);
      ParseLead(p.lead, [Header(p)] + (ShowAll(p.body) + rest), table);
      ParseEntry(p, rest, table);
      ParsePrinted(ps[1..], end, table[p.entry.name := p.entry]);
    }
  }

  // Reading into a table is reading into an empty one and laying the result over it.
  lemma {:induction false} ParseOver(lines: seq<string>, table: Table)
    ensures Parse(lines, table) == table + Parse(lines, map[])
    decreases |lines|
  {
    hide Strip;
    hide IsHeader;
    if lines != [] {
      var name := FirstWord(AfterFirstWord(Strip(lines[0])));
      if IsHeader(Strip(lines[0])) && name != "" {
        var (e, rest) := Body(lines[1..], Entry(name, "", "", [], [], []));
        var one: Table := map[];
        ParseOver(rest, table[name := e]);
        ParseOver(rest, one[name := e]);
      } else {
        ParseOver(lines[1..], table);
      }
    }
  }
}

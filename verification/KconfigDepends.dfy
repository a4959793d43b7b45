/** The symbols a `depends on` expression asks for: every capitalised word that is not negated. */
module KconfigDepends {
  import opened Ascii
  import opened Wrappers

  predicate IsCapital(c: char) { 'A' <= c <= 'Z' }

  predicate IsNameChar(c: char) { 'A' <= c <= 'Z' || '0' <= c <= '9' || c == '_' }

  predicate IsWordChar(c: char) { IsNameChar(c) || 'a' <= c <= 'z' }

  // Behind the first `)`.
  function AfterClose(s: string): (r: string)
    ensures |r| <= |s|
  {
    if s == "" then "" else if s[0] == ')' then s[1..] else AfterClose(s[1..])
  }

  function AfterName(s: string): (r: string)
    ensures |r| <= |s|
  {
    if s == "" || !IsNameChar(s[0]) then s else AfterName(s[1..])
  }

  // `re.sub(r"!\s*\([^)]*\)", "", s)`
  function DropGroups(s: string): string
    decreases |s|
  {
    if s == "" then ""
    else
      var t := if s[0] == '!' then LStrip(s[1..]) else "";
      if t != "" && t[0] == '(' && ')' in t then DropGroups(AfterClose(t))
      else [s[0]] + DropGroups(s[1..])
  }

  // `re.sub(r"!\s*[A-Z][A-Z0-9_]*", "", s)`
  function DropNames(s: string): string
    decreases |s|
  {
    if s == "" then ""
    else
      var t := if s[0] == '!' then LStrip(s[1..]) else "";
      if t != "" && IsCapital(t[0]) then DropNames(AfterName(t))
      else [s[0]] + DropNames(s[1..])
  }

  // `\b([A-Z][A-Z0-9_]{2,})\b` takes whole words; n, y and m are too short for it anyway.
  predicate IsSymbol(word: string) {
    && |word| >= 3 && IsCapital(word[0]) && (forall c | c in word :: IsNameChar(c))
    && word != "MODULES"
  }

  function Keep(word: string): set<string> { if IsSymbol(word) then {word} else {} }

  // The symbols among the words of a text, the first of which has already begun with w.
  function Words(s: string, w: string): set<string> {
    if s == "" then Keep(w)
    else if IsWordChar(s[0]) then Words(s[1..], w + [s[0]])
    else Keep(w) + Words(s[1..], "")
  }

  function ExprSymbols(expr: string): set<string> { Words(DropNames(DropGroups(expr)), "") }

  function DependsSymbols(depends: seq<string>): set<string> {
    if depends == [] then {} else ExprSymbols(depends[0]) + DependsSymbols(depends[1..])
  }

  // ---- expressions ----

  // A word, a negated name, two expressions around an operator, or brackets around one.
  // A negation carries the blanks behind its `!`, brackets the blanks inside them.
  datatype Expr =
    | Word(word: string)
    | NotName(gap: string, name: string)
    | Join(left: Expr, op: string, right: Expr)
    | Group(negated: Option<string>, pre: string, inner: Expr, post: string)

  ghost predicate IsName(s: string) { IsPlainWord(s) && IsCapital(s[0]) && forall c | c in s :: IsNameChar(c) }

  ghost predicate IsPlainWord(s: string) { s != "" && forall c | c in s :: IsWordChar(c) }

  // Every `!` of a text is half of a `!=`.
  ghost predicate NoNegation(s: string) {
    forall i | 0 <= i < |s| && s[i] == '!' :: i + 1 < |s| && s[i + 1] == '='
  }

  // Connectives and comparisons, `!=` among them, with the blanks around them.
  ghost predicate IsOperator(s: string) {
    NoNegation(s) && forall c | c in s :: !IsWordChar(c) && c != '(' && c != ')'
  }

  ghost predicate WellFormed(e: Expr) {
    match e
    case Word(word) => IsPlainWord(word)
    case NotName(gap, name) => IsBlank(gap) && IsName(name)
    case Join(left, op, right) => WellFormed(left) && WellFormed(right) && op != "" && IsOperator(op)
    case Group(negated, pre, inner, post) =>
      (negated.Some? ==> IsBlank(negated.value)) && IsBlank(pre) && IsBlank(post) && WellFormed(inner)
  }

  function Show(e: Expr): string {
    match e
    case Word(word) => word
    case NotName(gap, name) => "!" + gap + name
    case Join(left, op, right) => Show(left) + (op + Show(right))
    case Group(negated, pre, inner, post) => Opening(negated, pre) + (Show(inner) + (post + ")"))
  }

  function Opening(negated: Option<string>, pre: string): string {
    (if negated.Some? then "!" + negated.value + "(" else "(") + pre
  }

  // The symbols that stand under no negation.
  function Positive(e: Expr): set<string> {
    match e
    case Word(word) => Keep(word)
    case NotName(_, _) => {}
    case Join(left, _, right) => Positive(left) + Positive(right)
    case Group(negated, _, inner, _) => if negated.Some? then {} else Positive(inner)
  }

  // A negated group is dropped up to its first `)`. Whether text is still dropped behind an
  // expression, given that it is or is not in front of it:
  function Dropping(e: Expr, before: bool): bool {
    match e
    case Word(_) => before
    case NotName(_, _) => before
    case Join(left, _, right) => Dropping(right, Dropping(left, before))
    case Group(_, _, _, _) => false
  }

  // The symbols that are read.
  function Reads(e: Expr, dropping: bool): set<string> {
    match e
    case Word(word) => if dropping then {} else Keep(word)
    case NotName(_, _) => {}
    case Join(left, _, right) => Reads(left, dropping) + Reads(right, Dropping(left, dropping))
    case Group(negated, _, inner, _) => Reads(inner, dropping || negated.Some?)
  }

  // Of these the ones from negated groups: what stands there behind the first `)`.
  function Leaked(e: Expr): set<string> {
    match e
    case Word(_) => {}
    case NotName(_, _) => {}
    case Join(left, _, right) => Leaked(left) + Leaked(right)
    case Group(negated, _, inner, _) => if negated.Some? then Reads(inner, true) else Leaked(inner)
  }

  // The text that is left once the groups, and the negated names too, are dropped.
  function Left(e: Expr, dropping: bool, names: bool): string {
    match e
    case Word(word) => if dropping then "" else word
    case NotName(gap, name) => if dropping || !names then "" else "!" + gap + name
    case Join(left, op, right) =>
      var behind := Dropping(left, dropping);
      Left(left, dropping, names) + ((if behind then "" else op) + Left(right, behind, names))
    case Group(negated, pre, inner, post) =>
      var inside := dropping || negated.Some?;
      (if inside then "" else "(" + pre)
      + (Left(inner, inside, names) + (if Dropping(inner, inside) then "" else post + ")"))
  }

  // ---- copying text without negations ----

  lemma NoNegationStep(s: string, rest: string)
    requires NoNegation(s) && s != ""
    ensures (s + rest)[0] == s[0] && (s + rest)[1..] == s[1..] + rest
    ensures NoNegation(s[1..])
    ensures s[0] == '!' ==> LStrip((s + rest)[1..]) != "" && LStrip((s + rest)[1..])[0] == '='
  {
    assert (s + rest)[1..] == s[1..] + rest;
    forall i | 0 <= i < |s[1..]| && s[1..][i] == '!' ensures i + 1 < |s[1..]| && s[1..][i + 1] == '=' {
      assert s[i + 1] == '!';
    }
  }

  lemma {:induction false} GroupsCopy(s: string, rest: string)
    requires NoNegation(s)
    ensures DropGroups(s + rest) == s + DropGroups(rest)
  {
    hide NoNegation;
    hide LStrip;
    if s == "" {
      assert s + rest == rest;
    } else {
      NoNegationStep(s, rest);
      GroupsCopy(s[1..], rest);
    }
  }

  lemma {:induction false} NamesCopy(s: string, rest: string)
    requires NoNegation(s)
    ensures DropNames(s + rest) == s + DropNames(rest)
  {
    hide NoNegation;
    hide LStrip;
    if s == "" {
      assert s + rest == rest;
    } else {
      NoNegationStep(s, rest);
      NamesCopy(s[1..], rest);
    }
  }

  // Text of which no character is a `!`.
  ghost predicate NoBang(s: string) { forall c | c in s :: c != '!' }

  lemma NoBangNoNegation(s: string)
    requires NoBang(s)
    ensures NoNegation(s)
  {
    forall i | 0 <= i < |s| ensures s[i] != '!' { assert s[i] in s; }
  }

  lemma {:induction false} GapStripped(gap: string, rest: string)
    requires IsBlank(gap) && rest != "" && !IsSpace(rest[0])
    ensures LStrip(gap + rest) == rest
  {
    if gap == "" {
      assert gap + rest == rest;
    } else {
      assert (gap + rest)[0] == gap[0] && gap[0] in gap && (gap + rest)[1..] == gap[1..] + rest;
      GapStripped(gap[1..], rest);
    }
  }

  // ---- the first pass: groups ----

  // Where a group is being dropped, text resumes behind the next `)`.
  function Resume(s: string, dropping: bool): string {
    DropGroups(if dropping then AfterClose(s) else s)
  }

  lemma {:induction false} CloseBehind(s: string, rest: string)
    requires ')' !in s
    ensures AfterClose(s + rest) == AfterClose(rest)
  {
    if s == "" {
      assert s + rest == rest;
    } else {
      assert (s + rest)[0] == s[0] && s[0] in s && (s + rest)[1..] == s[1..] + rest;
      CloseBehind(s[1..], rest);
    }
  }

  // A negated group is dropped up to the first `)` behind its opening.
  lemma GroupOpens(gap: string, pre: string, rest: string)
    requires IsBlank(gap) && IsBlank(pre) && ')' in rest
    ensures DropGroups("!" + gap + "(" + pre + rest) == Resume(rest, true)
  {
    var s, t := "!" + gap + "(" + pre + rest, "(" + pre + rest;
    assert s[0] == '!' && s[1..] == gap + t;
    GapStripped(gap, t);
    assert ')' in t by {
      var i :| 0 <= i < |rest| && rest[i] == ')';
      assert t[1 + |pre| + i] == ')';
    }
    assert t == ("(" + pre) + rest;
    CloseBehind("(" + pre, rest);
  }

  lemma NameFacts(gap: string, name: string)
    requires IsBlank(gap) && IsName(name)
    ensures NoNegation(gap + name) && ')' !in "!" + gap + name
    ensures !IsSpace(name[0]) && name[0] != '('
  {
    assert name[0] in name;
    NoBangNoNegation(gap + name);
  }

  lemma BangKept(gap: string, name: string, rest: string)
    requires IsBlank(gap) && IsName(name)
    ensures DropGroups("!" + gap + name + rest) == "!" + gap + name + DropGroups(rest)
  {
    NameFacts(gap, name);
    hide NoNegation;
    hide IsSpace;
    var s, t, plain := "!" + gap + name + rest, name + rest, gap + name;
    assert s[0] == '!' && s[1..] == gap + t;
    GapStripped(gap, t);
    assert gap + t == plain + rest;
    GroupsCopy(plain, rest);
    assert DropGroups(s) == ['!'] + (plain + DropGroups(rest)) by { BangAlone(s, t); }
    assert ['!'] + (plain + DropGroups(rest)) == "!" + gap + name + DropGroups(rest);
  }

  // A `!` that opens no group is copied.
  lemma BangAlone(s: string, t: string)
    requires s != "" && s[0] == '!' && t != "" && t[0] != '(' && LStrip(s[1..]) == t
    ensures DropGroups(s) == ['!'] + DropGroups(s[1..])
  {}

  // Text in front of the next `)`, kept or dropped.
  lemma ResumePlain(s: string, rest: string, dropping: bool)
    requires NoNegation(s) && ')' !in s
    ensures Resume(s + rest, dropping) == (if dropping then "" else s) + Resume(rest, dropping)
  {
    if dropping { CloseBehind(s, rest); } else { GroupsCopy(s, rest); }
  }

  // The end of a pair of brackets.
  lemma ResumeClose(post: string, rest: string, dropping: bool)
    requires IsBlank(post)
    ensures Resume(post + ")" + rest, dropping) == (if dropping then "" else post + ")") + DropGroups(rest)
  {
    if dropping {
      assert post + ")" + rest == post + (")" + rest);
      CloseBehind(post, ")" + rest);
      assert (")" + rest)[1..] == rest;
    } else {
      NoBangNoNegation(post + ")");
      GroupsCopy(post + ")", rest);
    }
  }

  // The beginning of a pair of brackets.
  lemma ResumeOpening(negated: Option<string>, pre: string, rest: string, dropping: bool)
    requires (negated.Some? ==> IsBlank(negated.value)) && IsBlank(pre) && ')' in rest
    ensures Resume(Opening(negated, pre) + rest, dropping)
         == (if dropping || negated.Some? then "" else "(" + pre) + Resume(rest, dropping || negated.Some?)
  {
    hide DropGroups;
    if dropping {
      CloseBehind(Opening(negated, pre), rest);
    } else if negated.Some? {
      GroupOpens(negated.value, pre, rest);
      assert Opening(negated, pre) + rest == "!" + negated.value + "(" + pre + rest;
    } else {
      NoBangNoNegation("(" + pre);
      GroupsCopy("(" + pre, rest);
    }
  }

  lemma {:induction false} GroupsPass(e: Expr, rest: string, dropping: bool)
    requires WellFormed(e)
    ensures Resume(Show(e) + rest, dropping) == Left(e, dropping, true) + Resume(rest, Dropping(e, dropping))
    decreases e, 1
  {
    hide Resume;
    match e
    case Word(word) =>
      NoBangNoNegation(word);
      ResumePlain(word, rest, dropping);
    case NotName(gap, name) =>
      ResumeNotName(gap, name, rest, dropping);
    case Join(_, _, _) =>
      GroupsJoin(e, rest, dropping);
    case Group(_, _, _, _) =>
      GroupsGroup(e, rest, dropping);
  }

  lemma {:induction false} GroupsJoin(e: Expr, rest: string, dropping: bool)
    requires WellFormed(e) && e.Join?
    ensures Resume(Show(e) + rest, dropping) == Left(e, dropping, true) + Resume(rest, Dropping(e, dropping))
    decreases e, 0
  {
    hide Resume;
    var left, op, right := e.left, e.op, e.right;
    var behind := Dropping(left, dropping);
    assert Show(e) + rest == Show(left) + (op + (Show(right) + rest));
    GroupsPass(left, op + (Show(right) + rest), dropping);
    ResumePlain(op, Show(right) + rest, behind);
    GroupsPass(right, rest, behind);
    Regroup(Left(left, dropping, true), if behind then "" else op, Left(right, behind, true),
            Resume(rest, Dropping(e, dropping)));
  }

  lemma {:induction false} GroupsGroup(e: Expr, rest: string, dropping: bool)
    requires WellFormed(e) && e.Group?
    ensures Resume(Show(e) + rest, dropping) == Left(e, dropping, true) + Resume(rest, Dropping(e, dropping))
    decreases e, 0
  {
    hide Resume;
    hide Opening;
    var inside := dropping || e.negated.Some?;
    var close := e.post + ")" + rest;
    var tail := Show(e.inner) + close;
    assert tail[|Show(e.inner)| + |e.post|] == ')';
    assert Show(e) + rest == Opening(e.negated, e.pre) + tail;
    ResumeOpening(e.negated, e.pre, tail, dropping);
    GroupsPass(e.inner, close, inside);
    ResumeClose(e.post, rest, Dropping(e.inner, inside));
    ResumeKept(rest);
    Regroup(if inside then "" else "(" + e.pre, Left(e.inner, inside, true),
            if Dropping(e.inner, inside) then "" else e.post + ")", DropGroups(rest));
  }

  lemma Regroup(a: string, b: string, c: string, d: string)
    ensures a + (b + (c + d)) == (a + (b + c)) + d
  {}

  lemma ResumeKept(rest: string)
    ensures Resume(rest, false) == DropGroups(rest)
  {}

  lemma ResumeNotName(gap: string, name: string, rest: string, dropping: bool)
    requires IsBlank(gap) && IsName(name)
    ensures Resume("!" + gap + name + rest, dropping)
         == (if dropping then "" else "!" + gap + name) + Resume(rest, dropping)
  {
    hide DropGroups;
    NameFacts(gap, name);
    if dropping {
      CloseBehind("!" + gap + name, rest);
    } else {
      BangKept(gap, name, rest);
    }
  }

  // ---- the second pass: negated names ----

  // A rest that cannot continue a word.
  ghost predicate AtBoundary(s: string) { s == "" || !IsWordChar(s[0]) }

  lemma {:induction false} NameEnds(name: string, rest: string)
    requires (forall c | c in name :: IsNameChar(c)) && AtBoundary(rest)
    ensures AfterName(name + rest) == rest
  {
    if name == "" {
      assert name + rest == rest;
    } else {
      assert (name + rest)[0] == name[0] && name[0] in name && (name + rest)[1..] == name[1..] + rest;
      NameEnds(name[1..], rest);
    }
  }

  lemma NegatedDropped(gap: string, name: string, rest: string)
    requires IsBlank(gap) && IsName(name) && AtBoundary(rest)
    ensures DropNames("!" + gap + name + rest) == DropNames(rest)
  {
    var s, t := "!" + gap + name + rest, name + rest;
    assert s[0] == '!' && s[1..] == gap + t && name[0] in name;
    GapStripped(gap, t);
    NameEnds(name, rest);
  }

  // What follows an operator or a bracket does not continue the word in front.
  lemma BoundaryBefore(s: string, rest: string)
    requires s != "" && forall c | c in s :: !IsWordChar(c)
    ensures AtBoundary(s + rest)
  {
    assert s[0] in s && (s + rest)[0] == s[0];
  }

  lemma {:induction false} DroppedAway(e: Expr, dropping: bool, names: bool)
    requires Dropping(e, dropping)
    ensures dropping && Left(e, dropping, names) == ""
  {
    if e.Join? {
      DroppedAway(e.right, Dropping(e.left, dropping), names);
      DroppedAway(e.left, dropping, names);
    }
  }

  lemma Empty(s: string)
    ensures "" + s == s
  {}

  lemma NamesPlain(s: string, rest: string)
    requires NoBang(s)
    ensures DropNames(s + rest) == s + DropNames(rest)
  {
    NoBangNoNegation(s);
    NamesCopy(s, rest);
  }

  lemma {:induction false} NamesPass(e: Expr, rest: string, dropping: bool)
    requires WellFormed(e) && AtBoundary(rest)
    ensures DropNames(Left(e, dropping, true) + rest) == Left(e, dropping, false) + DropNames(rest)
    decreases e, 1
  {
    hide DropNames;
    Empty(rest);
    Empty(DropNames(rest));
    match e
    case Word(word) =>
      if !dropping { NamesPlain(word, rest); }
    case NotName(gap, name) =>
      if !dropping { NegatedDropped(gap, name, rest); }
    case Join(_, _, _) =>
      NamesJoin(e, rest, dropping);
    case Group(_, _, _, _) =>
      NamesGroup(e, rest, dropping);
  }

  lemma {:induction false} NamesJoin(e: Expr, rest: string, dropping: bool)
    requires WellFormed(e) && e.Join? && AtBoundary(rest)
    ensures DropNames(Left(e, dropping, true) + rest) == Left(e, dropping, false) + DropNames(rest)
    decreases e, 0
  {
    hide DropNames;
    var left, op, right := e.left, e.op, e.right;
    var behind := Dropping(left, dropping);
    var tail := Left(right, behind, true) + rest;
    NamesPass(right, rest, behind);
    if behind {
      DroppedAway(left, dropping, true);
      DroppedAway(left, dropping, false);
      assert Left(e, dropping, true) == Left(right, behind, true);
      assert Left(e, dropping, false) == Left(right, behind, false);
    } else {
      hide NoNegation;
      assert Left(e, dropping, true) + rest == Left(left, dropping, true) + (op + tail);
      BoundaryBefore(op, tail);
      NamesPass(left, op + tail, dropping);
      NamesCopy(op, tail);
      Regroup(Left(left, dropping, false), op, Left(right, behind, false), DropNames(rest));
    }
  }

  lemma BracketFacts(blanks: string)
    requires IsBlank(blanks)
    ensures NoBang("(" + blanks) && NoBang(blanks + ")")
    ensures forall c | c in "(" + blanks || c in blanks + ")" :: !IsWordChar(c)
  {}

  lemma {:induction false} NamesGroup(e: Expr, rest: string, dropping: bool)
    requires WellFormed(e) && e.Group? && AtBoundary(rest)
    ensures DropNames(Left(e, dropping, true) + rest) == Left(e, dropping, false) + DropNames(rest)
    decreases e, 0
  {
    hide DropNames;
    BracketFacts(e.pre);
    BracketFacts(e.post);
    hide NoBang;
    hide IsBlank;
    hide IsWordChar;
    var inside := dropping || e.negated.Some?;
    var open := if inside then "" else "(" + e.pre;
    if Dropping(e.inner, inside) {
      DroppedAway(e.inner, inside, true);
      DroppedAway(e.inner, inside, false);
      assert Left(e, dropping, true) == "" && Left(e, dropping, false) == "";
      Empty(rest);
      Empty(DropNames(rest));
    } else {
      var close := e.post + ")";
      BoundaryBefore(close, rest);
      NamesPass(e.inner, close + rest, inside);
      NamesPlain(close, rest);
      var tail := Left(e.inner, inside, true) + (close + rest);
      assert Left(e, dropping, true) + rest == open + tail;
      if inside {
        Empty(tail);
      } else {
        NamesPlain(open, tail);
      }
      Regroup(open, Left(e.inner, inside, false), close, DropNames(rest));
    }
  }

  // ---- the third pass: words ----

  lemma {:induction false} WordRead(name: string, rest: string, w: string)
    requires (forall c | c in name :: IsWordChar(c)) && AtBoundary(rest)
    ensures Words(name + rest, w) == Keep(w + name) + Words(rest, "")
  {
    if name == "" {
      assert name + rest == rest && w + name == w;
    } else {
      assert (name + rest)[0] == name[0] && name[0] in name && (name + rest)[1..] == name[1..] + rest;
      assert w + [name[0]] + name[1..] == w + name;
      WordRead(name[1..], rest, w + [name[0]]);
    }
  }

  lemma {:induction false} OtherSkipped(s: string, rest: string)
    requires forall c | c in s :: !IsWordChar(c)
    ensures Words(s + rest, "") == Words(rest, "")
  {
    if s == "" {
      assert s + rest == rest;
    } else {
      assert (s + rest)[0] == s[0] && s[0] in s && (s + rest)[1..] == s[1..] + rest;
      OtherSkipped(s[1..], rest);
    }
  }

  lemma {:induction false} WordsPass(e: Expr, rest: string, dropping: bool)
    requires WellFormed(e) && AtBoundary(rest)
    ensures Words(Left(e, dropping, false) + rest, "") == Reads(e, dropping) + Words(rest, "")
    decreases e, 1
  {
    hide Words;
    Empty(rest);
    match e
    case Word(word) =>
      if !dropping {
        WordRead(word, rest, "");
        assert "" + word == word;
      }
    case NotName(_, _) =>
    case Join(_, _, _) =>
      WordsJoin(e, rest, dropping);
    case Group(_, _, _, _) =>
      WordsGroup(e, rest, dropping);
  }

  lemma {:induction false} WordsJoin(e: Expr, rest: string, dropping: bool)
    requires WellFormed(e) && e.Join? && AtBoundary(rest)
    ensures Words(Left(e, dropping, false) + rest, "") == Reads(e, dropping) + Words(rest, "")
    decreases e, 0
  {
    hide Words;
    var left, op, right := e.left, e.op, e.right;
    var behind := Dropping(left, dropping);
    var tail := Left(right, behind, false) + rest;
    WordsPass(right, rest, behind);
    if behind {
      DroppedAway(left, dropping, false);
      NothingRead(left, dropping);
      assert Left(e, dropping, false) == Left(right, behind, false);
    } else {
      hide NoNegation;
      assert Left(e, dropping, false) + rest == Left(left, dropping, false) + (op + tail);
      BoundaryBefore(op, tail);
      WordsPass(left, op + tail, dropping);
      OtherSkipped(op, tail);
    }
  }

  lemma {:induction false} NothingRead(e: Expr, dropping: bool)
    requires Dropping(e, dropping)
    ensures Reads(e, dropping) == {}
  {
    if e.Join? {
      NothingRead(e.right, Dropping(e.left, dropping));
      DroppedAway(e.right, Dropping(e.left, dropping), true);
      NothingRead(e.left, dropping);
    } else {
      DroppedAway(e, dropping, true);
    }
  }

  lemma {:induction false} WordsGroup(e: Expr, rest: string, dropping: bool)
    requires WellFormed(e) && e.Group? && AtBoundary(rest)
    ensures Words(Left(e, dropping, false) + rest, "") == Reads(e, dropping) + Words(rest, "")
    decreases e, 0
  {
    hide Words;
    var inside := dropping || e.negated.Some?;
    var open := if inside then "" else "(" + e.pre;
    if Dropping(e.inner, inside) {
      DroppedAway(e.inner, inside, false);
      NothingRead(e.inner, inside);
      assert Left(e, dropping, false) == "";
      Empty(rest);
    } else {
      var close := e.post + ")";
      BoundaryBefore(close, rest);
      WordsPass(e.inner, close + rest, inside);
      OtherSkipped(close, rest);
      var tail := Left(e.inner, inside, false) + (close + rest);
      assert Left(e, dropping, false) + rest == open + tail;
      OtherSkipped(open, tail);
    }
  }

  // ---- what an expression yields ----

  // Nothing is being dropped behind an expression unless it was in front of it.
  lemma {:induction false} NotDropping(e: Expr)
    ensures !Dropping(e, false)
  {
    if Dropping(e, false) {
      DroppedAway(e, false, true);
    }
  }

  lemma {:induction false} ReadsSplit(e: Expr)
    ensures Reads(e, false) == Positive(e) + Leaked(e)
  {
    match e
    case Word(_) =>
    case NotName(_, _) =>
    case Join(left, _, right) =>
      NotDropping(left);
      ReadsSplit(left);
      ReadsSplit(right);
    case Group(negated, _, inner, _) =>
      ReadsSplit(inner);
  }

  // The three passes over the text yield the positive symbols and the leaked ones.
  lemma ExprReads(e: Expr)
    requires WellFormed(e)
    ensures ExprSymbols(Show(e)) == Positive(e) + Leaked(e)
  {
    hide DropGroups;
    hide DropNames;
    hide Words;
    hide Left;
    hide Show;
    NotDropping(e);
    GroupsPass(e, "", false);
    NamesPass(e, "", false);
    WordsPass(e, "", false);
    ReadsSplit(e);
    NothingDropped();
    assert Show(e) + "" == Show(e) && Left(e, false, true) + "" == Left(e, false, true);
    assert Left(e, false, false) + "" == Left(e, false, false);
  }

  lemma NothingDropped()
    ensures DropGroups("") == "" && DropNames("") == "" && Words("", "") == {}
  {}

  // Exactly the symbols that are not negated are found, if and only if what stands in a negated
  // group behind the first `)` is asked for elsewhere too.
  lemma ExprYieldsPositive(e: Expr)
    requires WellFormed(e)
    ensures ExprSymbols(Show(e)) == Positive(e) <==> Leaked(e) <= Positive(e)
  {
    ExprReads(e);
  }

  // ---- negated groups ----

  lemma {:induction false} DroppingIsNoClose(e: Expr, before: bool)
    requires WellFormed(e)
    ensures Dropping(e, before) <==> before && ')' !in Show(e)
  {
    match e
    case Word(_) =>
    case NotName(_, _) =>
    case Join(left, _, right) =>
      DroppingIsNoClose(left, before);
      DroppingIsNoClose(right, Dropping(left, before));
    case Group(_, _, inner, post) =>
      assert Show(e)[|Show(e)| - 1] == ')';
  }

  // A negated group yields nothing when it holds no bracket of its own, and otherwise everything
  // that is asked for behind its first `)`, as if it were not negated.
  lemma NestedGroupLeaks(gap: string, pre: string, left: Expr, op: string, right: Expr, post: string)
    requires WellFormed(Group(Some(gap), pre, Join(left, op, right), post))
    ensures var text := Show(Group(Some(gap), pre, Join(left, op, right), post));
            && (')' in Show(left) ==> ExprSymbols(text) == Reads(left, true) + Positive(right) + Leaked(right))
            && (')' !in Show(Join(left, op, right)) ==> ExprSymbols(text) == {})
  {
    var inner := Join(left, op, right);
    hide Show;
    hide ExprSymbols;
    ExprReads(Group(Some(gap), pre, inner, post));
    DroppingIsNoClose(left, true);
    DroppingIsNoClose(inner, true);
    ReadsSplit(right);
    if ')' !in Show(inner) {
      NothingRead(inner, true);
    }
  }

  // ---- all expressions of an entry ----

  // The symbols of an entry are those of each of its expressions.
  lemma {:induction false} DependsSymbolsExact(depends: seq<string>, s: string)
    ensures s in DependsSymbols(depends) <==> exists i :: 0 <= i < |depends| && s in ExprSymbols(depends[i])
  {
    hide ExprSymbols;
    if depends != [] {
      var rest := depends[1..];
      DependsSymbolsExact(rest, s);
      if i :| 0 <= i < |rest| && s in ExprSymbols(rest[i]) {
        assert depends[i + 1] == rest[i];
      }
      if i :| 0 <= i < |depends| && s in ExprSymbols(depends[i]) {
        assert i > 0 ==> rest[i - 1] == depends[i];
      }
    }
  }

  // Of printed expressions: those that some tree has under no negation, or leaks.
  lemma DependsPrinted(es: seq<Expr>, depends: seq<string>, s: string)
    requires |depends| == |es| && forall i | 0 <= i < |es| :: WellFormed(es[i]) && depends[i] == Show(es[i])
    ensures s in DependsSymbols(depends) <==> exists i :: 0 <= i < |es| && s in Positive(es[i]) + Leaked(es[i])
  {
    hide ExprSymbols;
    hide Show;
    hide WellFormed;
    hide Positive;
    hide Leaked;
    DependsSymbolsExact(depends, s);
    forall i | 0 <= i < |es| ensures ExprSymbols(depends[i]) == Positive(es[i]) + Leaked(es[i]) {
      ExprReads(es[i]);
    }
  }

  // ---- the words of a text ----

  // What `[A-Z][A-Z0-9_]{2,}` matches, but for the one symbol that is left out.
  predicate IsMatch(sym: string) {
    && |sym| >= 3 && 'A' <= sym[0] <= 'Z'
    && (forall c | c in sym :: 'A' <= c <= 'Z' || '0' <= c <= '9' || c == '_')
    && sym != "MODULES"
  }

  // It stands in a text between two positions, with a word boundary on either side.
  ghost predicate StandsAt(text: string, i: int, j: int, sym: string) {
    && 0 <= i <= j <= |text| && text[i..j] == sym
    && (i > 0 ==> !IsWordChar(text[i - 1])) && (j < |text| ==> !IsWordChar(text[j]))
  }

  ghost predicate Occurs(text: string, sym: string) {
    IsMatch(sym) && exists i, j :: StandsAt(text, i, j, sym)
  }

  // A text that is one word matches as a whole or not at all.
  lemma WordOccurs(w: string, sym: string)
    requires forall c | c in w :: IsWordChar(c)
    ensures Occurs(w, sym) <==> sym in Keep(w)
  {
    assert w[0..|w|] == w;
    if sym in Keep(w) {
      assert StandsAt(w, 0, |w|, sym);
    }
    forall k | 0 <= k < |w| ensures IsWordChar(w[k]) { assert w[k] in w; }
    forall i, j | IsMatch(sym) && StandsAt(w, i, j, sym) ensures i == 0 && j == |w| {
    }
  }

  lemma FrontStands(a: string, c: char, b: string, i: int, j: int, sym: string)
    requires !IsWordChar(c) && j <= |a|
    ensures StandsAt(a + [c] + b, i, j, sym) <==> StandsAt(a, i, j, sym)
  {
    var text := a + [c] + b;
    if 0 <= i <= j {
      assert text[i..j] == a[i..j];
    }
  }

  lemma BehindStands(a: string, c: char, b: string, i: int, j: int, sym: string)
    requires !IsWordChar(c) && 0 <= i
    ensures StandsAt(a + [c] + b, i + |a| + 1, j + |a| + 1, sym) <==> StandsAt(b, i, j, sym)
  {
    var text, n := a + [c] + b, |a| + 1;
    if i <= j <= |b| {
      assert text[i + n..j + n] == b[i..j];
    }
  }

  // A match does not reach over a character that belongs to no word.
  lemma NoMatchAcross(a: string, c: char, b: string, i: int, j: int, sym: string)
    requires !IsWordChar(c) && IsMatch(sym) && StandsAt(a + [c] + b, i, j, sym)
    ensures j <= |a| || i > |a|
  {
    var text := a + [c] + b;
    assert text[|a|] == c;
    forall k | i <= k < j ensures text[k] in sym { assert text[k] == text[i..j][k - i]; }
  }

  // A character that belongs to no word separates the matches in front of it from those behind.
  lemma OccursAround(a: string, c: char, b: string, sym: string)
    requires !IsWordChar(c)
    ensures Occurs(a + [c] + b, sym) <==> Occurs(a, sym) || Occurs(b, sym)
  {
    hide StandsAt;
    hide IsMatch;
    var text, n := a + [c] + b, |a| + 1;
    if IsMatch(sym) {
      if i, j :| StandsAt(text, i, j, sym) {
        NoMatchAcross(a, c, b, i, j, sym);
        if j <= |a| {
          FrontStands(a, c, b, i, j, sym);
        } else {
          BehindStands(a, c, b, i - n, j - n, sym);
        }
      }
      if i, j :| StandsAt(a, i, j, sym) {
        InText(a, i, j, sym);
        FrontStands(a, c, b, i, j, sym);
      }
      if i, j :| StandsAt(b, i, j, sym) {
        InText(b, i, j, sym);
        BehindStands(a, c, b, i, j, sym);
      }
    }
  }

  lemma InText(text: string, i: int, j: int, sym: string)
    requires StandsAt(text, i, j, sym)
    ensures 0 <= i <= j <= |text|
  {}

  // The words that are kept are exactly the matches.
  lemma {:induction false} WordsExact(s: string, w: string, sym: string)
    requires forall c | c in w :: IsWordChar(c)
    ensures sym in Words(s, w) <==> Occurs(w + s, sym)
    decreases |s|
  {
    hide Occurs;
    if s == "" {
      assert w + s == w;
      WordOccurs(w, sym);
    } else if IsWordChar(s[0]) {
      assert w + s == (w + [s[0]]) + s[1..];
      WordsExact(s[1..], w + [s[0]], sym);
    } else {
      assert w + s == w + [s[0]] + s[1..];
      OccursAround(w, s[0], s[1..], sym);
      WordOccurs(w, sym);
      WordsExact(s[1..], "", sym);
      assert "" + s[1..] == s[1..];
    }
  }

  // The symbols of any expression, however it is written, are the matches in what is left of it.
  lemma ExprSymbolsMatch(expr: string, sym: string)
    ensures sym in ExprSymbols(expr) <==> Occurs(DropNames(DropGroups(expr)), sym)
  {
    hide DropNames;
    hide DropGroups;
    var left := DropNames(DropGroups(expr));
    WordsExact(left, "", sym);
    assert "" + left == left;
  }
}

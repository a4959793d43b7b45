/** The string helpers of the standard library that the parsers use, on ASCII text. */
module Ascii {
  function UpperChar(c: char): char { if 'a' <= c <= 'z' then c - 'a' + 'A' else c }

  function LowerChar(c: char): char { if 'A' <= c <= 'Z' then c - 'A' + 'a' else c }

  function Upper(s: string): string { seq(|s|, i requires 0 <= i < |s| => UpperChar(s[i])) }

  function Lower(s: string): string { seq(|s|, i requires 0 <= i < |s| => LowerChar(s[i])) }

  predicate IsSpace(c: char) { c == ' ' || '\t' <= c <= '\r' || '\U{001C}' <= c <= '\U{001F}' }

  predicate StartsWith(s: string, prefix: string) { prefix <= s }

  // ---- str.strip ----

  function LStrip(s: string): (r: string)
    ensures r == "" || !IsSpace(r[0])
    ensures |r| <= |s|
  {
    if s != "" && IsSpace(s[0]) then LStrip(s[1..]) else s
  }

  function RStrip(s: string): (r: string)
    ensures r == "" || !IsSpace(r[|r| - 1])
  {
    if s != "" && IsSpace(s[|s| - 1]) then RStrip(s[..|s| - 1]) else s
  }

  function Strip(s: string): string { RStrip(LStrip(s)) }

  // `s.strip('"')`
  function StripQuotes(s: string): string {
    if s != "" && s[0] == '"' then StripQuotes(s[1..])
    else if s != "" && s[|s| - 1] == '"' then StripQuotes(s[..|s| - 1])
    else s
  }

  // ---- str.split ----

  // The first word of text that does not start with a space, and what follows its spaces.
  function FirstWord(s: string): string {
    if s == "" || IsSpace(s[0]) then "" else [s[0]] + FirstWord(s[1..])
  }

  function AfterFirstWord(s: string): (r: string)
    ensures |r| <= |s|
  {
    if s == "" then "" else if IsSpace(s[0]) then LStrip(s) else AfterFirstWord(s[1..])
  }

  // ---- words and stripped text ----

  ghost predicate IsWord(s: string) { s != "" && forall c | c in s :: !IsSpace(c) }

  // Text that strip() leaves alone.
  ghost predicate IsStripped(s: string) { s != "" && !IsSpace(s[0]) && !IsSpace(s[|s| - 1]) }

  lemma StripIndented(c: char, s: string)
    requires IsSpace(c) && IsStripped(s)
    ensures Strip([c] + s) == s && Strip(s) == s
  {
    var t := [c] + s;
    assert t[0] == c && t[1..] == s;
    assert LStrip(s) == s && RStrip(s) == s;
    assert LStrip(t) == LStrip(s);
  }

  ghost predicate IsBlank(s: string) { forall c | c in s :: IsSpace(c) }

  lemma {:induction false} LStripBlanks(blanks: string, s: string)
    requires IsBlank(blanks)
    ensures LStrip(blanks + s) == LStrip(s)
  {
    if blanks == "" {
      assert blanks + s == s;
    } else {
      assert (blanks + s)[0] == blanks[0] && blanks[0] in blanks && (blanks + s)[1..] == blanks[1..] + s;
      LStripBlanks(blanks[1..], s);
    }
  }

  lemma {:induction false} RStripBlanks(s: string, blanks: string)
    requires IsBlank(blanks)
    ensures RStrip(s + blanks) == RStrip(s)
  {
    if blanks == "" {
      assert s + blanks == s;
    } else {
      var t, k := s + blanks, |blanks| - 1;
      assert t[|t| - 1] == blanks[k] && blanks[k] in blanks && t[..|t| - 1] == s + blanks[..k];
      RStripBlanks(s, blanks[..k]);
    }
  }

  // Blanks on both sides of a text are all that strip() takes.
  lemma StripPadded(pre: string, s: string, post: string)
    requires IsBlank(pre) && IsBlank(post) && IsStripped(s)
    ensures Strip(pre + s + post) == s && Strip(s) == s
  {
    assert pre + s + post == pre + (s + post);
    LStripBlanks(pre, s + post);
    assert LStrip(s + post) == s + post && LStrip(s) == s;
    RStripBlanks(s, post);
  }

  // The first word of "word rest" is the word, and the rest is what follows.
  lemma {:induction false} SplitWord(w: string, rest: string)
    requires forall c | c in w :: !IsSpace(c)
    requires rest == "" || IsSpace(rest[0])
    ensures FirstWord(w + rest) == w
    ensures AfterFirstWord(w + rest) == LStrip(rest)
  {
    if w == "" {
      assert w + rest == rest;
    } else {
      assert (w + rest)[0] == w[0] && w[0] in w && (w + rest)[1..] == w[1..] + rest;
      SplitWord(w[1..], rest);
    }
  }

  lemma SplitWordSpace(w: string, rest: string)
    requires IsWord(w) && IsStripped(rest)
    ensures FirstWord(w + " " + rest) == w && AfterFirstWord(w + " " + rest) == rest
  {
    assert w + " " + rest == w + (" " + rest);
    SplitWord(w, " " + rest);
    assert (" " + rest)[1..] == rest;
  }

  lemma WordAlone(w: string)
    requires IsWord(w)
    ensures FirstWord(w) == w && AfterFirstWord(w) == "" && IsStripped(w)
  {
    assert w + "" == w && w[0] in w && w[|w| - 1] in w;
    SplitWord(w, "");
  }

  // Quotes around text that neither starts nor ends with one are all that goes.
  lemma StripQuoted(s: string)
    requires s == "" || (s[0] != '"' && s[|s| - 1] != '"')
    ensures StripQuotes("\"" + s + "\"") == s
  {
    var tail := s + "\"";
    assert StripQuotes("\"" + s + "\"") == StripQuotes(tail) by {
      assert ("\"" + s + "\"")[0] == '"' && ("\"" + s + "\"")[1..] == tail;
    }
    if s == "" {
      assert tail[0] == '"' && tail[1..] == "";
      assert StripQuotes(tail) == StripQuotes("");
    } else {
      assert tail[0] == s[0] && tail[|tail| - 1] == '"' && tail[..|tail| - 1] == s;
      assert StripQuotes(tail) == StripQuotes(s);
    }
  }

  // ---- upper and lower case ----

  // Changing the case first makes no difference, so neither does the case of the text.
  lemma CaseOnly(s: string)
    ensures Upper(Lower(s)) == Upper(s) && Lower(Upper(s)) == Lower(s)
  {}
}

/** fnmatch on POSIX: case-sensitive, `*` takes any run of characters, `?` any one character.
    Bracket classes are not part of this model; no pattern built from device IDs holds a `[`. */
module Glob {
  import opened Wrappers

  predicate Matches(pattern: string, text: string)
    decreases |pattern| + |text|
  {
    if pattern == "" then text == ""
    else if pattern[0] == '*' then
      Matches(pattern[1..], text) || (text != "" && Matches(pattern, text[1..]))
    else
      text != "" && (pattern[0] == '?' || pattern[0] == text[0]) && Matches(pattern[1..], text[1..])
  }

  // ---- aliases and patterns as labelled parts ----

  // One piece of an alias: a lower-case label, the value the device has there,
  // and the value the driver asks for (None is printed as `*`).
  datatype Part = Part(tag: string, want: Option<string>, have: string)

  // The characters labels are made of. Hexadecimal digits are upper case, so they are never labels.
  predicate IsLabel(c: char) { 'a' <= c <= 'z' || c == ':' }

  predicate IsMeta(c: char) { c == '*' || c == '?' }

  ghost predicate NoLabels(s: string) { forall c | c in s :: !IsLabel(c) }

  ghost predicate Plain(s: string) { forall c | c in s :: !IsLabel(c) && !IsMeta(c) }

  ghost predicate WellFormed(p: Part) {
    && p.tag != ""
    && (forall c | c in p.tag :: IsLabel(c))
    && NoLabels(p.have)
    && (p.want.Some? ==> Plain(p.want.value))
  }

  function Pattern(parts: seq<Part>): string {
    if parts == [] then "" else
      var p := parts[0];
      p.tag + (if p.want.Some? then p.want.value else "*") + Pattern(parts[1..])
  }

  function Text(parts: seq<Part>): string {
    if parts == [] then "" else parts[0].tag + parts[0].have + Text(parts[1..])
  }

  ghost predicate FieldsAgree(parts: seq<Part>) {
    forall p | p in parts && p.want.Some? :: p.want.value == p.have
  }

  // How many label characters a string holds.
  ghost function Labels(s: string): nat {
    if s == "" then 0 else (if IsLabel(s[0]) then 1 else 0) + Labels(s[1..])
  }

  // ---- no `*` can swallow a label ----

  lemma {:induction false} LabelsConcat(s: string, t: string)
    ensures Labels(s + t) == Labels(s) + Labels(t)
  {
    if s == "" {
      assert s + t == t;
    } else {
      assert (s + t)[1..] == s[1..] + t;
      LabelsConcat(s[1..], t);
    }
  }

  lemma {:induction false} NoLabelsCount(s: string)
    requires NoLabels(s)
    ensures Labels(s) == 0
  {
    if s != "" {
      NoLabelsCount(s[1..]);
    }
  }

  // Every label character of a matching pattern is a label character of the text of its own.
  lemma {:induction false} MatchKeepsLabels(p: string, t: string)
    requires Matches(p, t)
    requires '?' !in p
    ensures Labels(p) <= Labels(t)
    decreases |p| + |t|
  {
    if p != "" {
      if p[0] == '*' && !Matches(p[1..], t) {
        MatchKeepsLabels(p, t[1..]);
      } else if p[0] == '*' {
        MatchKeepsLabels(p[1..], t);
      } else {
        MatchKeepsLabels(p[1..], t[1..]);
      }
    }
  }

  lemma {:induction false} LiteralMatch(s: string, p: string, t: string)
    requires forall c | c in s :: !IsMeta(c)
    ensures Matches(s + p, s + t) == Matches(p, t)
  {
    if s == "" {
      assert s + p == p && s + t == t;
    } else {
      assert s[0] in s && (s + p)[0] == s[0] == (s + t)[0];
      assert (s + p)[1..] == s[1..] + p && (s + t)[1..] == s[1..] + t;
      LiteralMatch(s[1..], p, t);
    }
  }

  ghost predicate AtBoundary(s: string) { s == "" || IsLabel(s[0]) }

  // A `*` in front of a labelled rest takes exactly the value before the next label.
  lemma {:induction false} StarTakesValue(v: string, p: string, t: string)
    requires NoLabels(v) && AtBoundary(p) && AtBoundary(t)
    requires '?' !in p && Labels(p) == Labels(t)
    ensures Matches("*" + p, v + t) == Matches(p, t)
  {
    assert ("*" + p)[1..] == p;
    if v == "" {
      assert v + t == t;
      if t != "" && Matches("*" + p, t[1..]) {
        MatchKeepsLabels("*" + p, t[1..]);
        assert false;
      }
    } else {
      assert (v + t)[1..] == v[1..] + t;
      assert !Matches(p, v + t) by { assert (v + t)[0] == v[0] && v[0] in v; }
      StarTakesValue(v[1..], p, t);
    }
  }

  // A literal value in front of a labelled rest must be the whole value of the text.
  lemma {:induction false} LiteralTakesValue(w: string, v: string, p: string, t: string)
    requires Plain(w) && NoLabels(v) && AtBoundary(p) && AtBoundary(t) && '?' !in p
    ensures Matches(w + p, v + t) <==> w == v && Matches(p, t)
  {
    if w == "" {
      assert w + p == p;
      if v != "" {
        assert (v + t)[0] == v[0] && v[0] in v;
      } else {
        assert v + t == t;
      }
    } else if v == "" {
      assert v + t == t && (w + p)[0] == w[0] && w[0] in w;
    } else {
      assert (w + p)[0] == w[0] && w[0] in w && (v + t)[0] == v[0];
      assert (w + p)[1..] == w[1..] + p && (v + t)[1..] == v[1..] + t;
      LiteralTakesValue(w[1..], v[1..], p, t);
      assert w == [w[0]] + w[1..] && v == [v[0]] + v[1..];
    }
  }

  lemma {:induction false} PartsShape(parts: seq<Part>)
    requires forall p | p in parts :: WellFormed(p)
    ensures AtBoundary(Pattern(parts)) && AtBoundary(Text(parts))
    ensures '?' !in Pattern(parts)
    ensures Labels(Pattern(parts)) == Labels(Text(parts))
  {
    if parts != [] {
      var p, rest := parts[0], parts[1..];
      PartsShape(rest);
      var want := if p.want.Some? then p.want.value else "*";
      assert WellFormed(p);
      assert p.tag[0] in p.tag;
      NoLabelsCount(want);
      NoLabelsCount(p.have);
      LabelsConcat(p.tag + want, Pattern(rest));
      LabelsConcat(p.tag, want);
      LabelsConcat(p.tag + p.have, Text(rest));
      LabelsConcat(p.tag, p.have);
    }
  }

  // One part in front of the others.
  lemma FirstPart(p: Part, pattern: string, text: string)
    requires WellFormed(p) && AtBoundary(pattern) && AtBoundary(text)
    requires '?' !in pattern && Labels(pattern) == Labels(text)
    ensures Matches(p.tag + (if p.want.Some? then p.want.value else "*") + pattern, p.tag + p.have + text)
       <==> (p.want.Some? ==> p.want.value == p.have) && Matches(pattern, text)
  {
    var want := if p.want.Some? then p.want.value else "*";
    assert p.tag + want + pattern == p.tag + (want + pattern);
    assert p.tag + p.have + text == p.tag + (p.have + text);
    LiteralMatch(p.tag, want + pattern, p.have + text);
    if p.want.None? {
      StarTakesValue(p.have, pattern, text);
    } else {
      LiteralTakesValue(want, p.have, pattern, text);
    }
  }

  // The string match of a whole pattern against a whole alias is the match of each field.
  lemma {:induction false} GlobIsFieldwise(parts: seq<Part>)
    requires forall p | p in parts :: WellFormed(p)
    ensures Matches(Pattern(parts), Text(parts)) <==> FieldsAgree(parts)
  {
    hide Matches;
    if parts == [] {
      BothEmpty();
    } else {
      var p, rest := parts[0], parts[1..];
      GlobIsFieldwise(rest);
      PartsShape(rest);
      FirstPart(p, Pattern(rest), Text(rest));
      assert parts == [p] + rest;
    }
  }

  lemma BothEmpty()
    ensures Matches("", "")
  {}

  // ---- what the two wildcards stand for ----

  // `*` stands for any run of characters, `?` for any one.
  lemma {:induction false} Wildcards(p: string, t: string)
    ensures Matches("*" + p, t) <==> exists k :: 0 <= k <= |t| && Matches(p, t[k..])
    ensures Matches("?" + p, t) <==> t != "" && Matches(p, t[1..])
    decreases |t|
  {
    assert ("*" + p)[1..] == p && ("?" + p)[1..] == p && t[0..] == t;
    if t != "" {
      var rest := t[1..];
      Wildcards(p, rest);
      if k :| 0 <= k <= |rest| && Matches(p, rest[k..]) {
        assert t[k + 1..] == rest[k..];
      }
      if k :| 0 <= k <= |t| && Matches(p, t[k..]) {
        if k > 0 { assert rest[k - 1..] == t[k..]; }
      }
    }
  }
}

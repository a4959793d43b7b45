/** The walk over Kconfig files that source each other, cycles included. */
module KconfigFiles {
  import opened Closure
  import opened KconfigText

  // A file as the walk sees it: the existing files it sources, in order, and its lines.
  datatype Source = Readable(sources: seq<string>, lines: seq<string>) | Unreadable

  type Tree = map<string, Source>

  // Sources that do not exist were dropped when their paths were resolved.
  ghost predicate WellFormed(fs: Tree) {
    forall p, q | p in fs && fs[p].Readable? && q in fs[p].sources :: q in fs
  }

  // The files visited and the readable ones in the order their own entries are parsed.
  function Visit(fs: Tree, p: string, visited: set<string>): (r: (set<string>, seq<string>))
    requires WellFormed(fs) && p in fs
    ensures visited <= r.0
    decreases fs.Keys - visited, 0
  {
    if p in visited then (visited, [])
    else if fs[p].Unreadable? then (visited + {p}, [])
    else
      assert fs.Keys - (visited + {p}) < fs.Keys - visited by {
        assert p in fs.Keys - visited && p !in fs.Keys - (visited + {p});
      }
      var (visited', order) := VisitAll(fs, fs[p].sources, visited + {p});
      (visited', order + [p])
  }

  function VisitAll(fs: Tree, ps: seq<string>, visited: set<string>): (r: (set<string>, seq<string>))
    requires WellFormed(fs) && forall q | q in ps :: q in fs
    ensures visited <= r.0
    decreases fs.Keys - visited, |ps|
  {
    if ps == [] then (visited, [])
    else
      assert ps[0] in ps;
      var (visited', order) := Visit(fs, ps[0], visited);
      var (visited'', order') := VisitAll(fs, ps[1..], visited');
      (visited'', order + order')
  }

  // The table after parsing the files of an order one by one.
  function ParseAll(fs: Tree, order: seq<string>, table: Table): Table
    requires AllReadable(fs, order)
  {
    if order == [] then table
    else
      assert order[0] in order;
      ParseAll(fs, order[1..], Parse(fs[order[0]].lines, table))
  }

  function Edges(fs: Tree): Graph {
    map p | p in fs :: if fs[p].Readable? then set q | q in fs[p].sources else {}
  }

  // ---- the walk handles each reachable file once ----

  // What a walk that started at visited files v and ended at v' has done.
  ghost predicate Walked(fs: Tree, v: set<string>, v': set<string>, order: seq<string>) {
    && v <= v' <= v + fs.Keys
    && (forall p, q | p in v' - v && q in Next(Edges(fs), p) :: q in v')
    && (forall p :: p in order <==> p in v' - v && fs[p].Readable?)
    && (forall i, j | 0 <= i < j < |order| :: order[i] != order[j])
  }

  // Nothing is visited that a closed set around the start does not hold.
  ghost predicate Bounded(fs: Tree, start: set<string>, v': set<string>) {
    forall t: set<string> {:trigger Closed(Edges(fs), t)} :: start <= t && Closed(Edges(fs), t) ==> v' <= t
  }

  lemma {:induction false} VisitWalks(fs: Tree, p: string, v: set<string>)
    requires WellFormed(fs) && p in fs
    ensures var (v', order) := Visit(fs, p, v);
            p in v' && Walked(fs, v, v', order) && Bounded(fs, v + {p}, v')
    decreases fs.Keys - v, 0
  {
    var (v', order) := Visit(fs, p, v);
    if p !in v && fs[p].Readable? {
      assert fs.Keys - (v + {p}) < fs.Keys - v by {
        assert p in fs.Keys - v && p !in fs.Keys - (v + {p});
      }
      var ps := fs[p].sources;
      VisitAllWalks(fs, ps, v + {p});
      var sub := VisitAll(fs, ps, v + {p}).1;
      assert order == sub + [p];
      assert Next(Edges(fs), p) == set q | q in ps;
      forall t: set<string> | v + {p} <= t && Closed(Edges(fs), t) ensures v' <= t {
        assert (set q | q in ps) <= t;
      }
    }
  }

  lemma {:induction false} VisitAllWalks(fs: Tree, ps: seq<string>, v: set<string>)
    requires WellFormed(fs) && forall q | q in ps :: q in fs
    ensures var (v', order) := VisitAll(fs, ps, v);
            && (forall q | q in ps :: q in v')
            && Walked(fs, v, v', order)
            && Bounded(fs, v + (set q | q in ps), v')
    decreases fs.Keys - v, |ps|
  {
    if ps != [] {
      assert ps[0] in ps;
      var (v1, order1) := Visit(fs, ps[0], v);
      var (v2, order2) := VisitAll(fs, ps[1..], v1);
      VisitWalks(fs, ps[0], v);
      VisitAllWalks(fs, ps[1..], v1);
      WalkedTwice(fs, v, v1, v2, order1, order2);
      assert forall q :: q in ps <==> q == ps[0] || q in ps[1..];
      forall t: set<string> | v + (set q | q in ps) <= t && Closed(Edges(fs), t) ensures v2 <= t {
        assert v1 <= t;
      }
    }
  }

  lemma WalkedTwice(fs: Tree, v: set<string>, v1: set<string>, v2: set<string>,
                    order1: seq<string>, order2: seq<string>)
    requires Walked(fs, v, v1, order1) && Walked(fs, v1, v2, order2)
    ensures Walked(fs, v, v2, order1 + order2)
  {
    var order := order1 + order2;
    forall p ensures p in order <==> p in v2 - v && fs[p].Readable? {
      assert p in order <==> p in order1 || p in order2;
    }
    forall i, j | 0 <= i < j < |order| ensures order[i] != order[j] {
      if i < |order1| <= j {
        assert order[i] in order1 && order[j] in order2;
      }
    }
  }

  // From nothing visited: exactly the reachable files are visited, and each readable one is parsed once.
  lemma WholeWalk(fs: Tree, top: string)
    requires WellFormed(fs) && top in fs
    ensures var (visited, order) := Visit(fs, top, {});
            && IsClosure(Edges(fs), {top}, visited)
            && (forall p :: p in order <==> p in visited && p in fs && fs[p].Readable?)
            && (forall i, j | 0 <= i < j < |order| :: order[i] != order[j])
  {
    VisitWalks(fs, top, {});
    assert {} + {top} == {top};
  }

  // ---- sourced files come first, except around an include cycle ----

  // q leads back to p through source lines.
  ghost predicate LeadsTo(fs: Tree, q: string, p: string) { Reached(Edges(fs), {q}, p) }

  // Every file of the order comes after the readable files it sources, given those parsed before,
  // unless the sourced file leads back to it.
  ghost predicate SourcesFirst(fs: Tree, before: set<string>, order: seq<string>) {
    forall i, q | 0 <= i < |order| && order[i] in fs && fs[order[i]].Readable? && q in fs[order[i]].sources
      && q in fs && fs[q].Readable? :: q in before || q in order[..i] || LeadsTo(fs, q, order[i])
  }

  // Visited files are parsed already or still open, and open files lead to what is visited next.
  ghost predicate OpenLead(fs: Tree, v: set<string>, before: set<string>, p: string) {
    forall o | o in v && o in fs && fs[o].Readable? && o !in before :: LeadsTo(fs, o, p)
  }

  lemma {:induction false} VisitSourcesFirst(fs: Tree, p: string, v: set<string>, before: set<string>)
    requires WellFormed(fs) && p in fs && OpenLead(fs, v, before, p)
    ensures SourcesFirst(fs, before, Visit(fs, p, v).1)
    decreases fs.Keys - v, 0
  {
    hide Reached;
    if p !in v && fs[p].Readable? {
      assert fs.Keys - (v + {p}) < fs.Keys - v by {
        assert p in fs.Keys - v && p !in fs.Keys - (v + {p});
      }
      var ps := fs[p].sources;
      var (v', sub) := VisitAll(fs, ps, v + {p});
      ReachedItself(Edges(fs), p);
      forall q | q in ps ensures OpenLead(fs, v + {p}, before, q) {
        assert q in Next(Edges(fs), p);
        forall o | o in v + {p} && o in fs && fs[o].Readable? && o !in before ensures LeadsTo(fs, o, q) {
          ReachedFurther(Edges(fs), {o}, p, q);
        }
      }
      VisitAllSourcesFirst(fs, ps, v + {p}, before);
      VisitAllWalks(fs, ps, v + {p});
      var order := sub + [p];
      forall i, q | 0 <= i < |order| && order[i] in fs && fs[order[i]].Readable? && q in fs[order[i]].sources
        && q in fs && fs[q].Readable?
        ensures q in before || q in order[..i] || LeadsTo(fs, q, order[i])
      {
        if i < |sub| {
          assert order[i] == sub[i] && order[..i] == sub[..i];
        } else {
          assert order[..i] == sub && q in v';
        }
      }
    }
  }

  lemma {:induction false} VisitAllSourcesFirst(fs: Tree, ps: seq<string>, v: set<string>, before: set<string>)
    requires WellFormed(fs) && forall q | q in ps :: q in fs && OpenLead(fs, v, before, q)
    ensures SourcesFirst(fs, before, VisitAll(fs, ps, v).1)
    decreases fs.Keys - v, |ps|
  {
    hide Reached;
    if ps != [] {
      assert ps[0] in ps;
      var (v1, order1) := Visit(fs, ps[0], v);
      var order2 := VisitAll(fs, ps[1..], v1).1;
      VisitSourcesFirst(fs, ps[0], v, before);
      VisitWalks(fs, ps[0], v);
      var before' := before + set q | q in order1;
      forall q | q in ps[1..] ensures OpenLead(fs, v1, before', q) {
        assert q in ps;
      }
      VisitAllSourcesFirst(fs, ps[1..], v1, before');
      var order := order1 + order2;
      forall i, q | 0 <= i < |order| && order[i] in fs && fs[order[i]].Readable? && q in fs[order[i]].sources
        && q in fs && fs[q].Readable?
        ensures q in before || q in order[..i] || LeadsTo(fs, q, order[i])
      {
        if i < |order1| {
          assert order[..i] == order1[..i];
        } else {
          assert order[..i] == order1 + order2[..i - |order1|];
          assert order[i] == order2[i - |order1|];
        }
      }
    }
  }

  // ---- exactly when includers come last ----

  // p sources another file q, and both are read.
  ghost predicate Includes(fs: Tree, p: string, q: string) {
    && p in fs && fs[p].Readable? && q in fs[p].sources && q != p
    && q in fs && fs[q].Readable?
  }

  ghost predicate IncludersLast(fs: Tree, order: seq<string>) {
    forall i, q | 0 <= i < |order| && Includes(fs, order[i], q) :: q in order[..i]
  }

  // No file of the order sources another one that leads back to it.
  ghost predicate NoneLeadsBack(fs: Tree, order: seq<string>) {
    forall i, q | 0 <= i < |order| && Includes(fs, order[i], q) :: !LeadsTo(fs, q, order[i])
  }

  // Where includers come last, source lines lead to no later file.
  lemma {:induction false} PathGoesDown(fs: Tree, order: seq<string>, path: seq<string>, i: nat)
    requires IncludersLast(fs, order)
    requires IsPath(Edges(fs), path) && i < |order| && order[i] == path[0]
    requires path[|path| - 1] in fs && fs[path[|path| - 1]].Readable?
    ensures path[|path| - 1] in order[..i + 1]
    decreases |path|
  {
    if |path| > 1 {
      var p, q := path[0], path[1];
      assert q in Next(Edges(fs), p);
      assert q in fs && fs[q].Readable? by {
        if |path| > 2 { assert path[2] in Next(Edges(fs), q); }
      }
      if q == p {
        PathGoesDown(fs, order, path[1..], i);
      } else {
        assert Includes(fs, order[i], q);
        var j :| 0 <= j < i && order[j] == q;
        PathGoesDown(fs, order, path[1..], j);
        assert order[..j + 1] <= order[..i + 1];
      }
    }
  }

  // Every file is parsed after all files it sources, if and only if none of those leads back to it.
  lemma IncludersLastExactly(fs: Tree, top: string)
    requires WellFormed(fs) && top in fs
    ensures var order := Visit(fs, top, {}).1;
            IncludersLast(fs, order) <==> NoneLeadsBack(fs, order)
  {
    var order := Visit(fs, top, {}).1;
    hide Visit;
    WholeWalk(fs, top);
    VisitSourcesFirst(fs, top, {}, {});
    if IncludersLast(fs, order) {
      forall i, q | 0 <= i < |order| && Includes(fs, order[i], q) ensures !LeadsTo(fs, q, order[i]) {
        NoWayBack(fs, order, i, q);
      }
    }
  }

  lemma NoWayBack(fs: Tree, order: seq<string>, i: nat, q: string)
    requires IncludersLast(fs, order) && i < |order| && Includes(fs, order[i], q)
    requires forall j, k | 0 <= j < k < |order| :: order[j] != order[k]
    ensures !LeadsTo(fs, q, order[i])
  {
    if LeadsTo(fs, q, order[i]) {
      var path :| IsPath(Edges(fs), path) && path[0] in {q} && path[|path| - 1] == order[i];
      var j :| 0 <= j < i && order[j] == q;
      PathGoesDown(fs, order, path, j);
      assert false;
    }
  }

  // ---- which definition a name ends up with ----

  function Definitions(fs: Tree, p: string): Table
    requires p in fs && fs[p].Readable?
  {
    Parse(fs[p].lines, map[])
  }

  ghost predicate AllReadable(fs: Tree, order: seq<string>) {
    forall p | p in order :: p in fs && fs[p].Readable?
  }

  // The walk, one step at a time.
  lemma VisitCases(fs: Tree, p: string, v: set<string>)
    requires WellFormed(fs) && p in fs
    ensures p in v ==> Visit(fs, p, v) == (v, [])
    ensures p !in v && fs[p].Unreadable? ==> Visit(fs, p, v) == (v + {p}, [])
    ensures p !in v && fs[p].Readable? ==>
      var (v', order) := VisitAll(fs, fs[p].sources, v + {p});
      Visit(fs, p, v) == (v', order + [p])
  {}

  lemma VisitAllStep(fs: Tree, ps: seq<string>, v: set<string>)
    requires WellFormed(fs) && forall q | q in ps :: q in fs
    ensures ps == [] ==> VisitAll(fs, ps, v) == (v, [])
    ensures ps != [] ==>
      && ps[0] in fs
      && var (v', order) := Visit(fs, ps[0], v);
      var (v'', order') := VisitAll(fs, ps[1..], v');
      VisitAll(fs, ps, v) == (v'', order + order')
  {
    if ps != [] { assert ps[0] in ps; }
  }

  lemma VisitReadable(fs: Tree, p: string, v: set<string>)
    requires WellFormed(fs) && p in fs
    ensures AllReadable(fs, Visit(fs, p, v).1)
  {
    VisitWalks(fs, p, v);
  }

  lemma VisitAllReadable(fs: Tree, ps: seq<string>, v: set<string>)
    requires WellFormed(fs) && forall q | q in ps :: q in fs
    ensures AllReadable(fs, VisitAll(fs, ps, v).1)
  {
    VisitAllWalks(fs, ps, v);
  }

  lemma NothingParsed(fs: Tree, table: Table)
    ensures ParseAll(fs, [], table) == table
  {}

  lemma {:induction false} ParseAllConcat(fs: Tree, a: seq<string>, b: seq<string>, table: Table)
    requires AllReadable(fs, a) && AllReadable(fs, b)
    ensures AllReadable(fs, a + b)
    ensures ParseAll(fs, a + b, table) == ParseAll(fs, b, ParseAll(fs, a, table))
  {
    if a == [] {
      assert a + b == b;
    } else {
      assert a[0] in a && (a + b)[1..] == a[1..] + b;
      ParseAllConcat(fs, a[1..], b, Parse(fs[a[0]].lines, table));
    }
  }

  // Position of the last file of an order that defines a name.
  ghost predicate LastDefines(fs: Tree, order: seq<string>, n: string, k: nat)
    requires AllReadable(fs, order)
  {
    && k < |order| && n in Definitions(fs, order[k])
    && forall i | k < i < |order| :: n !in Definitions(fs, order[i])
  }

  // Each name of the table has the definition of the last file that defines it.
  lemma {:induction false} LastDefinitionWins(fs: Tree, order: seq<string>, n: string)
    requires AllReadable(fs, order)
    ensures n in ParseAll(fs, order, map[]) <==> exists k: nat :: LastDefines(fs, order, n, k)
    ensures forall k: nat | LastDefines(fs, order, n, k) ::
              ParseAll(fs, order, map[])[n] == Definitions(fs, order[k])[n]
  {
    if order != [] {
      var k := |order| - 1;
      var init, last := order[..k], order[k];
      assert order == init + [last] && last in order;
      LastDefinitionWins(fs, init, n);
      ParseAllConcat(fs, init, [last], map[]);
      ParseOver(fs[last].lines, ParseAll(fs, init, map[]));
      if n in Definitions(fs, last) {
        assert LastDefines(fs, order, n, k);
      } else {
        forall i: nat ensures LastDefines(fs, order, n, i) <==> LastDefines(fs, init, n, i) {
          assert forall j | 0 <= j < |init| :: order[j] == init[j];
        }
      }
    }
  }

  // A file's own definition overrides those of the files it sources, unless they lead back to it.
  lemma IncluderWins(fs: Tree, top: string, p: string, q: string, n: string)
    requires WellFormed(fs) && top in fs && p in fs && fs[p].Readable? && q in fs[p].sources && fs[q].Readable?
    requires n in Definitions(fs, p)
    ensures var (visited, order) := Visit(fs, top, {});
            && AllReadable(fs, order)
            && (p in visited && !LeadsTo(fs, q, p) ==> forall k: nat | LastDefines(fs, order, n, k) :: order[k] != q)
  {
    var (visited, order) := Visit(fs, top, {});
    WholeWalk(fs, top);
    VisitSourcesFirst(fs, top, {}, {});
    forall k: nat | p in visited && !LeadsTo(fs, q, p) && LastDefines(fs, order, n, k) ensures order[k] != q {
      var i :| 0 <= i < |order| && order[i] == p;
      assert q in {} || q in order[..i];
      var j :| 0 <= j < i && order[j] == q;
      assert k >= i;
    }
  }

  // Around a cycle the sourced file can win: `b` sources `a`, but `a` was opened first and is parsed last,
  // so what both define is left as `a` defines it.
  lemma CycleReversesOrder(linesA: seq<string>, linesB: seq<string>, n: string)
    ensures var fs: Tree := map["a" := Readable(["b"], linesA), "b" := Readable(["a"], linesB)];
            var order := Visit(fs, "a", {}).1;
            && WellFormed(fs) && order == ["b", "a"] && !IncludersLast(fs, order)
            && (n in Definitions(fs, "a") && n in Definitions(fs, "b") ==>
                  n in ParseAll(fs, order, map[]) && ParseAll(fs, order, map[])[n] == Definitions(fs, "a")[n])
  {
    var fs: Tree := map["a" := Readable(["b"], linesA), "b" := Readable(["a"], linesB)];
    CycleWalk(fs);
    hide Visit;
    hide VisitAll;
    hide Parse;
    var order := ["b", "a"];
    assert Includes(fs, order[0], "a") && order[..0] == [];
    LastDefinitionWins(fs, order, n);
    if n in Definitions(fs, "a") {
      assert LastDefines(fs, order, n, 1);
    }
  }

  lemma CycleWalk(fs: Tree)
    requires "a" in fs && "b" in fs && fs.Keys == {"a", "b"}
    requires fs["a"].Readable? && fs["a"].sources == ["b"] && fs["b"].Readable? && fs["b"].sources == ["a"]
    ensures WellFormed(fs) && Visit(fs, "a", {}).1 == ["b", "a"]
  {
    VisitCases(fs, "a", {});
    VisitAllStep(fs, ["b"], {"a"});
    VisitCases(fs, "b", {"a"});
    VisitAllStep(fs, ["a"], {"a", "b"});
    VisitCases(fs, "a", {"a", "b"});
    VisitAllStep(fs, [], {"a", "b"});
    hide Visit;
    hide VisitAll;
    assert {} + {"a"} == {"a"} && {"a"} + {"b"} == {"a", "b"};
    assert ["b"][1..] == [] && ["a"][1..] == [];
  }
}

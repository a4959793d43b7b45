/** The Kconfig database: loading a source tree and resolving dependencies. */
module Kconfig {
  import opened Ascii
  import opened Closure
  import opened KconfigDepends
  import opened KconfigFiles
  import opened KconfigText

  // The symbols an entry selects, implies or depends on.
  function Needs(e: Entry): set<string> {
    (set s | s in e.selects) + (set s | s in e.implies) + DependsSymbols(e.depends)
  }

  function SymbolGraph(table: Table): Graph {
    map name | name in table :: Needs(table[name])
  }

  // ---- what leads from one symbol to another ----

  // The entry of a symbol selects or implies another, or reads it in one of its expressions.
  ghost predicate Asks(table: Table, name: string, s: string) {
    && name in table
    && var e := table[name];
       || s in e.selects
       || s in e.implies
       || exists i :: 0 <= i < |e.depends| && s in ExprSymbols(e.depends[i])
  }

  lemma AsksIsEdge(table: Table, name: string, s: string)
    ensures s in Next(SymbolGraph(table), name) <==> Asks(table, name, s)
  {
    hide ExprSymbols;
    if name in table {
      DependsSymbolsExact(table[name].depends, s);
    }
  }

  // In terms of the trees the expressions were printed from.
  lemma AsksPrinted(table: Table, name: string, es: seq<Expr>, s: string)
    requires name in table && |es| == |table[name].depends|
    requires forall i | 0 <= i < |es| :: KconfigDepends.WellFormed(es[i]) && table[name].depends[i] == Show(es[i])
    ensures Asks(table, name, s)
       <==> || s in table[name].selects
            || s in table[name].implies
            || exists i :: 0 <= i < |es| && s in Positive(es[i]) + Leaked(es[i])
  {
    hide ExprSymbols;
    hide Show;
    DependsSymbolsExact(table[name].depends, s);
    DependsPrinted(es, table[name].depends, s);
  }

  // Each symbol of the chain asks for the next.
  ghost predicate IsChain(table: Table, chain: seq<string>) {
    && chain != []
    && forall i | 0 <= i < |chain| - 1 :: Asks(table, chain[i], chain[i + 1])
  }

  ghost predicate LeadsFrom(table: Table, seeds: set<string>, x: string) {
    exists chain :: IsChain(table, chain) && chain[0] in seeds && chain[|chain| - 1] == x
  }

  // A symbol is resolved if and only if a chain of symbols leads to it from a seed, each asking for the next.
  lemma ResolvedByChains(table: Table, seeds: set<string>, resolved: set<string>, x: string)
    requires IsClosure(SymbolGraph(table), seeds, resolved)
    ensures x in resolved <==> LeadsFrom(table, seeds, x)
  {
    var g := SymbolGraph(table);
    hide Asks;
    ClosureIsReachability(g, seeds, resolved, x);
    forall chain: seq<string> ensures IsPath(g, chain) <==> IsChain(table, chain) {
      forall i | 0 <= i < |chain| - 1
        ensures chain[i + 1] in Next(g, chain[i]) <==> Asks(table, chain[i], chain[i + 1])
      {
        AsksIsEdge(table, chain[i], chain[i + 1]);
      }
    }
    hide IsClosure;
    hide IsPath;
    hide IsChain;
  }

  class KconfigDB {
    const files: Tree
    var entries: Table
    var visited: set<string>

    constructor (files: Tree)
      ensures this.files == files && entries == map[] && visited == {}
    {
      this.files := files;
      entries := map[];
      visited := {};
    }

    // The walk from the top file, when there is one.
    method Load(top: string)
      requires KconfigFiles.WellFormed(files)
      modifies this
      ensures top !in files ==> entries == old(entries) && visited == old(visited)
      ensures top in files ==>
        && visited == Visit(files, top, old(visited)).0
        && AllReadable(files, Visit(files, top, old(visited)).1)
        && entries == ParseAll(files, Visit(files, top, old(visited)).1, old(entries))
    {
      if top in files {
        ParseFile(top);
      }
    }

    method ParseFile(path: string)
      requires KconfigFiles.WellFormed(files) && path in files
      modifies this
      ensures visited == Visit(files, path, old(visited)).0
      ensures AllReadable(files, Visit(files, path, old(visited)).1)
      ensures entries == ParseAll(files, Visit(files, path, old(visited)).1, old(entries))
      decreases files.Keys - visited, 0
    {
      VisitReadable(files, path, visited);
      VisitCases(files, path, visited);
      hide Visit;
      hide VisitAll;
      hide Parse;
      if path in visited {
        return;
      }
      visited := visited + {path};
      if files[path].Unreadable? {
        return;
      }
      assert files.Keys - visited < files.Keys - old(visited) by {
        assert path in files.Keys - old(visited) && path !in files.Keys - visited;
      }
      ghost var sub := VisitAll(files, files[path].sources, visited).1;
      ParseSources(files[path].sources);
      ParseEntries(files[path].lines);
      ParseAllConcat(files, sub, [path], old(entries));
    }

    // The loop over the sourced files of one file.
    method ParseSources(sources: seq<string>)
      requires KconfigFiles.WellFormed(files) && forall q | q in sources :: q in files
      modifies this
      ensures visited == VisitAll(files, sources, old(visited)).0
      ensures AllReadable(files, VisitAll(files, sources, old(visited)).1)
      ensures entries == ParseAll(files, VisitAll(files, sources, old(visited)).1, old(entries))
      decreases files.Keys - visited, |sources|
    {
      hide Visit;
      hide VisitAll;
      hide Parse;
      hide ParseAll;
      ghost var v, order := visited, [];
      ghost var all := VisitAll(files, sources, v);
      VisitAllReadable(files, sources, v);
      assert entries == ParseAll(files, [], entries) by { NothingParsed(files, entries); }
      for i := 0 to |sources|
        invariant v <= visited
        invariant AllReadable(files, order)
        invariant all.0 == VisitAll(files, sources[i..], visited).0
        invariant all.1 == order + VisitAll(files, sources[i..], visited).1
        invariant entries == ParseAll(files, order, old(entries))
      {
        ghost var sub := Visit(files, sources[i], visited).1;
        VisitAllStep(files, sources[i..], visited);
        assert sources[i..][0] == sources[i] && sources[i..][1..] == sources[i + 1..];
        ParseFile(sources[i]);
        ParseAllConcat(files, order, sub, old(entries));
        order := order + sub;
      }
      VisitAllStep(files, [], visited);
      assert sources[|sources|..] == [];
      assert all.1 == order + [] == order;
    }

    // Reads entries line by line; each line is consumed by one of the two loops.
    method ParseEntries(lines: seq<string>)
      modifies this
      ensures visited == old(visited)
      ensures entries == Parse(lines, old(entries))
    {
      assert Strip("") == "";
      hide Strip;
      hide IsHeader;
      hide FirstWord;
      hide AfterFirstWord;
      hide Attribute;
      var i := 0;
      while i < |lines|
        invariant 0 <= i <= |lines|
        invariant visited == old(visited)
        invariant Parse(lines, old(entries)) == Parse(lines[i..], entries)
      {
        var stripped := Strip(lines[i]);
        assert lines[i..][0] == lines[i] && lines[i..][1..] == lines[i + 1..];
        i := i + 1;
        if !IsHeader(stripped) {
          continue;
        }
        var name := FirstWord(AfterFirstWord(stripped));
        if name == "" {
          continue;
        }
        var entry := Entry(name, "", "", [], [], []);
        ghost var start, blank := i, entry;
        while i < |lines|
          invariant start <= i <= |lines|
          invariant Body(lines[start..], blank) == Body(lines[i..], entry)
        {
          var body := lines[i];
          var bodyStripped := Strip(body);
          assert lines[i..][0] == body && lines[i..][1..] == lines[i + 1..];
          if bodyStripped == "" {
            i := i + 1;
            continue;
          }
          if body[0] != '\t' && body[0] != ' ' {
            break;
          }
          entry := Attribute(entry, bodyStripped);
          i := i + 1;
        }
        assert Body(lines[start..], blank) == (entry, lines[i..]);
        entries := entries[name := entry];
      }
    }

    // The symbols and everything they need, however the graph loops.
    method ResolveDependencies(symbols: set<string>) returns (resolved: set<string>)
      ensures IsClosure(SymbolGraph(entries), symbols, resolved)
      ensures forall x :: x in resolved <==> LeadsFrom(entries, symbols, x)
    {
      ghost var g := SymbolGraph(entries);
      ghost var all := Universe(g, symbols);
      resolved := {};
      var queue := ListOf(symbols);
      while queue != []
        invariant forall s | s in symbols :: s in resolved || s in queue
        invariant forall s, t | s in resolved && t in Next(g, s) :: t in resolved || t in queue
        invariant forall s | s in queue :: s in all
        invariant resolved <= all
        invariant forall t: set<string> {:trigger Closed(g, t)} | symbols <= t && Closed(g, t)
                    :: resolved <= t && forall s | s in queue :: s in t
        decreases all - resolved, |queue|
      {
        var last := |queue| - 1;
        var sym := queue[last];
        assert sym in queue && forall s :: s in queue ==> s == sym || s in queue[..last];
        queue := queue[..last];
        if sym in resolved {
          continue;
        }
        resolved := resolved + {sym};
        assert all - resolved < all - (resolved - {sym}) by {
          assert sym in all - (resolved - {sym}) && sym !in all - resolved;
        }
        if sym !in entries {
          continue;
        }
        var entry := entries[sym];
        assert Next(g, sym) == Needs(entry);
        var depends := ListOf(DependsSymbols(entry.depends));
        var queue1 := Enqueue(queue, entry.selects, resolved);
        var queue2 := Enqueue(queue1, entry.implies, resolved);
        queue := Enqueue(queue2, depends, resolved);
        forall s | s in Needs(entry) ensures s in all && (s in resolved || s in queue) {
          assert sym in g && s in g[sym];
        }
      }
      assert Closed(g, resolved);
      hide Closed;
      hide LeadsFrom;
      forall x ensures x in resolved <==> LeadsFrom(entries, symbols, x) {
        ResolvedByChains(entries, symbols, resolved, x);
      }
    }

    // The new items that are not resolved yet, behind the queue.
    static method Enqueue(queue: seq<string>, items: seq<string>, resolved: set<string>) returns (longer: seq<string>)
      ensures forall s :: s in longer <==> s in queue || (s in items && s !in resolved)
    {
      longer := queue;
      for i := 0 to |items|
        invariant forall s :: s in longer <==> s in queue || (s in items[..i] && s !in resolved)
      {
        assert items[..i + 1] == items[..i] + [items[i]];
        if items[i] !in resolved {
          longer := longer + [items[i]];
        }
      }
      assert items[..|items|] == items;
    }

    // The elements of a set in no particular order.
    static method ListOf(s: set<string>) returns (list: seq<string>)
      ensures forall x :: x in list <==> x in s
    {
      list := [];
      var rest := s;
      while rest != {}
        invariant rest <= s
        invariant forall x :: x in list <==> x in s - rest
        decreases |rest|
      {
        var x :| x in rest;
        list := list + [x];
        rest := rest - {x};
      }
    }
  }
}

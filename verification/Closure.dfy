/** Least closed supersets in a finite, possibly cyclic graph. */
module Closure {
  type Graph = map<string, set<string>>

  // Nodes without an entry in the graph have no edges.
  function Next(g: Graph, x: string): set<string> { if x in g then g[x] else {} }

  ghost predicate Closed(g: Graph, s: set<string>) {
    forall x | x in s :: Next(g, x) <= s
  }

  // r holds the seeds, is closed, and is inside every other such set.
  ghost predicate IsClosure(g: Graph, seeds: set<string>, r: set<string>) {
    && seeds <= r
    && Closed(g, r)
    && forall t: set<string> {:trigger Closed(g, t)} :: seeds <= t && Closed(g, t) ==> r <= t
  }

  // All that can be reached: the nodes with edges, their targets, and the seeds.
  function Universe(g: Graph, seeds: set<string>): set<string> {
    seeds + set x, y | x in g && y in g[x] :: y
  }

  lemma ClosureUnique(g: Graph, seeds: set<string>, r: set<string>, r': set<string>)
    requires IsClosure(g, seeds, r) && IsClosure(g, seeds, r')
    ensures r == r'
  {
    assert r <= r' && r' <= r;
  }

  lemma ClosureMonotone(g: Graph, seeds: set<string>, seeds': set<string>, r: set<string>, r': set<string>)
    requires seeds <= seeds' && IsClosure(g, seeds, r) && IsClosure(g, seeds', r')
    ensures r <= r'
  {
    assert seeds <= r' && Closed(g, r');
  }

  lemma ClosureIdempotent(g: Graph, seeds: set<string>, r: set<string>, r': set<string>)
    requires IsClosure(g, seeds, r) && IsClosure(g, r, r')
    ensures r' == r
  {
    assert r' <= r;
  }

  lemma ClosureOfUnion(g: Graph, a: set<string>, b: set<string>, ra: set<string>, rb: set<string>, r: set<string>)
    requires IsClosure(g, a, ra) && IsClosure(g, b, rb) && IsClosure(g, a + b, r)
    ensures r == ra + rb
  {
    assert Closed(g, ra + rb) && a + b <= ra + rb;
    assert r <= ra + rb;
    assert ra <= r && rb <= r;
  }

  // A closed set is reached from nowhere outside: what no path leads to is not in the closure.
  ghost predicate IsPath(g: Graph, path: seq<string>) {
    && path != []
    && forall i | 0 <= i < |path| - 1 :: path[i + 1] in Next(g, path[i])
  }

  lemma {:induction false} PathStaysInside(g: Graph, s: set<string>, path: seq<string>)
    requires Closed(g, s) && IsPath(g, path) && path[0] in s
    ensures path[|path| - 1] in s
  {
    if |path| > 1 {
      assert path[1] in Next(g, path[0]);
      PathStaysInside(g, s, path[1..]);
    }
  }

  ghost predicate Reached(g: Graph, seeds: set<string>, x: string) {
    exists path :: IsPath(g, path) && path[0] in seeds && path[|path| - 1] == x
  }

  lemma ReachedClosed(g: Graph, seeds: set<string>, t: set<string>)
    requires forall x :: x in t <==> Reached(g, seeds, x)
    ensures seeds <= t && Closed(g, t)
  {
    forall x | x in seeds ensures x in t {
      assert IsPath(g, [x]) && [x][0] in seeds && [x][0] == x;
    }
    forall x, y | x in t && y in Next(g, x) ensures y in t {
      var path :| IsPath(g, path) && path[0] in seeds && path[|path| - 1] == x;
      var longer := path + [y];
      assert IsPath(g, longer) && longer[0] in seeds && longer[|longer| - 1] == y;
    }
  }

  // The closure is exactly what paths from the seeds reach.
  lemma ClosureIsReachability(g: Graph, seeds: set<string>, r: set<string>, x: string)
    requires IsClosure(g, seeds, r)
    ensures x in r <==> Reached(g, seeds, x)
  {
    if Reached(g, seeds, x) {
      var path :| IsPath(g, path) && path[0] in seeds && path[|path| - 1] == x;
      PathStaysInside(g, r, path);
    }
    if x in r {
      var t := set y | y in r && Reached(g, seeds, y);
      forall y | Reached(g, seeds, y) ensures y in t {
        var path :| IsPath(g, path) && path[0] in seeds && path[|path| - 1] == y;
        PathStaysInside(g, r, path);
      }
      ReachedClosed(g, seeds, t);
      assert r <= t;
    }
  }

  lemma ReachedItself(g: Graph, x: string)
    ensures Reached(g, {x}, x)
  {
    assert IsPath(g, [x]) && [x][0] in {x};
  }

  lemma ReachedFurther(g: Graph, seeds: set<string>, x: string, y: string)
    requires Reached(g, seeds, x) && y in Next(g, x)
    ensures Reached(g, seeds, y)
  {
    var path :| IsPath(g, path) && path[0] in seeds && path[|path| - 1] == x;
    var longer := path + [y];
    assert IsPath(g, longer) && longer[0] in seeds && longer[|longer| - 1] == y;
  }
}

/** Python's `sorted` on a set of strings. */
module Sorting {
  // Code-point order, a prefix before its extensions.
  predicate Less(a: string, b: string) {
    b != "" && (a == "" || a[0] < b[0] || (a[0] == b[0] && Less(a[1..], b[1..])))
  }

  // a comes first if it is a proper prefix of b, or has the smaller character where they first differ.
  ghost predicate ComesFirstAt(a: string, b: string, k: nat) {
    && k <= |a| && k < |b| && a[..k] == b[..k]
    && (k == |a| || a[k] < b[k])
  }

  lemma FirstsEqual(a: string, b: string, k: nat)
    requires 0 < k <= |a| && k <= |b| && a[..k] == b[..k]
    ensures a[0] == b[0]
  {
    assert a[..k][0] == b[..k][0];
  }

  lemma {:induction false} LessIsLexicographic(a: string, b: string)
    ensures Less(a, b) <==> exists k: nat :: ComesFirstAt(a, b, k)
  {
    if b != "" && a != "" && a[0] == b[0] {
      LessIsLexicographic(a[1..], b[1..]);
      if k: nat :| ComesFirstAt(a[1..], b[1..], k) {
        assert a[..k + 1] == [a[0]] + a[1..][..k] && b[..k + 1] == [b[0]] + b[1..][..k];
        assert ComesFirstAt(a, b, k + 1);
      }
      if k: nat :| ComesFirstAt(a, b, k) {
        assert k > 0;
        assert a[1..][..k - 1] == a[..k][1..] && b[1..][..k - 1] == b[..k][1..];
        assert ComesFirstAt(a[1..], b[1..], k - 1);
      }
    } else if Less(a, b) {
      assert ComesFirstAt(a, b, 0);
    } else {
      forall k: nat | ComesFirstAt(a, b, k) ensures k == 0 {
        if k > 0 { FirstsEqual(a, b, k); }
      }
    }
  }

  lemma {:induction false} LessTotal(a: string, b: string)
    ensures Less(a, b) || a == b || Less(b, a)
  {
    if a != "" && b != "" && a[0] == b[0] {
      LessTotal(a[1..], b[1..]);
      assert a == [a[0]] + a[1..] && b == [b[0]] + b[1..];
    }
  }

  lemma {:induction false} LessTransitive(a: string, b: string, c: string)
    requires Less(a, b) && Less(b, c)
    ensures Less(a, c)
  {
    if a != "" && a[0] == b[0] && b[0] == c[0] {
      LessTransitive(a[1..], b[1..], c[1..]);
    }
  }

  lemma {:induction false} LessIrreflexive(a: string)
    ensures !Less(a, a)
  {
    if a != "" {
      LessIrreflexive(a[1..]);
    }
  }

  ghost predicate Ascending(r: seq<string>) {
    forall i, j | 0 <= i < j < |r| :: Less(r[i], r[j])
  }

  ghost predicate IsSorted(s: set<string>, r: seq<string>) {
    Ascending(r) && forall x :: x in r <==> x in s
  }

  lemma AscendingDistinct(r: seq<string>)
    requires Ascending(r)
    ensures forall i, j | 0 <= i < j < |r| :: r[i] != r[j]
  {
    forall i, j | 0 <= i < j < |r| ensures r[i] != r[j] { LessIrreflexive(r[i]); }
  }

  lemma SortedEmpty(s: set<string>, r: seq<string>)
    requires IsSorted(s, r)
    ensures r == [] <==> s == {}
  {
    if r == [] {
      assert forall x | x in s :: x in r;
    } else {
      assert r[0] in r;
    }
  }

  // A set has only one ascending list.
  lemma {:induction false} SortedUnique(s: set<string>, r: seq<string>, r': seq<string>)
    requires IsSorted(s, r) && IsSorted(s, r')
    ensures r == r'
    decreases |r|
  {
    SortedEmpty(s, r);
    SortedEmpty(s, r');
    if r != [] {
      assert r[0] in r && r[0] in r' && r'[0] in r;
      var i :| 0 <= i < |r'| && r'[i] == r[0];
      var j :| 0 <= j < |r| && r[j] == r'[0];
      if i > 0 && j > 0 {
        LessTransitive(r[0], r'[0], r[0]);
        LessIrreflexive(r[0]);
        assert false;
      }
      assert r[0] == r'[0];
      var s' := s - {r[0]};
      AscendingDistinct(r);
      AscendingDistinct(r');
      forall x ensures x in r[1..] <==> x in s' { assert x in r <==> x == r[0] || x in r[1..]; }
      forall x ensures x in r'[1..] <==> x in s' { assert x in r' <==> x == r'[0] || x in r'[1..]; }
      SortedUnique(s', r[1..], r'[1..]);
    }
  }

  function Insert(r: seq<string>, x: string): seq<string> {
    if r != [] && Less(r[0], x) then [r[0]] + Insert(r[1..], x) else [x] + r
  }

  lemma {:induction false} InsertKeepsOrder(r: seq<string>, x: string)
    requires Ascending(r) && x !in r
    ensures Ascending(Insert(r, x)) && forall y :: y in Insert(r, x) <==> y in r || y == x
  {
    if r != [] && Less(r[0], x) {
      var rest := Insert(r[1..], x);
      InsertKeepsOrder(r[1..], x);
      assert forall y :: y in r <==> y == r[0] || y in r[1..];
      forall k | 0 <= k < |rest| ensures Less(r[0], rest[k]) {
        assert rest[k] in rest;
        if rest[k] != x {
          var j :| 0 <= j < |r[1..]| && r[1..][j] == rest[k];
        }
      }
    } else if r != [] {
      assert r[0] in r;
      LessTotal(r[0], x);
      forall k | 0 <= k < |r| ensures Less(x, r[k]) {
        if k > 0 { LessTransitive(x, r[0], r[k]); }
      }
    }
  }

  // The set in ascending order.
  ghost function Sorted(s: set<string>): (r: seq<string>)
    ensures IsSorted(s, r)
  {
    if s == {} then []
    else
      var x :| x in s;
      InsertKeepsOrder(Sorted(s - {x}), x);
      Insert(Sorted(s - {x}), x)
  }

  // The elements may be taken in any order: the list is the same.
  method Sort(s: set<string>) returns (r: seq<string>)
    ensures r == Sorted(s)
  {
    r := [];
    var rest := s;
    while rest != {}
      invariant rest <= s && IsSorted(s - rest, r)
      decreases |rest|
    {
      var x :| x in rest;
      InsertKeepsOrder(r, x);
      r := Insert(r, x);
      rest := rest - {x};
    }
    SortedUnique(s, r, Sorted(s));
  }
}

/** The `Array.prototype` algorithms the source relies on: `findIndex`/`find`, `filter`, the
    insertion-ordered `Set`, and `sort(compare)`, modelled as a stable insertion sort. */
module Sorting {
  import opened Wrappers
  import opened Text

  /** `s.findIndex(p)`: the first position satisfying `p`. */
  function FirstIndex<T>(s: seq<T>, p: T -> bool): (r: Option<nat>)
    ensures r.Some? ==> r.value < |s| && p(s[r.value]) && forall j :: 0 <= j < r.value ==> !p(s[j])
    ensures r.None? ==> forall j :: 0 <= j < |s| ==> !p(s[j])
  {
    if s == [] then None
    else if p(s[0]) then Some(0)
    else
      var r := FirstIndex(s[1..], p);
      assert forall j :: 0 < j < |s| ==> s[j] == s[1..][j - 1];
      if r.Some? then Some(r.value + 1) else None
  }

  /** The positions of `s` whose element satisfies `p`, in increasing order: exactly the
      passing positions, each once. */
  function Positions<T>(s: seq<T>, p: T -> bool): (idx: seq<nat>)
    ensures forall i :: 0 <= i < |idx| ==> idx[i] < |s| && p(s[idx[i]])
    ensures forall i, j :: 0 <= i < j < |idx| ==> idx[i] < idx[j]
    ensures forall j :: 0 <= j < |s| && p(s[j]) ==> j in idx
    ensures |idx| <= |s|
    decreases |s|
  {
    if s == [] then []
    else
      var init := Positions(s[..|s| - 1], p);
      assert forall j :: 0 <= j < |s| - 1 ==> s[..|s| - 1][j] == s[j];
      if p(s[|s| - 1]) then init + [|s| - 1] else init
  }

  /** `s.filter(p)`: the elements at the passing positions, in order. */
  function Filter<T>(s: seq<T>, p: T -> bool): (r: seq<T>)
    ensures |r| == |Positions(s, p)|
    ensures forall i :: 0 <= i < |r| ==> r[i] == s[Positions(s, p)[i]]
    decreases |s|
  {
    if s == [] then []
    else
      var init := s[..|s| - 1];
      var rest := Filter(init, p);
      assert forall j :: 0 <= j < |init| ==> init[j] == s[j];
      if p(s[|s| - 1]) then rest + [s[|s| - 1]] else rest
  }

  /** Every kept element passes and comes from `s`; every passing element is kept. */
  lemma FilterMembers<T>(s: seq<T>, p: T -> bool)
    ensures forall i :: 0 <= i < |Filter(s, p)| ==> Filter(s, p)[i] in s && p(Filter(s, p)[i])
    ensures forall j :: 0 <= j < |s| && p(s[j]) ==> s[j] in Filter(s, p)
  {
    var r, idx := Filter(s, p), Positions(s, p);
    forall j | 0 <= j < |s| && p(s[j]) ensures s[j] in r {
      var i :| 0 <= i < |idx| && idx[i] == j;
      assert r[i] == s[j];
    }
  }

  /** Filtering one more element. */
  lemma FilterSnoc<T>(s: seq<T>, x: T, p: T -> bool)
    ensures Filter(s + [x], p) == Filter(s, p) + (if p(x) then [x] else [])
  {
    assert (s + [x])[..|s|] == s;
  }

  /** A reordering of a selection of `s` by `p` holds what the selection holds. */
  lemma PermutedSelection<T>(s: seq<T>, p: T -> bool, kept: seq<T>, r: seq<T>)
    requires forall i :: 0 <= i < |kept| ==> kept[i] in s && p(kept[i])
    requires forall j :: 0 <= j < |s| && p(s[j]) ==> s[j] in kept
    requires multiset(r) == multiset(kept)
    ensures forall i :: 0 <= i < |r| ==> r[i] in s && p(r[i])
    ensures forall j :: 0 <= j < |s| && p(s[j]) ==> s[j] in r
  {
    forall i | 0 <= i < |r| ensures r[i] in s && p(r[i]) {
      assert r[i] in multiset(kept);
      var j :| 0 <= j < |kept| && kept[j] == r[i];
    }
    forall j | 0 <= j < |s| && p(s[j]) ensures s[j] in r {
      assert s[j] in multiset(kept);
    }
  }

  /** A sequence that maps `xs` minus its last element through `f`, extended by the image of
      that element, maps all of `xs`. */
  lemma MappedSnoc<A, B>(xs: seq<A>, ys: seq<B>, f: A -> B)
    requires |xs| > 0 && |ys| == |xs| - 1
    requires forall i :: 0 <= i < |ys| ==> ys[i] == f(xs[i])
    ensures forall i :: 0 <= i < |xs| ==> (ys + [f(xs[|xs| - 1])])[i] == f(xs[i])
  {
  }

  /** A filter that keeps everything is the identity. */
  lemma {:induction false} FilterAll<T>(s: seq<T>, p: T -> bool)
    requires forall i :: 0 <= i < |s| ==> p(s[i])
    ensures Filter(s, p) == s
    decreases |s|
  {
    if s != [] {
      var init, last := s[..|s| - 1], s[|s| - 1];
      assert p(last);
      assert Filter(s, p) == Filter(init, p) + [last];
      FilterAll(init, p);
      LastSplit(s);
    }
  }

  /** A non-empty sequence is its prefix without the last element, extended by that element. */
  lemma LastSplit<T>(s: seq<T>)
    requires s != []
    ensures s[..|s| - 1] + [s[|s| - 1]] == s
  {
  }

  /** The test "is present". */
  function IsPresent<T>(): Option<T> -> bool {
    (o: Option<T>) => o.Some?
  }

  /** The present values of a sequence of options, in order (`SomesPositions` says which). */
  function Somes<T>(s: seq<Option<T>>): seq<T>
    decreases |s|
  {
    if s == [] then []
    else
      var rest := Somes(s[..|s| - 1]);
      match s[|s| - 1]
      case None => rest
      case Some(x) => rest + [x]
  }

  /** The present values are those at the present positions, in order. */
  lemma {:induction false} SomesPositions<T>(s: seq<Option<T>>)
    ensures |Somes(s)| == |Positions(s, IsPresent())|
    ensures forall i :: 0 <= i < |Somes(s)| ==> Some(Somes(s)[i]) == s[Positions(s, IsPresent())[i]]
    decreases |s|
  {
    if s != [] {
      var init := s[..|s| - 1];
      SomesPositions(init);
      assert forall j :: 0 <= j < |init| ==> init[j] == s[j];
    }
  }

  /** One more option adds its value, if present. */
  lemma SomesSnoc<T>(s: seq<Option<T>>, x: Option<T>)
    ensures Somes(s + [x]) == Somes(s) + (if x.Some? then [x.value] else [])
  {
    assert (s + [x])[..|s|] == s;
  }

  /** Extending a prefix by one option adds its value, if present. */
  lemma SomesPrefix<T>(s: seq<Option<T>>, i: nat, acc: seq<T>)
    requires i < |s| && acc == Somes(s[..i])
    ensures Somes(s[..i + 1]) == if s[i].Some? then acc + [s[i].value] else acc
  {
    assert s[..i + 1][..i] == s[..i];
  }

  /** With every value present, nothing is dropped. */
  lemma {:induction false} SomesAll<T>(s: seq<Option<T>>)
    requires forall i :: 0 <= i < |s| ==> s[i].Some?
    ensures |Somes(s)| == |s| && forall i :: 0 <= i < |s| ==> Somes(s)[i] == s[i].value
    decreases |s|
  {
    if s != [] {
      var init := s[..|s| - 1];
      assert forall j :: 0 <= j < |init| ==> init[j] == s[j];
      SomesAll(init);
    }
  }

  /** With no value present, nothing comes out. */
  lemma SomesNone<T>(s: seq<Option<T>>)
    requires forall i :: 0 <= i < |s| ==> s[i].None?
    ensures Somes(s) == []
  {
  }

  /** Every result comes from a present value. */
  lemma SomesFrom<T>(s: seq<Option<T>>)
    ensures forall x :: x in Somes(s) ==> Some(x) in s
  {
    SomesPositions(s);
    forall x | x in Somes(s) ensures Some(x) in s {
      var i :| 0 <= i < |Somes(s)| && Somes(s)[i] == x;
      assert s[Positions(s, IsPresent())[i]] == Some(x);
    }
  }

  /** Two sequences whose elements pass their tests at the same positions have the same
      passing positions. */
  lemma {:induction false} PositionsAgree<T, U>(a: seq<T>, p: T -> bool, b: seq<U>, q: U -> bool)
    requires |a| == |b| && forall j :: 0 <= j < |a| ==> (p(a[j]) <==> q(b[j]))
    ensures Positions(a, p) == Positions(b, q)
    decreases |a|
  {
    if a != [] {
      var ia, ib := a[..|a| - 1], b[..|b| - 1];
      assert forall j :: 0 <= j < |ia| ==> ia[j] == a[j] && ib[j] == b[j];
      PositionsAgree(ia, p, ib, q);
    }
  }

  /** `Array.from(new Set(s))`: every value of `s`, each exactly once. The order of first
      occurrences is kept by the definition but not stated. */
  function Dedup<T(==)>(s: seq<T>): (r: seq<T>)
    ensures forall i :: 0 <= i < |r| ==> r[i] in s
    ensures forall i :: 0 <= i < |s| ==> s[i] in r
    ensures forall i, j :: 0 <= i < j < |r| ==> r[i] != r[j]
  {
    if s == [] then []
    else
      var d := Dedup(s[..|s| - 1]);
      assert s == s[..|s| - 1] + [s[|s| - 1]];
      if s[|s| - 1] in d then d else d + [s[|s| - 1]]
  }

  /** `x` goes in front of the first element it compares strictly below. */
  function Insert<T>(x: T, s: seq<T>, cmp: (T, T) -> int): (r: seq<T>)
    ensures |r| == |s| + 1
    ensures multiset(r) == multiset(s) + multiset{x}
  {
    if s == [] then [x]
    else if cmp(x, s[0]) < 0 then [x] + s
    else
      assert s == [s[0]] + s[1..];
      [s[0]] + Insert(x, s[1..], cmp)
  }

  /** Takes the elements left to right and inserts each one into the already sorted prefix,
      so equal elements keep their original order. */
  function SortBy<T>(s: seq<T>, cmp: (T, T) -> int): (r: seq<T>)
    ensures |r| == |s|
    ensures multiset(r) == multiset(s)
  {
    if s == [] then []
    else
      assert s == s[..|s| - 1] + [s[|s| - 1]];
      Insert(s[|s| - 1], SortBy(s[..|s| - 1], cmp), cmp)
  }

  /** No element compares strictly below an element in front of it. */
  ghost predicate SortedBy<T>(s: seq<T>, cmp: (T, T) -> int) {
    forall i, j :: 0 <= i < j < |s| ==> cmp(s[j], s[i]) >= 0
  }

  /** The "strictly below" relation of a consistent comparator is a strict order. */
  ghost predicate Consistent<T(!new)>(cmp: (T, T) -> int) {
    && (forall a :: cmp(a, a) >= 0)
    && (forall a, b, c :: cmp(a, b) < 0 && cmp(b, c) < 0 ==> cmp(a, c) < 0)
  }

  /** Every element of `Insert(x, s)` is `x` or an element of `s`. */
  lemma InsertElements<T>(x: T, s: seq<T>, cmp: (T, T) -> int, y: T)
    requires y in Insert(x, s, cmp)
    ensures y == x || y in s
  {
    assert y in multiset(Insert(x, s, cmp));
  }

  lemma ConsSorted<T>(h: T, t: seq<T>, cmp: (T, T) -> int)
    requires SortedBy(t, cmp)
    requires forall y :: y in t ==> cmp(y, h) >= 0
    ensures SortedBy([h] + t, cmp)
  {
    var r := [h] + t;
    forall i, j | 0 <= i < j < |r| ensures cmp(r[j], r[i]) >= 0 {
      if i == 0 {
        assert r[j] == t[j - 1];
      } else {
        assert r[i] == t[i - 1] && r[j] == t[j - 1];
      }
    }
  }

  lemma {:induction false} InsertSorted<T(!new)>(x: T, s: seq<T>, cmp: (T, T) -> int)
    requires Consistent(cmp) && SortedBy(s, cmp)
    ensures SortedBy(Insert(x, s, cmp), cmp)
  {
    if s == [] {
    } else if cmp(x, s[0]) < 0 {
      forall y | y in s ensures cmp(y, x) >= 0 {
        var j :| 0 <= j < |s| && s[j] == y;
        if j > 0 { assert cmp(s[j], s[0]) >= 0; }
      }
      ConsSorted(x, s, cmp);
    } else {
      var t := Insert(x, s[1..], cmp);
      assert SortedBy(s[1..], cmp) by {
        forall i, j | 0 <= i < j < |s[1..]| ensures cmp(s[1..][j], s[1..][i]) >= 0 {
          assert s[1..][j] == s[j + 1] && s[1..][i] == s[i + 1];
        }
      }
      InsertSorted(x, s[1..], cmp);
      forall y | y in t ensures cmp(y, s[0]) >= 0 {
        InsertElements(x, s[1..], cmp, y);
        if y != x {
          var j :| 0 <= j < |s[1..]| && s[1..][j] == y;
          assert s[j + 1] == y;
        }
      }
      ConsSorted(s[0], t, cmp);
    }
  }

  lemma {:induction false} SortBySorted<T(!new)>(s: seq<T>, cmp: (T, T) -> int)
    requires Consistent(cmp)
    ensures SortedBy(SortBy(s, cmp), cmp)
  {
    if s != [] {
      SortBySorted(s[..|s| - 1], cmp);
      InsertSorted(s[|s| - 1], SortBy(s[..|s| - 1], cmp), cmp);
    }
  }

  lemma LexCompareConsistent()
    ensures Consistent(LexCompare)
  {
    forall a ensures LexCompare(a, a) >= 0 { LexLessIrreflexive(a); }
    forall a, b, c | LexCompare(a, b) < 0 && LexCompare(b, c) < 0 ensures LexCompare(a, c) < 0 {
      LexLessTransitive(a, b, c);
    }
  }

  /** Sorting with the default comparator orders distinct strings strictly increasingly. */
  lemma SortedStringsIncrease(s: seq<string>)
    requires forall i, j :: 0 <= i < j < |s| ==> s[i] != s[j]
    ensures forall i, j :: 0 <= i < j < |SortBy(s, LexCompare)| ==> LexLess(SortBy(s, LexCompare)[i], SortBy(s, LexCompare)[j])
  {
    var r := SortBy(s, LexCompare);
    LexCompareConsistent();
    SortBySorted(s, LexCompare);
    MultisetDistinct(s, r);
    forall i, j | 0 <= i < j < |r| ensures LexLess(r[i], r[j]) {
      LexLessTotal(r[i], r[j]);
    }
  }

  lemma MultisetDistinct<T>(s: seq<T>, r: seq<T>)
    requires multiset(r) == multiset(s)
    requires forall i, j :: 0 <= i < j < |s| ==> s[i] != s[j]
    ensures forall i, j :: 0 <= i < j < |r| ==> r[i] != r[j]
  {
    forall i, j | 0 <= i < j < |r| ensures r[i] != r[j] {
      DistinctCount(s, r[i]);
      TwoOccurrences(r, i, j);
    }
  }

  lemma TwoOccurrences<T>(r: seq<T>, i: nat, j: nat)
    requires i < j < |r|
    ensures r[i] == r[j] ==> multiset(r)[r[i]] >= 2
  {
    assert r == r[..i] + [r[i]] + r[i + 1..j] + [r[j]] + r[j + 1..];
  }

  lemma {:induction false} DistinctCount<T>(s: seq<T>, x: T)
    requires forall i, j :: 0 <= i < j < |s| ==> s[i] != s[j]
    ensures multiset(s)[x] <= 1
  {
    if s != [] {
      assert s == [s[0]] + s[1..];
      DistinctCount(s[1..], x);
      if s[0] == x {
        assert x !in s[1..];
      }
    }
  }

  lemma HeadIn<T>(s: seq<T>)
    requires s != []
    ensures s[0] in s
  {
  }

  /** Two strictly increasing string sequences with the same elements are the same sequence. */
  lemma {:induction false} IncreasingUnique(a: seq<string>, b: seq<string>)
    requires forall i, j :: 0 <= i < j < |a| ==> LexLess(a[i], a[j])
    requires forall i, j :: 0 <= i < j < |b| ==> LexLess(b[i], b[j])
    requires forall x :: x in a <==> x in b
    ensures a == b
  {
    if a == [] || b == [] {
      if a != [] { HeadIn(a); assert false; }
      if b != [] { HeadIn(b); assert false; }
    } else {
      assert a[0] in b && b[0] in a;
      if a[0] != b[0] {
        var j :| 0 <= j < |b| && b[j] == a[0];
        var i :| 0 <= i < |a| && a[i] == b[0];
        assert LexLess(b[0], a[0]) by { LexLessIrreflexive(a[0]); }
        assert LexLess(a[0], b[0]) by { LexLessIrreflexive(b[0]); }
        LexLessAsymmetric(a[0], b[0]);
      }
      forall i | 0 < i < |a| ensures a[i] != a[0] { LexLessIrreflexive(a[0]); }
      forall i | 0 < i < |b| ensures b[i] != b[0] { LexLessIrreflexive(b[0]); }
      forall x ensures x in a[1..] <==> x in b[1..] {
        if x in a[1..] {
          var k :| 0 <= k < |a[1..]| && a[1..][k] == x;
          assert a[k + 1] == x && x in a;
        }
        if x in b[1..] {
          var k :| 0 <= k < |b[1..]| && b[1..][k] == x;
          assert b[k + 1] == x && x in b;
        }
        if x in a && x != a[0] {
          var k :| 0 <= k < |a| && a[k] == x;
          assert a[1..][k - 1] == x;
        }
        if x in b && x != b[0] {
          var k :| 0 <= k < |b| && b[k] == x;
          assert b[1..][k - 1] == x;
        }
      }
      IncreasingUnique(a[1..], b[1..]);
      assert a == [a[0]] + a[1..] && b == [b[0]] + b[1..];
    }
  }
}

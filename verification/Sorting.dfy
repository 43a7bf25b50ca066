/**
 Stable sorting by a comparison, as `sort.SliceStable` does it.

 The program sorts in two ways, and the lemmas follow them. Where any two entries can
 be told apart, the sorted sequence is the only one, so neither the algorithm nor the
 order the entries came in can show. Where entries are ranked and many share a rank,
 each rank becomes one run and the entries in it stay in the order they came.
 What occurs once is kept once either way.
 */
module Sorting {
  import opened Text

  /** Puts `x` behind everything it is not before. */
  function Insert<T>(x: T, s: seq<T>, before: (T, T) -> bool): seq<T> {
    if s == [] then [x]
    else if before(x, s[0]) then [x] + s
    else [s[0]] + Insert(x, s[1..], before)
  }

  function Sort<T>(s: seq<T>, before: (T, T) -> bool): seq<T> {
    if s == [] then [] else Insert(s[|s| - 1], Sort(s[..|s| - 1], before), before)
  }

  ghost predicate Transitive<T(!new)>(before: (T, T) -> bool) {
    forall a, b, c :: before(a, b) && before(b, c) ==> before(a, c)
  }

  ghost predicate Asymmetric<T(!new)>(before: (T, T) -> bool) {
    forall a, b :: before(a, b) ==> !before(b, a)
  }

  /** Strictly ascending: in particular, nothing twice. */
  predicate Ascending<T>(s: seq<T>, before: (T, T) -> bool) {
    forall i, j :: 0 <= i < j < |s| ==> before(s[i], s[j])
  }

  /** Any two entries can be told apart. */
  predicate Comparable<T>(s: seq<T>, before: (T, T) -> bool) {
    forall i, j :: 0 <= i < j < |s| ==> before(s[i], s[j]) || before(s[j], s[i])
  }

  lemma {:induction false} InsertElements<T>(x: T, s: seq<T>, before: (T, T) -> bool)
    ensures |Insert(x, s, before)| == |s| + 1
    ensures forall y :: y in Insert(x, s, before) <==> y == x || y in s
  {
    if s != [] && !before(x, s[0]) {
      InsertElements(x, s[1..], before);
    }
  }

  lemma {:induction false} InsertAscends<T(!new)>(x: T, s: seq<T>, before: (T, T) -> bool)
    requires Transitive(before) && Ascending(s, before)
    requires forall y :: y in s ==> before(x, y) || before(y, x)
    ensures Ascending(Insert(x, s, before), before)
  {
    if s != [] {
      if before(x, s[0]) {
        forall j | 0 <= j < |s|
          ensures before(x, s[j])
        {
          if j > 0 {
            assert before(s[0], s[j]);
          }
        }
      } else {
        assert s[0] in s && forall y :: y in s[1..] ==> y in s;
        InsertAscends(x, s[1..], before);
        InsertElements(x, s[1..], before);
        var rest := Insert(x, s[1..], before);
        forall j | 0 <= j < |rest|
          ensures before(s[0], rest[j])
        {
          assert rest[j] in rest;
          if rest[j] != x {
            var k :| 0 <= k < |s[1..]| && s[1..][k] == rest[j];
            assert before(s[0], s[k + 1]);
          }
        }
      }
    }
  }

  /** Sorting keeps the entries, and when any two can be told apart it puts them in strict order. */
  lemma {:induction false} SortAscends<T(!new)>(s: seq<T>, before: (T, T) -> bool)
    ensures |Sort(s, before)| == |s| && forall y :: y in Sort(s, before) <==> y in s
    ensures Transitive(before) && Comparable(s, before) ==> Ascending(Sort(s, before), before)
  {
    if s != [] {
      var front, x := s[..|s| - 1], s[|s| - 1];
      SortAscends(front, before);
      InsertElements(x, Sort(front, before), before);
      assert s == front + [x];
      if Transitive(before) && Comparable(s, before) {
        assert Comparable(front, before);
        forall y | y in Sort(front, before)
          ensures before(x, y) || before(y, x)
        {
          var k :| 0 <= k < |front| && front[k] == y;
          assert s[k] == y && s[|front|] == x;
        }
        InsertAscends(x, Sort(front, before), before);
      }
    }
  }

  /** Text compares as a strict order. */
  lemma TextOrderIsStrict()
    ensures Transitive(Less) && Asymmetric(Less)
  {
    forall a: string, b: string, c: string | Less(a, b) && Less(b, c)
      ensures Less(a, c)
    {
      LessIsTransitive(a, b, c);
    }
    forall a: string, b: string | Less(a, b)
      ensures !Less(b, a)
    {
      LessIsTotal(a, b);
    }
  }

  /** Two strictly ascending sequences of the same entries are the same. */
  lemma {:induction false} AscendingIsUnique<T(!new)>(a: seq<T>, b: seq<T>, before: (T, T) -> bool)
    requires Asymmetric(before) && Ascending(a, before) && Ascending(b, before)
    requires forall x :: x in a <==> x in b
    ensures a == b
  {
    assert b != [] ==> b[0] in b;
    if a != [] {
      assert a[0] in b;
      HeadsAgree(a, b, before);
      forall x
        ensures x in a[1..] <==> x in b[1..]
      {
        TailHas(a, before, x);
        TailHas(b, before, x);
      }
      AscendingIsUnique(a[1..], b[1..], before);
      assert a == [a[0]] + a[1..] && b == [b[0]] + b[1..];
    }
  }

  lemma HeadsAgree<T(!new)>(a: seq<T>, b: seq<T>, before: (T, T) -> bool)
    requires Asymmetric(before) && Ascending(a, before) && Ascending(b, before) && a != [] && b != []
    requires a[0] in b && b[0] in a
    ensures a[0] == b[0]
  {
    var i :| 0 <= i < |b| && b[i] == a[0];
    var j :| 0 <= j < |a| && a[j] == b[0];
    assert i > 0 ==> before(b[0], b[i]);
    assert j > 0 ==> before(a[0], a[j]);
  }

  lemma TailHas<T(!new)>(s: seq<T>, before: (T, T) -> bool, x: T)
    requires Asymmetric(before) && Ascending(s, before) && s != []
    ensures x in s[1..] <==> x in s && x != s[0]
  {
    if x in s[1..] {
      var k :| 0 <= k < |s| - 1 && s[1..][k] == x;
      assert before(s[0], s[k + 1]);
    }
  }

  // ---------------------------------------------------------------- what sorting keeps

  function Filter<T>(s: seq<T>, keep: T -> bool): seq<T> {
    if s == [] then [] else (if keep(s[0]) then [s[0]] else []) + Filter(s[1..], keep)
  }

  function Kept<T>(x: T, keep: T -> bool): seq<T> { if keep(x) then [x] else [] }

  lemma {:induction false} FilterJoins<T>(a: seq<T>, b: seq<T>, keep: T -> bool)
    ensures Filter(a + b, keep) == Filter(a, keep) + Filter(b, keep)
  {
    if a == [] {
      assert a + b == b;
    } else {
      FilterJoins(a[1..], b, keep);
      assert (a + b)[0] == a[0] && (a + b)[1..] == a[1..] + b;
    }
  }

  lemma FilterSnoc<T>(s: seq<T>, x: T, keep: T -> bool)
    ensures Filter(s + [x], keep) == Filter(s, keep) + Kept(x, keep)
  {
    FilterJoins(s, [x], keep);
    assert [x][1..] == [];
  }

  lemma {:induction false} InsertKeepsOne<T>(x: T, s: seq<T>, before: (T, T) -> bool, keep: T -> bool)
    requires |Filter(s, keep)| + |Kept(x, keep)| <= 1
    ensures Filter(Insert(x, s, before), keep) == Filter(s, keep) + Kept(x, keep)
  {
    if s == [] {
      FilterSnoc([], x, keep);
      assert [] + [x] == [x];
    } else if before(x, s[0]) {
      FilterJoins([x], s, keep);
      FilterSnoc([], x, keep);
      assert [] + [x] == [x];
    } else {
      InsertKeepsOne(x, s[1..], before, keep);
      var rest := Insert(x, s[1..], before);
      assert ([s[0]] + rest)[1..] == rest;
    }
  }

  /** What is there at most once is there as often after sorting by anything. */
  lemma {:induction false} SortKeepsOne<T>(s: seq<T>, before: (T, T) -> bool, keep: T -> bool)
    requires |Filter(s, keep)| <= 1
    ensures Filter(Sort(s, before), keep) == Filter(s, keep)
  {
    if s != [] {
      var front, x := s[..|s| - 1], s[|s| - 1];
      assert s == front + [x];
      FilterSnoc(front, x, keep);
      SortKeepsOne(front, before, keep);
      InsertKeepsOne(x, Sort(front, before), before, keep);
    }
  }

  function ByRank<T>(rank: T -> int): (T, T) -> bool { (a, b) => rank(a) < rank(b) }

  function HasRank<T>(rank: T -> int, r: int): T -> bool { x => rank(x) == r }

  /** Runs of equal rank, in ascending order of rank. */
  predicate InRuns<T>(s: seq<T>, rank: T -> int) { forall i, j :: 0 <= i < j < |s| ==> rank(s[i]) <= rank(s[j]) }

  lemma {:induction false} HigherOnly<T>(s: seq<T>, rank: T -> int, r: int)
    requires forall i :: 0 <= i < |s| ==> rank(s[i]) > r
    ensures Filter(s, HasRank(rank, r)) == []
  {
    if s != [] {
      HigherOnly(s[1..], rank, r);
    }
  }

  lemma {:induction false} InsertInRuns<T(!new)>(x: T, s: seq<T>, rank: T -> int)
    requires InRuns(s, rank)
    ensures InRuns(Insert(x, s, ByRank(rank)), rank)
  {
    if s != [] && rank(x) >= rank(s[0]) {
      InsertInRuns(x, s[1..], rank);
      InsertElements(x, s[1..], ByRank(rank));
      var rest := Insert(x, s[1..], ByRank(rank));
      forall j | 0 <= j < |rest|
        ensures rank(s[0]) <= rank(rest[j])
      {
        assert rest[j] in rest;
        if rest[j] in s[1..] {
          var k :| 0 <= k < |s[1..]| && s[1..][k] == rest[j];
          assert rank(s[0]) <= rank(s[k + 1]);
        }
      }
    }
  }

  lemma {:induction false} InsertIsStable<T>(x: T, s: seq<T>, rank: T -> int, r: int)
    requires InRuns(s, rank)
    ensures Filter(Insert(x, s, ByRank(rank)), HasRank(rank, r)) ==
            Filter(s, HasRank(rank, r)) + Kept(x, HasRank(rank, r))
  {
    var keep := HasRank(rank, r);
    FilterSnoc([], x, keep);
    assert [] + [x] == [x];
    if s != [] {
      if rank(x) < rank(s[0]) {
        FilterJoins([x], s, keep);
        if rank(x) == r {
          HigherOnly(s, rank, r);
        }
      } else {
        InsertIsStable(x, s[1..], rank, r);
        var rest := Insert(x, s[1..], ByRank(rank));
        assert ([s[0]] + rest)[1..] == rest;
      }
    }
  }

  /** Stable sorting by rank makes each rank one run and keeps the order inside it. */
  lemma {:induction false} SortIsStable<T(!new)>(s: seq<T>, rank: T -> int, r: int)
    ensures InRuns(Sort(s, ByRank(rank)), rank)
    ensures Filter(Sort(s, ByRank(rank)), HasRank(rank, r)) == Filter(s, HasRank(rank, r))
  {
    if s != [] {
      var front, x := s[..|s| - 1], s[|s| - 1];
      assert s == front + [x];
      SortIsStable(front, rank, r);
      FilterSnoc(front, x, HasRank(rank, r));
      InsertInRuns(x, Sort(front, ByRank(rank)), rank);
      InsertIsStable(x, Sort(front, ByRank(rank)), rank, r);
    }
  }

  /** Entries the comparison does not tell apart may stand in any order. */
  predicate NeverDescends<T>(s: seq<T>, before: (T, T) -> bool) {
    forall i, j :: 0 <= i < j < |s| ==> !before(s[j], s[i])
  }

  /** Not coming before is passed on, as it is where entries are compared by a key. */
  ghost predicate Weak<T(!new)>(before: (T, T) -> bool) {
    forall a, b, c :: !before(b, a) && !before(c, b) ==> !before(c, a)
  }

  lemma {:induction false} InsertNeverDescends<T(!new)>(x: T, s: seq<T>, before: (T, T) -> bool)
    requires Asymmetric(before) && Weak(before) && NeverDescends(s, before)
    ensures NeverDescends(Insert(x, s, before), before)
  {
    if s != [] {
      if before(x, s[0]) {
        assert forall j :: 0 < j < |s| ==> !before(s[j], s[0]);
      } else {
        InsertNeverDescends(x, s[1..], before);
        InsertElements(x, s[1..], before);
        var rest := Insert(x, s[1..], before);
        forall j | 0 <= j < |rest|
          ensures !before(rest[j], s[0])
        {
          assert rest[j] in rest;
          if rest[j] in s[1..] {
            var k :| 0 <= k < |s[1..]| && s[1..][k] == rest[j];
            assert !before(s[k + 1], s[0]);
          }
        }
      }
    }
  }

  /** Sorting by a weak order never leaves an entry before one it should follow. */
  lemma {:induction false} SortNeverDescends<T(!new)>(s: seq<T>, before: (T, T) -> bool)
    requires Asymmetric(before) && Weak(before)
    ensures NeverDescends(Sort(s, before), before)
  {
    if s != [] {
      SortNeverDescends(s[..|s| - 1], before);
      InsertNeverDescends(s[|s| - 1], Sort(s[..|s| - 1], before), before);
    }
  }

  lemma {:induction false} InsertAgrees<T>(x: T, s: seq<T>, f: (T, T) -> bool, g: (T, T) -> bool)
    requires forall i :: 0 <= i < |s| ==> f(x, s[i]) == g(x, s[i])
    ensures Insert(x, s, f) == Insert(x, s, g)
  {
    if s != [] {
      InsertAgrees(x, s[1..], f, g);
    }
  }

  /** Comparisons that agree on the entries sort them alike. */
  lemma {:induction false} SortAgrees<T(!new)>(s: seq<T>, f: (T, T) -> bool, g: (T, T) -> bool)
    requires forall x, y :: x in s && y in s ==> f(x, y) == g(x, y)
    ensures Sort(s, f) == Sort(s, g)
  {
    if s != [] {
      var front, x := s[..|s| - 1], s[|s| - 1];
      assert s == front + [x];
      SortAgrees(front, f, g);
      SortAscends(front, f);
      var sorted := Sort(front, f);
      forall i | 0 <= i < |sorted|
        ensures f(x, sorted[i]) == g(x, sorted[i])
      {
        assert sorted[i] in sorted && sorted[i] in s && x in s;
      }
      InsertAgrees(x, sorted, f, g);
    }
  }
}

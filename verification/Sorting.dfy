/**
 Python's `sorted(xs, key=...)`: a stable ascending sort. A descending sort
 (`reverse=True`, which keeps the order of equal elements) is the same sort on the negated key.
 */
module Sorting {
  import opened Wrappers

  function Insert<T>(x: T, s: seq<T>, key: T -> real): seq<T> {
    if s == [] || key(x) <= key(s[0]) then [x] + s else [s[0]] + Insert(x, s[1..], key)
  }

  function Sort<T>(s: seq<T>, key: T -> real): seq<T> {
    if s == [] then [] else Insert(s[0], Sort(s[1..], key), key)
  }

  ghost predicate Ascending<T>(s: seq<T>, key: T -> real) {
    forall i, j :: 0 <= i < j < |s| ==> key(s[i]) <= key(s[j])
  }

  function Filter<T>(s: seq<T>, p: T -> bool): seq<T>
  {
    if s == [] then [] else if p(s[0]) then [s[0]] + Filter(s[1..], p) else Filter(s[1..], p)
  }

  lemma {:induction false} FilterMembers<T>(s: seq<T>, p: T -> bool)
    ensures forall x :: x in Filter(s, p) ==> x in s && p(x)
    ensures forall x :: x in s && p(x) ==> x in Filter(s, p)
  {
    if s != [] {
      FilterMembers(s[1..], p);
      assert s == [s[0]] + s[1..];
    }
  }

  /** `next((x for x in s if p(x)), None)`. */
  function FirstWhere<T>(s: seq<T>, p: T -> bool): (r: Option<T>)
    ensures r.None? <==> forall x :: x in s ==> !p(x)
    ensures r.Some? ==> r.value in s && p(r.value)
  {
    if s == [] then None else if p(s[0]) then Some(s[0]) else FirstWhere(s[1..], p)
  }

  lemma {:induction false} FilterAppend<T>(a: seq<T>, b: seq<T>, p: T -> bool)
    ensures Filter(a + b, p) == Filter(a, p) + Filter(b, p)
  {
    if a == [] {
      assert a + b == b && Filter(a, p) == [];
    } else {
      var ab := a + b;
      assert ab[0] == a[0] && ab[1..] == a[1..] + b;
      FilterAppend(a[1..], b, p);
      var rest := Filter(a[1..], p);
      assert [a[0]] + (rest + Filter(b, p)) == [a[0]] + rest + Filter(b, p);
    }
  }

  lemma {:induction false} InsertIsPermutation<T>(x: T, s: seq<T>, key: T -> real)
    ensures multiset(Insert(x, s, key)) == multiset{x} + multiset(s)
    ensures forall y :: y in Insert(x, s, key) <==> y == x || y in s
  {
    if s == [] || key(x) <= key(s[0]) {
    } else {
      InsertIsPermutation(x, s[1..], key);
      assert s == [s[0]] + s[1..];
    }
  }

  lemma {:induction false} InsertAscends<T>(x: T, s: seq<T>, key: T -> real)
    requires Ascending(s, key)
    ensures Ascending(Insert(x, s, key), key)
  {
    if s == [] || key(x) <= key(s[0]) {
    } else {
      InsertAscends(x, s[1..], key);
      var t := Insert(x, s[1..], key);
      assert t[0] == x || t[0] == s[1];
      assert forall j :: 0 <= j < |t| ==> key(t[0]) <= key(t[j]);
    }
  }

  lemma {:induction false} SortSorts<T>(s: seq<T>, key: T -> real)
    ensures multiset(Sort(s, key)) == multiset(s)
    ensures |Sort(s, key)| == |s|
    ensures Ascending(Sort(s, key), key)
    ensures forall x :: x in Sort(s, key) <==> x in s
  {
    if s != [] {
      SortSorts(s[1..], key);
      assert s == [s[0]] + s[1..];
      InsertAscends(s[0], Sort(s[1..], key), key);
      InsertIsPermutation(s[0], Sort(s[1..], key), key);
      assert |multiset(Sort(s, key))| == |Sort(s, key)|;
      assert |multiset(s)| == |s|;
    }
  }

  lemma {:induction false} InsertFilters<T>(x: T, s: seq<T>, key: T -> real, v: real)
    ensures Filter(Insert(x, s, key), y => key(y) == v) == Filter([x] + s, y => key(y) == v)
  {
    if s == [] || key(x) <= key(s[0]) {
    } else {
      InsertFilters(x, s[1..], key, v);
      assert ([x] + s)[1..] == s;
      assert ([x] + s[1..])[1..] == s[1..];
    }
  }

  /** Stability: elements with the same key keep the order they came in. */
  lemma {:induction false} SortIsStable<T>(s: seq<T>, key: T -> real, v: real)
    ensures Filter(Sort(s, key), y => key(y) == v) == Filter(s, y => key(y) == v)
  {
    if s != [] {
      SortIsStable(s[1..], key, v);
      InsertFilters(s[0], Sort(s[1..], key), key, v);
      assert ([s[0]] + Sort(s[1..], key))[1..] == Sort(s[1..], key);
    }
  }

  /** Ascending by key, and by rank among elements with the same key. */
  ghost predicate AscendingThen<T>(s: seq<T>, key: T -> real, rank: T -> int) {
    forall i, j :: 0 <= i < j < |s| ==> key(s[i]) < key(s[j]) || (key(s[i]) == key(s[j]) && rank(s[i]) < rank(s[j]))
  }

  lemma ConsAscendsThen<T>(x: T, s: seq<T>, key: T -> real, rank: T -> int)
    requires AscendingThen(s, key, rank)
    requires forall y :: y in s ==> key(x) < key(y) || (key(x) == key(y) && rank(x) < rank(y))
    ensures AscendingThen([x] + s, key, rank)
  {
    assert forall j :: 0 <= j < |s| ==> s[j] in s;
  }

  lemma {:induction false} InsertAscendsThen<T>(x: T, s: seq<T>, key: T -> real, rank: T -> int)
    requires AscendingThen(s, key, rank) && forall y :: y in s ==> rank(x) < rank(y)
    ensures AscendingThen(Insert(x, s, key), key, rank)
  {
    if s == [] {
    } else if key(x) <= key(s[0]) {
      assert forall j :: 0 <= j < |s| ==> key(s[0]) <= key(s[j]);
      ConsAscendsThen(x, s, key, rank);
    } else {
      var tail := s[1..];
      InsertAscendsThen(x, tail, key, rank);
      InsertIsPermutation(x, tail, key);
      var inserted := Insert(x, tail, key);
      forall y | y in inserted ensures key(s[0]) < key(y) || (key(s[0]) == key(y) && rank(s[0]) < rank(y)) {
        assert y in multiset(inserted) && multiset(inserted) == multiset{x} + multiset(tail);
        if y != x {
          var j :| 0 <= j < |tail| && tail[j] == y;
          assert s[j + 1] == y;
        }
      }
      ConsAscendsThen(s[0], inserted, key, rank);
    }
  }

  /** The same for elements whose rank says where they stood: ties keep their order, one by one. */
  lemma {:induction false} SortBreaksTiesByRank<T>(s: seq<T>, key: T -> real, rank: T -> int)
    requires forall i, j :: 0 <= i < j < |s| ==> rank(s[i]) < rank(s[j])
    ensures AscendingThen(Sort(s, key), key, rank)
  {
    if s != [] {
      var tail := s[1..];
      assert forall j :: 0 <= j < |tail| ==> tail[j] == s[j + 1];
      SortBreaksTiesByRank(tail, key, rank);
      SortSorts(tail, key);
      var sorted := Sort(tail, key);
      forall y | y in sorted ensures rank(s[0]) < rank(y) {
        assert y in multiset(sorted) && multiset(sorted) == multiset(tail);
        var j :| 0 <= j < |tail| && tail[j] == y;
        assert s[j + 1] == y;
      }
      InsertAscendsThen(s[0], sorted, key, rank);
    }
  }

  /** `s[i]` is the element a scan of the sorted list stops at: least key, earliest among equals. */
  ghost predicate IsFirstBest<T>(s: seq<T>, key: T -> real, p: T -> bool, i: nat) {
    && i < |s|
    && p(s[i])
    && forall j :: 0 <= j < |s| && p(s[j]) ==> key(s[i]) <= key(s[j]) && (key(s[i]) == key(s[j]) ==> i <= j)
  }

  lemma {:induction false} FirstWhereInsert<T>(x: T, s: seq<T>, key: T -> real, p: T -> bool)
    requires Ascending(s, key)
    ensures FirstWhere(Insert(x, s, key), p)
         == var f := FirstWhere(s, p);
            if p(x) && (f.None? || key(x) <= key(f.value)) then Some(x) else f
  {
    if s == [] || key(x) <= key(s[0]) {
      assert ([x] + s)[1..] == s;
    } else {
      FirstWhereInsert(x, s[1..], key, p);
      var t := Insert(x, s[1..], key);
      assert ([s[0]] + t)[1..] == t;
    }
  }

  /** Sort-then-scan finds the least key, and the earliest element among ties. */
  lemma {:induction false} FirstOfSorted<T>(s: seq<T>, key: T -> real, p: T -> bool)
    ensures match FirstWhere(Sort(s, key), p)
            case None => forall x :: x in s ==> !p(x)
            case Some(x) => exists i: nat :: IsFirstBest(s, key, p, i) && s[i] == x
  {
    if s != [] {
      var tail := s[1..];
      SortSorts(tail, key);
      FirstOfSorted(tail, key, p);
      FirstWhereInsert(s[0], Sort(tail, key), key, p);
      hide Sort;
      var f := FirstWhere(Sort(tail, key), p);
      assert forall x :: x in s <==> x == s[0] || x in tail;
      if f.Some? {
        var i: nat :| IsFirstBest(tail, key, p, i) && tail[i] == f.value;
        BestOfTail(s, key, p, i);
      } else if p(s[0]) {
        assert IsFirstBest(s, key, p, 0) by {
          assert forall j :: 0 < j < |s| ==> s[j] == tail[j - 1] && s[j] in tail;
        }
      }
    }
  }

  lemma BestOfTail<T>(s: seq<T>, key: T -> real, p: T -> bool, i: nat)
    requires s != [] && IsFirstBest(s[1..], key, p, i)
    ensures IsFirstBest(s, key, p, if p(s[0]) && key(s[0]) <= key(s[1..][i]) then 0 else i + 1)
  {
    assert forall j :: 0 < j < |s| ==> s[1..][j - 1] == s[j];
  }
}

/** Go's sort.SliceStable and sort.Slice, as a stable insertion sort on sequences, with the facts
    the engines rely on: a sorted permutation, stable, and unique when the order is total. */
module Sorting {
  import opened Text

  /** `less` is a strict weak order on the elements of `s`. */
  ghost predicate WeakOrderOn<T(!new)>(less: (T, T) -> bool, s: seq<T>) {
    && (forall a, b :: a in s && b in s && less(a, b) ==> !less(b, a))
    && (forall a, b, c :: a in s && b in s && c in s && !less(a, b) && !less(b, c) ==> !less(a, c))
  }

  ghost predicate TotalOn<T(!new)>(less: (T, T) -> bool, s: seq<T>) {
    forall a, b :: a in s && b in s && a != b ==> less(a, b) || less(b, a)
  }

  ghost predicate Sorted<T>(less: (T, T) -> bool, s: seq<T>) {
    forall i, j :: 0 <= i < j < |s| ==> !less(s[j], s[i])
  }

  function Insert<T>(less: (T, T) -> bool, x: T, s: seq<T>): seq<T> {
    if s == [] then [x]
    else
      var n := |s| - 1;
      if less(x, s[n]) then Insert(less, x, s[..n]) + [s[n]] else s + [x]
  }

  function SortBy<T>(less: (T, T) -> bool, s: seq<T>): seq<T> {
    if s == [] then [] else Insert(less, s[|s| - 1], SortBy(less, s[..|s| - 1]))
  }

  function Filter<T>(keep: T -> bool, s: seq<T>): seq<T> {
    if s == [] then []
    else
      var n := |s| - 1;
      if keep(s[n]) then Filter(keep, s[..n]) + [s[n]] else Filter(keep, s[..n])
  }

  /** The earliest of the least elements. */
  function Least<T>(less: (T, T) -> bool, s: seq<T>): T
    requires s != []
  {
    var n := |s| - 1;
    if n == 0 then s[0]
    else
      var m := Least(less, s[..n]);
      if less(s[n], m) then s[n] else m
  }

  lemma LastSplit<T>(s: seq<T>)
    requires s != []
    ensures s == s[..|s| - 1] + [s[|s| - 1]]
  {
  }

  // ----- Permutation and order -------------------------------------------------------------

  lemma {:induction false} InsertPermutes<T>(less: (T, T) -> bool, x: T, s: seq<T>)
    ensures multiset(Insert(less, x, s)) == multiset(s) + multiset{x}
  {
    if s != [] {
      LastSplit(s);
      InsertPermutes(less, x, s[..|s| - 1]);
    }
  }

  lemma {:induction false} SortPermutes<T>(less: (T, T) -> bool, s: seq<T>)
    ensures multiset(SortBy(less, s)) == multiset(s)
    ensures |SortBy(less, s)| == |s|
    ensures forall x :: x in SortBy(less, s) <==> x in s
  {
    if s != [] {
      LastSplit(s);
      SortPermutes(less, s[..|s| - 1]);
      InsertPermutes(less, s[|s| - 1], SortBy(less, s[..|s| - 1]));
    }
    assert |multiset(SortBy(less, s))| == |multiset(s)|;
    assert forall x :: x in SortBy(less, s) <==> x in multiset(SortBy(less, s));
  }

  lemma {:induction false} InsertSorts<T(!new)>(less: (T, T) -> bool, x: T, s: seq<T>)
    requires Sorted(less, s) && WeakOrderOn(less, s + [x])
    ensures Sorted(less, Insert(less, x, s))
  {
    if s != [] {
      var n := |s| - 1;
      if less(x, s[n]) {
        assert forall y :: y in s[..n] + [x] ==> y in s + [x];
        InsertSorts(less, x, s[..n]);
        InsertPermutes(less, x, s[..n]);
        var inner := Insert(less, x, s[..n]);
        forall i | 0 <= i < |inner|
          ensures !less(s[n], inner[i])
        {
          assert inner[i] in multiset(inner);
          assert inner[i] == x || inner[i] in s[..n];
        }
      } else {
        forall i | 0 <= i < |s|
          ensures !less(x, s[i])
        {
          assert s[i] in s + [x] && s[n] in s + [x] && x in s + [x];
        }
      }
    }
  }

  lemma {:induction false} SortSorts<T(!new)>(less: (T, T) -> bool, s: seq<T>)
    requires WeakOrderOn(less, s)
    ensures Sorted(less, SortBy(less, s))
  {
    if s != [] {
      var front := s[..|s| - 1];
      LastSplit(s);
      SortSorts(less, front);
      SortPermutes(less, front);
      assert forall y :: y in SortBy(less, front) + [s[|s| - 1]] ==> y in s;
      InsertSorts(less, s[|s| - 1], SortBy(less, front));
    }
  }

  // ----- Stability: filtering commutes, and the head is the earliest least element ---------

  lemma {:induction false} FilterInsert<T(!new)>(less: (T, T) -> bool, keep: T -> bool, x: T, s: seq<T>)
    requires Sorted(less, s) && WeakOrderOn(less, s + [x])
    ensures Filter(keep, Insert(less, x, s)) ==
            if keep(x) then Insert(less, x, Filter(keep, s)) else Filter(keep, s)
  {
    if s != [] {
      var n := |s| - 1;
      LastSplit(s);
      if less(x, s[n]) {
        assert forall y :: y in s[..n] + [x] ==> y in s + [x];
        FilterInsert(less, keep, x, s[..n]);
        var inner := Insert(less, x, s[..n]);
        assert (inner + [s[n]])[..|inner|] == inner;
      } else {
        assert (s + [x])[..n + 1] == s;
        InsertKept(less, keep, x, s);
      }
    }
  }

  lemma InsertKept<T(!new)>(less: (T, T) -> bool, keep: T -> bool, x: T, s: seq<T>)
    requires Sorted(less, s) && WeakOrderOn(less, s + [x]) && s != [] && !less(x, s[|s| - 1])
    ensures Insert(less, x, Filter(keep, s)) == Filter(keep, s) + [x]
  {
    FilterMembers(keep, s);
    var kept := Filter(keep, s);
    if kept != [] {
      assert kept[|kept| - 1] in kept;
      NotBelow(less, x, s, kept[|kept| - 1]);
    }
  }

  lemma NotBelow<T(!new)>(less: (T, T) -> bool, x: T, s: seq<T>, y: T)
    requires Sorted(less, s) && WeakOrderOn(less, s + [x]) && y in s && !less(x, s[|s| - 1])
    ensures !less(x, y)
  {
    var i :| 0 <= i < |s| && s[i] == y;
    assert s[i] in s + [x] && s[|s| - 1] in s + [x] && x in s + [x];
  }

  lemma {:induction false} FilterMembers<T>(keep: T -> bool, s: seq<T>)
    ensures forall x :: x in Filter(keep, s) <==> x in s && keep(x)
    ensures |Filter(keep, s)| <= |s|
  {
    if s != [] {
      LastSplit(s);
      FilterMembers(keep, s[..|s| - 1]);
    }
  }

  lemma {:induction false} FilterAppend<T>(keep: T -> bool, a: seq<T>, b: seq<T>)
    ensures Filter(keep, a + b) == Filter(keep, a) + Filter(keep, b)
  {
    if b == [] {
      assert a + b == a;
    } else {
      var n := |b| - 1;
      assert (a + b)[..|a + b| - 1] == a + b[..n];
      FilterAppend(keep, a, b[..n]);
    }
  }

  lemma {:induction false} FilterAll<T>(keep: T -> bool, s: seq<T>)
    requires forall x :: x in s ==> keep(x)
    ensures Filter(keep, s) == s
  {
    if s != [] {
      LastSplit(s);
      FilterAll(keep, s[..|s| - 1]);
    }
  }

  lemma {:induction false} FilterNone<T>(keep: T -> bool, s: seq<T>)
    requires forall x :: x in s ==> !keep(x)
    ensures Filter(keep, s) == []
  {
    if s != [] {
      LastSplit(s);
      FilterNone(keep, s[..|s| - 1]);
    }
  }

  lemma FilterOne<T>(keep: T -> bool, x: T)
    ensures Filter(keep, [x]) == if keep(x) then [x] else []
  {
    assert [x][..0] == [];
  }

  lemma {:induction false} FilterDrops<T>(keep: T -> bool, s: seq<T>, x: T)
    requires x in s && !keep(x)
    ensures |Filter(keep, s)| < |s|
  {
    var n := |s| - 1;
    LastSplit(s);
    if s[n] == x {
      FilterMembers(keep, s[..n]);
    } else {
      FilterDrops(keep, s[..n], x);
    }
  }

  lemma {:induction false} FirstKept<T>(keep: T -> bool, s: seq<T>, k: nat)
    requires k < |s| && keep(s[k]) && Filter(keep, s[..k]) == []
    ensures Filter(keep, s) != [] && Filter(keep, s)[0] == s[k]
  {
    var n := |s| - 1;
    if k < n {
      assert s[..n][..k] == s[..k];
      FirstKept(keep, s[..n], k);
    }
  }

  lemma {:induction false} FilterSort<T(!new)>(less: (T, T) -> bool, keep: T -> bool, s: seq<T>)
    requires WeakOrderOn(less, s)
    ensures Filter(keep, SortBy(less, s)) == SortBy(less, Filter(keep, s))
  {
    if s != [] {
      var front, last := s[..|s| - 1], s[|s| - 1];
      LastSplit(s);
      FilterSort(less, keep, front);
      SortSorts(less, front);
      SortPermutes(less, front);
      assert forall y :: y in SortBy(less, front) + [last] ==> y in s;
      FilterInsert(less, keep, last, SortBy(less, front));
      if keep(last) {
        assert (Filter(keep, front) + [last])[..|Filter(keep, front)|] == Filter(keep, front);
      }
    }
  }

  lemma {:induction false} InsertHead<T(!new)>(less: (T, T) -> bool, x: T, s: seq<T>)
    requires Sorted(less, s) && WeakOrderOn(less, s + [x]) && s != []
    ensures |Insert(less, x, s)| == |s| + 1
    ensures Insert(less, x, s)[0] == if less(x, s[0]) then x else s[0]
  {
    var n := |s| - 1;
    if n > 0 && less(x, s[n]) {
      assert forall y :: y in s[..n] + [x] ==> y in s + [x];
      InsertHead(less, x, s[..n]);
    } else if n > 0 {
      assert s[0] in s + [x] && s[n] in s + [x] && x in s + [x];
    }
  }

  lemma {:induction false} SortHead<T(!new)>(less: (T, T) -> bool, s: seq<T>)
    requires WeakOrderOn(less, s) && s != []
    ensures |SortBy(less, s)| == |s|
    ensures SortBy(less, s)[0] == Least(less, s)
  {
    SortPermutes(less, s);
    var front, last := s[..|s| - 1], s[|s| - 1];
    LastSplit(s);
    if front != [] {
      SortHead(less, front);
      SortSorts(less, front);
      SortPermutes(less, front);
      assert forall y :: y in SortBy(less, front) + [last] ==> y in s;
      InsertHead(less, last, SortBy(less, front));
    } else {
      assert SortBy(less, front) == [];
    }
  }

  // ----- Least elements --------------------------------------------------------------------

  /** The least element is in the sequence and nothing there is below it. */
  lemma {:induction false} LeastIsLeast<T(!new)>(less: (T, T) -> bool, s: seq<T>)
    requires WeakOrderOn(less, s) && s != []
    ensures Least(less, s) in s
    ensures forall x :: x in s ==> !less(x, Least(less, s))
  {
    var n := |s| - 1;
    LastSplit(s);
    if n > 0 {
      LeastIsLeast(less, s[..n]);
      var m := Least(less, s[..n]);
      forall x | x in s
        ensures !less(x, Least(less, s))
      {
        assert m in s && s[n] in s;
        assert x in s[..n] || x == s[n];
      }
    }
  }

  /** A filter that keeps the least element keeps it least. */
  lemma {:induction false} LeastSurvives<T(!new)>(less: (T, T) -> bool, keep: T -> bool, s: seq<T>)
    requires WeakOrderOn(less, s) && s != [] && keep(Least(less, s))
    ensures Filter(keep, s) != [] && Least(less, Filter(keep, s)) == Least(less, s)
  {
    var n := |s| - 1;
    LastSplit(s);
    if n > 0 {
      var front := s[..n];
      var kept := Filter(keep, front);
      var m := Least(less, front);
      LeastIsLeast(less, front);
      FilterMembers(keep, front);
      assert forall x :: x in kept ==> x in s;
      assert m in s && s[n] in s;
      if less(s[n], m) {
        if kept != [] {
          LeastIsLeast(less, kept);
          assert less(s[n], Least(less, kept));
        }
      } else {
        LeastSurvives(less, keep, front);
      }
      assert keep(s[n]) ==> (kept + [s[n]])[..|kept|] == kept;
    } else {
      assert s[..n] == [];
    }
  }

  // ----- Uniqueness ------------------------------------------------------------------------

  /** A sorted sequence ends in an element that is below no other. */
  lemma LastIsTop<T(!new)>(less: (T, T) -> bool, s: seq<T>, x: T)
    requires Sorted(less, s) && s != [] && x in multiset(s)
    ensures x == s[|s| - 1] || !less(s[|s| - 1], x)
  {
    var i :| 0 <= i < |s| && s[i] == x;
  }

  lemma SameTop<T(!new)>(less: (T, T) -> bool, s: seq<T>, t: seq<T>)
    requires Sorted(less, s) && Sorted(less, t) && TotalOn(less, s)
    requires multiset(s) == multiset(t) && |s| == |t| > 0
    ensures s[|s| - 1] == t[|t| - 1]
  {
    var n := |s| - 1;
    assert s[n] in multiset(s) && t[n] in multiset(t);
    LastIsTop(less, s, t[n]);
    LastIsTop(less, t, s[n]);
    assert t[n] in s;
  }

  lemma DropTop<T>(s: seq<T>, t: seq<T>)
    requires multiset(s) == multiset(t) && |s| == |t| > 0 && s[|s| - 1] == t[|t| - 1]
    ensures multiset(s[..|s| - 1]) == multiset(t[..|t| - 1])
  {
    LastSplit(s);
    LastSplit(t);
    assert multiset(s[..|s| - 1]) == multiset(s) - multiset{s[|s| - 1]} == multiset(t[..|t| - 1]);
  }

  lemma {:induction false} SortedUnique<T(!new)>(less: (T, T) -> bool, s: seq<T>, t: seq<T>)
    requires Sorted(less, s) && Sorted(less, t) && TotalOn(less, s)
    requires multiset(s) == multiset(t)
    ensures s == t
  {
    assert |multiset(s)| == |s| && |multiset(t)| == |t|;
    if s != [] {
      var n := |s| - 1;
      var front, back := s[..n], t[..n];
      SameTop(less, s, t);
      DropTop(s, t);
      LastSplit(s);
      LastSplit(t);
      assert TotalOn(less, front) by {
        assert forall x :: x in front ==> x in s;
      }
      SortedUnique(less, front, back);
    }
  }

  /** A total order makes the sorted sequence independent of the input order. */
  lemma SortUnique<T(!new)>(less: (T, T) -> bool, s: seq<T>, t: seq<T>)
    requires WeakOrderOn(less, s) && TotalOn(less, s) && multiset(s) == multiset(t)
    ensures SortBy(less, s) == SortBy(less, t)
  {
    assert forall x :: x in t <==> x in multiset(t);
    assert forall x :: x in s <==> x in multiset(s);
    assert WeakOrderOn(less, t);
    SortSorts(less, s);
    SortSorts(less, t);
    SortPermutes(less, s);
    SortPermutes(less, t);
    SortedUnique(less, SortBy(less, s), SortBy(less, t));
  }

  // ----- Mapping ---------------------------------------------------------------------------

  function Map<T, U>(f: T -> U, s: seq<T>): (mapped: seq<U>)
    ensures |mapped| == |s|
    ensures forall i :: 0 <= i < |s| ==> mapped[i] == f(s[i])
  {
    seq(|s|, i requires 0 <= i < |s| => f(s[i]))
  }

  lemma MapAppend<T, U>(f: T -> U, s: seq<T>, t: seq<T>)
    ensures Map(f, s + t) == Map(f, s) + Map(f, t)
  {
  }

  function Without<T>(s: seq<T>, i: nat): seq<T>
    requires i < |s|
  {
    s[..i] + s[i + 1..]
  }

  lemma WithoutMultiset<T>(s: seq<T>, i: nat)
    requires i < |s|
    ensures multiset(Without(s, i)) == multiset(s) - multiset{s[i]}
    ensures multiset(Without(s, i)) + multiset{s[i]} == multiset(s)
  {
    var a, b := s[..i], s[i + 1..];
    assert s == a + [s[i]] + b;
    assert multiset(a + [s[i]]) == multiset(a) + multiset{s[i]};
    assert multiset(a + [s[i]] + b) == multiset(a + [s[i]]) + multiset(b);
    assert multiset(a + b) == multiset(a) + multiset(b);
  }

  lemma MapWithout<T, U>(f: T -> U, s: seq<T>, i: nat)
    requires i < |s|
    ensures Map(f, Without(s, i)) == Without(Map(f, s), i)
  {
  }

  lemma MapPermutesStep<T, U>(f: T -> U, s: seq<T>, i: nat, t: seq<T>, j: nat)
    requires i < |s| && j < |t| && s[i] == t[j]
    requires multiset(Map(f, Without(s, i))) == multiset(Map(f, Without(t, j)))
    ensures multiset(Map(f, s)) == multiset(Map(f, t))
  {
    MapWithout(f, s, i);
    MapWithout(f, t, j);
    WithoutMultiset(Map(f, s), i);
    WithoutMultiset(Map(f, t), j);
  }

  lemma IndexIn<T>(s: seq<T>, x: T) returns (i: nat)
    requires x in multiset(s)
    ensures i < |s| && s[i] == x
  {
    i :| 0 <= i < |s| && s[i] == x;
  }

  /** The elements of a mapped sequence depend on the elements only, not on their order. */
  lemma {:induction false} MapPermutes<T, U>(f: T -> U, s: seq<T>, t: seq<T>)
    requires multiset(s) == multiset(t)
    ensures multiset(Map(f, s)) == multiset(Map(f, t))
  {
    assert |multiset(s)| == |s| && |multiset(t)| == |t|;
    if s != [] {
      WithoutMultiset(s, 0);
      var j := IndexIn(t, s[0]);
      WithoutMultiset(t, j);
      MapPermutes(f, Without(s, 0), Without(t, j));
      MapPermutesStep(f, s, 0, t, j);
    }
  }

  /** `f` carries one order to the other on the elements of `s`. */
  ghost predicate Carries<T(!new), U>(f: T -> U, lessT: (T, T) -> bool, lessU: (U, U) -> bool, s: seq<T>) {
    forall a, b :: a in s && b in s ==> lessT(a, b) == lessU(f(a), f(b))
  }

  lemma CarriesSorted<T(!new), U>(f: T -> U, lessT: (T, T) -> bool, lessU: (U, U) -> bool, s: seq<T>)
    requires Carries(f, lessT, lessU, s) && s != []
    ensures var n := |s| - 1;
            forall b :: b in SortBy(lessT, s[..n]) ==> lessT(s[n], b) == lessU(f(s[n]), f(b))
  {
    SortPermutes(lessT, s[..|s| - 1]);
    assert forall x :: x in s[..|s| - 1] ==> x in s;
  }

  /** Sorting by a key and taking keys, in either order. */
  lemma {:induction false} MapSort<T(!new), U>(f: T -> U, lessT: (T, T) -> bool, lessU: (U, U) -> bool, s: seq<T>)
    requires Carries(f, lessT, lessU, s)
    ensures Map(f, SortBy(lessT, s)) == SortBy(lessU, Map(f, s))
  {
    if s != [] {
      var n := |s| - 1;
      var front := s[..n];
      LastSplit(s);
      assert Carries(f, lessT, lessU, front) by {
        assert forall x :: x in front ==> x in s;
      }
      MapSort(f, lessT, lessU, front);
      CarriesSorted(f, lessT, lessU, s);
      MapInsert(f, lessT, lessU, s[n], SortBy(lessT, front));
      assert Map(f, s)[..n] == Map(f, front);
    }
  }

  lemma {:induction false} MapInsert<T, U>(f: T -> U, lessT: (T, T) -> bool, lessU: (U, U) -> bool, x: T, s: seq<T>)
    requires forall b :: b in s ==> lessT(x, b) == lessU(f(x), f(b))
    ensures Map(f, Insert(lessT, x, s)) == Insert(lessU, f(x), Map(f, s))
  {
    if s != [] {
      var n := |s| - 1;
      LastSplit(s);
      MapInsert(f, lessT, lessU, x, s[..n]);
      assert Map(f, s)[..n] == Map(f, s[..n]);
      MapAppend(f, Insert(lessT, x, s[..n]), [s[n]]);
      MapAppend(f, s, [x]);
    } else {
      assert Map(f, [x]) == [f(x)];
    }
  }

  // ----- Walking a set in some order -------------------------------------------------------

  /** `keys` lists every element once, as one run of a range loop over a map does. */
  ghost predicate Enumerates<T(!new)>(keys: seq<T>, elements: set<T>) {
    && (forall i, j :: 0 <= i < j < |keys| ==> keys[i] != keys[j])
    && (forall key :: key in keys <==> key in elements)
  }

  /** One more step of the walk. */
  lemma EnumeratesMore<T(!new)>(keys: seq<T>, elements: set<T>, remaining: set<T>, key: T)
    requires remaining <= elements && key in remaining && Enumerates(keys, elements - remaining)
    ensures Enumerates(keys + [key], elements - (remaining - {key}))
  {
  }

  lemma SameElements<T(!new)>(left: seq<T>, right: seq<T>, elements: set<T>)
    requires Enumerates(left, elements) && Enumerates(right, elements)
    ensures multiset(left) == multiset(right)
  {
    OncePerKey(left);
    OncePerKey(right);
    assert forall key :: key in multiset(left) <==> key in left;
    assert forall key :: key in multiset(right) <==> key in right;
  }

  lemma {:induction false} OncePerKey<T(!new)>(keys: seq<T>)
    requires forall i, j :: 0 <= i < j < |keys| ==> keys[i] != keys[j]
    ensures forall key :: key in keys ==> multiset(keys)[key] == 1
  {
    if keys != [] {
      var n := |keys| - 1;
      OncePerKey(keys[..n]);
      LastSplit(keys);
      assert keys[n] !in keys[..n];
      assert keys[n] !in multiset(keys[..n]);
    }
  }

  lemma LexIsOrder(s: seq<string>)
    ensures WeakOrderOn(LexLess, s) && TotalOn(LexLess, s)
  {
    forall a, b {:trigger LexLess(a, b)} ensures !(LexLess(a, b) && LexLess(b, a)) && (a != b ==> LexLess(a, b) || LexLess(b, a)) {
      LexLessTotal(a, b);
    }
    forall a, b, c | a in s && b in s && c in s && !LexLess(a, b) && !LexLess(b, c) ensures !LexLess(a, c) {
      LexLessTotal(a, b);
      LexLessTotal(b, c);
      LexLessTotal(a, c);
      if a != b && b != c {
        LexLessTransitive(c, b, a);
      }
    }
  }
}

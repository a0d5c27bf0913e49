/**
 Sequence vocabulary shared by the other modules: options and results, filtering, and the
 contract of a stable sort, which is how libcoap orders the options of a message
 (section 3.1 of RFC 7252).
 */
module Sequences {
  datatype Option<+T> = None | Some(value: T)

  datatype Result<+T, +E> = Ok(value: T) | Err(error: E)

  function OptionToSeq<T>(o: Option<T>): (r: seq<T>)
    ensures |r| <= 1
  {
    if o.Some? then [o.value] else []
  }

  /** The in-order subsequence of `s` satisfying `p`. */
  function Filter<T>(s: seq<T>, p: T -> bool): (r: seq<T>)
    ensures |r| <= |s|
  {
    if s == [] then [] else
    var rest := Filter(s[..|s| - 1], p);
    if p(s[|s| - 1]) then rest + [s[|s| - 1]] else rest
  }

  lemma {:induction false} FilterMembers<T>(s: seq<T>, p: T -> bool)
    ensures forall x :: x in Filter(s, p) ==> x in s && p(x)
    ensures forall x :: x in s && p(x) ==> x in Filter(s, p)
  {
    if s != [] {
      FilterMembers(s[..|s| - 1], p);
      assert s == s[..|s| - 1] + [s[|s| - 1]];
    }
  }

  lemma FilterSnoc<T>(s: seq<T>, x: T, p: T -> bool)
    ensures Filter(s + [x], p) == Filter(s, p) + (if p(x) then [x] else [])
  {
    assert (s + [x])[..|s|] == s;
  }

  lemma {:induction false} FilterConcat<T>(a: seq<T>, b: seq<T>, p: T -> bool)
    ensures Filter(a + b, p) == Filter(a, p) + Filter(b, p)
  {
    if b == [] {
      assert a + b == a;
    } else {
      var init, last := b[..|b| - 1], b[|b| - 1];
      FilterConcat(a, init, p);
      assert a + b == (a + init) + [last];
      FilterSnoc(a + init, last, p);
    }
  }

  lemma {:induction false} FilterShrinks<T>(s: seq<T>, p: T -> bool)
    ensures |Filter(s, p)| <= |s|
  {
    if s != [] {
      FilterShrinks(s[..|s| - 1], p);
    }
  }

  /** A filter that keeps everything, or nothing, of a sequence. */
  lemma {:induction false} FilterAllOrNone<T>(s: seq<T>, p: T -> bool)
    ensures (forall x :: x in s ==> p(x)) ==> Filter(s, p) == s
    ensures (forall x :: x in s ==> !p(x)) ==> Filter(s, p) == []
  {
    if s != [] {
      FilterAllOrNone(s[..|s| - 1], p);
      assert s == s[..|s| - 1] + [s[|s| - 1]];
    }
  }

  /** Filtering in two stages when one predicate implies the other. */
  lemma {:induction false} FilterNarrow<T>(s: seq<T>, wide: T -> bool, narrow: T -> bool)
    requires forall x :: x in s && narrow(x) ==> wide(x)
    ensures Filter(Filter(s, wide), narrow) == Filter(s, narrow)
  {
    if s != [] {
      var init, last := s[..|s| - 1], s[|s| - 1];
      assert s == init + [last];
      FilterNarrow(init, wide, narrow);
      FilterSnoc(Filter(init, wide), last, narrow);
    }
  }

  lemma {:induction false} FilterCommutes<T>(s: seq<T>, p: T -> bool, q: T -> bool)
    ensures Filter(Filter(s, p), q) == Filter(Filter(s, q), p)
  {
    if s != [] {
      var init, last := s[..|s| - 1], s[|s| - 1];
      FilterCommutes(init, p, q);
      FilterSnoc(Filter(init, p), last, q);
      FilterSnoc(Filter(init, q), last, p);
    }
  }

  /** Multiplicity survives a filter exactly for the elements it keeps. */
  lemma {:induction false} FilterMultiplicity<T>(s: seq<T>, p: T -> bool, x: T)
    ensures multiset(Filter(s, p))[x] == if p(x) then multiset(s)[x] else 0
  {
    if s != [] {
      FilterMultiplicity(s[..|s| - 1], p, x);
      assert s == s[..|s| - 1] + [s[|s| - 1]];
    }
  }

  // ---------------------------------------------------------------- stable sorting

  function KeyIs<T>(key: T -> int, n: int): T -> bool {
    x => key(x) == n
  }

  ghost predicate Sorted<T>(key: T -> int, s: seq<T>) {
    forall i, j :: 0 <= i < j < |s| ==> key(s[i]) <= key(s[j])
  }

  /**
   `t` is `s` stably sorted by `key`: ascending, and for every key the elements carrying it
   are the same, in the same order.
   */
  ghost predicate IsStableSort<T(!new)>(key: T -> int, s: seq<T>, t: seq<T>) {
    && Sorted(key, t)
    && forall n :: Filter(t, KeyIs(key, n)) == Filter(s, KeyIs(key, n))
  }

  lemma StableSortSameElements<T(!new)>(key: T -> int, s: seq<T>, t: seq<T>)
    requires IsStableSort(key, s, t)
    ensures forall x :: x in s <==> x in t
  {
    forall x
      ensures x in s <==> x in t
    {
      FilterMembers(s, KeyIs(key, key(x)));
      FilterMembers(t, KeyIs(key, key(x)));
    }
  }

  lemma StableSortSameMultiset<T(!new)>(key: T -> int, s: seq<T>, t: seq<T>)
    requires IsStableSort(key, s, t)
    ensures multiset(s) == multiset(t)
  {
    forall x
      ensures multiset(s)[x] == multiset(t)[x]
    {
      FilterMultiplicity(s, KeyIs(key, key(x)), x);
      FilterMultiplicity(t, KeyIs(key, key(x)), x);
    }
  }

  lemma {:induction false} FilterSorted<T>(key: T -> int, s: seq<T>, p: T -> bool)
    requires Sorted(key, s)
    ensures Sorted(key, Filter(s, p))
  {
    if s != [] {
      var init := s[..|s| - 1];
      FilterSorted(key, init, p);
      FilterMembers(init, p);
      forall x | x in Filter(init, p)
        ensures key(x) <= key(s[|s| - 1])
      {
        assert x in init;
      }
    }
  }

  /** Filtering a stable sort gives the stable sort of the filtered list. */
  lemma FilterOfStableSort<T(!new)>(key: T -> int, s: seq<T>, t: seq<T>, p: T -> bool)
    requires IsStableSort(key, s, t)
    ensures IsStableSort(key, Filter(s, p), Filter(t, p))
  {
    FilterSorted(key, t, p);
    forall n
      ensures Filter(Filter(t, p), KeyIs(key, n)) == Filter(Filter(s, p), KeyIs(key, n))
    {
      FilterCommutes(t, p, KeyIs(key, n));
      FilterCommutes(s, p, KeyIs(key, n));
    }
  }

  /** A predicate that fixes the key cannot see the effect of a stable sort. */
  lemma StableSortInvisible<T(!new)>(key: T -> int, s: seq<T>, t: seq<T>, p: T -> bool, n: int)
    requires IsStableSort(key, s, t)
    requires forall x :: p(x) ==> key(x) == n
    ensures Filter(t, p) == Filter(s, p)
  {
    FilterNarrow(s, KeyIs(key, n), p);
    FilterNarrow(t, KeyIs(key, n), p);
  }

  /** Insertion at the last position that keeps the order, the effect of a stable list sort. */
  function InsertStable<T>(key: T -> int, s: seq<T>, x: T): seq<T> {
    if s == [] || key(s[|s| - 1]) <= key(x) then s + [x]
    else InsertStable(key, s[..|s| - 1], x) + [s[|s| - 1]]
  }

  function StableSort<T>(key: T -> int, s: seq<T>): seq<T> {
    if s == [] then [] else InsertStable(key, StableSort(key, s[..|s| - 1]), s[|s| - 1])
  }

  lemma SortedSnoc<T>(key: T -> int, s: seq<T>, x: T)
    requires Sorted(key, s) && forall y :: y in s ==> key(y) <= key(x)
    ensures Sorted(key, s + [x])
  {
    forall i, j | 0 <= i < j < |s + [x]|
      ensures key((s + [x])[i]) <= key((s + [x])[j])
    {
      assert s[i] in s;
    }
  }

  lemma {:induction false} InsertStableSorted<T>(key: T -> int, s: seq<T>, x: T)
    requires Sorted(key, s)
    ensures Sorted(key, InsertStable(key, s, x))
    ensures forall y :: y in InsertStable(key, s, x) ==> y in s || y == x
  {
    if s != [] && key(s[|s| - 1]) > key(x) {
      InsertStableSorted(key, s[..|s| - 1], x);
      SortedSnoc(key, InsertStable(key, s[..|s| - 1], x), s[|s| - 1]);
    } else {
      SortedSnoc(key, s, x);
    }
  }

  lemma {:induction false} InsertStableFilter<T>(key: T -> int, s: seq<T>, x: T, n: int)
    ensures Filter(InsertStable(key, s, x), KeyIs(key, n)) == Filter(s, KeyIs(key, n)) + Filter([x], KeyIs(key, n))
  {
    FilterConcat(s, [x], KeyIs(key, n));
    if s != [] && key(s[|s| - 1]) > key(x) {
      InsertStableFilter(key, s[..|s| - 1], x, n);
      FilterSnoc(InsertStable(key, s[..|s| - 1], x), s[|s| - 1], KeyIs(key, n));
    }
  }

  /** The contract can be met: insertion sort meets it. */
  lemma {:induction false} StableSortExists<T(!new)>(key: T -> int, s: seq<T>)
    ensures IsStableSort(key, s, StableSort(key, s))
  {
    if s != [] {
      var init, last := s[..|s| - 1], s[|s| - 1];
      var t := StableSort(key, init);
      StableSortExists(key, init);
      InsertStableSorted(key, t, last);
      forall n
        ensures Filter(StableSort(key, s), KeyIs(key, n)) == Filter(s, KeyIs(key, n))
      {
        InsertStableFilter(key, t, last, n);
        FilterSnoc([], last, KeyIs(key, n));
      }
    }
  }

  /** Taking away an equal last element takes it from every filtered view alike. */
  lemma FilterDropLast<T>(t: seq<T>, u: seq<T>, p: T -> bool)
    requires t != [] && u != [] && Filter(t, p) == Filter(u, p)
    requires p(t[|t| - 1]) <==> p(u[|u| - 1])
    ensures Filter(t[..|t| - 1], p) == Filter(u[..|u| - 1], p)
    ensures p(t[|t| - 1]) ==> t[|t| - 1] == u[|u| - 1]
  {
    if p(t[|t| - 1]) {
      var a, b := Filter(t[..|t| - 1], p), Filter(u[..|u| - 1], p);
      assert (a + [t[|t| - 1]])[..|a|] == a && (b + [u[|u| - 1]])[..|b|] == b;
    }
  }

  lemma StableSortInit<T(!new)>(key: T -> int, t: seq<T>, u: seq<T>)
    requires t != [] && u != []
    requires Sorted(key, t) && IsStableSort(key, t, u)
    ensures t[|t| - 1] == u[|u| - 1]
    ensures IsStableSort(key, t[..|t| - 1], u[..|u| - 1])
  {
    var x, y := t[|t| - 1], u[|u| - 1];
    assert key(x) == key(y) by {
      StableSortSameElements(key, t, u);
      assert x in u && y in t;
    }
    FilterDropLast(t, u, KeyIs(key, key(x)));
    forall n
      ensures Filter(u[..|u| - 1], KeyIs(key, n)) == Filter(t[..|t| - 1], KeyIs(key, n))
    {
      FilterDropLast(t, u, KeyIs(key, n));
    }
  }

  /** The contract determines the result: a stable sort of a sorted list is that list. */
  lemma {:induction false} StableSortUnique<T(!new)>(key: T -> int, t: seq<T>, u: seq<T>)
    requires Sorted(key, t) && IsStableSort(key, t, u)
    ensures t == u
  {
    assert |t| == |u| by {
      StableSortSameMultiset(key, t, u);
      assert |t| == |multiset(t)| && |u| == |multiset(u)|;
    }
    if t != [] {
      StableSortInit(key, t, u);
      StableSortUnique(key, t[..|t| - 1], u[..|u| - 1]);
      assert t == t[..|t| - 1] + [t[|t| - 1]] && u == u[..|u| - 1] + [u[|u| - 1]];
    }
  }
}

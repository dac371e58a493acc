/** A stable sort by an arbitrary total preorder, standing for the source
    language's built-in `sorted`, with the facts its users rely on. */
module Sorting {

  ghost predicate TotalPreorder<T(!new)>(le: (T, T) -> bool) {
    && (forall a, b :: le(a, b) || le(b, a))
    && (forall a, b, c :: le(a, b) && le(b, c) ==> le(a, c))
  }

  lemma Total<T(!new)>(le: (T, T) -> bool, a: T, b: T)
    requires TotalPreorder(le)
    ensures le(a, b) || le(b, a)
  {
  }

  lemma Transitive<T(!new)>(le: (T, T) -> bool, a: T, b: T, c: T)
    requires TotalPreorder(le) && le(a, b) && le(b, c)
    ensures le(a, c)
  {
  }

  ghost predicate Sorted<T>(le: (T, T) -> bool, xs: seq<T>) {
    forall i, j :: 0 <= i < j < |xs| ==> le(xs[i], xs[j])
  }

  function Sort<T>(le: (T, T) -> bool, xs: seq<T>): seq<T> {
    if xs == [] then [] else Insert(le, Sort(le, xs[..|xs| - 1]), xs[|xs| - 1])
  }

  /** Places `x` after every element that may precede it. */
  function Insert<T>(le: (T, T) -> bool, xs: seq<T>, x: T): seq<T> {
    if xs == [] || le(xs[|xs| - 1], x) then xs + [x]
    else Insert(le, xs[..|xs| - 1], x) + [xs[|xs| - 1]]
  }

  lemma {:induction false} InsertIsSorted<T(!new)>(le: (T, T) -> bool, xs: seq<T>, x: T)
    requires TotalPreorder(le) && Sorted(le, xs)
    ensures Sorted(le, Insert(le, xs, x))
    ensures multiset(Insert(le, xs, x)) == multiset(xs) + multiset{x}
  {
    hide TotalPreorder;
    if xs != [] {
      var front, last := xs[..|xs| - 1], xs[|xs| - 1];
      if le(last, x) {
        forall i | 0 <= i < |xs|
          ensures le(xs[i], x)
        {
          if i < |front| { Transitive(le, xs[i], last, x); }
        }
      } else {
        assert xs == front + [last];
        Total(le, last, x);
        InsertIsSorted(le, front, x);
        var r := Insert(le, front, x);
        forall i | 0 <= i < |r|
          ensures le(r[i], last)
        {
          assert r[i] in multiset(r);
          assert r[i] in front || r[i] == x;
        }
      }
    }
  }

  /** The result is ordered, and has the same elements with the same multiplicities. */
  lemma {:induction false} SortIsSorted<T(!new)>(le: (T, T) -> bool, xs: seq<T>)
    requires TotalPreorder(le)
    ensures Sorted(le, Sort(le, xs)) && multiset(Sort(le, xs)) == multiset(xs)
    ensures |Sort(le, xs)| == |xs|
  {
    hide TotalPreorder;
    if xs != [] {
      var front := xs[..|xs| - 1];
      assert xs == front + [xs[|xs| - 1]];
      SortIsSorted(le, front);
      InsertIsSorted(le, Sort(le, front), xs[|xs| - 1]);
    }
    assert |multiset(Sort(le, xs))| == |multiset(xs)|;
  }

  function Filter<T>(c: T -> bool, xs: seq<T>): seq<T> {
    if xs == [] then []
    else Filter(c, xs[..|xs| - 1]) + if c(xs[|xs| - 1]) then [xs[|xs| - 1]] else []
  }

  lemma FilterSnoc<T>(c: T -> bool, xs: seq<T>, x: T)
    ensures Filter(c, xs + [x]) == Filter(c, xs) + if c(x) then [x] else []
  {
    assert (xs + [x])[..|xs|] == xs;
  }

  /** The order does not tell apart the elements of `xs` that satisfy `c`. */
  ghost predicate Alike<T>(le: (T, T) -> bool, c: T -> bool, xs: seq<T>) {
    forall i, j :: 0 <= i < |xs| && 0 <= j < |xs| && c(xs[i]) && c(xs[j]) ==> le(xs[i], xs[j])
  }

  lemma AlikePermuted<T>(le: (T, T) -> bool, c: T -> bool, xs: seq<T>, ys: seq<T>)
    requires Alike(le, c, xs) && multiset(ys) <= multiset(xs)
    ensures Alike(le, c, ys)
  {
    forall i | 0 <= i < |ys|
      ensures ys[i] in xs
    {
      assert ys[i] in multiset(ys);
    }
  }

  lemma AlikeSplit<T>(le: (T, T) -> bool, c: T -> bool, xs: seq<T>, x: T)
    requires xs != [] && Alike(le, c, xs + [x]) && !le(xs[|xs| - 1], x)
    ensures !(c(xs[|xs| - 1]) && c(x)) && Alike(le, c, xs[..|xs| - 1] + [x])
  {
    var front := xs[..|xs| - 1];
    assert (xs + [x])[|front|] == xs[|xs| - 1] && (xs + [x])[|xs|] == x;
    assert xs == front + [xs[|xs| - 1]];
    AlikePermuted(le, c, xs + [x], front + [x]);
  }

  lemma {:induction false} InsertIsStable<T>(le: (T, T) -> bool, c: T -> bool, xs: seq<T>, x: T)
    requires Alike(le, c, xs + [x])
    ensures Filter(c, Insert(le, xs, x)) == Filter(c, xs + [x])
  {
    hide Alike;
    FilterSnoc(c, xs, x);
    if xs != [] && !le(xs[|xs| - 1], x) {
      var front, last := xs[..|xs| - 1], xs[|xs| - 1];
      AlikeSplit(le, c, xs, x);
      InsertIsStable(le, c, front, x);
      FilterSnoc(c, Insert(le, front, x), last);
      FilterSnoc(c, front, x);
    }
  }

  /** Elements that the order does not tell apart keep their relative order. */
  lemma {:induction false} SortIsStable<T(!new)>(le: (T, T) -> bool, c: T -> bool, xs: seq<T>)
    requires TotalPreorder(le) && Alike(le, c, xs)
    ensures Filter(c, Sort(le, xs)) == Filter(c, xs)
  {
    hide TotalPreorder, Alike, Sorted;
    if xs != [] {
      var front, last := xs[..|xs| - 1], xs[|xs| - 1];
      var s := Sort(le, front);
      assert xs == front + [last];
      AlikePermuted(le, c, xs, front);
      SortIsStable(le, c, front);
      SortIsSorted(le, front);
      assert multiset(s + [last]) == multiset(xs);
      AlikePermuted(le, c, xs, s + [last]);
      InsertIsStable(le, c, s, last);
      FilterSnoc(c, s, last);
      FilterSnoc(c, front, last);
    }
  }

  ghost predicate Antisymmetric<T(!new)>(le: (T, T) -> bool) {
    forall a, b :: le(a, b) && le(b, a) ==> a == b
  }

  lemma SameLast<T(!new)>(le: (T, T) -> bool, xs: seq<T>, ys: seq<T>)
    requires Antisymmetric(le) && Sorted(le, xs) && Sorted(le, ys)
    requires xs != [] && ys != [] && multiset(xs) == multiset(ys)
    ensures xs[|xs| - 1] == ys[|ys| - 1]
  {
    var x, y := xs[|xs| - 1], ys[|ys| - 1];
    assert y in multiset(xs) && x in multiset(ys);
    var i :| 0 <= i < |xs| && xs[i] == y;
    var j :| 0 <= j < |ys| && ys[j] == x;
    assert x == y || (le(y, x) && le(x, y));
  }

  lemma DropLast<T>(le: (T, T) -> bool, xs: seq<T>)
    requires xs != [] && Sorted(le, xs)
    ensures Sorted(le, xs[..|xs| - 1])
    ensures multiset(xs[..|xs| - 1]) == multiset(xs) - multiset{xs[|xs| - 1]}
  {
    assert xs == xs[..|xs| - 1] + [xs[|xs| - 1]];
  }

  /** With an antisymmetric order the sorted arrangement is unique. */
  lemma {:induction false} SortedIsUnique<T(!new)>(le: (T, T) -> bool, xs: seq<T>, ys: seq<T>)
    requires Antisymmetric(le) && Sorted(le, xs) && Sorted(le, ys)
    requires multiset(xs) == multiset(ys)
    ensures xs == ys
  {
    hide Antisymmetric, Sorted;
    assert |multiset(xs)| == |xs| && |multiset(ys)| == |ys|;
    if xs != [] {
      SameLast(le, xs, ys);
      DropLast(le, xs);
      DropLast(le, ys);
      SortedIsUnique(le, xs[..|xs| - 1], ys[..|ys| - 1]);
      assert xs == xs[..|xs| - 1] + [xs[|xs| - 1]];
    }
  }
}

/** Sequences without duplicates, their members, and their reversal. */
module Sequences {
  predicate Distinct<T(==)>(s: seq<T>) {
    forall i, j :: 0 <= i < j < |s| ==> s[i] != s[j]
  }

  ghost function Members<T>(s: seq<T>): set<T> {
    set x | x in s
  }

  /** The elements of `xs` with property `p`, in order, are `ys`: `at` says where they stand. */
  ghost predicate SelectsAt<T>(p: T -> bool, xs: seq<T>, ys: seq<T>, at: seq<nat>) {
    && |at| == |ys|
    && (forall j, k :: 0 <= j < k < |at| ==> at[j] < at[k])
    && (forall j :: 0 <= j < |at| ==> at[j] < |xs| && ys[j] == xs[at[j]])
    && (forall i :: 0 <= i < |xs| ==> (p(xs[i]) <==> i in at))
  }

  ghost predicate Selects<T>(p: T -> bool, xs: seq<T>, ys: seq<T>) {
    exists at :: SelectsAt(p, xs, ys, at)
  }

  lemma SelectsNone<T>(p: T -> bool)
    ensures Selects(p, [], [])
  {
    var none: seq<nat> := [];
    assert SelectsAt(p, [], [], none);
  }

  lemma SelectsSnoc<T>(p: T -> bool, xs: seq<T>, ys: seq<T>, x: T)
    requires Selects(p, xs, ys)
    ensures Selects(p, xs + [x], if p(x) then ys + [x] else ys)
  {
    var at: seq<nat> :| SelectsAt(p, xs, ys, at);
    if p(x) {
      var more := at + [|xs|];
      forall i | 0 <= i < |xs|
        ensures i in at <==> i in more
      {
      }
      assert more[|at|] == |xs|;
      assert SelectsAt(p, xs + [x], ys + [x], more);
    } else {
      assert SelectsAt(p, xs + [x], ys, at);
    }
  }

  function Reverse<T>(s: seq<T>): seq<T> {
    if s == [] then [] else [s[|s| - 1]] + Reverse(s[..|s| - 1])
  }

  lemma {:induction false} ReverseAt<T>(s: seq<T>, k: nat)
    requires k < |s|
    ensures |Reverse(s)| == |s| && Reverse(s)[k] == s[|s| - 1 - k]
  {
    if |s| > 1 {
      ReverseAt(s[..|s| - 1], if k > 0 then k - 1 else 0);
    }
  }
}

/** Subsequences: what is left of a sequence after some elements were taken out. */
module Sequences {

  predicate Subsequence<T(==)>(a: seq<T>, b: seq<T>) {
    a == [] ||
    (b != [] &&
     if a[|a| - 1] == b[|b| - 1] then Subsequence(a[..|a| - 1], b[..|b| - 1]) else Subsequence(a, b[..|b| - 1]))
  }

  lemma {:induction false} SubsequenceLength<T>(a: seq<T>, b: seq<T>)
    requires Subsequence(a, b)
    ensures |a| <= |b|
    ensures |a| == |b| ==> a == b
  {
    if a != [] {
      var c := b[..|b| - 1];
      if a[|a| - 1] == b[|b| - 1] {
        SubsequenceLength(a[..|a| - 1], c);
        assert a == a[..|a| - 1] + [a[|a| - 1]] && b == c + [b[|b| - 1]];
      } else {
        SubsequenceLength(a, c);
      }
    }
  }

  /** Taking away the last element of a subsequence leaves a subsequence. */
  lemma {:induction false} SubsequenceInit<T>(a: seq<T>, b: seq<T>)
    requires Subsequence(a, b) && a != []
    ensures Subsequence(a[..|a| - 1], b)
  {
    var init := a[..|a| - 1];
    if init != [] {
      var c := b[..|b| - 1];
      if a[|a| - 1] == b[|b| - 1] {
        if init[|init| - 1] == b[|b| - 1] {
          SubsequenceInit(init, c);
        }
      } else {
        SubsequenceInit(a, c);
        if init[|init| - 1] == b[|b| - 1] {
          SubsequenceInit(init, c);
        }
      }
    }
  }

  lemma SubsequenceExtend<T>(a: seq<T>, b: seq<T>, x: T)
    requires Subsequence(a, b)
    ensures Subsequence(a + [x], b + [x])
  {
    assert (a + [x])[..|a|] == a && (b + [x])[..|b|] == b;
  }
}

/** Order-preserving filtering of sequences, the shape of every `filter` in the game. */
module Seqs {

  /** The elements of `s` that satisfy `keep`, in their original order. */
  function Filter<T>(s: seq<T>, keep: T -> bool): (r: seq<T>)
    ensures |r| <= |s|
    ensures forall x | x in r :: x in s && keep(x)
  {
    if s == [] then []
    else
      var init := Filter(s[..|s| - 1], keep);
      if keep(s[|s| - 1]) then init + [s[|s| - 1]] else init
  }

  /** How many elements of `s` fail `keep`, i.e. how many `Filter` drops. */
  function Rejected<T>(s: seq<T>, keep: T -> bool): (n: nat)
    ensures n <= |s|
  {
    if s == [] then 0
    else Rejected(s[..|s| - 1], keep) + (if keep(s[|s| - 1]) then 0 else 1)
  }

  /** `a` can be obtained from `b` by deleting elements: same elements, same relative order. */
  ghost predicate IsSubsequence<T>(a: seq<T>, b: seq<T>)
    decreases |b|
  {
    if a == [] then true
    else if b == [] then false
    else (a[|a| - 1] == b[|b| - 1] && IsSubsequence(a[..|a| - 1], b[..|b| - 1]))
         || IsSubsequence(a, b[..|b| - 1])
  }

  /** Filtering an extended sequence filters the prefix and then the new element. */
  lemma FilterSnoc<T>(s: seq<T>, x: T, keep: T -> bool)
    ensures Filter(s + [x], keep) == Filter(s, keep) + (if keep(x) then [x] else [])
    ensures Rejected(s + [x], keep) == Rejected(s, keep) + (if keep(x) then 0 else 1)
  {
    assert (s + [x])[..|s|] == s;
  }

  /** An element survives the filter exactly when it was present and satisfies `keep`. */
  lemma {:induction false} FilterMembership<T>(s: seq<T>, keep: T -> bool, x: T)
    ensures x in Filter(s, keep) <==> x in s && keep(x)
  {
    if s != [] {
      var n := |s| - 1;
      FilterMembership(s[..n], keep, x);
      assert s == s[..n] + [s[n]];
    }
  }

  /** Every element is either kept or counted as rejected. */
  lemma {:induction false} FilterLength<T>(s: seq<T>, keep: T -> bool)
    ensures |Filter(s, keep)| + Rejected(s, keep) == |s|
  {
    if s != [] {
      FilterLength(s[..|s| - 1], keep);
    }
  }

  /** Filtering keeps the relative order of the survivors. */
  lemma {:induction false} FilterIsSubsequence<T>(s: seq<T>, keep: T -> bool)
    ensures IsSubsequence(Filter(s, keep), s)
  {
    if s != [] {
      var n := |s| - 1;
      var init := Filter(s[..n], keep);
      FilterIsSubsequence(s[..n], keep);
      if keep(s[n]) {
        var r := init + [s[n]];
        assert r[..|r| - 1] == init;
        assert r[|r| - 1] == s[n];
      }
    }
  }

  /** A filter that rejects nothing returns its input unchanged. */
  lemma {:induction false} FilterKeepingAll<T>(s: seq<T>, keep: T -> bool)
    requires forall i | 0 <= i < |s| :: keep(s[i])
    ensures Filter(s, keep) == s
    ensures Rejected(s, keep) == 0
  {
    if s != [] {
      var n := |s| - 1;
      FilterKeepingAll(s[..n], keep);
      assert s == s[..n] + [s[n]];
    }
  }

  /** A filter that keeps nothing drops every element. */
  lemma {:induction false} FilterKeepingNone<T>(s: seq<T>, keep: T -> bool)
    requires forall i | 0 <= i < |s| :: !keep(s[i])
    ensures Filter(s, keep) == []
    ensures Rejected(s, keep) == |s|
  {
    if s != [] {
      FilterKeepingNone(s[..|s| - 1], keep);
    }
  }
}

/** Order-preserving subsequences, the shape of every filtering step of the core. */
module Sequences {

  /** `r` is `s` with some elements left out and the rest in their original order. */
  predicate IsSubsequence<T(==)>(r: seq<T>, s: seq<T>)
    decreases |s|
  {
    if r == [] then true
    else if s == [] then false
    else (r[|r| - 1] == s[|s| - 1] && IsSubsequence(r[..|r| - 1], s[..|s| - 1]))
         || IsSubsequence(r, s[..|s| - 1])
  }

  /** Extending `s` at the end keeps, or extends, a subsequence of it. */
  lemma SubsequenceSnoc<T>(r: seq<T>, s: seq<T>, x: T)
    requires IsSubsequence(r, s)
    ensures IsSubsequence(r + [x], s + [x])
    ensures IsSubsequence(r, s + [x])
  {
    assert (r + [x])[..|r|] == r;
    assert (s + [x])[..|s|] == s;
  }

  /** The first `i + 1` elements of `s` hold `x` when the first `i` do or `s[i]` is `x`. */
  lemma PrefixSnocMember<T>(s: seq<T>, i: nat, x: T)
    requires i < |s|
    ensures x in s[..i + 1] <==> x in s[..i] || x == s[i]
  {
    assert s[..i + 1] == s[..i] + [s[i]];
  }

  /** A subsequence takes each element at most as often as the sequence has it. */
  lemma {:induction false} SubsequenceMultiset<T>(r: seq<T>, s: seq<T>)
    requires IsSubsequence(r, s)
    ensures multiset(r) <= multiset(s)
    decreases |s|
  {
    if r != [] {
      assert s == s[..|s| - 1] + [s[|s| - 1]];
      if r[|r| - 1] == s[|s| - 1] && IsSubsequence(r[..|r| - 1], s[..|s| - 1]) {
        SubsequenceMultiset(r[..|r| - 1], s[..|s| - 1]);
        assert r == r[..|r| - 1] + [r[|r| - 1]];
      } else {
        SubsequenceMultiset(r, s[..|s| - 1]);
      }
    }
  }

  /** The elements of `s` whose flag in `keep` is set, in their original order. */
  function Select<T>(s: seq<T>, keep: seq<bool>): (kept: seq<T>)
    requires |keep| == |s|
    ensures IsSubsequence(kept, s)
  {
    if s == [] then []
    else
      var p, x := s[..|s| - 1], s[|s| - 1];
      var rest := Select(p, keep[..|s| - 1]);
      assert s == p + [x];
      SubsequenceSnoc(rest, p, x);
      if keep[|s| - 1] then rest + [x] else rest
  }

  /** Selecting from one more element appends it when its flag is set. */
  lemma SelectSnoc<T>(s: seq<T>, keep: seq<bool>, i: nat)
    requires i < |s| == |keep|
    ensures Select(s[..i + 1], keep[..i + 1]) ==
            Select(s[..i], keep[..i]) + (if keep[i] then [s[i]] else [])
  {
    assert s[..i + 1][..i] == s[..i];
    assert keep[..i + 1][..i] == keep[..i];
  }

  /** Every flagged element is selected, and every selected element is a flagged
      one. */
  lemma {:induction false} SelectMembers<T>(s: seq<T>, keep: seq<bool>)
    requires |keep| == |s|
    ensures forall i :: 0 <= i < |s| && keep[i] ==> s[i] in Select(s, keep)
    ensures forall a :: a in Select(s, keep) ==> exists i :: 0 <= i < |s| && s[i] == a && keep[i]
  {
    if s != [] {
      var n := |s| - 1;
      var p, b := s[..n], keep[..n];
      SelectMembers(p, b);
      forall i | 0 <= i < n && keep[i] ensures s[i] in Select(s, keep) {
        assert p[i] == s[i] && b[i];
      }
      forall a | a in Select(s, keep)
        ensures exists i :: 0 <= i < |s| && s[i] == a && keep[i]
      {
        if a in Select(p, b) {
          var i :| 0 <= i < n && p[i] == a && b[i];
          assert s[i] == a && keep[i];
        } else {
          assert s[n] == a && keep[n];
        }
      }
    }
  }

  /** The position a selected element comes from. */
  lemma {:induction false} SelectWitness<T>(s: seq<T>, keep: seq<bool>, a: T) returns (i: nat)
    requires |keep| == |s|
    requires a in Select(s, keep)
    ensures i < |s| && s[i] == a && keep[i]
  {
    var n := |s| - 1;
    if keep[n] && a == s[n] {
      i := n;
    } else {
      i := SelectWitness(s[..n], keep[..n], a);
    }
  }

  /** With every flag set the whole sequence is selected. */
  lemma {:induction false} SelectAll<T>(s: seq<T>, keep: seq<bool>)
    requires |keep| == |s|
    requires forall i :: 0 <= i < |keep| ==> keep[i]
    ensures Select(s, keep) == s
  {
    if s != [] {
      SelectAll(s[..|s| - 1], keep[..|s| - 1]);
      assert s == s[..|s| - 1] + [s[|s| - 1]];
    }
  }

  /** The selection has one element per set flag. */
  lemma {:induction false} SelectCount<T>(s: seq<T>, keep: seq<bool>)
    requires |keep| == |s|
    ensures |Select(s, keep)| == Count(keep)
  {
    if s != [] {
      SelectCount(s[..|s| - 1], keep[..|s| - 1]);
    }
  }

  /** The number of set flags. */
  function Count(keep: seq<bool>): (n: nat)
    ensures n <= |keep|
  {
    if keep == [] then 0 else Count(keep[..|keep| - 1]) + (if keep[|keep| - 1] then 1 else 0)
  }
}

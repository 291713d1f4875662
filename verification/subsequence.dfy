/**
 Subsequences: `r` is obtained from `s` by deleting elements, keeping the order of the rest.
 The predicate matches greedily from the back, which is the shape in which the filters and
 the trade feed of this model grow their results (one element appended at a time).
 */
module Subsequence {

  predicate IsSubseq<T(==)>(r: seq<T>, s: seq<T>)
    decreases |s|
  {
    if |r| == 0 then true
    else if |s| == 0 then false
    else if r[|r| - 1] == s[|s| - 1] then IsSubseq(r[..|r| - 1], s[..|s| - 1])
    else IsSubseq(r, s[..|s| - 1])
  }

  /** Appending a matched element to both sides keeps the relation. */
  lemma SubseqSnoc<T>(r: seq<T>, s: seq<T>, x: T)
    requires IsSubseq(r, s)
    ensures IsSubseq(r + [x], s + [x])
  {
    assert (r + [x])[..|r|] == r;
    assert (s + [x])[..|s|] == s;
  }

  /** Dropping the last element of a subsequence leaves a subsequence. */
  lemma {:induction false} SubseqDropLast<T>(r: seq<T>, s: seq<T>)
    requires |r| > 0 && IsSubseq(r, s)
    ensures IsSubseq(r[..|r| - 1], s)
    decreases |s|, 0
  {
    var s' := s[..|s| - 1];
    assert s' + [s[|s| - 1]] == s;
    if r[|r| - 1] != s[|s| - 1] {
      SubseqDropLast(r, s');
    }
    SubseqExtend(r[..|r| - 1], s', s[|s| - 1]);
  }

  /** A subsequence of `s` is a subsequence of any extension of `s`. */
  lemma {:induction false} SubseqExtend<T>(r: seq<T>, s: seq<T>, x: T)
    requires IsSubseq(r, s)
    ensures IsSubseq(r, s + [x])
    decreases |s|, 1
  {
    assert (s + [x])[..|s|] == s;
    if |r| > 0 && r[|r| - 1] == x {
      SubseqDropLast(r, s);
    }
  }

  /** A subsequence takes no element more often than the sequence holds it. */
  lemma {:induction false} SubseqMultiset<T>(r: seq<T>, s: seq<T>)
    requires IsSubseq(r, s)
    ensures multiset(r) <= multiset(s)
    decreases |s|
  {
    if |r| > 0 {
      var s' := s[..|s| - 1];
      assert s == s' + [s[|s| - 1]];
      if r[|r| - 1] == s[|s| - 1] {
        var r' := r[..|r| - 1];
        assert r == r' + [r[|r| - 1]];
        SubseqMultiset(r', s');
      } else {
        SubseqMultiset(r, s');
      }
    }
  }
}

/**
 * Order-preserving filtering of sequences: the one operation behind Knockout's
 * `observableArray.remove(...)` and JavaScript's `Array.prototype.filter`.
 */
module Seqs {

  /** `a` can be obtained from `b` by deleting elements, keeping the rest in order. */
  predicate IsSubseq<T(==)>(a: seq<T>, b: seq<T>)
    decreases |b|
  {
    |a| == 0 ||
    (|b| > 0 && ((a[0] == b[0] && IsSubseq(a[1..], b[1..])) || IsSubseq(a, b[1..])))
  }

  /** Every sequence is a subsequence of itself. */
  lemma {:induction false} SubseqRefl<T>(s: seq<T>)
    ensures IsSubseq(s, s)
  {
    if |s| > 0 {
      SubseqRefl(s[1..]);
    }
  }

  /** The elements of `s` on which `keep` holds, in their original order. */
  function Filter<T(!new)>(keep: T -> bool, s: seq<T>): (r: seq<T>)
    ensures |r| <= |s|
    ensures forall x :: x in r <==> x in s && keep(x)
  {
    if |s| == 0 then []
    else if keep(s[0]) then [s[0]] + Filter(keep, s[1..])
    else Filter(keep, s[1..])
  }

  /** Filtering never reorders: the result is a subsequence of the input. */
  lemma {:induction false} FilterIsSubseq<T(!new)>(keep: T -> bool, s: seq<T>)
    ensures IsSubseq(Filter(keep, s), s)
  {
    if |s| > 0 {
      FilterIsSubseq(keep, s[1..]);
      if keep(s[0]) {
        assert Filter(keep, s)[1..] == Filter(keep, s[1..]);
      }
    }
  }

  /** Filtering distributes over concatenation; with the singleton cases this fixes
      the result completely, including its order. */
  lemma {:induction false} FilterConcat<T(!new)>(keep: T -> bool, a: seq<T>, b: seq<T>)
    ensures Filter(keep, a + b) == Filter(keep, a) + Filter(keep, b)
  {
    if |a| == 0 {
      assert a + b == b;
    } else {
      assert (a + b)[1..] == a[1..] + b;
      FilterConcat(keep, a[1..], b);
    }
  }

  /** A filter on which every element passes is the identity. */
  lemma {:induction false} FilterKeepsAll<T(!new)>(keep: T -> bool, s: seq<T>)
    requires forall i :: 0 <= i < |s| ==> keep(s[i])
    ensures Filter(keep, s) == s
  {
    if |s| > 0 {
      FilterKeepsAll(keep, s[1..]);
      assert [s[0]] + s[1..] == s;
    }
  }

  /** Two complementary filters split the input: their sizes add up, and together
      they hold every element exactly as often as the input does. */
  lemma {:induction false} FilterPartition<T(!new)>(keep: T -> bool, drop: T -> bool, s: seq<T>)
    requires forall x :: drop(x) == !keep(x)
    ensures multiset(Filter(keep, s)) + multiset(Filter(drop, s)) == multiset(s)
    ensures |Filter(keep, s)| + |Filter(drop, s)| == |s|
  {
    if |s| > 0 {
      FilterPartition(keep, drop, s[1..]);
      assert s == [s[0]] + s[1..];
      assert multiset(s) == multiset{s[0]} + multiset(s[1..]);
    }
  }

  /** Every element of a subsequence is an element of the whole. */
  lemma {:induction false} SubseqMembers<T>(a: seq<T>, b: seq<T>)
    requires IsSubseq(a, b)
    ensures forall x :: x in a ==> x in b
  {
    if |a| > 0 {
      if a[0] == b[0] && IsSubseq(a[1..], b[1..]) {
        SubseqMembers(a[1..], b[1..]);
        assert forall x :: x in a ==> x == a[0] || x in a[1..];
      } else {
        SubseqMembers(a, b[1..]);
      }
    }
  }

  /** Changing an element the filter drops into another one it drops does not
      change the result. */
  lemma {:induction false} FilterIgnoresDroppedSlot<T(!new)>(keep: T -> bool, s: seq<T>, k: nat, x: T)
    requires k < |s|
    requires !keep(s[k]) && !keep(x)
    ensures Filter(keep, s[k := x]) == Filter(keep, s)
  {
    if k > 0 {
      assert s[k := x][1..] == s[1..][k - 1 := x];
      FilterIgnoresDroppedSlot(keep, s[1..], k - 1, x);
    }
  }
}

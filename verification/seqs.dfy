/** Order-preserving selection from a sequence, the model of JavaScript's
    `Array.prototype.filter`, and the subsequence relation it establishes. */
module Seqs {

  /** `a` can be obtained from `b` by deleting elements, keeping the order of
      the rest.  Greedy matching from the left decides this exactly. */
  predicate IsSubsequence<T(==,!new)>(a: seq<T>, b: seq<T>)
    decreases |b|
  {
    |a| == 0 ||
    (|b| > 0 &&
     if a[0] == b[0] then IsSubsequence(a[1..], b[1..]) else IsSubsequence(a, b[1..]))
  }

  /** The elements of `s` that satisfy `f`, in their original order. */
  function Filter<T(==,!new)>(f: T -> bool, s: seq<T>): (r: seq<T>)
    ensures |r| <= |s|
    ensures forall x :: x in r <==> x in s && f(x)
    ensures IsSubsequence(r, s)
    ensures forall x :: multiset(r)[x] == if f(x) then multiset(s)[x] else 0
  {
    if |s| == 0 then []
    else
      assert s == [s[0]] + s[1..];
      if f(s[0]) then [s[0]] + Filter(f, s[1..])
      else Filter(f, s[1..])
  }

  /** A subsequence holds no element more often than the whole. */
  lemma {:induction false} SubsequenceCounts<T(!new)>(a: seq<T>, b: seq<T>)
    requires IsSubsequence(a, b)
    ensures multiset(a) <= multiset(b)
    decreases |b|
  {
    if |a| > 0 {
      assert b == [b[0]] + b[1..];
      if a[0] == b[0] {
        SubsequenceCounts(a[1..], b[1..]);
        assert a == [a[0]] + a[1..];
      } else {
        SubsequenceCounts(a, b[1..]);
      }
    }
  }

  /** The order and the multiplicities pin the filtered list down: a
      subsequence of `s` holding every element satisfying `f` as often as
      `s` does, and nothing else, is `Filter(f, s)`. */
  lemma {:induction false} FilterCharacterised<T(!new)>(f: T -> bool, s: seq<T>, a: seq<T>)
    requires IsSubsequence(a, s)
    requires forall x :: multiset(a)[x] == if f(x) then multiset(s)[x] else 0
    ensures a == Filter(f, s)
    decreases |s|
  {
    if |s| > 0 {
      var h := s[0];
      assert s == [h] + s[1..];
      if |a| > 0 {
        assert a == [a[0]] + a[1..];
      }
      if f(h) {
        assert multiset(a)[h] > 0;
        assert |a| > 0;
        if a[0] != h {
          SubsequenceCounts(a, s[1..]);
        }
        FilterCharacterised(f, s[1..], a[1..]);
      } else {
        assert h !in a;
        if |a| > 0 {
          assert a[0] != h;
        }
        FilterCharacterised(f, s[1..], a);
      }
    }
  }

  lemma {:induction false} SubsequenceReflexive<T(!new)>(a: seq<T>)
    ensures IsSubsequence(a, a)
    decreases |a|
  {
    if |a| > 0 {
      SubsequenceReflexive(a[1..]);
    }
  }

  /** Dropping the first element of a subsequence keeps it a subsequence. */
  lemma {:induction false} SubsequenceDropHead<T(!new)>(a: seq<T>, b: seq<T>)
    requires |a| > 0 && IsSubsequence(a, b)
    ensures IsSubsequence(a[1..], b)
    decreases |b|, 1
  {
    if a[0] == b[0] {
      SubsequenceExtend(a[1..], b);
    } else {
      SubsequenceDropHead(a, b[1..]);
      SubsequenceExtend(a[1..], b);
    }
  }

  /** A subsequence of the tail of `b` is a subsequence of `b`. */
  lemma {:induction false} SubsequenceExtend<T(!new)>(a: seq<T>, b: seq<T>)
    requires |b| > 0 && IsSubsequence(a, b[1..])
    ensures IsSubsequence(a, b)
    decreases |b|, 0
  {
    if |a| > 0 && a[0] == b[0] {
      SubsequenceDropHead(a, b[1..]);
    }
  }
}

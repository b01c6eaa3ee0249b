/** Small shared vocabulary: an optional value, and generic facts about
    filtering sequences that several handlers and client helpers rely on. */
module Basics {

  /** A value that may be missing (a JavaScript `undefined`/`null`). */
  datatype Option<+T> = None | Some(value: T)

  /** `Array.prototype.filter`: keep the elements satisfying `p`, in order. */
  function Filter<T(!new)>(p: T -> bool, s: seq<T>): (r: seq<T>)
    ensures |r| <= |s|
    ensures forall x :: x in r <==> x in s && p(x)
    decreases |s|
  {
    if |s| == 0 then []
    else if p(s[0]) then [s[0]] + Filter(p, s[1..])
    else Filter(p, s[1..])
  }

  /** `a` can be obtained from `b` by deleting elements; order is kept. */
  predicate IsSubseq<T(==)>(a: seq<T>, b: seq<T>)
    decreases |b|
  {
    if |a| == 0 then true
    else if |b| == 0 then false
    else (a[0] == b[0] && IsSubseq(a[1..], b[1..])) || IsSubseq(a, b[1..])
  }

  /** No element occurs twice. */
  predicate NoDup<T(==)>(s: seq<T>) {
    forall i, j :: 0 <= i < j < |s| ==> s[i] != s[j]
  }

  lemma {:induction false} FilterIsSubseq<T(!new)>(p: T -> bool, s: seq<T>)
    ensures IsSubseq(Filter(p, s), s)
    decreases |s|
  {
    if |s| > 0 {
      FilterIsSubseq(p, s[1..]);
      var r := Filter(p, s);
      if p(s[0]) {
        assert r[0] == s[0] && r[1..] == Filter(p, s[1..]);
      } else if |r| > 0 {
        assert r == Filter(p, s[1..]);
      }
    }
  }

  /** Each kept value keeps its multiplicity; each dropped value disappears. */
  lemma {:induction false} FilterCount<T(!new)>(p: T -> bool, s: seq<T>, x: T)
    ensures multiset(Filter(p, s))[x] == if p(x) then multiset(s)[x] else 0
    decreases |s|
  {
    if |s| > 0 {
      FilterCount(p, s[1..], x);
      assert s == [s[0]] + s[1..];
      assert multiset(s) == multiset{s[0]} + multiset(s[1..]);
    }
  }

  lemma {:induction false} FilterConcat<T(!new)>(p: T -> bool, a: seq<T>, b: seq<T>)
    ensures Filter(p, a + b) == Filter(p, a) + Filter(p, b)
    decreases |a|
  {
    if |a| > 0 {
      assert (a + b)[0] == a[0] && (a + b)[1..] == a[1..] + b;
      FilterConcat(p, a[1..], b);
    } else {
      assert a + b == b;
    }
  }

  /** Filtering with a predicate every element satisfies changes nothing. */
  lemma {:induction false} FilterKeepsAll<T(!new)>(p: T -> bool, s: seq<T>)
    requires forall x :: x in s ==> p(x)
    ensures Filter(p, s) == s
    decreases |s|
  {
    if |s| > 0 {
      FilterKeepsAll(p, s[1..]);
      assert s == [s[0]] + s[1..];
    }
  }

  /** Filtering depends only on the values of the predicate. */
  lemma {:induction false} FilterExt<T(!new)>(p: T -> bool, q: T -> bool, s: seq<T>)
    requires forall x :: p(x) == q(x)
    ensures Filter(p, s) == Filter(q, s)
    decreases |s|
  {
    if |s| > 0 {
      FilterExt(p, q, s[1..]);
    }
  }

  /** Filtering twice with the same predicate is filtering once. */
  lemma FilterIdempotent<T(!new)>(p: T -> bool, s: seq<T>)
    ensures Filter(p, Filter(p, s)) == Filter(p, s)
  {
  }

  lemma {:induction false} FilterKeepsNoDup<T(!new)>(p: T -> bool, s: seq<T>)
    requires NoDup(s)
    ensures NoDup(Filter(p, s))
    decreases |s|
  {
    if |s| > 0 {
      assert s == [s[0]] + s[1..];
      assert s[0] !in s[1..] by {
        forall k | 0 <= k < |s[1..]| ensures s[1..][k] != s[0] {
          assert s[1..][k] == s[k + 1];
        }
      }
      assert NoDup(s[1..]) by {
        forall i, j | 0 <= i < j < |s[1..]| ensures s[1..][i] != s[1..][j] {
          assert s[1..][i] == s[i + 1] && s[1..][j] == s[j + 1];
        }
      }
      FilterKeepsNoDup(p, s[1..]);
      if p(s[0]) {
        ConsNoDup(s[0], Filter(p, s[1..]));
      }
    }
  }

  lemma ConsNoDup<T(!new)>(x: T, t: seq<T>)
    requires x !in t && NoDup(t)
    ensures NoDup([x] + t)
  {
  }

  lemma SnocNoDup<T(!new)>(t: seq<T>, x: T)
    requires x !in t && NoDup(t)
    ensures NoDup(t + [x])
  {
  }
}

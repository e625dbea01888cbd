/** Filter, count and take over sequences: the pipelines the list endpoints and the
    live view are built from. */
module Seqs {

  /** The elements of `s` that satisfy `p`, in their original order
      (Python's filtering `for` loop, JavaScript's `Array.prototype.filter`). */
  function Filter<T>(p: T -> bool, s: seq<T>): (r: seq<T>)
    ensures |r| <= |s|
    ensures forall k :: 0 <= k < |r| ==> p(r[k]) && r[k] in s
    decreases |s|
  {
    if |s| == 0 then []
    else if p(s[0]) then [s[0]] + Filter(p, s[1..])
    else Filter(p, s[1..])
  }

  /** The number of positions of `s` whose element satisfies `p`. */
  function Count<T>(p: T -> bool, s: seq<T>): nat
    decreases |s|
  {
    if |s| == 0 then 0 else (if p(s[|s| - 1]) then 1 else 0) + Count(p, s[..|s| - 1])
  }

  /** `f` applied to every element, in order (a list comprehension, `Array.prototype.map`). */
  function Map<T, U>(f: T -> U, s: seq<T>): (r: seq<U>)
    ensures |r| == |s|
    ensures forall k :: 0 <= k < |s| ==> r[k] == f(s[k])
  {
    seq(|s|, k requires 0 <= k < |s| => f(s[k]))
  }

  /** The first `n` elements of `s`, or all of it when it is shorter
      (JavaScript's `slice(0, n)`). */
  function Take<T>(s: seq<T>, n: nat): (r: seq<T>)
    ensures |r| == if |s| < n then |s| else n
    ensures r <= s
  {
    if |s| <= n then s else s[..n]
  }

  /** Every element of `s` is kept by the filter exactly when it satisfies `p`. */
  lemma {:induction false} FilterMembership<T>(p: T -> bool, s: seq<T>, x: T)
    ensures x in Filter(p, s) <==> x in s && p(x)
    decreases |s|
  {
    if |s| > 0 {
      FilterMembership(p, s[1..], x);
      assert s == [s[0]] + s[1..];
    }
  }

  /** Filtering distributes over concatenation: the filter never reorders elements. */
  lemma {:induction false} FilterAppend<T>(p: T -> bool, a: seq<T>, b: seq<T>)
    ensures Filter(p, a + b) == Filter(p, a) + Filter(p, b)
    decreases |a|
  {
    if |a| == 0 {
      assert a + b == b;
    } else {
      assert (a + b)[0] == a[0];
      assert (a + b)[1..] == a[1..] + b;
      FilterAppend(p, a[1..], b);
    }
  }

  /** The filter keeps one element per position that satisfies `p`. */
  lemma {:induction false} FilterLength<T>(p: T -> bool, s: seq<T>)
    ensures |Filter(p, s)| == Count(p, s)
    decreases |s|
  {
    if |s| > 0 {
      var init, last := s[..|s| - 1], s[|s| - 1];
      assert s == init + [last];
      FilterAppend(p, init, [last]);
      FilterLength(p, init);
      assert [last][1..] == [];
    }
  }

  /** Taking the first `n` kept elements is filtering some prefix of the input:
      the result consists of the earliest matching elements, with none skipped. */
  lemma {:induction false} TakeFilterIsFilterOfPrefix<T>(p: T -> bool, s: seq<T>, n: nat)
    ensures exists k :: 0 <= k <= |s| && Take(Filter(p, s), n) == Filter(p, s[..k])
    decreases |s|
  {
    if |s| == 0 {
      assert Take(Filter(p, s), n) == Filter(p, s[..0]);
    } else if n == 0 {
      assert s[..0] == [];
      assert Take(Filter(p, s), n) == Filter(p, s[..0]);
    } else {
      var m := if p(s[0]) then n - 1 else n;
      TakeFilterIsFilterOfPrefix(p, s[1..], m);
      var k :| 0 <= k <= |s[1..]| && Take(Filter(p, s[1..]), m) == Filter(p, s[1..][..k]);
      assert s[..k + 1] == [s[0]] + s[1..][..k];
      assert s[..k + 1][1..] == s[1..][..k];
      if p(s[0]) {
        assert Filter(p, s) == [s[0]] + Filter(p, s[1..]);
        assert Take(Filter(p, s), n) == [s[0]] + Take(Filter(p, s[1..]), m);
      } else {
        assert Filter(p, s) == Filter(p, s[1..]);
      }
      assert Take(Filter(p, s), n) == Filter(p, s[..k + 1]);
    }
  }
}

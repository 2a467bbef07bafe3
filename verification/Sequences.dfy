/** Order-preserving filtering, the shape of every query the handlers run. */
module Sequences {

  /** The elements of `s` that satisfy `p`, in the order they appear in `s`. */
  function Filter<T>(s: seq<T>, p: T -> bool): (r: seq<T>)
    ensures |r| <= |s|
    ensures forall x :: x in r ==> x in s && p(x)
  {
    if s == [] then []
    else if p(s[0]) then [s[0]] + Filter(s[1..], p)
    else Filter(s[1..], p)
  }

  /** Nothing that satisfies `p` is dropped. */
  lemma {:induction false} FilterComplete<T>(s: seq<T>, p: T -> bool)
    ensures forall x :: x in s && p(x) ==> x in Filter(s, p)
  {
    if s != [] {
      FilterComplete(s[1..], p);
      forall x | x in s && p(x) ensures x in Filter(s, p) {
        if x != s[0] {
          assert x in s[1..];
        }
      }
    }
  }

  /** Filtering commutes with concatenation: the result keeps the order of the input. */
  lemma {:induction false} FilterConcat<T>(a: seq<T>, b: seq<T>, p: T -> bool)
    ensures Filter(a + b, p) == Filter(a, p) + Filter(b, p)
  {
    if a == [] {
      assert a + b == b;
    } else {
      assert (a + b)[1..] == a[1..] + b;
      FilterConcat(a[1..], b, p);
    }
  }

  /** Each element occurs in the result exactly as often as in the input when it
      satisfies `p`, and not at all otherwise. */
  lemma {:induction false} FilterMultiplicity<T>(s: seq<T>, p: T -> bool, x: T)
    ensures multiset(Filter(s, p))[x] == if p(x) then multiset(s)[x] else 0
  {
    if s != [] {
      FilterMultiplicity(s[1..], p, x);
      assert s == [s[0]] + s[1..];
    }
  }

  /** When no element satisfies `p` the result is empty. */
  lemma {:induction false} FilterNone<T>(s: seq<T>, p: T -> bool)
    requires forall i :: 0 <= i < |s| ==> !p(s[i])
    ensures Filter(s, p) == []
  {
    if s != [] {
      FilterNone(s[1..], p);
    }
  }
}

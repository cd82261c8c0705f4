/**
 Order-preserving sublists: a list that is another with some elements left
 out. Removing a card from the list leaves such a sublist, which is how the
 card list keeps its insertion order however many cards are deleted.
 */
module Subsequences {
  import opened Lists

  /** `a` is `b` with some elements left out: what is left keeps its order. */
  predicate Subsequence<T(==)>(a: seq<T>, b: seq<T>)
    decreases |b|
  {
    || |a| == 0
    || (&& |b| > 0
        && ((a[0] == b[0] && Subsequence(a[1..], b[1..])) || Subsequence(a, b[1..])))
  }

  lemma {:induction false} SubsequenceRefl<T>(a: seq<T>)
    ensures Subsequence(a, a)
    decreases |a|
  {
    if |a| > 0 {
      SubsequenceRefl(a[1..]);
    }
  }

  /** Anything may come before the elements kept. */
  lemma {:induction false} SubsequenceOfSuffix<T>(p: seq<T>, t: seq<T>)
    ensures Subsequence(t, p + t)
    decreases |p|
  {
    if |p| == 0 {
      assert p + t == t;
      SubsequenceRefl(t);
    } else {
      assert (p + t)[1..] == p[1..] + t;
      SubsequenceOfSuffix(p[1..], t);
    }
  }

  /** The same tail may follow both sides. */
  lemma {:induction false} SubsequenceAppend<T>(a: seq<T>, b: seq<T>, t: seq<T>)
    requires Subsequence(a, b)
    ensures Subsequence(a + t, b + t)
    decreases |b|
  {
    if |a| == 0 {
      assert a + t == t;
      SubsequenceOfSuffix(b, t);
    } else {
      assert (a + t)[0] == a[0] && (a + t)[1..] == a[1..] + t;
      assert (b + t)[0] == b[0] && (b + t)[1..] == b[1..] + t;
      if a[0] == b[0] && Subsequence(a[1..], b[1..]) {
        SubsequenceAppend(a[1..], b[1..], t);
      } else {
        SubsequenceAppend(a, b[1..], t);
      }
    }
  }

  lemma {:induction false} SubsequenceTrans<T>(a: seq<T>, b: seq<T>, c: seq<T>)
    requires Subsequence(a, b) && Subsequence(b, c)
    ensures Subsequence(a, c)
    decreases |c|
  {
    if |a| > 0 {
      if b[0] == c[0] && Subsequence(b[1..], c[1..]) {
        if a[0] == b[0] && Subsequence(a[1..], b[1..]) {
          SubsequenceTrans(a[1..], b[1..], c[1..]);
        } else {
          SubsequenceTrans(a, b[1..], c[1..]);
        }
      } else {
        SubsequenceTrans(a, b, c[1..]);
      }
    }
  }

  /** `remove(element)` keeps the survivors in their order. */
  lemma {:induction false} RemoveFirstIsSubsequence<T>(xs: seq<T>, x: T)
    ensures Subsequence(RemoveFirst(xs, x), xs)
    decreases |xs|
  {
    if |xs| > 0 {
      if xs[0] == x {
        assert RemoveFirst(xs, x) == xs[1..];
        SubsequenceRefl(xs[1..]);
      } else {
        var rest := RemoveFirst(xs[1..], x);
        assert RemoveFirst(xs, x) == [xs[0]] + rest;
        assert ([xs[0]] + rest)[1..] == rest;
        RemoveFirstIsSubsequence(xs[1..], x);
      }
    }
  }
}

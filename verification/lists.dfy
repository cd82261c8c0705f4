/**
 The two list operations the quiz core borrows from Kotlin's collections:
 `indexOf` (first structurally equal element) and `MutableList.remove(element)`,
 which removes that first equal element and leaves the list alone when there is none.
 */
module Lists {

  /** Position of the first element equal to `x`, or `|xs|` when there is none
      (where Kotlin's `indexOf` answers -1). */
  function FirstIndex<T(==)>(xs: seq<T>, x: T): (i: nat)
    ensures i <= |xs|
    ensures i < |xs| ==> xs[i] == x
    ensures x !in xs[..i]
    ensures i == |xs| <==> x !in xs
  {
    if |xs| == 0 then 0
    else if xs[0] == x then 0
    else
      var j := FirstIndex(xs[1..], x);
      assert xs[..j + 1] == [xs[0]] + xs[1..][..j];
      assert xs == [xs[0]] + xs[1..];
      j + 1
  }

  /** `xs` without its element at position `k`. */
  function RemoveAt<T>(xs: seq<T>, k: nat): (r: seq<T>)
    requires k < |xs|
    ensures |r| == |xs| - 1
    ensures multiset(r) == multiset(xs) - multiset{xs[k]}
  {
    assert xs == xs[..k] + [xs[k]] + xs[k + 1..];
    xs[..k] + xs[k + 1..]
  }

  /** `MutableList.remove(element)`: walks the list from the front and drops the
      first element structurally equal to `x`; a list without `x` is returned unchanged. */
  function RemoveFirst<T(==)>(xs: seq<T>, x: T): (r: seq<T>)
    ensures x !in xs ==> r == xs
    ensures x in xs ==> FirstIndex(xs, x) < |xs| && r == RemoveAt(xs, FirstIndex(xs, x))
    ensures |r| == if x in xs then |xs| - 1 else |xs|
    ensures multiset(r) == multiset(xs) - multiset{x}
  {
    if |xs| == 0 then []
    else if xs[0] == x then
      RemoveFirstHead(xs, x);
      xs[1..]
    else
      var rest := RemoveFirst(xs[1..], x);
      ConsMembership(xs, x);
      if x in xs[1..] then
        RemoveFirstStepFound(xs, x, rest);
        RemoveFirstStepMultiset(xs, x, rest);
        [xs[0]] + rest
      else
        RemoveFirstStepAbsent(xs, rest);
        [xs[0]] + rest
  }

  /** The case of `RemoveFirst` where the head is the element removed. */
  lemma RemoveFirstHead<T>(xs: seq<T>, x: T)
    requires |xs| > 0 && xs[0] == x
    ensures x in xs && FirstIndex(xs, x) == 0
    ensures RemoveAt(xs, 0) == xs[1..]
    ensures multiset(xs[1..]) == multiset(xs) - multiset{x}
  {
    MultisetOfCons(xs, []);
  }

  lemma ConsMembership<T>(xs: seq<T>, x: T)
    requires |xs| > 0
    ensures x in xs <==> xs[0] == x || x in xs[1..]
  {
    assert xs == [xs[0]] + xs[1..];
  }

  /** The recursive case of `RemoveFirst` when the tail holds `x`: keeping the head
      in front of the removal from the tail is the removal from the whole list. */
  lemma RemoveFirstStepFound<T>(xs: seq<T>, x: T, rest: seq<T>)
    requires |xs| > 0 && xs[0] != x && x in xs[1..]
    requires FirstIndex(xs[1..], x) < |xs| - 1 && rest == RemoveAt(xs[1..], FirstIndex(xs[1..], x))
    ensures FirstIndex(xs, x) == FirstIndex(xs[1..], x) + 1
    ensures [xs[0]] + rest == RemoveAt(xs, FirstIndex(xs, x))
  {
    PrependRemoveAt(xs, FirstIndex(xs[1..], x));
  }

  /** The recursive case of `RemoveFirst` when the tail lacks `x`. */
  lemma RemoveFirstStepAbsent<T>(xs: seq<T>, rest: seq<T>)
    requires |xs| > 0 && rest == xs[1..]
    ensures [xs[0]] + rest == xs
  {
  }

  lemma RemoveFirstStepMultiset<T>(xs: seq<T>, x: T, rest: seq<T>)
    requires |xs| > 0 && xs[0] != x
    requires multiset(rest) == multiset(xs[1..]) - multiset{x}
    ensures multiset([xs[0]] + rest) == multiset(xs) - multiset{x}
  {
    MultisetOfCons(xs, rest);
  }

  lemma MultisetOfCons<T>(xs: seq<T>, rest: seq<T>)
    requires |xs| > 0
    ensures multiset(xs) == multiset{xs[0]} + multiset(xs[1..])
    ensures multiset([xs[0]] + rest) == multiset{xs[0]} + multiset(rest)
  {
    assert xs == [xs[0]] + xs[1..];
  }

  /** Removing position `j + 1` of a list is removing position `j` of its tail,
      with the head kept in front. */
  lemma PrependRemoveAt<T>(xs: seq<T>, j: nat)
    requires j + 1 < |xs|
    ensures [xs[0]] + RemoveAt(xs[1..], j) == RemoveAt(xs, j + 1)
  {
    var tail := xs[1..];
    assert [xs[0]] + tail[..j] == xs[..j + 1];
    assert tail[j + 1..] == xs[j + 2..];
    assert [xs[0]] + (tail[..j] + tail[j + 1..]) == ([xs[0]] + tail[..j]) + tail[j + 1..];
  }

  /** Removal keeps the order of the survivors: everything before the first
      occurrence stays where it was, everything after moves up by one. */
  lemma RemoveFirstKeepsOrder<T>(xs: seq<T>, x: T)
    requires x in xs
    ensures var i := FirstIndex(xs, x);
            var r := RemoveFirst(xs, x);
            && r[..i] == xs[..i]
            && forall j :: i <= j < |r| ==> r[j] == xs[j + 1]
  {
  }

  /** Removal never introduces an element: every survivor was in the list before. */
  lemma RemoveFirstKeepsOnlyMembers<T>(xs: seq<T>, x: T, y: T)
    requires y in RemoveFirst(xs, x)
    ensures y in xs
  {
    var r := RemoveFirst(xs, x);
    assert y in multiset(r);
  }
}

/**
 The two random choices of the quiz, with the random source made explicit:
 `quizlets.random()` picks the session card and `shuffled()` orders the answer
 buttons. Each takes the numbers the random source produced as an argument, so
 every outcome the real source could give is the result for some argument, and
 the completeness lemmas show that no outcome is left out.
 */
module Choice {
  import opened Lists

  datatype Option<T> = None | Some(value: T)

  /** The first draw of the random source, or 0 once it is exhausted. */
  function Head(draws: seq<nat>): nat {
    if |draws| == 0 then 0 else draws[0]
  }

  function Tail(draws: seq<nat>): seq<nat> {
    if |draws| == 0 then [] else draws[1..]
  }

  /** `random()` on a list: `draw` is the number the random source produced.
      An empty list has nothing to pick (Kotlin throws there). */
  function Pick<T>(xs: seq<T>, draw: nat): (r: Option<T>)
    ensures r.None? <==> |xs| == 0
    ensures r.Some? ==> r.value in xs
    ensures draw < |xs| ==> r == Some(xs[draw])
  {
    if |xs| == 0 then None else Some(xs[draw % |xs|])
  }

  /** `shuffled()`: each draw chooses, among the elements not placed yet, the one
      that goes next. */
  function Shuffle<T>(xs: seq<T>, draws: seq<nat>): (r: seq<T>)
    ensures |r| == |xs|
    ensures multiset(r) == multiset(xs)
    decreases |xs|
  {
    if |xs| == 0 then []
    else
      var k := Head(draws) % |xs|;
      var rest := Shuffle(RemoveAt(xs, k), Tail(draws));
      assert multiset([xs[k]] + rest) == multiset{xs[k]} + multiset(rest);
      [xs[k]] + rest
  }

  /** The draws that make `Shuffle` produce the arrangement `o` of `xs`. */
  ghost function DrawsFor<T>(xs: seq<T>, o: seq<T>): (draws: seq<nat>)
    requires multiset(o) == multiset(xs)
    decreases |o|
  {
    if |o| == 0 then []
    else
      var k := FirstOf(xs, o);
      TailIsArrangement(xs, o, k);
      [k] + DrawsFor(RemoveAt(xs, k), o[1..])
  }

  /** Where the first element of the arrangement `o` sits in `xs`. */
  ghost function FirstOf<T>(xs: seq<T>, o: seq<T>): (k: nat)
    requires |o| > 0 && multiset(o) == multiset(xs)
    ensures k < |xs| && xs[k] == o[0]
  {
    assert o[0] in multiset(o);
    FirstIndex(xs, o[0])
  }

  /** Taking the first element of an arrangement `o` out of `xs` leaves an
      arrangement of the rest. */
  lemma TailIsArrangement<T>(xs: seq<T>, o: seq<T>, k: nat)
    requires |o| > 0 && multiset(o) == multiset(xs)
    requires k < |xs| && xs[k] == o[0]
    ensures multiset(o[1..]) == multiset(RemoveAt(xs, k))
  {
    assert o == [o[0]] + o[1..];
    assert multiset(o) == multiset{o[0]} + multiset(o[1..]);
  }

  lemma SameSize<T>(xs: seq<T>, o: seq<T>)
    requires multiset(o) == multiset(xs)
    ensures |o| == |xs|
  {
    assert |o| == |multiset(o)|;
  }

  lemma HeadThenTail<T>(o: seq<T>, x: T)
    requires |o| > 0 && o[0] == x
    ensures [x] + o[1..] == o
  {
    assert ([x] + o[1..])[0] == o[0];
  }

  /** A first draw below the length places that element first. */
  lemma ShuffleFirstDraw<T>(xs: seq<T>, k: nat, later: seq<nat>)
    requires k < |xs|
    ensures Shuffle(xs, [k] + later) == [xs[k]] + Shuffle(RemoveAt(xs, k), later)
  {
    assert k % |xs| == k by {
      assert 0 <= k < |xs|;
    }
    assert Head([k] + later) == k;
    assert Tail([k] + later) == later;
  }

  /** Every arrangement of `xs` is the outcome of some draws: the model of
      `shuffled()` does not rule out any order the library could produce. */
  lemma {:induction false} ShuffleReachesEveryArrangement<T>(xs: seq<T>, o: seq<T>)
    requires multiset(o) == multiset(xs)
    ensures Shuffle(xs, DrawsFor(xs, o)) == o
    decreases |o|
  {
    SameSize(xs, o);
    if |o| > 0 {
      var k := FirstOf(xs, o);
      TailIsArrangement(xs, o, k);
      var later := DrawsFor(RemoveAt(xs, k), o[1..]);
      assert DrawsFor(xs, o) == [k] + later;
      assert Shuffle(RemoveAt(xs, k), later) == o[1..] by {
        ShuffleReachesEveryArrangement(RemoveAt(xs, k), o[1..]);
      }
      assert Shuffle(xs, [k] + later) == [xs[k]] + Shuffle(RemoveAt(xs, k), later) by {
        ShuffleFirstDraw(xs, k, later);
      }
      assert [xs[k]] + o[1..] == o by {
        HeadThenTail(o, xs[k]);
      }
    }
  }
}

/** Counting the times that fall into a half-open interval. */
module TimeCounts {

  /** How many of the times lie in [from, to). */
  function CountIn(times: seq<int>, from: int, to: int): nat
  {
    if times == [] then 0 else
      CountIn(times[..|times| - 1], from, to) + (if from <= times[|times| - 1] < to then 1 else 0)
  }

  lemma {:induction false} NothingLater(times: seq<int>, from: int, to: int)
    requires forall i :: 0 <= i < |times| ==> times[i] < from
    ensures CountIn(times, from, to) == 0
    decreases |times|
  {
    if times != [] {
      NothingLater(times[..|times| - 1], from, to);
    }
  }

  lemma {:induction false} CountSplit(a: seq<int>, b: seq<int>, from: int, to: int)
    ensures CountIn(a + b, from, to) == CountIn(a, from, to) + CountIn(b, from, to)
    decreases |b|
  {
    if b == [] {
      assert a + b == a;
    } else {
      assert a + b == (a + b[..|b| - 1]) + [b[|b| - 1]];
      CountSplit(a, b[..|b| - 1], from, to);
    }
  }

  ghost predicate AllUpTo(times: seq<int>, t: int)
  {
    forall i :: 0 <= i < |times| ==> times[i] <= t
  }

  lemma {:induction false} CountAll(times: seq<int>, from: int, to: int)
    requires forall i :: 0 <= i < |times| ==> from <= times[i] < to
    ensures CountIn(times, from, to) == |times|
    decreases |times|
  {
    if times != [] {
      CountAll(times[..|times| - 1], from, to);
    }
  }

  /** A later start counts no more. */
  lemma {:induction false} CountShrinks(times: seq<int>, from: int, earlier: int, to: int)
    requires earlier <= from
    ensures CountIn(times, from, to) <= CountIn(times, earlier, to)
    decreases |times|
  {
    if times != [] {
      CountShrinks(times[..|times| - 1], from, earlier, to);
    }
  }

  /** Nothing lies after the last time. */
  lemma {:induction false} CountUpTo(times: seq<int>, from: int, to: int, last: int)
    requires AllUpTo(times, last) && last < to
    ensures CountIn(times, from, to) == CountIn(times, from, last + 1)
    decreases |times|
  {
    if times != [] {
      CountUpTo(times[..|times| - 1], from, to, last);
    }
  }
}

/** Finite sums over sets and sequences: the meaning of SQL's COUNT and SUM.
    A set stands for the rows of a table with a unique key, a sequence for rows
    that may repeat. */
module Sums {

  ghost function SumSet<T(!new)>(s: set<T>, f: T -> int): int
  {
    if s == {} then 0 else
      var x :| x in s;
      f(x) + SumSet(s - {x}, f)
  }

  /** The element taken out first does not matter. */
  lemma {:induction false} SumSetRemove<T(!new)>(s: set<T>, x: T, f: T -> int)
    requires x in s
    ensures SumSet(s, f) == f(x) + SumSet(s - {x}, f)
    decreases s
  {
    var y :| y in s && SumSet(s, f) == f(y) + SumSet(s - {y}, f);
    if y != x {
      SumSetRemove(s - {y}, x, f);
      SumSetRemove(s - {x}, y, f);
      assert s - {y} - {x} == s - {x} - {y};
    }
  }

  lemma {:induction false} SumSetCongruence<T(!new)>(s: set<T>, f: T -> int, g: T -> int)
    requires forall x :: x in s ==> f(x) == g(x)
    ensures SumSet(s, f) == SumSet(s, g)
    decreases s
  {
    if s != {} {
      var x :| x in s;
      SumSetRemove(s, x, f);
      SumSetRemove(s, x, g);
      SumSetCongruence(s - {x}, f, g);
    }
  }

  lemma {:induction false} SumSetUnion<T(!new)>(a: set<T>, b: set<T>, f: T -> int)
    requires a !! b
    ensures SumSet(a + b, f) == SumSet(a, f) + SumSet(b, f)
    decreases b
  {
    if b == {} {
      assert a + b == a;
    } else {
      var x :| x in b;
      SumSetRemove(b, x, f);
      SumSetRemove(a + b, x, f);
      assert (a + b) - {x} == a + (b - {x});
      SumSetUnion(a, b - {x}, f);
    }
  }

  lemma {:induction false} SumSetZero<T(!new)>(s: set<T>, f: T -> int)
    requires forall x :: x in s ==> f(x) == 0
    ensures SumSet(s, f) == 0
    decreases s
  {
    if s != {} {
      var x :| x in s;
      SumSetRemove(s, x, f);
      SumSetZero(s - {x}, f);
    }
  }

  /** Changing or adding one summand. */
  lemma SumSetChange<T(!new)>(s: set<T>, x: T, f: T -> int, g: T -> int)
    requires forall y :: y in s && y != x ==> f(y) == g(y)
    ensures SumSet(s + {x}, g) == SumSet(s, f) + g(x) - (if x in s then f(x) else 0)
  {
    SumSetRemove(s + {x}, x, g);
    assert s + {x} - {x} == s - {x};
    SumSetCongruence(s - {x}, f, g);
    if x in s {
      SumSetRemove(s, x, f);
    } else {
      assert s - {x} == s;
    }
  }

  /** The rows of `s` in group `g`. */
  ghost function Group<T(!new), G(!new)>(s: set<T>, group: T -> G, g: G): set<T>
  {
    set x | x in s && group(x) == g
  }

  ghost function GroupSum<T(!new), G(!new)>(s: set<T>, group: T -> G, f: T -> int): G -> int
  {
    (g: G) => SumSet(Group(s, group, g), f)
  }

  /** SUM over groups of per-group SUMs is the SUM over all rows. */
  lemma {:induction false} SumSetByGroup<T(!new), G(!new)>(s: set<T>, groups: set<G>, group: T -> G, f: T -> int)
    requires forall x :: x in s ==> group(x) in groups
    ensures SumSet(s, f) == SumSet(groups, GroupSum(s, group, f))
    decreases groups
  {
    if groups == {} {
      assert s == {};
    } else {
      var g :| g in groups;
      var inside := Group(s, group, g);
      var rest := s - inside;
      SumSetRemove(groups, g, GroupSum(s, group, f));
      SumSetByGroup(rest, groups - {g}, group, f);
      forall h | h in groups - {g}
        ensures GroupSum(s, group, f)(h) == GroupSum(rest, group, f)(h)
      {
        assert Group(s, group, h) == Group(rest, group, h);
      }
      SumSetCongruence(groups - {g}, GroupSum(s, group, f), GroupSum(rest, group, f));
      assert s == inside + rest;
      SumSetUnion(inside, rest, f);
    }
  }

  /** Maps with the same keys and entries are the same. */
  lemma SameMap<K(!new), V>(a: map<K, V>, b: map<K, V>)
    requires a.Keys == b.Keys && forall k :: k in a.Keys ==> a[k] == b[k]
    ensures a == b
  {
    assert forall k :: k in a <==> k in a.Keys;
    assert forall k :: k in b <==> k in b.Keys;
    assert forall k :: k in a ==> k in b && a[k] == b[k];
  }

  lemma SomeElement<T>(s: set<T>) returns (x: T)
    requires s != {}
    ensures x in s
  {
    x :| x in s;
  }

  function SumSeq<T>(xs: seq<T>, f: T -> int): int
  {
    if xs == [] then 0 else SumSeq(xs[..|xs| - 1], f) + f(xs[|xs| - 1])
  }

  lemma {:induction false} SumSeqConcat<T>(a: seq<T>, b: seq<T>, f: T -> int)
    ensures SumSeq(a + b, f) == SumSeq(a, f) + SumSeq(b, f)
    decreases |b|
  {
    if b == [] {
      assert a + b == a;
    } else {
      assert (a + b)[..|a + b| - 1] == a + b[..|b| - 1];
      SumSeqConcat(a, b[..|b| - 1], f);
    }
  }

  lemma SumSeqAppend<T>(xs: seq<T>, x: T, f: T -> int)
    ensures SumSeq(xs + [x], f) == SumSeq(xs, f) + f(x)
  {
    assert (xs + [x])[..|xs|] == xs;
  }

  lemma {:induction false} SumSeqCongruence<T>(xs: seq<T>, f: T -> int, g: T -> int)
    requires forall x :: x in xs ==> f(x) == g(x)
    ensures SumSeq(xs, f) == SumSeq(xs, g)
    decreases |xs|
  {
    if xs != [] {
      SumSeqCongruence(xs[..|xs| - 1], f, g);
    }
  }

  /** The order of the rows does not matter. */
  lemma {:induction false} SumSeqPermutation<T>(a: seq<T>, b: seq<T>, f: T -> int)
    requires multiset(a) == multiset(b)
    ensures SumSeq(a, f) == SumSeq(b, f)
    decreases |a|
  {
    if a == [] {
      assert |multiset(b)| == 0;
    } else {
      var i := PositionOfLast(a, b);
      SumSeqPermutation(a[..|a| - 1], b[..i] + b[i + 1..], f);
      SumSeqConcat(b[..i], b[i + 1..], f);
      SumSeqConcat(b[..i], [b[i]] + b[i + 1..], f);
      SumSeqConcat([b[i]], b[i + 1..], f);
      assert b == b[..i] + ([b[i]] + b[i + 1..]);
      assert SumSeq([b[i]], f) == SumSeq([b[i]][..0], f) + f(b[i]);
    }
  }

  /** Where the last element of `a` sits in a permutation of `a`. */
  lemma {:induction false} PositionOfLast<T>(a: seq<T>, b: seq<T>) returns (i: nat)
    requires a != [] && multiset(a) == multiset(b)
    ensures i < |b| && b[i] == a[|a| - 1]
    ensures multiset(a[..|a| - 1]) == multiset(b[..i] + b[i + 1..])
  {
    var n, x := |a| - 1, a[|a| - 1];
    assert x in multiset(b);
    i :| 0 <= i < |b| && b[i] == x;
    MultisetWithout(a, n);
    MultisetWithout(b, i);
    assert a[..n] + a[n + 1..] == a[..n];
    MultisetCancel(multiset(a[..n]), multiset(b[..i] + b[i + 1..]), x);
  }

  lemma {:induction false} MultisetWithout<T>(a: seq<T>, i: nat)
    requires i < |a|
    ensures multiset(a) == multiset(a[..i] + a[i + 1..]) + multiset{a[i]}
  {
    assert a == a[..i] + ([a[i]] + a[i + 1..]);
  }

  lemma MultisetCancel<T>(a: multiset<T>, b: multiset<T>, x: T)
    requires a + multiset{x} == b + multiset{x}
    ensures a == b
  {
    assert a == a + multiset{x} - multiset{x};
    assert b == b + multiset{x} - multiset{x};
  }

  /** The UNION ALL of a list of shards. */
  function Flatten<T>(shards: seq<seq<T>>): seq<T>
  {
    if shards == [] then [] else Flatten(shards[..|shards| - 1]) + shards[|shards| - 1]
  }

  lemma {:induction false} FlattenMembers<T>(shards: seq<seq<T>>, x: T)
    ensures x in Flatten(shards) <==> exists i :: 0 <= i < |shards| && x in shards[i]
    decreases |shards|
  {
    if shards != [] {
      var front := shards[..|shards| - 1];
      FlattenMembers(front, x);
      if x in Flatten(front) {
        var i :| 0 <= i < |front| && x in front[i];
        assert x in shards[i];
      }
    }
  }

  lemma {:induction false} FlattenEmpty<T>(shards: seq<seq<T>>)
    requires forall i :: 0 <= i < |shards| ==> shards[i] == []
    ensures Flatten(shards) == []
    decreases |shards|
  {
    if shards != [] {
      FlattenEmpty(shards[..|shards| - 1]);
    }
  }

  lemma {:induction false} FlattenConcat<T>(a: seq<seq<T>>, b: seq<seq<T>>)
    ensures Flatten(a + b) == Flatten(a) + Flatten(b)
    decreases |b|
  {
    if b == [] {
      assert a + b == a;
    } else {
      var front, last := b[..|b| - 1], b[|b| - 1];
      assert (a + b)[..|a + b| - 1] == a + front;
      FlattenConcat(a, front);
      assert (Flatten(a) + Flatten(front)) + last == Flatten(a) + (Flatten(front) + last);
    }
  }

  lemma FlattenOne<T>(x: seq<T>)
    ensures Flatten([x]) == x
  {
    assert [x][..0] == [];
  }

  /** Appending to one shard appends to the union, up to order. */
  lemma {:induction false} FlattenAppend<T>(shards: seq<seq<T>>, i: nat, extra: seq<T>)
    requires i < |shards|
    ensures multiset(Flatten(shards[i := shards[i] + extra])) == multiset(Flatten(shards)) + multiset(extra)
    decreases |shards|
  {
    var after := shards[i := shards[i] + extra];
    var n := |shards| - 1;
    if i == n {
      assert after[..n] == shards[..n];
    } else {
      assert after[..n] == shards[..n][i := shards[..n][i] + extra];
      FlattenAppend(shards[..n], i, extra);
    }
  }
}

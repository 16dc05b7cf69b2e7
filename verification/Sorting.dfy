/** ORDER BY, LIMIT and UNION ALL over rows that a strict order tells apart, and why a limit
    may be applied to every branch of a union first. */
module Sorting {
  import opened Sums

  ghost predicate IsOrder<T(!new)>(less: (T, T) -> bool)
  {
    && (forall a :: !less(a, a))
    && (forall a, b, c :: less(a, b) && less(b, c) ==> less(a, c))
  }

  /** Any two rows are ordered one way or the other. */
  ghost predicate Separates<T>(less: (T, T) -> bool, xs: seq<T>)
  {
    forall i, j :: 0 <= i < j < |xs| ==> less(xs[i], xs[j]) || less(xs[j], xs[i])
  }

  ghost predicate Sorted<T>(less: (T, T) -> bool, xs: seq<T>)
  {
    forall i, j :: 0 <= i < j < |xs| ==> less(xs[i], xs[j])
  }

  /** The two sequences hold the same rows. */
  ghost predicate SameRows<T(!new)>(a: seq<T>, b: seq<T>)
  {
    forall x :: x in a <==> x in b
  }

  function Insert<T>(less: (T, T) -> bool, xs: seq<T>, x: T): (r: seq<T>)
    ensures |r| == |xs| + 1
  {
    if xs != [] && less(x, xs[|xs| - 1]) then Insert(less, xs[..|xs| - 1], x) + [xs[|xs| - 1]] else xs + [x]
  }

  /** ORDER BY. */
  function Sort<T>(less: (T, T) -> bool, xs: seq<T>): (r: seq<T>)
    ensures |r| == |xs|
  {
    if xs == [] then [] else Insert(less, Sort(less, xs[..|xs| - 1]), xs[|xs| - 1])
  }

  function Take<T>(xs: seq<T>, n: nat): seq<T>
  {
    if n < |xs| then xs[..n] else xs
  }

  function Drop<T>(xs: seq<T>, n: nat): seq<T>
  {
    if n < |xs| then xs[n..] else []
  }

  /** WHERE. */
  function Select<T>(xs: seq<T>, p: T -> bool): seq<T>
  {
    if xs == [] then [] else
      var front := Select(xs[..|xs| - 1], p);
      if p(xs[|xs| - 1]) then front + [xs[|xs| - 1]] else front
  }

  /** UNION ALL of the first `n` rows of each shard, or of all rows when there is no limit. */
  function Union<T>(less: (T, T) -> bool, p: T -> bool, shards: seq<seq<T>>, limit: nat): seq<T>
  {
    if shards == [] then [] else
      Union(less, p, shards[..|shards| - 1], limit) + Branch(less, p, shards[|shards| - 1], limit)
  }

  function Branch<T>(less: (T, T) -> bool, p: T -> bool, rows: seq<T>, limit: nat): seq<T>
  {
    if limit > 0 then Take(Sort(less, Select(rows, p)), limit) else Select(rows, p)
  }

  // ----- sorting -----

  lemma {:induction false} InsertKeepsOrder<T(!new)>(less: (T, T) -> bool, xs: seq<T>, x: T)
    requires IsOrder(less) && Sorted(less, xs)
    requires forall y :: y in xs ==> less(x, y) || less(y, x)
    ensures Sorted(less, Insert(less, xs, x))
    ensures forall y :: y in Insert(less, xs, x) <==> y in xs || y == x
    decreases |xs|
  {
    if xs != [] && less(x, xs[|xs| - 1]) {
      var front, last := xs[..|xs| - 1], xs[|xs| - 1];
      assert xs == front + [last];
      InsertKeepsOrder(less, front, x);
      assert forall y :: y in Insert(less, front, x) ==> less(y, last);
    } else if xs != [] {
      assert xs[|xs| - 1] in xs;
    }
  }

  lemma {:induction false} SortIsSorted<T(!new)>(less: (T, T) -> bool, xs: seq<T>)
    requires IsOrder(less) && Separates(less, xs)
    ensures Sorted(less, Sort(less, xs)) && SameRows(Sort(less, xs), xs)
    decreases |xs|
  {
    if xs != [] {
      var front := xs[..|xs| - 1];
      assert xs == front + [xs[|xs| - 1]];
      SortIsSorted(less, front);
      InsertKeepsOrder(less, Sort(less, front), xs[|xs| - 1]);
    }
  }

  lemma {:induction false} InsertKeepsRows<T>(less: (T, T) -> bool, xs: seq<T>, x: T)
    ensures multiset(Insert(less, xs, x)) == multiset(xs) + multiset{x}
    decreases |xs|
  {
    if xs != [] && less(x, xs[|xs| - 1]) {
      assert xs == xs[..|xs| - 1] + [xs[|xs| - 1]];
      InsertKeepsRows(less, xs[..|xs| - 1], x);
    }
  }

  lemma {:induction false} SortKeepsRows<T>(less: (T, T) -> bool, xs: seq<T>)
    ensures multiset(Sort(less, xs)) == multiset(xs)
    decreases |xs|
  {
    if xs != [] {
      assert xs == xs[..|xs| - 1] + [xs[|xs| - 1]];
      SortKeepsRows(less, xs[..|xs| - 1]);
      InsertKeepsRows(less, Sort(less, xs[..|xs| - 1]), xs[|xs| - 1]);
    }
  }

  lemma TakePrefix<T>(s: seq<T>, n: nat)
    requires n > 0 && s != []
    ensures Take(s, n) == [s[0]] + Take(s[1..], n - 1)
  {
  }

  lemma EmptyOrInhabited<T(!new)>(r: seq<T>)
    ensures r == [] || exists x :: x in r
  {
    if r != [] {
      assert r[0] in r;
    }
  }

  /** Rows may be dropped as long as the first `n` stay. */
  lemma {:induction false} PrefixSurvives<T(!new)>(less: (T, T) -> bool, s: seq<T>, r: seq<T>, n: nat)
    requires IsOrder(less) && Sorted(less, s) && Sorted(less, r)
    requires forall x :: x in r ==> x in s
    requires forall x :: x in Take(s, n) ==> x in r
    ensures Take(r, n) == Take(s, n)
    decreases n
  {
    if s == [] {
      EmptyOrInhabited(r);
    } else if n > 0 {
      TakePrefix(s, n);
      assert s[0] in Take(s, n);
      assert r[0] in s;
      assert r[0] == s[0];
      forall x | x in r[1..]
        ensures x in s[1..]
      {
        assert x in s && less(r[0], x);
      }
      forall x | x in Take(s[1..], n - 1)
        ensures x in r[1..]
      {
        assert x in Take(s, n);
        assert less(s[0], x);
        assert x in r && x != r[0];
      }
      PrefixSurvives(less, s[1..], r[1..], n - 1);
      TakePrefix(r, n);
    }
  }

  /** Sorting in a strict order has one outcome, however the database gets there. */
  lemma SortedIsUnique<T(!new)>(less: (T, T) -> bool, s: seq<T>, r: seq<T>)
    requires IsOrder(less) && Sorted(less, s) && Sorted(less, r) && SameRows(s, r)
    ensures s == r
  {
    PrefixSurvives(less, s, r, |s|);
    PrefixSurvives(less, r, s, |r|);
  }

  /** The order the rows arrive in does not matter. */
  lemma SortPermutation<T(!new)>(less: (T, T) -> bool, a: seq<T>, b: seq<T>)
    requires IsOrder(less) && Separates(less, a) && multiset(a) == multiset(b)
    ensures Sort(less, a) == Sort(less, b)
  {
    SeparatesPermutation(less, a, b);
    SortIsSorted(less, a);
    SortIsSorted(less, b);
    assert forall x :: x in a <==> x in multiset(a);
    assert forall x :: x in b <==> x in multiset(b);
    SortedIsUnique(less, Sort(less, a), Sort(less, b));
  }

  lemma {:induction false} SeparatesPermutation<T(!new)>(less: (T, T) -> bool, a: seq<T>, b: seq<T>)
    requires Separates(less, a) && multiset(a) == multiset(b)
    ensures Separates(less, b)
    decreases |a|
  {
    if a == [] {
      assert |multiset(b)| == 0;
    } else {
      var x := a[|a| - 1];
      var i := PositionOfLast(a, b);
      var front, rest := a[..|a| - 1], b[..i] + b[i + 1..];
      SeparatesPermutation(less, front, rest);
      assert forall y :: y in rest <==> y in multiset(rest);
      assert forall y :: y in front <==> y in multiset(front);
      assert forall y :: y in rest ==> less(x, y) || less(y, x);
      InsertedSeparates(less, b, i);
    }
  }

  lemma InsertedSeparates<T(!new)>(less: (T, T) -> bool, b: seq<T>, i: nat)
    requires i < |b| && Separates(less, b[..i] + b[i + 1..])
    requires forall y :: y in b[..i] + b[i + 1..] ==> less(b[i], y) || less(y, b[i])
    ensures Separates(less, b)
  {
    var rest := b[..i] + b[i + 1..];
    forall j, k | 0 <= j < k < |b|
      ensures less(b[j], b[k]) || less(b[k], b[j])
    {
      if j == i {
        assert rest[k - 1] == b[k];
      } else if k == i {
        assert rest[j] == b[j];
      } else {
        var p, q := if j < i then j else j - 1, if k < i then k else k - 1;
        assert rest[p] == b[j] && rest[q] == b[k];
      }
    }
  }

  /** A row comes no earlier in the whole than it does in a part. */
  lemma {:induction false} PartComesEarlier<T(!new)>(less: (T, T) -> bool, part: seq<T>, whole: seq<T>, j: nat, k: nat)
    requires IsOrder(less) && Sorted(less, part) && Sorted(less, whole)
    requires forall x :: x in part ==> x in whole
    requires j < |part| && k < |whole| && part[j] == whole[k]
    ensures j <= k
    decreases j
  {
    if j > 0 {
      assert part[j - 1] in whole;
      var before :| 0 <= before < |whole| && whole[before] == part[j - 1];
      PartComesEarlier(less, part, whole, j - 1, before);
      assert less(whole[before], whole[k]);
    }
  }

  // ----- selecting -----

  lemma {:induction false} SelectMembers<T(!new)>(xs: seq<T>, p: T -> bool)
    ensures forall x :: x in Select(xs, p) <==> x in xs && p(x)
    decreases |xs|
  {
    if xs != [] {
      SelectMembers(xs[..|xs| - 1], p);
      assert xs == xs[..|xs| - 1] + [xs[|xs| - 1]];
    }
  }

  lemma {:induction false} SelectSeparates<T(!new)>(less: (T, T) -> bool, xs: seq<T>, p: T -> bool)
    requires Separates(less, xs)
    ensures Separates(less, Select(xs, p))
    decreases |xs|
  {
    if xs != [] {
      var front, last := xs[..|xs| - 1], xs[|xs| - 1];
      SelectSeparates(less, front, p);
      SelectMembers(front, p);
      forall i | 0 <= i < |Select(front, p)|
        ensures less(Select(front, p)[i], last) || less(last, Select(front, p)[i])
      {
        assert Select(front, p)[i] in front;
      }
    }
  }

  lemma SelectedOrder<T(!new)>(less: (T, T) -> bool, xs: seq<T>, p: T -> bool)
    requires IsOrder(less) && Separates(less, xs)
    ensures Sorted(less, Sort(less, Select(xs, p)))
    ensures forall x :: x in Sort(less, Select(xs, p)) <==> x in xs && p(x)
  {
    SelectSeparates(less, xs, p);
    SelectMembers(xs, p);
    SortIsSorted(less, Select(xs, p));
  }

  lemma {:induction false} SelectSorted<T(!new)>(less: (T, T) -> bool, xs: seq<T>, p: T -> bool)
    requires Sorted(less, xs)
    ensures Sorted(less, Select(xs, p))
    decreases |xs|
  {
    if xs != [] {
      var front, last := xs[..|xs| - 1], xs[|xs| - 1];
      SelectSorted(less, front, p);
      SelectMembers(front, p);
      forall i | 0 <= i < |Select(front, p)|
        ensures less(Select(front, p)[i], last)
      {
        assert Select(front, p)[i] in front;
      }
    }
  }

  lemma {:induction false} SelectCongruence<T>(xs: seq<T>, p: T -> bool, q: T -> bool)
    requires forall x :: x in xs ==> p(x) == q(x)
    ensures Select(xs, p) == Select(xs, q)
    decreases |xs|
  {
    if xs != [] {
      SelectCongruence(xs[..|xs| - 1], p, q);
    }
  }

  lemma {:induction false} SelectConcat<T>(a: seq<T>, b: seq<T>, p: T -> bool)
    ensures Select(a + b, p) == Select(a, p) + Select(b, p)
    decreases |b|
  {
    if b == [] {
      assert a + b == a;
    } else {
      assert (a + b)[..|a + b| - 1] == a + b[..|b| - 1];
      SelectConcat(a, b[..|b| - 1], p);
    }
  }

  lemma SelectPermutation<T(!new)>(a: seq<T>, b: seq<T>, p: T -> bool)
    requires multiset(a) == multiset(b)
    ensures multiset(Select(a, p)) == multiset(Select(b, p))
  {
    SelectCounts(a, p);
    SelectCounts(b, p);
  }

  /** How often a row is selected. */
  lemma {:induction false} SelectCounts<T(!new)>(xs: seq<T>, p: T -> bool)
    ensures forall x :: multiset(Select(xs, p))[x] == if p(x) then multiset(xs)[x] else 0
    decreases |xs|
  {
    if xs != [] {
      SelectCounts(xs[..|xs| - 1], p);
      assert xs == xs[..|xs| - 1] + [xs[|xs| - 1]];
    }
  }

  // ----- limit push-down -----

  /** A shard is ordered by what orders the union. */
  lemma ShardSeparates<T(!new)>(less: (T, T) -> bool, shards: seq<seq<T>>)
    requires shards != [] && Separates(less, Flatten(shards))
    ensures Separates(less, Flatten(shards[..|shards| - 1])) && Separates(less, shards[|shards| - 1])
    ensures forall x, y :: x in Flatten(shards[..|shards| - 1]) && y in shards[|shards| - 1] ==> less(x, y) || less(y, x)
  {
    SeparatesParts(less, Flatten(shards[..|shards| - 1]), shards[|shards| - 1]);
  }

  lemma SeparatesParts<T(!new)>(less: (T, T) -> bool, a: seq<T>, b: seq<T>)
    requires Separates(less, a + b)
    ensures Separates(less, a) && Separates(less, b)
    ensures forall x, y :: x in a && y in b ==> less(x, y) || less(y, x)
  {
    var ab := a + b;
    forall i, j | 0 <= i < j < |b|
      ensures less(b[i], b[j]) || less(b[j], b[i])
    {
      assert b[i] == ab[|a| + i] && b[j] == ab[|a| + j];
    }
    forall i, j | 0 <= i < j < |a|
      ensures less(a[i], a[j]) || less(a[j], a[i])
    {
      assert a[i] == ab[i] && a[j] == ab[j];
    }
    forall x, y | x in a && y in b
      ensures less(x, y) || less(y, x)
    {
      var i :| 0 <= i < |a| && a[i] == x;
      var j :| 0 <= j < |b| && b[j] == y;
      assert x == ab[i] && y == ab[|a| + j];
    }
  }

  /** What the union keeps: only matching rows, and a matching row that is left out has `limit`
      rows of its own shard before it. */
  lemma {:induction false} UnionMembers<T(!new)>(less: (T, T) -> bool, p: T -> bool, shards: seq<seq<T>>, limit: nat)
    requires IsOrder(less) && Separates(less, Flatten(shards))
    ensures Separates(less, Union(less, p, shards, limit))
    ensures forall x :: x in Union(less, p, shards, limit) ==> x in Flatten(shards) && p(x)
    ensures limit == 0 ==> forall x :: x in Flatten(shards) && p(x) ==> x in Union(less, p, shards, limit)
    decreases |shards|
  {
    if shards != [] {
      var front, last := shards[..|shards| - 1], shards[|shards| - 1];
      ShardSeparates(less, shards);
      UnionMembers(less, p, front, limit);
      SelectMembers(last, p);
      SelectSeparates(less, last, p);
      SortIsSorted(less, Select(last, p));
      var a, b := Union(less, p, front, limit), Branch(less, p, last, limit);
      assert forall x :: x in b ==> x in last && p(x);
    }
  }

  lemma {:induction false} EarlyRowIsKept<T(!new)>(less: (T, T) -> bool, p: T -> bool, shards: seq<seq<T>>, limit: nat,
                                                  whole: seq<T>, k: nat)
    requires IsOrder(less) && Separates(less, Flatten(shards)) && Sorted(less, whole)
    requires forall x :: x in Flatten(shards) && p(x) ==> x in whole
    requires k < |whole| && k < limit && whole[k] in Flatten(shards) && p(whole[k])
    ensures whole[k] in Union(less, p, shards, limit)
    decreases |shards|
  {
    var front, last := shards[..|shards| - 1], shards[|shards| - 1];
    ShardSeparates(less, shards);
    if whole[k] in Flatten(front) {
      EarlyRowIsKept(less, p, front, limit, whole, k);
    } else {
      SelectedOrder(less, last, p);
      var part := Sort(less, Select(last, p));
      var j :| 0 <= j < |part| && part[j] == whole[k];
      PartComesEarlier(less, part, whole, j, k);
      assert part[j] in Take(part, limit);
    }
  }

  /** LIMIT push-down: limiting every shard first does not change the first rows of the whole. */
  lemma LimitPushDown<T(!new)>(less: (T, T) -> bool, p: T -> bool, shards: seq<seq<T>>, limit: nat)
    requires IsOrder(less) && Separates(less, Flatten(shards))
    ensures limit > 0 ==>
              Take(Sort(less, Union(less, p, shards, limit)), limit) == Take(Sort(less, Select(Flatten(shards), p)), limit)
    ensures limit == 0 ==> Sort(less, Union(less, p, shards, limit)) == Sort(less, Select(Flatten(shards), p))
  {
    var union := Union(less, p, shards, limit);
    var whole, limited := Sort(less, Select(Flatten(shards), p)), Sort(less, union);
    SelectedOrder(less, Flatten(shards), p);
    UnionMembers(less, p, shards, limit);
    SortIsSorted(less, union);
    if limit > 0 {
      forall x | x in Take(whole, limit)
        ensures x in limited
      {
        var k :| 0 <= k < |Take(whole, limit)| && whole[k] == x;
        EarlyRowIsKept(less, p, shards, limit, whole, k);
      }
      PrefixSurvives(less, whole, limited, limit);
    } else {
      SortedIsUnique(less, whole, limited);
    }
  }
}

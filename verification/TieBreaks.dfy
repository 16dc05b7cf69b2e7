/** When the counter-delta statement and the fold agree on every reading: the statement orders a
    node's samples by instant and ID, the fold sorts all samples by instant and node ID and
    leaves the rest to chance. */
module TieBreaks {
  import opened Wrappers
  import opened Sums
  import opened SqlDialect
  import opened Sorting
  import opened CounterDeltas

  /** The order of node IDs, as the position it gives each text. */
  type Rank = string -> real

  ghost predicate IsRank(rank: Rank)
  {
    forall a, b :: rank(a) == rank(b) ==> a == b
  }

  /** The same samples with other readings. */
  ghost predicate SameSkeleton(rows: seq<Sample>, values: seq<Sample>)
  {
    |rows| == |values| && forall i :: 0 <= i < |rows| ==> values[i] == rows[i].(counters := values[i].counters)
  }

  predicate NotAfter(rank: Rank, a: Sample, b: Sample)
  {
    a.capturedAt < b.capturedAt || (a.capturedAt == b.capturedAt && rank(a.nodeID) <= rank(b.nodeID))
  }

  /** An order in which the fold may see the rows: sorted by instant and node ID. */
  ghost predicate Arranged(rank: Rank, rows: seq<Sample>, samples: seq<Sample>)
  {
    multiset(samples) == multiset(rows) && forall i, j :: 0 <= i < j < |samples| ==> NotAfter(rank, samples[i], samples[j])
  }

  /** Two samples of one node key at one instant have different node IDs, in the order of their IDs.
      With node IDs set, there are no such two samples. */
  predicate Settled(rank: Rank, a: Sample, b: Sample)
  {
    NodeKey(a) == NodeKey(b) && a.capturedAt == b.capturedAt ==>
      a.nodeID != b.nodeID && (rank(a.nodeID) < rank(b.nodeID) <==> a.id < b.id)
  }

  ghost predicate TiesSettled(rank: Rank, rows: seq<Sample>)
  {
    forall i, j :: 0 <= i < j < |rows| ==> Settled(rank, rows[i], rows[j])
  }

  /** The statement on a backend and the fold agree on all readings, in every order the sort may leave. */
  ghost predicate AlwaysAgree(rank: Rank, rows: seq<Sample>, d: Dialect, minutes: int)
  {
    forall values, samples :: SameSkeleton(rows, values) && Arranged(rank, values, samples) ==>
                                FoldResult(samples, minutes) == Buckets(values, d, minutes)
  }

  /** Among samples that name their node, ties are settled exactly when there are none. */
  lemma SettledIsOnePerInstant(rank: Rank, rows: seq<Sample>)
    requires forall s :: s in rows ==> s.nodeID != ""
    ensures TiesSettled(rank, rows) <==> OnePerInstant(rows)
  {
    forall i, j | 0 <= i < j < |rows|
      ensures Settled(rank, rows[i], rows[j]) <==> Apart(rows[i], rows[j])
      ensures Apart(rows[i], rows[j]) <==> Apart(rows[j], rows[i])
    {
      assert rows[i] in rows && rows[j] in rows;
    }
    if TiesSettled(rank, rows) {
      forall i, j | 0 <= i < j < |rows|
        ensures Apart(rows[i], rows[j])
      {
        assert Settled(rank, rows[i], rows[j]);
      }
    }
    if OnePerInstant(rows) {
      forall i, j | 0 <= i < j < |rows|
        ensures Settled(rank, rows[i], rows[j])
      {
        var a, b := rows[i], rows[j];
        assert Apart(a, b) || Apart(b, a);
      }
    }
  }

  // ----- settled ties: every arrangement is in the order of the window -----

  lemma DistinctPermutation(a: seq<Sample>, b: seq<Sample>)
    requires multiset(a) == multiset(b) && DistinctSampleIDs(a)
    ensures DistinctSampleIDs(b)
  {
    var differ := (x: Sample, y: Sample) => x.id != y.id;
    SeparatesPermutation(differ, a, b);
    forall i, j | 0 <= i < j < |b|
      ensures b[i].id != b[j].id
    {
      var x, y := b[i], b[j];
      assert differ(x, y) || differ(y, x);
    }
  }

  lemma ArrangedInOrder(rank: Rank, values: seq<Sample>, samples: seq<Sample>)
    requires IsRank(rank) && DistinctSampleIDs(values) && TiesSettled(rank, values) && Arranged(rank, values, samples)
    ensures Sorted(Earlier(), samples)
  {
    DistinctPermutation(values, samples);
    forall i, j | 0 <= i < j < |samples|
      ensures Earlier()(samples[i], samples[j])
    {
      var a, b := samples[i], samples[j];
      assert a in multiset(samples) && b in multiset(samples);
      assert NotAfter(rank, a, b) && a.id != b.id;
    }
  }

  lemma SettledAgree(rank: Rank, rows: seq<Sample>, d: Dialect, minutes: int)
    requires IsRank(rank) && DistinctSampleIDs(rows) && TiesSettled(rank, rows)
    requires BackendAgrees(d, Width(minutes, DEFAULT_WIDTH), rows)
    ensures AlwaysAgree(rank, rows, d, minutes)
  {
    forall values, samples | SameSkeleton(rows, values) && Arranged(rank, values, samples)
      ensures FoldResult(samples, minutes) == Buckets(values, d, minutes)
    {
      SkeletonAgrees(rows, values, d, Width(minutes, DEFAULT_WIDTH));
      WindowSeparatesRows(values);
      ArrangedInOrder(rank, values, samples);
      StatementEqualsFold(values, samples, d, minutes);
      LagFollows(samples);
      FoldIsGrouping(LagIn(samples), samples, minutes);
    }
  }

  /** Whether a sample has an earlier one does not depend on the readings. */
  lemma SkeletonHasEarlier(rows: seq<Sample>, values: seq<Sample>, i: nat)
    requires SameSkeleton(rows, values) && i < |rows|
    ensures HasEarlier(rows, rows[i]) <==> HasEarlier(values, values[i])
  {
    if HasEarlier(rows, rows[i]) {
      var j :| 0 <= j < |rows| && NodeKey(rows[j]) == NodeKey(rows[i]) && SqlBefore(rows[j], rows[i]);
      assert values[j] in values;
    }
    if HasEarlier(values, values[i]) {
      var j :| 0 <= j < |values| && NodeKey(values[j]) == NodeKey(values[i]) && SqlBefore(values[j], values[i]);
      assert rows[j] in rows;
    }
  }

  lemma SkeletonAgrees(rows: seq<Sample>, values: seq<Sample>, d: Dialect, w: int)
    requires SameSkeleton(rows, values) && w > 0 && BackendAgrees(d, w, rows)
    ensures BackendAgrees(d, w, values)
  {
    forall s | s in values && HasEarlier(values, s)
      ensures d.Postgres? ==> s.capturedAt >= 0 || s.capturedAt % w == 0
    {
      var i :| 0 <= i < |values| && values[i] == s;
      SkeletonHasEarlier(rows, values, i);
      assert rows[i] in rows;
    }
  }

  // ----- an unsettled tie: readings and an arrangement that tell the forms apart -----

  /** The order that puts the higher ID first among samples of one node ID at one instant. */
  function LastFirst(rank: Rank): (Sample, Sample) -> bool
  {
    (a: Sample, b: Sample) =>
      || a.capturedAt < b.capturedAt
      || (a.capturedAt == b.capturedAt
          && (rank(a.nodeID) < rank(b.nodeID) || (rank(a.nodeID) == rank(b.nodeID) && a.id > b.id)))
  }

  lemma LastFirstArranges(rank: Rank, values: seq<Sample>)
    requires DistinctSampleIDs(values)
    ensures Arranged(rank, values, Sort(LastFirst(rank), values))
    ensures Sorted(LastFirst(rank), Sort(LastFirst(rank), values))
  {
    var samples := Sort(LastFirst(rank), values);
    SortIsSorted(LastFirst(rank), values);
    SortKeepsRows(LastFirst(rank), values);
    forall i, j | 0 <= i < j < |samples|
      ensures NotAfter(rank, samples[i], samples[j])
    {
      assert LastFirst(rank)(samples[i], samples[j]);
    }
  }

  /** Readings that fall once, after `a` in the order of the window. */
  function FallAfter(a: Sample, s: Sample): Sample
  {
    s.(counters := Counters(if SqlBefore(a, s) then 0 else 1, 0, 0, 0, 0, 0))
  }

  function FallsAfter(a: Sample, rows: seq<Sample>): (r: seq<Sample>)
    ensures |r| == |rows| && forall i :: 0 <= i < |rows| ==> r[i] == FallAfter(a, rows[i])
  {
    seq(|rows|, i requires 0 <= i < |rows| => FallAfter(a, rows[i]))
  }

  /** So the statement sees no rise. */
  lemma {:induction false} NoRise(a: Sample, rows: seq<Sample>, part: seq<Sample>)
    requires WindowSeparates(rows) && (forall s :: s in part ==> s in rows)
    requires forall s :: s in rows ==> s == FallAfter(a, s)
    ensures SumSeq(part, DeltaOf(LagIn(rows), DiskRead)) == 0
    decreases |part|
  {
    if part != [] {
      var s := part[|part| - 1];
      assert s in part;
      assert forall x :: x in part[..|part| - 1] ==> x in part;
      NoRise(a, rows, part[..|part| - 1]);
      LagPrecedes(rows, s);
      NoRiseAt(a, Lag(rows, s), s);
    }
  }

  lemma NoRiseAt(a: Sample, lag: Option<Sample>, s: Sample)
    requires s == FallAfter(a, s)
    requires lag.Some? ==> SqlBefore(lag.value, s) && lag.value == FallAfter(a, lag.value)
    ensures lag.Some? ==> NonNegativeDelta(At(s.counters, DiskRead), At(lag.value.counters, DiskRead)) == 0
  {
  }

  /** What each sample follows in the order of the fold. */
  function PositionOf(xs: seq<Sample>, s: Sample): nat
  {
    if xs == [] then 0 else if xs[0] == s then 0 else 1 + PositionOf(xs[1..], s)
  }

  function FoldLag(xs: seq<Sample>): Previous
  {
    (s: Sample) => var i := PositionOf(xs, s); if i <= |xs| then PreviousIn(xs[..i], NodeKey(s)) else None
  }

  lemma {:induction false} PositionAt(xs: seq<Sample>, i: nat)
    requires DistinctSampleIDs(xs) && i < |xs|
    ensures PositionOf(xs, xs[i]) == i
    decreases i
  {
    if i > 0 {
      assert xs[0].id != xs[i].id;
      PositionAt(xs[1..], i - 1);
    }
  }

  lemma FoldLagFollows(xs: seq<Sample>)
    requires DistinctSampleIDs(xs)
    ensures Follows(FoldLag(xs), xs)
  {
    forall i | 0 <= i < |xs|
      ensures FollowsAt(FoldLag(xs), xs, i)
    {
      PositionAt(xs, i);
    }
  }

  predicate Binary(xs: seq<Sample>)
  {
    forall s :: s in xs ==> s.counters.diskRead == 0 || s.counters.diskRead == 1
  }

  /** Between a low and a later high reading of a node there is a rise. */
  lemma {:induction false} RiseBetween(lag: Previous, xs: seq<Sample>, i: nat, j: nat) returns (l: nat)
    requires Follows(lag, xs) && i < j < |xs| && NodeKey(xs[i]) == NodeKey(xs[j])
    requires xs[i].counters.diskRead == 0 && xs[j].counters.diskRead == 1
    requires Binary(xs)
    ensures l < |xs| && lag(xs[l]).Some? && lag(xs[l]).value.counters.diskRead == 0 && xs[l].counters.diskRead == 1
    decreases j
  {
    var q := LatestBefore(lag, xs, i, j);
    assert xs[q] in xs;
    if xs[q].counters.diskRead == 0 {
      l := j;
    } else {
      l := RiseBetween(lag, xs, i, q);
    }
  }

  lemma LatestBefore(lag: Previous, xs: seq<Sample>, i: nat, j: nat) returns (q: nat)
    requires Follows(lag, xs) && i < j < |xs| && NodeKey(xs[i]) == NodeKey(xs[j])
    ensures i <= q < j && lag(xs[j]) == Some(xs[q]) && NodeKey(xs[q]) == NodeKey(xs[j])
  {
    var p := OfNode(NodeKey(xs[j]));
    assert FollowsAt(lag, xs, j);
    q := LastSelected(xs[..j], p, i);
    assert xs[..j][q] == xs[q] && xs[..j][i] == xs[i];
  }

  lemma {:induction false} LastSelected(xs: seq<Sample>, p: Sample -> bool, i: nat) returns (q: nat)
    requires i < |xs| && p(xs[i])
    ensures i <= q < |xs| && p(xs[q]) && Last(Select(xs, p)) == Some(xs[q])
    decreases |xs|
  {
    if p(xs[|xs| - 1]) {
      q := |xs| - 1;
    } else {
      q := LastSelected(xs[..|xs| - 1], p, i);
    }
  }

  lemma {:induction false} SumAtLeast(xs: seq<Sample>, f: Sample -> int, l: nat)
    requires l < |xs| && forall s :: f(s) >= 0
    ensures SumSeq(xs, f) >= f(xs[l])
    decreases |xs|
  {
    if l < |xs| - 1 {
      SumAtLeast(xs[..|xs| - 1], f, l);
    } else {
      SumNonNegative(xs[..|xs| - 1], f);
    }
  }

  lemma {:induction false} SumNonNegative(xs: seq<Sample>, f: Sample -> int)
    requires forall s :: f(s) >= 0
    ensures SumSeq(xs, f) >= 0
    decreases |xs|
  {
    if xs != [] {
      SumNonNegative(xs[..|xs| - 1], f);
    }
  }

  /** The fold sees a rise where the higher ID of a tie comes first. */
  lemma FoldRises(rank: Rank, a: Sample, b: Sample, values: seq<Sample>)
    requires DistinctSampleIDs(values) && (forall s :: s in values ==> s == FallAfter(a, s))
    requires a in values && b in values && NodeKey(a) == NodeKey(b) && a.capturedAt == b.capturedAt && a.id < b.id
    requires rank(b.nodeID) <= rank(a.nodeID)
    ensures var samples := Sort(LastFirst(rank), values);
            DistinctSampleIDs(samples) && SumSeq(samples, DeltaOf(FoldLag(samples), DiskRead)) > 0
  {
    var samples := Sort(LastFirst(rank), values);
    LastFirstArranges(rank, values);
    DistinctPermutation(values, samples);
    SameMembers(values, samples);
    var i, j := FirstThenSecond(LastFirst(rank), samples, b, a);
    FoldLagFollows(samples);
    RiseShows(FoldLag(samples), samples, i, j);
  }

  lemma RiseShows(lag: Previous, xs: seq<Sample>, i: nat, j: nat)
    requires Follows(lag, xs) && i < j < |xs| && NodeKey(xs[i]) == NodeKey(xs[j])
    requires xs[i].counters.diskRead == 0 && xs[j].counters.diskRead == 1
    requires Binary(xs)
    ensures SumSeq(xs, DeltaOf(lag, DiskRead)) > 0
  {
    var l := RiseBetween(lag, xs, i, j);
    RiseCounts(lag, xs, l);
  }

  lemma RiseCounts(lag: Previous, xs: seq<Sample>, l: nat)
    requires l < |xs| && lag(xs[l]).Some? && lag(xs[l]).value.counters.diskRead == 0 && xs[l].counters.diskRead == 1
    ensures SumSeq(xs, DeltaOf(lag, DiskRead)) > 0
  {
    DeltasAreNonNegative(lag);
    SumAtLeast(xs, DeltaOf(lag, DiskRead), l);
  }

  lemma DeltasAreNonNegative(lag: Previous)
    ensures forall s :: DeltaOf(lag, DiskRead)(s) >= 0
  {
    forall s: Sample
      ensures DeltaOf(lag, DiskRead)(s) >= 0
    {
      if lag(s).Some? {
        assert NonNegativeDelta(At(s.counters, DiskRead), At(lag(s).value.counters, DiskRead)) >= 0;
      }
    }
  }

  lemma SameMembers(a: seq<Sample>, b: seq<Sample>)
    requires multiset(a) == multiset(b)
    ensures forall s :: s in a <==> s in b
  {
    assert forall s :: s in a <==> s in multiset(a);
    assert forall s :: s in b <==> s in multiset(b);
  }

  lemma FirstThenSecond(less: (Sample, Sample) -> bool, xs: seq<Sample>, x: Sample, y: Sample) returns (i: nat, j: nat)
    requires Sorted(less, xs) && x in xs && y in xs && x != y && !less(y, x)
    ensures i < j < |xs| && xs[i] == x && xs[j] == y
  {
    i :| 0 <= i < |xs| && xs[i] == x;
    j :| 0 <= j < |xs| && xs[j] == y;
  }

  lemma UnsettledDisagree(rank: Rank, rows: seq<Sample>, a: Sample, b: Sample, d: Dialect, minutes: int)
    requires DistinctSampleIDs(rows) && a in rows && b in rows
    requires NodeKey(a) == NodeKey(b) && a.capturedAt == b.capturedAt && a.id < b.id && rank(b.nodeID) <= rank(a.nodeID)
    ensures !AlwaysAgree(rank, rows, d, minutes)
  {
    var values := FallsAfter(a, rows);
    var samples := Sort(LastFirst(rank), values);
    LastFirstArranges(rank, values);
    assert FallAfter(a, a) in values && FallAfter(a, b) in values;
    SameFalls(a, values);
    FoldRises(rank, FallAfter(a, a), FallAfter(a, b), values);
    WindowSeparatesRows(values);
    NoRise(a, values, values);
    TotalsDiffer(values, samples, d, minutes);
  }

  lemma SameFalls(a: Sample, values: seq<Sample>)
    requires forall s :: s in values ==> s == FallAfter(a, s)
    ensures forall s :: s in values ==> s == FallAfter(FallAfter(a, a), s)
  {
    assert forall s :: FallAfter(FallAfter(a, a), s) == FallAfter(a, s);
  }

  lemma TotalsDiffer(values: seq<Sample>, samples: seq<Sample>, d: Dialect, minutes: int)
    requires DistinctSampleIDs(samples)
    requires SumSeq(values, DeltaOf(LagIn(values), DiskRead)) == 0 < SumSeq(samples, DeltaOf(FoldLag(samples), DiskRead))
    ensures FoldResult(samples, minutes) != Buckets(values, d, minutes)
  {
    FoldLagFollows(samples);
    FoldIsGrouping(FoldLag(samples), samples, minutes);
    DeltaTotal(FoldLag(samples), samples, EpochOf(Sqlite, minutes), DiskRead);
    DeltaTotal(LagIn(values), values, EpochOf(d, minutes), DiskRead);
  }

  // ----- an instant that the backend puts in another bucket: readings that rise there only -----

  /** Readings of one node that rise once, at `s`. */
  function RiseAt(s: Sample, x: Sample): Sample
  {
    x.(counters := Counters(if NodeKey(x) == NodeKey(s) && !SqlBefore(x, s) then 1 else 0, 0, 0, 0, 0, 0))
  }

  function RisesAt(s: Sample, rows: seq<Sample>): (r: seq<Sample>)
    ensures |r| == |rows| && forall i :: 0 <= i < |rows| ==> r[i] == RiseAt(s, rows[i])
  {
    seq(|rows|, i requires 0 <= i < |rows| => RiseAt(s, rows[i]))
  }

  /** The statement sees the rise at `s` and nowhere else. */
  lemma OnlyRise(s: Sample, values: seq<Sample>, x: Sample)
    requires WindowSeparates(values) && DistinctSampleIDs(values) && s in values && x in values
    requires forall v :: v in values ==> v == RiseAt(s, v)
    ensures DeltaOf(LagIn(values), DiskRead)(x) == if x == s && Lag(values, s).Some? then 1 else 0
  {
    LagPrecedes(values, x);
    if Lag(values, x).Some? {
      if NodeKey(x) == NodeKey(s) && SqlBefore(s, x) {
        LagReaches(values, s, x);
      }
      if x != s {
        SameIDSameSample(values, s, x);
      }
      assert Lag(values, x).value == RiseAt(s, Lag(values, x).value) && x == RiseAt(s, x);
      RiseBetweenTwo(s, Lag(values, x).value, x);
    }
  }

  lemma RiseBetweenTwo(s: Sample, y: Sample, x: Sample)
    requires y == RiseAt(s, y) && x == RiseAt(s, x) && NodeKey(y) == NodeKey(x) && SqlBefore(y, x) && (x != s ==> x.id != s.id)
    requires NodeKey(x) == NodeKey(s) && SqlBefore(s, x) ==> y == s || SqlBefore(s, y)
    ensures NonNegativeDelta(At(x.counters, DiskRead), At(y.counters, DiskRead)) == if x == s then 1 else 0
  {
  }

  lemma SameIDSameSample(values: seq<Sample>, a: Sample, b: Sample)
    requires DistinctSampleIDs(values) && a in values && b in values && a != b
    ensures a.id != b.id
  {
    var i :| 0 <= i < |values| && values[i] == a;
    var j :| 0 <= j < |values| && values[j] == b;
    assert values[i].id != values[j].id;
  }

  lemma {:induction false} SumOfZeros(xs: seq<Sample>, f: Sample -> int)
    requires forall x :: x in xs ==> f(x) == 0
    ensures SumSeq(xs, f) == 0
    decreases |xs|
  {
    if xs != [] {
      assert forall x :: x in xs[..|xs| - 1] ==> x in xs;
      SumOfZeros(xs[..|xs| - 1], f);
    }
  }

  lemma BucketsTellApart(s: Sample, values: seq<Sample>, start: Epoch, other: Epoch)
    requires WindowSeparates(values) && DistinctSampleIDs(values) && s in values && Lag(values, s).Some?
    requires (forall v :: v in values ==> v == RiseAt(s, v)) && start(s.capturedAt) != other(s.capturedAt)
    ensures Grouped(LagIn(values), values, start) != Grouped(LagIn(values), values, other)
  {
    var lag, e := LagIn(values), start(s.capturedAt);
    var here, there := Select(values, InBucket(lag, start, e)), Select(values, InBucket(lag, other, e));
    var f := DeltaOf(lag, DiskRead);
    SelectMembers(values, InBucket(lag, start, e));
    SelectMembers(values, InBucket(lag, other, e));
    forall x | x in there
      ensures f(x) == 0
    {
      OnlyRise(s, values, x);
    }
    SumOfZeros(there, f);
    OnlyRise(s, values, s);
    DeltasAreNonNegative(lag);
    var l :| 0 <= l < |here| && here[l] == s;
    SumAtLeast(here, f, l);
    assert e in Epochs(lag, values, start);
    DiffersAt(lag, values, start, other, e);
  }

  lemma DiffersAt(lag: Previous, values: seq<Sample>, start: Epoch, other: Epoch, e: int)
    requires e in Epochs(lag, values, start)
    requires SumSeq(Select(values, InBucket(lag, start, e)), DeltaOf(lag, DiskRead))
          != SumSeq(Select(values, InBucket(lag, other, e)), DeltaOf(lag, DiskRead))
    ensures Grouped(lag, values, start) != Grouped(lag, values, other)
  {
    var a, b := Grouped(lag, values, start), Grouped(lag, values, other);
    assert e in a;
    if e in b {
      assert a[e].deltas.diskRead != b[e].deltas.diskRead;
    }
  }

  lemma MovedInstantDisagrees(rank: Rank, rows: seq<Sample>, i: nat, d: Dialect, minutes: int)
    requires IsRank(rank) && DistinctSampleIDs(rows) && TiesSettled(rank, rows) && i < |rows| && HasEarlier(rows, rows[i])
    requires EpochOf(d, minutes)(rows[i].capturedAt) != EpochOf(Sqlite, minutes)(rows[i].capturedAt)
    ensures !AlwaysAgree(rank, rows, d, minutes)
  {
    var values := RisesAt(rows[i], rows);
    var samples := Sort(LastFirst(rank), values);
    assert SameSkeleton(rows, values);
    LastFirstArranges(rank, values);
    SettledAgree(rank, rows, Sqlite, minutes);
    assert FoldResult(samples, minutes) == Buckets(values, Sqlite, minutes);
    RisingBucketsDiffer(rows, i, d, minutes);
  }

  lemma {:induction false} RisingBucketsDiffer(rows: seq<Sample>, i: nat, d: Dialect, minutes: int)
    requires DistinctSampleIDs(rows) && i < |rows| && HasEarlier(rows, rows[i])
    requires EpochOf(d, minutes)(rows[i].capturedAt) != EpochOf(Sqlite, minutes)(rows[i].capturedAt)
    ensures Buckets(RisesAt(rows[i], rows), d, minutes) != Buckets(RisesAt(rows[i], rows), Sqlite, minutes)
  {
    var values := RisesAt(rows[i], rows);
    var s := values[i];
    assert forall v :: v in values ==> v == RiseAt(s, v);
    SkeletonHasEarlier(rows, values, i);
    var y :| y in values && NodeKey(y) == NodeKey(s) && SqlBefore(y, s);
    WindowSeparatesRows(values);
    LagReaches(values, y, s);
    BucketsTellApart(s, values, EpochOf(d, minutes), EpochOf(Sqlite, minutes));
  }

  /** The two forms agree on all readings and in every order the sort may leave if and only if ties are
      settled and the backend puts every sample that has an earlier one in the bucket the program does. */
  lemma FormsAgreeIff(rank: Rank, rows: seq<Sample>, d: Dialect, minutes: int)
    requires IsRank(rank) && DistinctSampleIDs(rows)
    ensures AlwaysAgree(rank, rows, d, minutes) <==> TiesSettled(rank, rows) && BackendAgrees(d, Width(minutes, DEFAULT_WIDTH), rows)
  {
    if !TiesSettled(rank, rows) {
      var i, j :| 0 <= i < j < |rows| && !Settled(rank, rows[i], rows[j]);
      assert rows[i].id != rows[j].id && rows[i] in rows && rows[j] in rows;
      if rows[i].id < rows[j].id {
        UnsettledDisagree(rank, rows, rows[i], rows[j], d, minutes);
      } else {
        UnsettledDisagree(rank, rows, rows[j], rows[i], d, minutes);
      }
    } else if BackendAgrees(d, Width(minutes, DEFAULT_WIDTH), rows) {
      SettledAgree(rank, rows, d, minutes);
    } else {
      var w := Width(minutes, DEFAULT_WIDTH);
      var i :| 0 <= i < |rows| && HasEarlier(rows, rows[i]) && !(rows[i].capturedAt >= 0 || rows[i].capturedAt % w == 0);
      EpochsAgreeIff(w, rows[i].capturedAt);
      MovedInstantDisagrees(rank, rows, i, d, minutes);
    }
  }
}

/** Counter deltas of metric snapshots per bucket: the window-function statement
    (LAG over each node's samples) and the fold in memory that replaces it. */
module CounterDeltas {
  import opened Wrappers
  import opened Sums
  import opened SqlDialect
  import opened Sorting

  datatype Counter = DiskRead | DiskWrite | NetworkRx | NetworkTx | OpenrestyRx | OpenrestyTx

  datatype Counters = Counters(diskRead: int, diskWrite: int, networkRx: int, networkTx: int, openrestyRx: int, openrestyTx: int)

  function At(v: Counters, c: Counter): int
  {
    match c
    case DiskRead => v.diskRead
    case DiskWrite => v.diskWrite
    case NetworkRx => v.networkRx
    case NetworkTx => v.networkTx
    case OpenrestyRx => v.openrestyRx
    case OpenrestyTx => v.openrestyTx
  }

  datatype Sample = Sample(id: nat, nodeID: string, capturedAt: int, counters: Counters)

  const NO_COUNTERS: Counters := Counters(0, 0, 0, 0, 0, 0)
  const UNKNOWN_NODE: string := "__unknown__"
  const DEFAULT_WIDTH: int := 3600

  function NodeKey(s: Sample): string
  {
    if s.nodeID == "" then UNKNOWN_NODE else s.nodeID
  }

  datatype DeltaBucket = DeltaBucket(deltas: Counters, samplesWithPrevious: int, reportedNodeCount: int)

  function NonNegativeDelta(current: int, previous: int): int
  {
    if current < previous then 0 else current - previous
  }

  // ----- the window function -----

  predicate SqlBefore(a: Sample, b: Sample)
  {
    a.capturedAt < b.capturedAt || (a.capturedAt == b.capturedAt && a.id < b.id)
  }

  function SqlOrder(): (Sample, Sample) -> bool
  {
    (a: Sample, b: Sample) => SqlBefore(a, b)
  }

  function OfNode(key: string): Sample -> bool
  {
    (s: Sample) => NodeKey(s) == key
  }

  /** PARTITION BY node_key ORDER BY captured_at, id. */
  function Partition(rows: seq<Sample>, key: string): seq<Sample>
  {
    Sort(SqlOrder(), Select(rows, OfNode(key)))
  }

  /** The row before `s`. */
  function RowBefore(p: seq<Sample>, s: Sample): Option<Sample>
  {
    if |p| < 2 then None
    else if p[|p| - 1] == s then Some(p[|p| - 2])
    else RowBefore(p[..|p| - 1], s)
  }

  function Lag(rows: seq<Sample>, s: Sample): Option<Sample>
  {
    RowBefore(Partition(rows, NodeKey(s)), s)
  }

  /** The previous row of each row, as the new columns of the statement. */
  type Previous = Sample -> Option<Sample>

  function LagIn(rows: seq<Sample>): Previous
  {
    (s: Sample) => Lag(rows, s)
  }

  function DeltaOf(lag: Previous, c: Counter): Sample -> int
  {
    (s: Sample) => if lag(s).None? then 0 else NonNegativeDelta(At(s.counters, c), At(lag(s).value.counters, c))
  }

  /** The bucket of each instant. */
  type Epoch = int -> int

  function EpochOf(d: Dialect, minutes: int): Epoch
  {
    (t: int) => BucketStart(d, Width(minutes, DEFAULT_WIDTH), t)
  }

  function InBucket(lag: Previous, start: Epoch, epoch: int): Sample -> bool
  {
    (s: Sample) => lag(s).Some? && start(s.capturedAt) == epoch
  }

  function Nodes(inside: seq<Sample>): set<string>
  {
    set s | s in inside && s.nodeID != "" :: s.nodeID
  }

  function Deltas(lag: Previous, inside: seq<Sample>): Counters
  {
    Counters(
      SumSeq(inside, DeltaOf(lag, DiskRead)), SumSeq(inside, DeltaOf(lag, DiskWrite)),
      SumSeq(inside, DeltaOf(lag, NetworkRx)), SumSeq(inside, DeltaOf(lag, NetworkTx)),
      SumSeq(inside, DeltaOf(lag, OpenrestyRx)), SumSeq(inside, DeltaOf(lag, OpenrestyTx)))
  }

  function Epochs(lag: Previous, rows: seq<Sample>, start: Epoch): set<int>
  {
    set s | s in rows && lag(s).Some? :: start(s.capturedAt)
  }

  function Bucket(lag: Previous, inside: seq<Sample>): DeltaBucket
  {
    DeltaBucket(Deltas(lag, inside), |inside|, |Nodes(inside)|)
  }

  /** GROUP BY bucket_epoch over the rows that have a previous row. */
  function Grouped(lag: Previous, rows: seq<Sample>, start: Epoch): map<int, DeltaBucket>
  {
    map e | e in Epochs(lag, rows, start) :: Bucket(lag, Select(rows, InBucket(lag, start, e)))
  }

  /** The whole statement. */
  function Buckets(rows: seq<Sample>, d: Dialect, minutes: int): map<int, DeltaBucket>
  {
    Grouped(LagIn(rows), rows, EpochOf(d, minutes))
  }

  // ----- the fold -----

  /** The samples differ in node or instant. */
  predicate Apart(a: Sample, b: Sample)
  {
    NodeKey(a) != NodeKey(b) || a.capturedAt != b.capturedAt
  }

  /** In the order of time, and one node's samples in the order of the window. */
  function Earlier(): (Sample, Sample) -> bool
  {
    (a: Sample, b: Sample) => a.capturedAt <= b.capturedAt && (NodeKey(a) == NodeKey(b) ==> SqlBefore(a, b))
  }

  ghost predicate OnePerInstant(rows: seq<Sample>)
  {
    Separates((a: Sample, b: Sample) => Apart(a, b), rows)
  }

  ghost predicate DistinctSampleIDs(rows: seq<Sample>)
  {
    forall i, j :: 0 <= i < j < |rows| ==> rows[i].id != rows[j].id
  }

  function WindowOrder(): (Sample, Sample) -> bool
  {
    (a: Sample, b: Sample) => NodeKey(a) == NodeKey(b) ==> SqlBefore(a, b)
  }

  /** The window orders each node's rows: their instants differ, or their IDs do. */
  ghost predicate WindowSeparates(rows: seq<Sample>)
  {
    Separates(WindowOrder(), rows)
  }

  lemma WindowSeparatesRows(rows: seq<Sample>)
    requires OnePerInstant(rows) || DistinctSampleIDs(rows)
    ensures WindowSeparates(rows)
  {
    forall i, j | 0 <= i < j < |rows|
      ensures WindowOrder()(rows[i], rows[j]) || WindowOrder()(rows[j], rows[i])
    {
      if OnePerInstant(rows) {
        assert Apart(rows[i], rows[j]) || Apart(rows[j], rows[i]);
      }
    }
  }

  function Last(p: seq<Sample>): Option<Sample>
  {
    if p == [] then None else Some(p[|p| - 1])
  }

  /** What the fold remembers about each node: its latest sample so far. */
  ghost predicate Remembers(previous: map<string, Sample>, done: seq<Sample>)
  {
    forall key :: if key in previous then Last(Select(done, OfNode(key))) == Some(previous[key])
                  else Select(done, OfNode(key)) == []
  }

  ghost predicate Accumulated(lag: Previous, done: seq<Sample>, start: Epoch, buckets: map<int, DeltaBucket>, reported: map<int, set<string>>)
  {
    buckets.Keys == Epochs(lag, done, start) && forall e :: AccumulatedAt(lag, done, start, buckets, reported, e)
  }

  ghost predicate AccumulatedAt(lag: Previous, done: seq<Sample>, start: Epoch, buckets: map<int, DeltaBucket>, reported: map<int, set<string>>, e: int)
  {
    UpToDate(lag, Select(done, InBucket(lag, start, e)), BucketAt(buckets, e), NodesAt(reported, e))
  }

  function BucketAt(buckets: map<int, DeltaBucket>, e: int): DeltaBucket
  {
    if e in buckets then buckets[e] else DeltaBucket(NO_COUNTERS, 0, 0)
  }

  function NodesAt(reported: map<int, set<string>>, e: int): set<string>
  {
    if e in reported then reported[e] else {}
  }

  ghost predicate UpToDate(lag: Previous, inside: seq<Sample>, bucket: DeltaBucket, nodes: set<string>)
  {
    nodes == Nodes(inside) && bucket == DeltaBucket(Deltas(lag, inside), |inside|, 0)
  }

  function AddDeltas(b: DeltaBucket, s: Sample, p: Sample): DeltaBucket
  {
    DeltaBucket(
      Counters(
        b.deltas.diskRead + NonNegativeDelta(s.counters.diskRead, p.counters.diskRead),
        b.deltas.diskWrite + NonNegativeDelta(s.counters.diskWrite, p.counters.diskWrite),
        b.deltas.networkRx + NonNegativeDelta(s.counters.networkRx, p.counters.networkRx),
        b.deltas.networkTx + NonNegativeDelta(s.counters.networkTx, p.counters.networkTx),
        b.deltas.openrestyRx + NonNegativeDelta(s.counters.openrestyRx, p.counters.openrestyRx),
        b.deltas.openrestyTx + NonNegativeDelta(s.counters.openrestyTx, p.counters.openrestyTx)),
      b.samplesWithPrevious + 1,
      b.reportedNodeCount)
  }

  datatype FoldState = FoldState(previous: map<string, Sample>, buckets: map<int, DeltaBucket>, reported: map<int, set<string>>)

  /** One iteration: remember the sample; if the node has reported before, add the deltas. */
  function FoldStep(f: FoldState, s: Sample, start: Epoch): FoldState
  {
    var key, epoch := NodeKey(s), start(s.capturedAt);
    var seen := f.(previous := f.previous[key := s]);
    if key !in f.previous then seen else
      seen.(buckets := f.buckets[epoch := AddDeltas(BucketAt(f.buckets, epoch), s, f.previous[key])],
            reported := if s.nodeID == "" then f.reported else f.reported[epoch := NodesAt(f.reported, epoch) + {s.nodeID}])
  }

  function Folded(samples: seq<Sample>, start: Epoch): FoldState
  {
    if samples == [] then FoldState(map[], map[], map[])
    else FoldStep(Folded(samples[..|samples| - 1], start), samples[|samples| - 1], start)
  }

  /** The buckets of the fold. */
  function FoldResult(samples: seq<Sample>, minutes: int): map<int, DeltaBucket>
  {
    var f := Folded(samples, EpochOf(Sqlite, minutes));
    Finished(f.buckets, f.reported)
  }

  /** One pass over the samples. In the order of time and of the window it computes what LAG and
      GROUP BY define, with the truncating division that SQLite and Go share. */
  method FoldInMemory(samples: seq<Sample>, minutes: int) returns (rows: map<int, DeltaBucket>)
    ensures rows == FoldResult(samples, minutes)
    ensures Sorted(Earlier(), samples) ==> rows == Buckets(samples, Sqlite, minutes)
  {
    var start := EpochOf(Sqlite, minutes);
    var buckets: map<int, DeltaBucket> := map[];
    var reported: map<int, set<string>> := map[];
    var previousByNode: map<string, Sample> := map[];
    for i := 0 to |samples|
      invariant FoldState(previousByNode, buckets, reported) == Folded(samples[..i], start)
    {
      var sample := samples[i];
      var key := NodeKey(sample);
      assert samples[..i + 1][..i] == samples[..i];
      if key in previousByNode {
        var epoch := start(sample.capturedAt);
        buckets := buckets[epoch := AddDeltas(BucketAt(buckets, epoch), sample, previousByNode[key])];
        if sample.nodeID != "" {
          reported := reported[epoch := NodesAt(reported, epoch) + {sample.nodeID}];
        }
      }
      previousByNode := previousByNode[key := sample];
    }
    assert samples[..|samples|] == samples;
    rows := Finished(buckets, reported);
    if Sorted(Earlier(), samples) {
      LagFollows(samples);
      FoldIsGrouping(LagIn(samples), samples, minutes);
    }
  }

  /** Whatever the order, the fold groups the samples by what each follows in it. */
  lemma FoldIsGrouping(lag: Previous, samples: seq<Sample>, minutes: int)
    requires Follows(lag, samples)
    ensures FoldResult(samples, minutes) == Grouped(lag, samples, EpochOf(Sqlite, minutes))
  {
    var start := EpochOf(Sqlite, minutes);
    FoldMeaning(lag, samples, |samples|, start);
    assert samples[..|samples|] == samples;
    FinishedIsGrouped(lag, samples, start, Folded(samples, start).buckets, Folded(samples, start).reported);
  }

  lemma {:induction false} FoldMeaning(lag: Previous, samples: seq<Sample>, i: nat, start: Epoch)
    requires Follows(lag, samples) && i <= |samples|
    ensures Remembers(Folded(samples[..i], start).previous, samples[..i])
    ensures Accumulated(lag, samples[..i], start, Folded(samples[..i], start).buckets, Folded(samples[..i], start).reported)
    decreases i
  {
    if i > 0 {
      FoldMeaning(lag, samples, i - 1, start);
      assert samples[..i][..i - 1] == samples[..i - 1];
      assert samples[..i] == samples[..i - 1] + [samples[i - 1]];
      assert FollowsAt(lag, samples, i - 1);
      FoldMeaningStep(lag, samples[..i - 1], samples[i - 1], start, Folded(samples[..i - 1], start));
    }
  }

  lemma FoldMeaningStep(lag: Previous, done: seq<Sample>, s: Sample, start: Epoch, f: FoldState)
    requires Remembers(f.previous, done) && Accumulated(lag, done, start, f.buckets, f.reported)
    requires lag(s) == PreviousIn(done, NodeKey(s))
    ensures Remembers(FoldStep(f, s, start).previous, done + [s])
    ensures Accumulated(lag, done + [s], start, FoldStep(f, s, start).buckets, FoldStep(f, s, start).reported)
  {
    var next := FoldStep(f, s, start);
    RemembersNext(f.previous, done, s);
    if NodeKey(s) in f.previous {
      AccumulatedNext(lag, done, s, start, f.buckets, f.reported, next.buckets, next.reported);
    } else {
      AccumulatedSkip(lag, done, s, start, f.buckets, f.reported);
    }
  }

  /** The node counts are filled in at the end. */
  function Finished(buckets: map<int, DeltaBucket>, reported: map<int, set<string>>): map<int, DeltaBucket>
  {
    map e | e in buckets :: FinishedBucket(buckets, reported, e)
  }

  function FinishedBucket(buckets: map<int, DeltaBucket>, reported: map<int, set<string>>, e: int): DeltaBucket
    requires e in buckets
  {
    buckets[e].(reportedNodeCount := |NodesAt(reported, e)|)
  }

  lemma FinishedIsGrouped(lag: Previous, samples: seq<Sample>, start: Epoch, buckets: map<int, DeltaBucket>, reported: map<int, set<string>>)
    requires Accumulated(lag, samples, start, buckets, reported)
    ensures Finished(buckets, reported) == Grouped(lag, samples, start)
  {
    var finished, grouped := Finished(buckets, reported), Grouped(lag, samples, start);
    SameKeys(lag, samples, start, buckets, reported);
    forall e | e in finished.Keys
      ensures finished[e] == grouped[e]
    {
      assert AccumulatedAt(lag, samples, start, buckets, reported, e);
      FinishedEntry(lag, samples, start, buckets, reported, e);
    }
    SameMap(finished, grouped);
  }

  lemma SameKeys(lag: Previous, samples: seq<Sample>, start: Epoch, buckets: map<int, DeltaBucket>, reported: map<int, set<string>>)
    requires buckets.Keys == Epochs(lag, samples, start)
    ensures Finished(buckets, reported).Keys == Grouped(lag, samples, start).Keys == buckets.Keys
  {
  }

  lemma FinishedEntry(lag: Previous, samples: seq<Sample>, start: Epoch, buckets: map<int, DeltaBucket>, reported: map<int, set<string>>, e: int)
    requires buckets.Keys == Epochs(lag, samples, start) && e in buckets.Keys
    requires AccumulatedAt(lag, samples, start, buckets, reported, e)
    ensures e in Finished(buckets, reported) && e in Grouped(lag, samples, start)
    ensures Finished(buckets, reported)[e] == Grouped(lag, samples, start)[e]
  {
  }

  lemma SelectNext(done: seq<Sample>, s: Sample, p: Sample -> bool)
    ensures Select(done + [s], p) == if p(s) then Select(done, p) + [s] else Select(done, p)
  {
    assert (done + [s])[..|done|] == done;
  }

  lemma RemembersNext(previous: map<string, Sample>, done: seq<Sample>, s: Sample)
    requires Remembers(previous, done)
    ensures Remembers(previous[NodeKey(s) := s], done + [s])
  {
    forall key
      ensures Select(done + [s], OfNode(key)) == if NodeKey(s) == key then Select(done, OfNode(key)) + [s] else Select(done, OfNode(key))
    {
      SelectNext(done, s, OfNode(key));
    }
  }

  lemma AccumulatedSkip(lag: Previous, done: seq<Sample>, s: Sample, start: Epoch, buckets: map<int, DeltaBucket>, reported: map<int, set<string>>)
    requires Accumulated(lag, done, start, buckets, reported)
    requires lag(s).None?
    ensures Accumulated(lag, done + [s], start, buckets, reported)
  {
    assert Epochs(lag, done + [s], start) == Epochs(lag, done, start);
    forall e
      ensures AccumulatedAt(lag, done + [s], start, buckets, reported, e)
    {
      assert AccumulatedAt(lag, done, start, buckets, reported, e);
      SelectNext(done, s, InBucket(lag, start, e));
    }
  }

  lemma AccumulatedNext(lag: Previous, done: seq<Sample>, s: Sample, start: Epoch, buckets: map<int, DeltaBucket>, reported: map<int, set<string>>,
                        after: map<int, DeltaBucket>, reportedAfter: map<int, set<string>>)
    requires Accumulated(lag, done, start, buckets, reported)
    requires lag(s).Some?
    requires after == buckets[start(s.capturedAt) := AddDeltas(BucketAt(buckets, start(s.capturedAt)), s, lag(s).value)]
    requires reportedAfter == if s.nodeID == "" then reported
                              else reported[start(s.capturedAt) := NodesAt(reported, start(s.capturedAt)) + {s.nodeID}]
    ensures Accumulated(lag, done + [s], start, after, reportedAfter)
  {
    EpochsNext(lag, done, s, start);
    forall e
      ensures AccumulatedAt(lag, done + [s], start, after, reportedAfter, e)
    {
      assert AccumulatedAt(lag, done, start, buckets, reported, e);
      AccumulatedNextAt(lag, done, s, start, buckets, reported, after, reportedAfter, e);
    }
  }

  lemma AccumulatedNextAt(lag: Previous, done: seq<Sample>, s: Sample, start: Epoch, buckets: map<int, DeltaBucket>, reported: map<int, set<string>>,
                          after: map<int, DeltaBucket>, reportedAfter: map<int, set<string>>, e: int)
    requires AccumulatedAt(lag, done, start, buckets, reported, e)
    requires lag(s).Some?
    requires after == buckets[start(s.capturedAt) := AddDeltas(BucketAt(buckets, start(s.capturedAt)), s, lag(s).value)]
    requires reportedAfter == if s.nodeID == "" then reported
                              else reported[start(s.capturedAt) := NodesAt(reported, start(s.capturedAt)) + {s.nodeID}]
    ensures AccumulatedAt(lag, done + [s], start, after, reportedAfter, e)
  {
    var inside := Select(done, InBucket(lag, start, e));
    SelectNext(done, s, InBucket(lag, start, e));
    BucketNext(lag, inside, s, BucketAt(buckets, e), NodesAt(reported, e), start(s.capturedAt) == e,
               BucketAt(after, e), NodesAt(reportedAfter, e));
  }

  lemma EpochsNext(lag: Previous, done: seq<Sample>, s: Sample, start: Epoch)
    requires lag(s).Some?
    ensures Epochs(lag, done + [s], start) == Epochs(lag, done, start) + {start(s.capturedAt)}
  {
    assert forall x :: x in done + [s] <==> x in done || x == s;
    assert s in done + [s];
  }

  lemma BucketNext(lag: Previous, inside: seq<Sample>, s: Sample, bucket: DeltaBucket, nodes: set<string>, here: bool,
                   bucketAfter: DeltaBucket, nodesAfter: set<string>)
    requires lag(s).Some? && UpToDate(lag, inside, bucket, nodes)
    requires bucketAfter == if here then AddDeltas(bucket, s, lag(s).value) else bucket
    requires nodesAfter == if here && s.nodeID != "" then nodes + {s.nodeID} else nodes
    ensures UpToDate(lag, if here then inside + [s] else inside, bucketAfter, nodesAfter)
  {
    forall c: Counter
      ensures SumSeq(inside + [s], DeltaOf(lag, c)) == SumSeq(inside, DeltaOf(lag, c)) + DeltaOf(lag, c)(s)
    {
      SumSeqAppend(inside, s, DeltaOf(lag, c));
    }
    assert Nodes(inside + [s]) == if s.nodeID != "" then Nodes(inside) + {s.nodeID} else Nodes(inside);
  }

  // ----- why the fold sees what LAG sees -----

  lemma {:induction false} RowBeforeAt(p: seq<Sample>, j: nat)
    requires Sorted(SqlOrder(), p) && j < |p|
    ensures RowBefore(p, p[j]) == if j == 0 then None else Some(p[j - 1])
    decreases |p|
  {
    if |p| >= 2 && j < |p| - 1 {
      assert SqlBefore(p[j], p[|p| - 1]);
      RowBeforeAt(p[..|p| - 1], j);
    }
  }

  lemma PartitionSeparates(rows: seq<Sample>, key: string)
    requires WindowSeparates(rows)
    ensures Separates(SqlOrder(), Select(rows, OfNode(key)))
  {
    SelectSeparates(WindowOrder(), rows, OfNode(key));
    SelectMembers(rows, OfNode(key));
    var p := Select(rows, OfNode(key));
    forall i, j | 0 <= i < j < |p|
      ensures SqlBefore(p[i], p[j]) || SqlBefore(p[j], p[i])
    {
      assert p[i] in p && p[j] in p;
      assert WindowOrder()(p[i], p[j]) || WindowOrder()(p[j], p[i]);
    }
  }

  lemma SortedPartition(xs: seq<Sample>, key: string)
    requires Sorted(Earlier(), xs)
    ensures Partition(xs, key) == Select(xs, OfNode(key))
    ensures Sorted(SqlOrder(), Select(xs, OfNode(key)))
  {
    var p := Select(xs, OfNode(key));
    SelectSorted(Earlier(), xs, OfNode(key));
    SelectMembers(xs, OfNode(key));
    forall i, j | 0 <= i < j < |p|
      ensures SqlBefore(p[i], p[j])
    {
      assert p[i] in p && p[j] in p;
      assert Earlier()(p[i], p[j]);
    }
    SortIsSorted(SqlOrder(), p);
    SortedIsUnique(SqlOrder(), p, Sort(SqlOrder(), p));
  }

  /** The latest earlier sample of the node is its previous row in the partition. */
  lemma LagIsPrevious(xs: seq<Sample>, i: nat)
    requires Sorted(Earlier(), xs) && i < |xs|
    ensures Lag(xs, xs[i]) == Last(Select(xs[..i], OfNode(NodeKey(xs[i]))))
  {
    var p := OfNode(NodeKey(xs[i]));
    SortedPartition(xs, NodeKey(xs[i]));
    SelectAround(xs, i, p);
    RowBeforeAt(Select(xs, p), |Select(xs[..i], p)|);
  }

  lemma SelectAround(xs: seq<Sample>, i: nat, p: Sample -> bool)
    requires i < |xs| && p(xs[i])
    ensures var j := |Select(xs[..i], p)|;
            j < |Select(xs, p)| && Select(xs, p)[j] == xs[i] && Select(xs, p)[..j] == Select(xs[..i], p)
  {
    assert xs == xs[..i] + [xs[i]] + xs[i + 1..];
    SelectConcat(xs[..i] + [xs[i]], xs[i + 1..], p);
    SelectNext(xs[..i], xs[i], p);
  }

  lemma PartitionPermutation(a: seq<Sample>, b: seq<Sample>, key: string)
    requires multiset(a) == multiset(b) && WindowSeparates(a)
    ensures Partition(a, key) == Partition(b, key)
  {
    SelectPermutation(a, b, OfNode(key));
    var p, q := Select(a, OfNode(key)), Select(b, OfNode(key));
    PartitionSeparates(a, key);
    SortPermutation(SqlOrder(), p, q);
  }

  /** Both backends put an instant in the same bucket exactly when it is not negative, or
      a bucket boundary. */
  lemma EpochsAgreeIff(w: int, t: int)
    requires w > 0
    ensures BucketStart(Postgres, w, t) == BucketStart(Sqlite, w, t) <==> t >= 0 || t % w == 0
  {
    if t < 0 {
      var q, n := t / w, (-t) / w;
      assert q * w <= t < q * w + w;
      assert n * w <= -t < n * w + w;
      NegationKeepsMultiples(t, w, n);
      assert -n * w == -(n * w);
      assert TruncatedQuotient(t, w) * w == -(n * w);
    }
  }

  /** The previous row comes before in the window. */
  lemma LagPrecedes(rows: seq<Sample>, s: Sample)
    requires WindowSeparates(rows) && s in rows
    ensures Lag(rows, s).Some? ==>
              Lag(rows, s).value in rows && NodeKey(Lag(rows, s).value) == NodeKey(s) && SqlBefore(Lag(rows, s).value, s)
  {
    var key := NodeKey(s);
    var p := Partition(rows, key);
    PartitionSeparates(rows, key);
    SortIsSorted(SqlOrder(), Select(rows, OfNode(key)));
    SelectMembers(rows, OfNode(key));
    assert s in p;
    var j :| 0 <= j < |p| && p[j] == s;
    RowBeforeAt(p, j);
    if j > 0 {
      assert SqlBefore(p[j - 1], p[j]);
      assert p[j - 1] in p;
    }
  }

  /** And no row of the node lies between them. */
  lemma LagReaches(rows: seq<Sample>, y: Sample, s: Sample)
    requires WindowSeparates(rows) && s in rows && y in rows && NodeKey(y) == NodeKey(s) && SqlBefore(y, s)
    ensures Lag(rows, s).Some? && (Lag(rows, s).value == y || SqlBefore(y, Lag(rows, s).value))
  {
    var key := NodeKey(s);
    var p := Partition(rows, key);
    PartitionSeparates(rows, key);
    SortIsSorted(SqlOrder(), Select(rows, OfNode(key)));
    SelectMembers(rows, OfNode(key));
    RowBeforeReaches(p, y, s);
  }

  lemma RowBeforeReaches(p: seq<Sample>, y: Sample, s: Sample)
    requires Sorted(SqlOrder(), p) && y in p && s in p && SqlBefore(y, s)
    ensures RowBefore(p, s).Some? && (RowBefore(p, s).value == y || SqlBefore(y, RowBefore(p, s).value))
  {
    var i, j :| 0 <= i < |p| && p[i] == y && 0 <= j < |p| && p[j] == s;
    assert i < j;
    RowBeforeAt(p, j);
  }

  /** The node has an earlier sample, so this one has a delta. */
  predicate HasEarlier(rows: seq<Sample>, s: Sample)
  {
    exists y :: y in rows && NodeKey(y) == NodeKey(s) && SqlBefore(y, s)
  }

  predicate BackendAgrees(d: Dialect, w: int, rows: seq<Sample>)
    requires w > 0
  {
    d.Postgres? ==> forall s :: s in rows && HasEarlier(rows, s) ==> s.capturedAt >= 0 || s.capturedAt % w == 0
  }

  /** The statement returns what the fold returns on the same rows in the order of time and of the
      window, in whatever order they come. */
  lemma StatementEqualsFold(rows: seq<Sample>, samples: seq<Sample>, d: Dialect, minutes: int)
    requires multiset(rows) == multiset(samples)
    requires WindowSeparates(rows) && Sorted(Earlier(), samples)
    requires BackendAgrees(d, Width(minutes, DEFAULT_WIDTH), rows)
    ensures Buckets(rows, d, minutes) == Buckets(samples, Sqlite, minutes)
  {
    var lag, fold := LagIn(rows), LagIn(samples);
    forall s | s in rows && lag(s).Some?
      ensures EpochOf(d, minutes)(s.capturedAt) == EpochOf(Sqlite, minutes)(s.capturedAt)
    {
      LagPrecedes(rows, s);
      assert HasEarlier(rows, s);
      EpochsAgreeIff(Width(minutes, DEFAULT_WIDTH), s.capturedAt);
    }
    forall s: Sample
      ensures lag(s) == fold(s)
    {
      PartitionPermutation(rows, samples, NodeKey(s));
    }
    GroupsAgree(rows, samples, lag, fold, EpochOf(d, minutes), EpochOf(Sqlite, minutes));
  }

  lemma GroupsAgree(rows: seq<Sample>, samples: seq<Sample>, lag: Previous, fold: Previous, start: Epoch, other: Epoch)
    requires multiset(rows) == multiset(samples)
    requires forall s :: lag(s) == fold(s)
    requires forall s :: s in rows && lag(s).Some? ==> start(s.capturedAt) == other(s.capturedAt)
    ensures Grouped(lag, rows, start) == Grouped(fold, samples, other)
  {
    EpochsAgree(rows, samples, lag, fold, start, other);
    var a, b := Grouped(lag, rows, start), Grouped(fold, samples, other);
    forall e | e in a.Keys
      ensures a[e] == b[e]
    {
      GroupAgrees(rows, samples, lag, fold, start, other, e);
    }
    SameMap(a, b);
  }

  lemma EpochsAgree(rows: seq<Sample>, samples: seq<Sample>, lag: Previous, fold: Previous, start: Epoch, other: Epoch)
    requires multiset(rows) == multiset(samples) && forall s :: lag(s) == fold(s)
    requires forall s :: s in rows && lag(s).Some? ==> start(s.capturedAt) == other(s.capturedAt)
    ensures Epochs(lag, rows, start) == Epochs(fold, samples, other)
  {
    assert forall s :: s in rows <==> s in multiset(rows);
    assert forall s :: s in samples <==> s in multiset(samples);
  }

  lemma GroupAgrees(rows: seq<Sample>, samples: seq<Sample>, lag: Previous, fold: Previous, start: Epoch, other: Epoch, e: int)
    requires multiset(rows) == multiset(samples) && forall s :: lag(s) == fold(s)
    requires forall s :: s in rows && lag(s).Some? ==> start(s.capturedAt) == other(s.capturedAt)
    ensures Bucket(lag, Select(rows, InBucket(lag, start, e))) == Bucket(fold, Select(samples, InBucket(fold, other, e)))
  {
    SelectCongruence(rows, InBucket(lag, start, e), InBucket(fold, other, e));
    SelectPermutation(rows, samples, InBucket(fold, other, e));
    BucketsAgree(lag, fold, Select(rows, InBucket(lag, start, e)), Select(samples, InBucket(fold, other, e)));
  }

  lemma BucketsAgree(lag: Previous, fold: Previous, a: seq<Sample>, b: seq<Sample>)
    requires multiset(a) == multiset(b) && forall s :: lag(s) == fold(s)
    ensures Bucket(lag, a) == Bucket(fold, b)
  {
    assert forall s :: s in a <==> s in multiset(a);
    assert forall s :: s in b <==> s in multiset(b);
    assert |a| == |multiset(a)| == |multiset(b)| == |b|;
    assert Nodes(a) == Nodes(b);
    forall c: Counter
      ensures SumSeq(a, DeltaOf(lag, c)) == SumSeq(b, DeltaOf(fold, c))
    {
      SumSeqCongruence(a, DeltaOf(lag, c), DeltaOf(fold, c));
      SumSeqPermutation(a, b, DeltaOf(fold, c));
    }
  }

  // ----- one sample of the fold, field by field -----

  /** Samples without a node count as those of one node. */
  predicate SameNode(a: Sample, b: Sample)
  {
    a.nodeID == b.nodeID || (Unknown(a) && Unknown(b))
  }

  predicate Unknown(s: Sample)
  {
    s.nodeID == "" || s.nodeID == "__unknown__"
  }

  lemma SameNodeIff(a: Sample, b: Sample)
    ensures SameNode(a, b) <==> NodeKey(a) == NodeKey(b)
  {
  }

  /** By how much a counter rose; a counter that fell counts for nothing. */
  predicate Rose(total: int, before: int, now: int, was: int)
  {
    (now >= was ==> total == before + now - was) && (now < was ==> total == before)
  }

  /** The counters of a bucket grow by what each rose from sample `p` to sample `s`. */
  predicate Grows(after: Counters, before: Counters, s: Counters, p: Counters)
  {
    && Rose(after.diskRead, before.diskRead, s.diskRead, p.diskRead)
    && Rose(after.diskWrite, before.diskWrite, s.diskWrite, p.diskWrite)
    && Rose(after.networkRx, before.networkRx, s.networkRx, p.networkRx)
    && Rose(after.networkTx, before.networkTx, s.networkTx, p.networkTx)
    && Rose(after.openrestyRx, before.openrestyRx, s.openrestyRx, p.openrestyRx)
    && Rose(after.openrestyTx, before.openrestyTx, s.openrestyTx, p.openrestyTx)
  }

  /** The width of a bucket in seconds; an hour if no minutes are given. */
  function WidthInSeconds(minutes: int): (w: int)
    ensures w > 0
  {
    if minutes > 0 then 60 * minutes else 3600
  }

  /** The bucket of a sample after its node's sample `p`: the deltas and the count grow, the node is
      reported if it is known, and other buckets stay. */
  ghost predicate AddsSample(before: FoldState, after: FoldState, s: Sample, p: Sample, e: int)
  {
    && e in after.buckets
    && Grows(after.buckets[e].deltas, BucketAt(before.buckets, e).deltas, s.counters, p.counters)
    && after.buckets[e].samplesWithPrevious == BucketAt(before.buckets, e).samplesWithPrevious + 1
    && (forall n :: n in NodesAt(after.reported, e) <==> n in NodesAt(before.reported, e) || (n == s.nodeID && n != ""))
    && forall other :: other != e ==> BucketAt(after.buckets, other) == BucketAt(before.buckets, other)
                                      && NodesAt(after.reported, other) == NodesAt(before.reported, other)
  }

  lemma {:induction false} FoldRemembers(samples: seq<Sample>, start: Epoch)
    ensures Remembers(Folded(samples, start).previous, samples)
    decreases |samples|
  {
    if samples != [] {
      var front, s := samples[..|samples| - 1], samples[|samples| - 1];
      FoldRemembers(front, start);
      RemembersNext(Folded(front, start).previous, front, s);
      assert samples == front + [s];
    }
  }

  lemma StepAddsSample(f: FoldState, s: Sample, p: Sample, start: Epoch)
    requires NodeKey(s) in f.previous && f.previous[NodeKey(s)] == p
    ensures AddsSample(f, FoldStep(f, s, start), s, p, start(s.capturedAt))
  {
    var e := start(s.capturedAt);
    AddDeltasGrows(BucketAt(f.buckets, e), s, p);
    assert FoldStep(f, s, start).buckets == f.buckets[e := AddDeltas(BucketAt(f.buckets, e), s, p)];
  }

  lemma AddDeltasGrows(b: DeltaBucket, s: Sample, p: Sample)
    ensures Grows(AddDeltas(b, s, p).deltas, b.deltas, s.counters, p.counters)
    ensures AddDeltas(b, s, p).samplesWithPrevious == b.samplesWithPrevious + 1
  {
  }

  /** What the fold adds at a sample whose node was last seen at position `j`. */
  lemma FoldAddsSample(samples: seq<Sample>, minutes: int, j: nat, i: nat) returns (e: int)
    requires j < i < |samples| && SameNode(samples[j], samples[i])
    requires forall k :: j < k < i ==> !SameNode(samples[k], samples[i])
    ensures InBucketOf(Sqlite, WidthInSeconds(minutes), samples[i].capturedAt, e)
    ensures var start := EpochOf(Sqlite, minutes);
            AddsSample(Folded(samples[..i], start), Folded(samples[..i + 1], start), samples[i], samples[j], e)
  {
    var start := EpochOf(Sqlite, minutes);
    e := start(samples[i].capturedAt);
    BucketStartMeaning(Sqlite, Width(minutes, DEFAULT_WIDTH), samples[i].capturedAt, e);
    FoldRemembers(samples[..i], start);
    LastOfNode(samples, j, i);
    SameNodeIff(samples[j], samples[i]);
    assert samples[..i + 1][..i] == samples[..i];
    StepAddsSample(Folded(samples[..i], start), samples[i], samples[j], start);
  }

  /** The first sample of a node adds nothing. */
  lemma FoldSkipsFirst(samples: seq<Sample>, minutes: int, i: nat)
    requires i < |samples| && forall k :: 0 <= k < i ==> !SameNode(samples[k], samples[i])
    ensures var start := EpochOf(Sqlite, minutes);
            && Folded(samples[..i + 1], start).buckets == Folded(samples[..i], start).buckets
            && Folded(samples[..i + 1], start).reported == Folded(samples[..i], start).reported
  {
    FoldRemembers(samples[..i], EpochOf(Sqlite, minutes));
    forall k | 0 <= k < i
      ensures !OfNode(NodeKey(samples[i]))(samples[..i][k])
    {
      SameNodeIff(samples[k], samples[i]);
    }
    NoneSelected(samples[..i], OfNode(NodeKey(samples[i])));
    assert samples[..i + 1][..i] == samples[..i];
  }

  lemma {:induction false} NoneSelected(xs: seq<Sample>, p: Sample -> bool)
    requires forall k :: 0 <= k < |xs| ==> !p(xs[k])
    ensures Select(xs, p) == []
    decreases |xs|
  {
    if xs != [] {
      NoneSelected(xs[..|xs| - 1], p);
    }
  }

  lemma {:induction false} LastOfNode(samples: seq<Sample>, j: nat, i: nat)
    requires j < i < |samples| && SameNode(samples[j], samples[i])
    requires forall k :: j < k < i ==> !SameNode(samples[k], samples[i])
    ensures Last(Select(samples[..i], OfNode(NodeKey(samples[i])))) == Some(samples[j])
  {
    SameNodeIff(samples[j], samples[i]);
    var p := OfNode(NodeKey(samples[i]));
    var tail := samples[j + 1..i];
    assert samples[..i] == samples[..j] + [samples[j]] + tail;
    SelectNext(samples[..j], samples[j], p);
    SelectConcat(samples[..j] + [samples[j]], tail, p);
    forall k | 0 <= k < |tail|
      ensures !p(tail[k])
    {
      SameNodeIff(samples[j + 1 + k], samples[i]);
    }
    NoneSelected(tail, p);
  }

  // ----- what the buckets add up to -----

  /** How far a node's counter fell at a sample, after a restart. */
  function DropOf(lag: Previous, c: Counter): Sample -> int
  {
    (s: Sample) => if lag(s).None? then 0 else NonNegativeDelta(At(lag(s).value.counters, c), At(s.counters, c))
  }

  function NodeKeys(rows: seq<Sample>): set<string>
  {
    set s | s in rows :: NodeKey(s)
  }

  /** A node's last reading minus its first. */
  function Spread(p: seq<Sample>, c: Counter): int
  {
    if p == [] then 0 else At(p[|p| - 1].counters, c) - At(p[0].counters, c)
  }

  function SpreadOf(rows: seq<Sample>, c: Counter): string -> int
  {
    (key: string) => Spread(Select(rows, OfNode(key)), c)
  }

  function PreviousIn(done: seq<Sample>, key: string): Option<Sample>
  {
    Last(Select(done, OfNode(key)))
  }

  /** Each row's previous row is its node's latest before it. */
  ghost predicate Follows(lag: Previous, xs: seq<Sample>)
  {
    forall i :: 0 <= i < |xs| ==> FollowsAt(lag, xs, i)
  }

  ghost predicate FollowsAt(lag: Previous, xs: seq<Sample>, i: nat)
    requires i < |xs|
  {
    lag(xs[i]) == PreviousIn(xs[..i], NodeKey(xs[i]))
  }

  lemma LagFollows(xs: seq<Sample>)
    requires Sorted(Earlier(), xs)
    ensures Follows(LagIn(xs), xs)
  {
    forall i | 0 <= i < |xs|
      ensures FollowsAt(LagIn(xs), xs, i)
    {
      LagIsPrevious(xs, i);
    }
  }

  /** The deltas add up to the spreads and the falls. */
  ghost predicate Conserved(lag: Previous, xs: seq<Sample>, c: Counter)
  {
    SumSeq(xs, DeltaOf(lag, c)) == SumSet(NodeKeys(xs), SpreadOf(xs, c)) + SumSeq(xs, DropOf(lag, c))
  }

  /** Over all nodes, the deltas are last minus first plus what was lost in falls: with a counter
      that never falls they telescope, and with one that does they do not. */
  lemma {:induction false} DeltasConserve(lag: Previous, xs: seq<Sample>, c: Counter)
    requires Follows(lag, xs)
    ensures Conserved(lag, xs, c)
    decreases |xs|
  {
    if xs == [] {
      NothingIsConserved(lag, c);
    } else {
      var front, last := xs[..|xs| - 1], xs[|xs| - 1];
      FollowsFront(lag, xs);
      DeltasConserve(lag, front, c);
      ConserveNext(lag, front, last, c);
      assert xs == front + [last];
    }
  }

  lemma FollowsFront(lag: Previous, xs: seq<Sample>)
    requires Follows(lag, xs) && xs != []
    ensures var front, last := xs[..|xs| - 1], xs[|xs| - 1];
            Follows(lag, front) && lag(last) == PreviousIn(front, NodeKey(last))
  {
    var front := xs[..|xs| - 1];
    assert FollowsAt(lag, xs, |xs| - 1);
    forall i | 0 <= i < |front|
      ensures FollowsAt(lag, front, i)
    {
      assert FollowsAt(lag, xs, i) && front[..i] == xs[..i];
    }
  }

  lemma NothingIsConserved(lag: Previous, c: Counter)
    ensures Conserved(lag, [], c)
  {
    assert NodeKeys([]) == {};
  }

  lemma {:induction false} ConserveNext(lag: Previous, done: seq<Sample>, s: Sample, c: Counter)
    requires lag(s) == PreviousIn(done, NodeKey(s)) && Conserved(lag, done, c)
    ensures Conserved(lag, done + [s], c)
  {
    SumSeqAppend(done, s, DeltaOf(lag, c));
    SumSeqAppend(done, s, DropOf(lag, c));
    SpreadNext(done, s, c);
    DeltaMinusDrop(lag, s, c);
  }

  lemma DeltaMinusDrop(lag: Previous, s: Sample, c: Counter)
    ensures DeltaOf(lag, c)(s) - DropOf(lag, c)(s) == Rise(lag(s), s, c)
  {
  }

  function Rise(previous: Option<Sample>, s: Sample, c: Counter): int
  {
    if previous.None? then 0 else At(s.counters, c) - At(previous.value.counters, c)
  }

  /** One more sample moves the end of its node's spread, or opens a node. */
  lemma SpreadNext(done: seq<Sample>, s: Sample, c: Counter)
    ensures SumSet(NodeKeys(done + [s]), SpreadOf(done + [s], c))
            == SumSet(NodeKeys(done), SpreadOf(done, c)) + Rise(PreviousIn(done, NodeKey(s)), s, c)
  {
    var key, keys := NodeKey(s), NodeKeys(done);
    var f, g := SpreadOf(done, c), SpreadOf(done + [s], c);
    NodeKeysNext(done, s);
    forall k | k in keys && k != key
      ensures f(k) == g(k)
    {
      SelectNext(done, s, OfNode(k));
    }
    SumSetChange(keys, key, f, g);
    NodeSeen(done, key);
    SpreadAt(done, s, c);
  }

  lemma SpreadAt(done: seq<Sample>, s: Sample, c: Counter)
    ensures SpreadOf(done + [s], c)(NodeKey(s)) == SpreadOf(done, c)(NodeKey(s)) + Rise(PreviousIn(done, NodeKey(s)), s, c)
    ensures Select(done, OfNode(NodeKey(s))) == [] ==> SpreadOf(done, c)(NodeKey(s)) == 0
  {
    SelectNext(done, s, OfNode(NodeKey(s)));
  }

  lemma NodeKeysNext(done: seq<Sample>, s: Sample)
    ensures NodeKeys(done + [s]) == NodeKeys(done) + {NodeKey(s)}
  {
    assert forall x :: x in done + [s] <==> x in done || x == s;
    assert s in done + [s];
  }

  lemma NodeSeen(done: seq<Sample>, key: string)
    ensures key in NodeKeys(done) <==> Select(done, OfNode(key)) != []
  {
    SelectMembers(done, OfNode(key));
    EmptyOrInhabited(Select(done, OfNode(key)));
  }

  lemma NodesCounted(done: seq<Sample>, s: Sample)
    ensures |NodeKeys(done + [s])| == |NodeKeys(done)| + (if PreviousIn(done, NodeKey(s)).None? then 1 else 0)
  {
    NodeSeen(done, NodeKey(s));
    NodeKeysNext(done, s);
    assert NodeKey(s) in NodeKeys(done) ==> NodeKeys(done) + {NodeKey(s)} == NodeKeys(done);
  }

  /** All samples but the first of each node have a previous one. */
  lemma {:induction false} SamplesWithPrevious(lag: Previous, xs: seq<Sample>, i: nat)
    requires Follows(lag, xs) && i <= |xs|
    ensures SumSeq(xs[..i], HasPrevious(lag)) + |NodeKeys(xs[..i])| == i
    decreases i
  {
    if i > 0 {
      var done, s := xs[..i - 1], xs[i - 1];
      SamplesWithPrevious(lag, xs, i - 1);
      assert xs[..i] == done + [s];
      assert FollowsAt(lag, xs, i - 1);
      SumSeqAppend(done, s, HasPrevious(lag));
      NodesCounted(done, s);
    }
  }

  function HasPrevious(lag: Previous): Sample -> int
  {
    (s: Sample) => if lag(s).Some? then 1 else 0
  }

  ghost function GroupTotal(lag: Previous, rows: seq<Sample>, start: Epoch, f: Sample -> int): int -> int
  {
    (e: int) => SumSeq(Select(rows, InBucket(lag, start, e)), f)
  }

  /** Nothing falls between the buckets. */
  lemma {:induction false} SumOverBuckets(lag: Previous, rows: seq<Sample>, start: Epoch, f: Sample -> int, epochs: set<int>)
    requires Epochs(lag, rows, start) <= epochs
    requires forall s :: lag(s).None? ==> f(s) == 0
    ensures SumSet(epochs, GroupTotal(lag, rows, start, f)) == SumSeq(rows, f)
    decreases |rows|
  {
    var all := GroupTotal(lag, rows, start, f);
    if rows == [] {
      SumSetZero(epochs, all);
    } else {
      var front, s := rows[..|rows| - 1], rows[|rows| - 1];
      assert rows == front + [s];
      SumOverBuckets(lag, front, start, f, epochs);
      var before := GroupTotal(lag, front, start, f);
      forall e
        ensures all(e) == before(e) + (if lag(s).Some? && e == start(s.capturedAt) then f(s) else 0)
      {
        SelectNext(front, s, InBucket(lag, start, e));
        SumSeqAppend(Select(front, InBucket(lag, start, e)), s, f);
      }
      if lag(s).Some? {
        assert epochs + {start(s.capturedAt)} == epochs;
        SumSetChange(epochs, start(s.capturedAt), before, all);
      } else {
        SumSetCongruence(epochs, all, before);
      }
    }
  }

  ghost function DeltaColumn(buckets: map<int, DeltaBucket>, c: Counter): int -> int
  {
    (e: int) => if e in buckets then At(buckets[e].deltas, c) else 0
  }

  ghost function SampleColumn(buckets: map<int, DeltaBucket>): int -> int
  {
    (e: int) => if e in buckets then buckets[e].samplesWithPrevious else 0
  }

  lemma {:induction false} DeltaTotal(lag: Previous, xs: seq<Sample>, start: Epoch, c: Counter)
    ensures var buckets := Grouped(lag, xs, start);
            SumSet(buckets.Keys, DeltaColumn(buckets, c)) == SumSeq(xs, DeltaOf(lag, c))
  {
    var buckets := Grouped(lag, xs, start);
    SumOverBuckets(lag, xs, start, DeltaOf(lag, c), buckets.Keys);
    SumSetCongruence(buckets.Keys, DeltaColumn(buckets, c), GroupTotal(lag, xs, start, DeltaOf(lag, c)));
  }

  lemma SampleTotal(lag: Previous, xs: seq<Sample>, start: Epoch)
    ensures var buckets := Grouped(lag, xs, start);
            SumSet(buckets.Keys, SampleColumn(buckets)) == SumSeq(xs, HasPrevious(lag))
  {
    var buckets := Grouped(lag, xs, start);
    SumOverBuckets(lag, xs, start, HasPrevious(lag), buckets.Keys);
    forall e | e in buckets.Keys
      ensures SampleColumn(buckets)(e) == GroupTotal(lag, xs, start, HasPrevious(lag))(e)
    {
      SelectMembers(xs, InBucket(lag, start, e));
      CountInside(lag, Select(xs, InBucket(lag, start, e)));
    }
    SumSetCongruence(buckets.Keys, SampleColumn(buckets), GroupTotal(lag, xs, start, HasPrevious(lag)));
  }

  /** The bucket totals of either form: each counter's deltas come to last minus first per node,
      plus its falls, and the samples with a previous one to the samples less one per node. */
  lemma BucketTotals(xs: seq<Sample>, d: Dialect, minutes: int, c: Counter)
    requires Sorted(Earlier(), xs)
    ensures var buckets := Buckets(xs, d, minutes);
            && SumSet(buckets.Keys, DeltaColumn(buckets, c))
               == SumSet(NodeKeys(xs), SpreadOf(xs, c)) + SumSeq(xs, DropOf(LagIn(xs), c))
            && SumSet(buckets.Keys, SampleColumn(buckets)) == |xs| - |NodeKeys(xs)|
  {
    assert xs[..|xs|] == xs;
    LagFollows(xs);
    DeltasConserve(LagIn(xs), xs, c);
    SamplesWithPrevious(LagIn(xs), xs, |xs|);
    DeltaTotal(LagIn(xs), xs, EpochOf(d, minutes), c);
    SampleTotal(LagIn(xs), xs, EpochOf(d, minutes));
  }

  lemma {:induction false} CountInside(lag: Previous, inside: seq<Sample>)
    requires forall s :: s in inside ==> lag(s).Some?
    ensures SumSeq(inside, HasPrevious(lag)) == |inside|
    decreases |inside|
  {
    if inside != [] {
      assert inside[|inside| - 1] in inside;
      CountInside(lag, inside[..|inside| - 1]);
    }
  }

  ghost predicate NeverFalls(xs: seq<Sample>, c: Counter)
  {
    forall a, b :: a in xs && b in xs && NodeKey(a) == NodeKey(b) && a.capturedAt <= b.capturedAt ==>
                     At(a.counters, c) <= At(b.counters, c)
  }

  lemma NoFallAt(lag: Previous, xs: seq<Sample>, i: nat, c: Counter)
    requires Follows(lag, xs) && Sorted(Earlier(), xs) && NeverFalls(xs, c) && i < |xs|
    ensures DropOf(lag, c)(xs[i]) == 0
  {
    PreviousIsEarlier(lag, xs, i);
    assert xs[i] in xs;
  }

  /** A counter that never falls loses nothing, so the deltas telescope. */
  lemma {:induction false} NoFalls(lag: Previous, xs: seq<Sample>, i: nat, c: Counter)
    requires Follows(lag, xs) && Sorted(Earlier(), xs) && NeverFalls(xs, c) && i <= |xs|
    ensures SumSeq(xs[..i], DropOf(lag, c)) == 0
    decreases i
  {
    if i > 0 {
      NoFalls(lag, xs, i - 1, c);
      assert xs[..i] == xs[..i - 1] + [xs[i - 1]];
      SumSeqAppend(xs[..i - 1], xs[i - 1], DropOf(lag, c));
      NoFallAt(lag, xs, i - 1, c);
    }
  }

  /** The buckets of a counter that never falls total last minus first, node by node. */
  lemma BucketsTelescope(xs: seq<Sample>, d: Dialect, minutes: int, c: Counter)
    requires Sorted(Earlier(), xs) && NeverFalls(xs, c)
    ensures var buckets := Buckets(xs, d, minutes);
            SumSet(buckets.Keys, DeltaColumn(buckets, c)) == SumSet(NodeKeys(xs), SpreadOf(xs, c))
  {
    BucketTotals(xs, d, minutes, c);
    LagFollows(xs);
    NoFalls(LagIn(xs), xs, |xs|, c);
    assert xs[..|xs|] == xs;
  }

  lemma PreviousIsEarlier(lag: Previous, xs: seq<Sample>, i: nat)
    requires Follows(lag, xs) && Sorted(Earlier(), xs) && i < |xs|
    ensures match lag(xs[i]) case None => true
            case Some(p) => p in xs && NodeKey(p) == NodeKey(xs[i]) && SqlBefore(p, xs[i])
  {
    assert FollowsAt(lag, xs, i);
    var q := Select(xs[..i], OfNode(NodeKey(xs[i])));
    SelectMembers(xs[..i], OfNode(NodeKey(xs[i])));
    if q != [] {
      var p := q[|q| - 1];
      assert p in q;
      var j :| 0 <= j < i && xs[j] == p;
      assert Earlier()(xs[j], xs[i]);
    }
  }
}

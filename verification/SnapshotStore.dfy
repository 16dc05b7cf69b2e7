/** The sharded metric snapshots: deduplicated insertion keeps one sample per node and
    instant, which is what the counter-delta fold needs, and the two list forms agree. */
module SnapshotStore {
  import opened Sharding
  import opened Sums
  import opened AccessLog
  import opened DedupScan
  import opened SqlDialect
  import opened Sorting
  import opened CounterDeltas

  datatype Instant = Instant(nodeKey: string, capturedAt: int)

  function InstantOf(s: Sample): Instant
  {
    Instant(NodeKey(s), s.capturedAt)
  }

  function Instants(rows: seq<Sample>): set<Instant>
  {
    set s | s in rows :: InstantOf(s)
  }

  lemma InstantsNext(rows: seq<Sample>, s: Sample)
    ensures Instants(rows + [s]) == Instants(rows) + {InstantOf(s)}
  {
    assert forall x :: x in rows + [s] <==> x in rows || x == s;
    assert s in rows + [s];
  }

  lemma {:induction false} InstantsAtMost(rows: seq<Sample>)
    ensures |Instants(rows)| <= |rows|
    decreases |rows|
  {
    if rows != [] {
      InstantsAtMost(rows[..|rows| - 1]);
      assert rows == rows[..|rows| - 1] + [rows[|rows| - 1]];
      InstantsNext(rows[..|rows| - 1], rows[|rows| - 1]);
    }
  }

  /** One sample per instant, told by counting. */
  lemma {:induction false} OnePerInstantIff(rows: seq<Sample>)
    ensures OnePerInstant(rows) <==> |Instants(rows)| == |rows|
    decreases |rows|
  {
    if rows != [] {
      var front, s := rows[..|rows| - 1], rows[|rows| - 1];
      assert rows == front + [s];
      OnePerInstantIff(front);
      InstantsNext(front, s);
      InstantsAtMost(front);
      LastApart(front, s);
      assert InstantOf(s) in Instants(front) ==> Instants(front) + {InstantOf(s)} == Instants(front);
    }
  }

  lemma LastApart(front: seq<Sample>, s: Sample)
    ensures OnePerInstant(front + [s]) <==> OnePerInstant(front) && InstantOf(s) !in Instants(front)
  {
    var rows := front + [s];
    assert forall i :: 0 <= i < |front| ==> rows[i] == front[i];
    if OnePerInstant(rows) {
      forall i, j | 0 <= i < j < |front|
        ensures Apart(front[i], front[j])
      {
        assert Apart(rows[i], rows[j]) || Apart(rows[j], rows[i]);
      }
      forall i | 0 <= i < |front|
        ensures InstantOf(front[i]) != InstantOf(s)
      {
        assert Apart(rows[i], rows[|front|]) || Apart(rows[|front|], rows[i]);
      }
    }
    if OnePerInstant(front) && InstantOf(s) !in Instants(front) {
      forall i, j | 0 <= i < j < |rows|
        ensures Apart(rows[i], rows[j])
      {
        if j < |front| {
          assert Apart(front[i], front[j]) || Apart(front[j], front[i]);
        } else {
          assert front[i] in front;
        }
      }
    }
  }

  // ----- reading -----

  ghost predicate TimeOrdered(samples: seq<Sample>)
  {
    forall i, j :: 0 <= i < j < |samples| ==> samples[i].capturedAt <= samples[j].capturedAt
  }

  /** For any filter over stored samples, one per instant, whatever order the rows arrive in and
      however the sort breaks ties: the statement's buckets are those of the fold. */
  lemma DeltaQueriesAgree(stored: seq<Sample>, p: Sample -> bool, samples: seq<Sample>, d: Dialect, minutes: int)
    requires OnePerInstant(stored)
    requires multiset(samples) == multiset(Select(stored, p)) && TimeOrdered(samples)
    requires BackendAgrees(d, Width(minutes, DEFAULT_WIDTH), Select(stored, p))
    ensures Sorted(Earlier(), samples)
    ensures Buckets(Select(stored, p), d, minutes) == Buckets(samples, Sqlite, minutes)
  {
    var rows := Select(stored, p);
    SelectSeparates((a: Sample, b: Sample) => Apart(a, b), stored, p);
    OnePerInstantIff(rows);
    assert forall s :: s in rows <==> s in multiset(rows);
    assert forall s :: s in samples <==> s in multiset(samples);
    assert Instants(rows) == Instants(samples);
    assert |rows| == |multiset(rows)| == |multiset(samples)| == |samples|;
    OnePerInstantIff(samples);
    InOrder(samples);
    WindowSeparatesRows(rows);
    StatementEqualsFold(rows, samples, d, minutes);
  }

  lemma InOrder(samples: seq<Sample>)
    requires OnePerInstant(samples) && TimeOrdered(samples)
    ensures Sorted(Earlier(), samples)
  {
    forall i, j | 0 <= i < j < |samples|
      ensures Earlier()(samples[i], samples[j])
    {
      assert Apart(samples[i], samples[j]) || Apart(samples[j], samples[i]);
    }
  }

  function NewestFirst(): (Sample, Sample) -> bool
  {
    (a: Sample, b: Sample) => SqlBefore(b, a)
  }

  /** The list in one statement: sort all, then limit. */
  function ListStatement(shards: seq<seq<Sample>>, p: Sample -> bool, limit: int): seq<Sample>
  {
    var rows := Sort(NewestFirst(), Select(Flatten(shards), p));
    if limit > 0 then Take(rows, limit) else rows
  }

  /** The limited rows of every shard. */
  method Branches(shards: seq<seq<Sample>>, p: Sample -> bool, n: nat) returns (rows: seq<Sample>)
    ensures SameBag(rows, Union(NewestFirst(), p, shards, n))
  {
    rows := [];
    for i := 0 to |shards|
      invariant SameBag(rows, Union(NewestFirst(), p, shards[..i], n))
    {
      var shardRows := Sort(NewestFirst(), Select(shards[i], p));
      if n > 0 {
        shardRows := Take(shardRows, n);
      }
      assert shards[..i + 1][..i] == shards[..i];
      assert Union(NewestFirst(), p, shards[..i + 1], n) == Union(NewestFirst(), p, shards[..i], n) + Branch(NewestFirst(), p, shards[i], n);
      SortedBranch(shards[i], p, n);
      rows := rows + shardRows;
    }
    assert shards[..|shards|] == shards;
  }

  /** The list in memory, each shard limited by its own query, returns the same rows. */
  method ListInMemory(shards: seq<seq<Sample>>, p: Sample -> bool, limit: int) returns (rows: seq<Sample>)
    requires DistinctSampleIDs(Flatten(shards))
    ensures rows == ListStatement(shards, p, limit)
    ensures forall i, j :: 0 <= i < j < |rows| ==> Newer(rows[i], rows[j])
    ensures ListsNewest(shards, p, limit, rows)
  {
    var n: nat := if limit > 0 then limit else 0;
    rows := Branches(shards, p, n);
    SortOfUnion(shards, p, n, rows);
    rows := Sort(NewestFirst(), rows);
    if n > 0 && |rows| > n {
      rows := rows[..n];
    }
    LimitPushDown(NewestFirst(), p, shards, n);
    ListMeaning(shards, p, limit);
  }

  /** Taken later or, at the same time, of a larger ID. */
  predicate Newer(a: Sample, b: Sample)
  {
    a.capturedAt > b.capturedAt || (a.capturedAt == b.capturedAt && a.id > b.id)
  }

  /** Only stored samples that pass the filter, no more than the limit; what is left out is older
      than each of as many samples as the limit allows. */
  ghost predicate ListsNewest(shards: seq<seq<Sample>>, p: Sample -> bool, limit: int, rows: seq<Sample>)
  {
    && (forall s :: s in rows ==> s in Flatten(shards) && p(s))
    && (limit > 0 ==> |rows| <= limit)
    && forall s :: s in Flatten(shards) && p(s) && s !in rows ==>
         0 < limit == |rows| && forall r :: r in rows ==> Newer(r, s)
  }

  lemma ListMeaning(shards: seq<seq<Sample>>, p: Sample -> bool, limit: int)
    requires DistinctSampleIDs(Flatten(shards))
    ensures var rows := ListStatement(shards, p, limit);
            ListsNewest(shards, p, limit, rows) && forall i, j :: 0 <= i < j < |rows| ==> Newer(rows[i], rows[j])
  {
    var rows, all := ListStatement(shards, p, limit), Sort(NewestFirst(), Select(Flatten(shards), p));
    SelectedOrder(NewestFirst(), Flatten(shards), p);
    assert forall i, j :: 0 <= i < j < |all| ==> NewestFirst()(all[i], all[j]) && Newer(all[i], all[j]);
    assert forall i :: 0 <= i < |rows| ==> rows[i] == all[i];
    forall s | s in Flatten(shards) && p(s) && s !in rows
      ensures 0 < limit == |rows| && forall r :: r in rows ==> Newer(r, s)
    {
      var k :| 0 <= k < |all| && all[k] == s;
      assert k >= |rows|;
    }
  }

  /** The same rows, perhaps in another order. */
  ghost predicate SameBag(rows: seq<Sample>, union: seq<Sample>)
  {
    multiset(rows) == multiset(union)
  }

  lemma SortedBranch(shard: seq<Sample>, p: Sample -> bool, n: nat)
    ensures var shardRows := Sort(NewestFirst(), Select(shard, p));
            SameBag(if n > 0 then Take(shardRows, n) else shardRows, Branch(NewestFirst(), p, shard, n))
  {
    SortKeepsRows(NewestFirst(), Select(shard, p));
  }

  lemma SortOfUnion(shards: seq<seq<Sample>>, p: Sample -> bool, n: nat, rows: seq<Sample>)
    requires DistinctSampleIDs(Flatten(shards))
    requires multiset(rows) == multiset(Union(NewestFirst(), p, shards, n))
    ensures Sort(NewestFirst(), rows) == Sort(NewestFirst(), Union(NewestFirst(), p, shards, n))
  {
    var union := Union(NewestFirst(), p, shards, n);
    UnionMembers(NewestFirst(), p, shards, n);
    SortPermutation(NewestFirst(), union, rows);
  }

  // ----- writing -----

  /** The node and instant of a sample, as the shared range scan sees them. */
  function Probe(s: Sample): Record
  {
    Record(0, s.nodeID, s.capturedAt, "", "", "", "", "", 0, "", 0, 0, 0)
  }

  function Probes(rows: seq<Sample>): seq<Record>
  {
    seq(|rows|, i requires 0 <= i < |rows| => Probe(rows[i]))
  }

  /** Samples without a node, or at the epoch, are skipped. */
  predicate Admissible(s: Sample)
  {
    s.nodeID != "" && s.capturedAt != 0
  }

  /** The first admissible sample of each instant. */
  function UniqueSamples(incoming: seq<Sample>): seq<Sample>
  {
    if incoming == [] then [] else
      var front, s := UniqueSamples(incoming[..|incoming| - 1]), incoming[|incoming| - 1];
      if Admissible(s) && InstantOf(s) !in Instants(front) then front + [s] else front
  }

  lemma {:induction false} UniqueMeaning(incoming: seq<Sample>)
    ensures forall s :: s in UniqueSamples(incoming) ==> s in incoming && Admissible(s)
    ensures |Instants(UniqueSamples(incoming))| == |UniqueSamples(incoming)|
    ensures Instants(UniqueSamples(incoming)) == Instants(Select(incoming, Admissible))
    decreases |incoming|
  {
    if incoming != [] {
      var front, s := incoming[..|incoming| - 1], incoming[|incoming| - 1];
      assert incoming == front + [s];
      UniqueMeaning(front);
      InstantsNext(UniqueSamples(front), s);
      InstantsNext(Select(front, Admissible), s);
    }
  }

  /** The loop over the incoming samples. */
  method Collect(incoming: seq<Sample>) returns (unique: seq<Sample>, ranges: Ranges)
    ensures unique == UniqueSamples(incoming) && ranges == RangesOf(Probes(unique))
  {
    unique, ranges := [], map[];
    var seen: set<Instant> := {};
    for i := 0 to |incoming|
      invariant unique == UniqueSamples(incoming[..i]) && ranges == RangesOf(Probes(unique))
      invariant seen == Instants(unique)
    {
      var s := incoming[i];
      assert incoming[..i + 1][..i] == incoming[..i];
      if Admissible(s) && InstantOf(s) !in seen {
        InstantsNext(unique, s);
        ProbesNext(unique, s);
        seen := seen + {InstantOf(s)};
        unique := unique + [s];
        var current := if s.nodeID in ranges then ranges[s.nodeID] else UNSET;
        ranges := ranges[s.nodeID := Expand(current, s.capturedAt)];
      }
    }
    assert incoming[..|incoming|] == incoming;
  }

  lemma ProbesNext(rows: seq<Sample>, s: Sample)
    ensures var ranges := RangesOf(Probes(rows));
            RangesOf(Probes(rows + [s]))
            == ranges[s.nodeID := Expand(if s.nodeID in ranges then ranges[s.nodeID] else UNSET, s.capturedAt)]
  {
    assert Probes(rows + [s])[..|rows|] == Probes(rows);
  }

  /** The instants of the stored rows in the scan. */
  method ScanStored(shards: seq<seq<Sample>>, nodes: set<string>, range: TimeRange) returns (found: set<Instant>)
    ensures found == set s | s in Flatten(shards) && InScan(nodes, range, Probe(s)) :: InstantOf(s)
  {
    found := {};
    for i := 0 to |shards|
      invariant found == set s | s in Flatten(shards[..i]) && InScan(nodes, range, Probe(s)) :: InstantOf(s)
    {
      assert shards[..i + 1][..i] == shards[..i];
      found := found + set s | s in shards[i] && InScan(nodes, range, Probe(s)) :: InstantOf(s);
    }
    assert shards[..|shards|] == shards;
  }

  /** A stored sample at an incoming instant is in the scan. */
  lemma ScanIsExact(unique: seq<Sample>, range: TimeRange, stored: seq<Sample>, found: set<Instant>)
    requires Spans(Bounds(RangesOf(Probes(unique))), range)
    requires NoneZero(Probes(unique)) || AllZero(Probes(unique))
    requires forall s :: s in unique ==> s.nodeID != ""
    requires forall s :: s in stored ==> s.nodeID != ""
    requires found == set s | s in stored && InScan(RangesOf(Probes(unique)).Keys, range, Probe(s)) :: InstantOf(s)
    ensures forall u :: u in unique ==> (InstantOf(u) in found <==> InstantOf(u) in Instants(stored))
  {
    var probes := Probes(unique);
    UniformTimesAreCovered(probes, range);
    forall u | u in unique && InstantOf(u) in Instants(stored)
      ensures InstantOf(u) in found
    {
      var s :| s in stored && InstantOf(s) == InstantOf(u);
      var i :| 0 <= i < |unique| && unique[i] == u;
      assert probes[i] == Probe(u) == Probe(s);
      assert KeyFor(Probe(s)) in KeysOf(probes);
      assert InScan(RangesOf(probes).Keys, range, Probe(s));
    }
  }

  class Store {
    var shards: seq<seq<Sample>>
    var nextID: nat

    ghost predicate Valid()
      reads this
    {
      && |shards| == SHARD_COUNT && nextID > 0
      && (forall s :: s in Flatten(shards) ==> s.nodeID != "")
      && forall i :: 0 <= i < SHARD_COUNT ==> forall s :: s in shards[i] ==> s.id % SHARD_COUNT == i
    }

    constructor ()
      ensures Valid() && |shards| == 10 && Flatten(shards) == []
    {
      var empty := seq(SHARD_COUNT, i => []);
      shards, nextID := empty, 1;
      FlattenEmpty(empty);
    }

    /** Stores the admissible samples at new instants. When the samples to insert all have a time
        (or all lack one), every instant is stored once afterwards, and a replay stores nothing. */
    method InsertNew(incoming: seq<Sample>) returns (inserted: nat)
      requires Valid()
      modifies this
      ensures Valid()
      ensures inserted == |Flatten(shards)| - |old(Flatten(shards))|
      ensures (forall s :: s in incoming ==> s.capturedAt != ZERO_TIME) || (forall s :: s in incoming ==> s.capturedAt == ZERO_TIME) ==>
                && Instants(Flatten(shards)) == old(Instants(Flatten(shards))) + InstantsToStore(incoming)
                && inserted == |InstantsToStore(incoming) - old(Instants(Flatten(shards)))|
                && (old(OnePerInstant(Flatten(shards))) ==> OnePerInstant(Flatten(shards)))
      ensures Gains(incoming, old(Flatten(shards)), Flatten(shards), inserted)
    {
      var unique, ranges := Collect(incoming);
      UniqueMeaning(incoming);
      ToStoreMeaning(incoming);
      var range := CombinedRange(ranges);
      var found := ScanStored(shards, ranges.Keys, range);
      ghost var before := Flatten(shards);
      ghost var timed := (forall s :: s in incoming ==> s.capturedAt != ZERO_TIME) || (forall s :: s in incoming ==> s.capturedAt == ZERO_TIME);
      if timed {
        TimedProbes(incoming, unique);
        ScanIsExact(unique, range, before, found);
      }
      ghost var placed;
      inserted, placed := PlaceNew(unique, found);
      PlacedComeFrom(incoming, found, placed, before, Flatten(shards));
      if timed {
        Placed(unique, found, before, Flatten(shards), inserted);
      }
    }

    /** Keep the ID that is set, or take the next fresh one; it selects the shard. */
    method Place(s: Sample) returns (p: Sample)
      requires Valid() && s.nodeID != ""
      modifies this
      ensures Valid() && p == s.(id := if s.id != 0 then s.id else old(nextID)) && IsStored(s, p)
      ensures multiset(Flatten(shards)) == old(multiset(Flatten(shards))) + multiset{p}
    {
      p := s.(id := if s.id != 0 then s.id else nextID);
      var table := p.id % SHARD_COUNT;
      StoredNext(shards, table, p);
      if s.id == 0 {
        nextID := nextID + 1;
      }
      shards := shards[table := shards[table] + [p]];
    }

    /** Give each new sample an ID and append it to the shard the ID selects. */
    method PlaceNew(unique: seq<Sample>, found: set<Instant>) returns (inserted: nat, ghost placed: seq<Sample>)
      requires Valid() && forall s :: s in unique ==> s.nodeID != ""
      modifies this
      ensures Valid() && inserted == |placed|
      ensures Renumbered(NewSamples(unique, found), placed)
      ensures multiset(Flatten(shards)) == old(multiset(Flatten(shards))) + multiset(placed)
    {
      inserted, placed := 0, [];
      for i := 0 to |unique|
        invariant Valid() && inserted == |placed|
        invariant Renumbered(NewSamples(unique[..i], found), placed)
        invariant multiset(Flatten(shards)) == old(multiset(Flatten(shards))) + multiset(placed)
      {
        NewSamplesNext(unique, i, found);
        if InstantOf(unique[i]) !in found {
          var s := Place(unique[i]);
          RenumberedNext(NewSamples(unique[..i], found), placed, unique[i], s);
          placed := placed + [s];
          inserted := inserted + 1;
        }
      }
      assert unique[..|unique|] == unique;
    }
  }

  /** The stored form of a sample: an ID is given if it has none, and nothing else changes. */
  predicate IsStored(s: Sample, p: Sample)
  {
    p == s.(id := p.id) && p.id != 0 && (s.id != 0 ==> p.id == s.id)
  }

  predicate Renumbered(rows: seq<Sample>, placed: seq<Sample>)
  {
    |rows| == |placed| && forall i :: 0 <= i < |rows| ==> IsStored(rows[i], placed[i])
  }

  lemma RenumberedNext(rows: seq<Sample>, placed: seq<Sample>, s: Sample, p: Sample)
    requires Renumbered(rows, placed) && IsStored(s, p)
    ensures Renumbered(rows + [s], placed + [p])
    ensures multiset(placed + [p]) == multiset(placed) + multiset{p}
  {
  }

  lemma NewSamplesNext(unique: seq<Sample>, i: nat, found: set<Instant>)
    requires i < |unique|
    ensures NewSamples(unique[..i + 1], found)
            == if InstantOf(unique[i]) !in found then NewSamples(unique[..i], found) + [unique[i]] else NewSamples(unique[..i], found)
  {
    assert unique[..i + 1][..i] == unique[..i];
  }

  /** The nodes and times of incoming samples of a known node, except those at the epoch. */
  function InstantsToStore(incoming: seq<Sample>): set<Instant>
  {
    set s | s in incoming && s.nodeID != "" && s.capturedAt != 0 :: Instant(s.nodeID, s.capturedAt)
  }

  lemma ToStoreMeaning(incoming: seq<Sample>)
    ensures Instants(Select(incoming, Admissible)) == InstantsToStore(incoming)
  {
    SelectMembers(incoming, Admissible);
    forall s | s in incoming && s.nodeID != "" && s.capturedAt != 0
      ensures Instant(s.nodeID, s.capturedAt) in Instants(Select(incoming, Admissible))
    {
      assert InstantOf(s) == Instant(s.nodeID, s.capturedAt);
    }
  }

  predicate SameInstant(a: Sample, b: Sample)
  {
    a.nodeID == b.nodeID && a.capturedAt == b.capturedAt
  }

  /** What is stored is the first of the incoming samples of its node and time; the node is known
      and the time is not the epoch. */
  ghost predicate ComesFrom(incoming: seq<Sample>, p: Sample)
  {
    && p.nodeID != "" && p.capturedAt != 0
    && exists i :: 0 <= i < |incoming| && IsStored(incoming[i], p) && forall j :: 0 <= j < i ==> !SameInstant(incoming[j], incoming[i])
  }

  /** The shards gain so many rows, each an incoming sample, and keep all others. */
  ghost predicate Gains(incoming: seq<Sample>, before: seq<Sample>, after: seq<Sample>, inserted: nat)
  {
    exists placed: seq<Sample> ::
      && |placed| == inserted && multiset(after) == multiset(before) + multiset(placed)
      && forall p :: p in placed ==> ComesFrom(incoming, p)
  }

  lemma {:induction false} UniqueIsFirst(incoming: seq<Sample>, s: Sample)
    requires s in UniqueSamples(incoming)
    ensures s.nodeID != "" && s.capturedAt != 0
    ensures exists i :: 0 <= i < |incoming| && incoming[i] == s && forall j :: 0 <= j < i ==> !SameInstant(incoming[j], s)
    decreases |incoming|
  {
    var front, last := incoming[..|incoming| - 1], incoming[|incoming| - 1];
    if s in UniqueSamples(front) {
      UniqueIsFirst(front, s);
      var i :| 0 <= i < |front| && front[i] == s && forall j :: 0 <= j < i ==> !SameInstant(front[j], s);
      assert incoming[i] == s && forall j :: 0 <= j < i ==> incoming[j] == front[j];
    } else {
      UniqueMeaning(front);
      SelectMembers(front, Admissible);
      forall j | 0 <= j < |front|
        ensures !SameInstant(incoming[j], s)
      {
        assert front[j] in front;
        assert SameInstant(front[j], s) ==> InstantOf(front[j]) == InstantOf(s);
      }
      assert incoming[|front|] == s;
    }
  }

  /** Placing is faithful to the incoming samples. */
  lemma PlacedComeFrom(incoming: seq<Sample>, found: set<Instant>, placed: seq<Sample>, before: seq<Sample>, after: seq<Sample>)
    requires Renumbered(NewSamples(UniqueSamples(incoming), found), placed)
    requires multiset(after) == multiset(before) + multiset(placed)
    ensures Gains(incoming, before, after, |placed|)
    ensures |placed| == |after| - |before|
    ensures Instants(after) == Instants(before) + Instants(NewSamples(UniqueSamples(incoming), found))
  {
    var rows := NewSamples(UniqueSamples(incoming), found);
    SelectMembers(UniqueSamples(incoming), (s: Sample) => InstantOf(s) !in found);
    forall p | p in placed
      ensures ComesFrom(incoming, p)
    {
      var k :| 0 <= k < |placed| && placed[k] == p;
      assert IsStored(rows[k], p) && rows[k] in rows;
      UniqueIsFirst(incoming, rows[k]);
    }
    RenumberedInstants(rows, placed);
    assert |multiset(after)| == |multiset(before)| + |multiset(placed)|;
    assert forall x :: x in after <==> x in multiset(after);
    assert forall x :: x in before <==> x in multiset(before);
    assert forall x :: x in placed <==> x in multiset(placed);
  }

  lemma RenumberedInstants(rows: seq<Sample>, placed: seq<Sample>)
    requires Renumbered(rows, placed)
    ensures Instants(placed) == Instants(rows)
  {
    forall p | p in placed
      ensures InstantOf(p) in Instants(rows)
    {
      var k :| 0 <= k < |placed| && placed[k] == p;
      assert IsStored(rows[k], p) && InstantOf(rows[k]) == InstantOf(p);
    }
    forall s | s in rows
      ensures InstantOf(s) in Instants(placed)
    {
      var k :| 0 <= k < |rows| && rows[k] == s;
      assert IsStored(s, placed[k]) && InstantOf(placed[k]) == InstantOf(s);
    }
  }

  lemma StoredNext(shards: seq<seq<Sample>>, table: nat, s: Sample)
    requires table < |shards|
    ensures var after := Flatten(shards[table := shards[table] + [s]]);
            multiset(after) == multiset(Flatten(shards)) + multiset{s} && forall x :: x in after <==> x in Flatten(shards) || x == s
  {
    FlattenAppend(shards, table, [s]);
    var was, after := Flatten(shards), Flatten(shards[table := shards[table] + [s]]);
    assert multiset([s]) == multiset{s};
    assert forall x :: x in after <==> x in multiset(after);
    assert forall x :: x in was <==> x in multiset(was);
  }

  function NewSamples(unique: seq<Sample>, found: set<Instant>): seq<Sample>
  {
    Select(unique, (s: Sample) => InstantOf(s) !in found)
  }

  lemma TimedProbes(incoming: seq<Sample>, unique: seq<Sample>)
    requires forall s :: s in unique ==> s in incoming
    ensures (forall s :: s in incoming ==> s.capturedAt != ZERO_TIME) ==> NoneZero(Probes(unique))
    ensures (forall s :: s in incoming ==> s.capturedAt == ZERO_TIME) ==> AllZero(Probes(unique))
  {
    assert forall i :: 0 <= i < |unique| ==> unique[i] in unique;
  }

  /** What placing the new samples means, once the scan is exact. */
  lemma Placed(unique: seq<Sample>, found: set<Instant>, before: seq<Sample>, after: seq<Sample>, inserted: nat)
    requires |Instants(unique)| == |unique|
    requires forall u :: u in unique ==> (InstantOf(u) in found <==> InstantOf(u) in Instants(before))
    requires inserted == |NewSamples(unique, found)| == |after| - |before|
    requires Instants(after) == Instants(before) + Instants(NewSamples(unique, found))
    ensures Instants(after) == Instants(before) + Instants(unique)
    ensures inserted == |Instants(unique) - Instants(before)|
    ensures OnePerInstant(before) ==> OnePerInstant(after)
  {
    var isNew := (s: Sample) => InstantOf(s) !in found;
    var added := NewSamples(unique, found);
    SelectMembers(unique, isNew);
    assert Instants(added) == Instants(unique) - Instants(before);
    OnePerInstantIff(unique);
    SelectSeparates((a: Sample, b: Sample) => Apart(a, b), unique, isNew);
    OnePerInstantIff(added);
    OnePerInstantIff(before);
    OnePerInstantIff(after);
    assert Instants(before) !! Instants(added);
  }
}

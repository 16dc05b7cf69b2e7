/** The sharded record store with its detailed rollup table: replay-safe insertion, deletes
    that rebuild, and what each keeps. */
module AccessLogStore {
  import opened Sharding
  import opened Sums
  import opened SqlDialect
  import opened AccessLog
  import opened DedupScan

  /** How many rows each dedup key has. */
  function KeyBag(rs: seq<Record>): multiset<DedupKey>
  {
    if rs == [] then multiset{} else KeyBag(rs[..|rs| - 1]) + multiset{KeyFor(rs[|rs| - 1])}
  }

  lemma {:induction false} KeyBagConcat(a: seq<Record>, b: seq<Record>)
    ensures KeyBag(a + b) == KeyBag(a) + KeyBag(b)
    decreases |b|
  {
    if b == [] {
      assert a + b == a;
    } else {
      assert (a + b)[..|a + b| - 1] == a + b[..|b| - 1];
      KeyBagConcat(a, b[..|b| - 1]);
    }
  }

  lemma {:induction false} KeyBagPermutation(a: seq<Record>, b: seq<Record>)
    requires multiset(a) == multiset(b)
    ensures KeyBag(a) == KeyBag(b)
    decreases |a|
  {
    if a == [] {
      assert |multiset(b)| == 0;
    } else {
      var i := PositionOfLast(a, b);
      KeyBagPermutation(a[..|a| - 1], b[..i] + b[i + 1..]);
      assert b == b[..i] + ([b[i]] + b[i + 1..]);
      KeyBagConcat(b[..i], b[i + 1..]);
      KeyBagConcat(b[..i], [b[i]] + b[i + 1..]);
      KeyBagConcat([b[i]], b[i + 1..]);
      assert KeyBag([b[i]]) == KeyBag([b[i]][..0]) + multiset{KeyFor(b[i])} == multiset{KeyFor(b[i])};
      MoveToEnd(KeyBag(b[..i]), multiset{KeyFor(b[i])}, KeyBag(b[i + 1..]));
    }
  }

  lemma MoveToEnd<T>(p: multiset<T>, x: multiset<T>, q: multiset<T>)
    ensures p + (x + q) == p + q + x
  {
  }

  lemma {:induction false} KeyBagKeys(rs: seq<Record>)
    ensures forall k :: k in KeyBag(rs) <==> k in KeysOf(rs)
    decreases |rs|
  {
    if rs != [] {
      KeyBagKeys(rs[..|rs| - 1]);
      assert rs == rs[..|rs| - 1] + [rs[|rs| - 1]];
    }
  }

  /** Rows whose keys are pairwise different. */
  lemma {:induction false} DistinctBag(rs: seq<Record>)
    requires |KeysOf(rs)| == |rs|
    ensures KeyBag(rs) == multiset(KeysOf(rs))
    decreases |rs|
  {
    if rs != [] {
      var front, last := rs[..|rs| - 1], rs[|rs| - 1];
      assert rs == front + [last];
      assert KeysOf(rs) == KeysOf(front) + {KeyFor(last)};
      KeysAtMost(front);
      assert KeyFor(last) !in KeysOf(front) by {
        assert KeyFor(last) in KeysOf(front) ==> KeysOf(rs) == KeysOf(front);
      }
      DistinctBag(front);
    }
  }

  lemma {:induction false} KeysAtMost(rs: seq<Record>)
    ensures |KeysOf(rs)| <= |rs|
    decreases |rs|
  {
    if rs != [] {
      KeysAtMost(rs[..|rs| - 1]);
      assert rs == rs[..|rs| - 1] + [rs[|rs| - 1]];
      assert KeysOf(rs) == KeysOf(rs[..|rs| - 1]) + {KeyFor(rs[|rs| - 1])};
    }
  }

  /** The rows of `rs` whose key is not in `existing`. */
  function NewRows(rs: seq<Record>, existing: set<DedupKey>): seq<Record>
  {
    if rs == [] then [] else
      var front := NewRows(rs[..|rs| - 1], existing);
      if KeyFor(rs[|rs| - 1]) in existing then front else front + [rs[|rs| - 1]]
  }

  lemma {:induction false} NewRowsKeys(rs: seq<Record>, existing: set<DedupKey>)
    ensures KeysOf(NewRows(rs, existing)) == KeysOf(rs) - existing
    decreases |rs|
  {
    if rs != [] {
      var front, last := rs[..|rs| - 1], rs[|rs| - 1];
      NewRowsKeys(front, existing);
      assert rs == front + [last];
      assert KeysOf(rs) == KeysOf(front) + {KeyFor(last)};
      KeysOfAppend(NewRows(front, existing), last);
    }
  }

  lemma KeysOfAppend(rs: seq<Record>, r: Record)
    ensures KeysOf(rs + [r]) == KeysOf(rs) + {KeyFor(r)}
  {
  }

  lemma {:induction false} NewRowsDistinct(rs: seq<Record>, existing: set<DedupKey>)
    requires |KeysOf(rs)| == |rs|
    ensures |NewRows(rs, existing)| == |KeysOf(NewRows(rs, existing))|
    decreases |rs|
  {
    if rs != [] {
      var front, last := rs[..|rs| - 1], rs[|rs| - 1];
      assert rs == front + [last];
      KeysOfAppend(front, last);
      KeysAtMost(front);
      assert KeyFor(last) !in KeysOf(front) by {
        assert KeyFor(last) in KeysOf(front) ==> KeysOf(rs) == KeysOf(front);
      }
      NewRowsDistinct(front, existing);
      NewRowsKeys(front, existing);
      KeysOfAppend(NewRows(front, existing), last);
    }
  }

  /** The stored form of a record: an ID is given if it has none, and nothing else changes. */
  predicate IsStored(r: Record, p: Record)
  {
    p == r.(id := p.id) && p.id != 0 && (r.id != 0 ==> p.id == r.id)
  }

  /** `placed` is `rows` with IDs assigned, one by one. */
  predicate Renumbered(rows: seq<Record>, placed: seq<Record>)
  {
    |rows| == |placed| && forall i :: 0 <= i < |rows| ==> IsStored(rows[i], placed[i])
  }

  lemma {:induction false} RenumberedKeys(rows: seq<Record>, placed: seq<Record>)
    requires Renumbered(rows, placed)
    ensures KeyBag(placed) == KeyBag(rows) && Aggregate(placed) == Aggregate(rows)
    decreases |rows|
  {
    if rows != [] {
      var a, b := rows[|rows| - 1], placed[|placed| - 1];
      assert IsStored(a, b);
      assert KeyFor(a) == KeyFor(b) && KeyOf(a) == KeyOf(b) && RowOf(a) == RowOf(b) && a.loggedAt == b.loggedAt;
      RenumberedKeys(rows[..|rows| - 1], placed[..|placed| - 1]);
    }
  }

  /** Reading the keys of the stored rows in the scan, shard by shard. */
  method ExistingKeys(shards: seq<seq<Record>>, nodes: set<string>, range: TimeRange) returns (keys: set<DedupKey>)
    ensures keys == set row | row in Flatten(shards) && InScan(nodes, range, row) :: KeyFor(row)
  {
    keys := {};
    for i := 0 to |shards|
      invariant keys == set row | row in Flatten(shards[..i]) && InScan(nodes, range, row) :: KeyFor(row)
    {
      var rows := shards[i];
      assert shards[..i + 1][..i] == shards[..i];
      assert Flatten(shards[..i + 1]) == Flatten(shards[..i]) + rows;
      for j := 0 to |rows|
        invariant keys == set row | row in Flatten(shards[..i]) + rows[..j] && InScan(nodes, range, row) :: KeyFor(row)
      {
        assert rows[..j + 1] == rows[..j] + [rows[j]];
        if InScan(nodes, range, rows[j]) {
          keys := keys + {KeyFor(rows[j])};
        }
      }
      assert rows[..|rows|] == rows;
    }
    assert shards[..|shards|] == shards;
  }

  /** Exactly one row was added for each incoming key that was not stored, and counted. */
  ghost predicate OneRowPerNewKey(records: seq<Record>, before: seq<Record>, after: seq<Record>, inserted: nat)
  {
    var newKeys := KeysOf(records) - KeysOf(before);
    && inserted == |newKeys|
    && KeyBag(after) == KeyBag(before) + multiset(newKeys)
    && KeysOf(after) == KeysOf(before) + KeysOf(records)
  }

  /** What is stored is the first of the incoming records of its request. */
  ghost predicate ComesFrom(records: seq<Record>, p: Record)
  {
    exists i :: 0 <= i < |records| && IsStored(records[i], p) && forall j :: 0 <= j < i ==> !SameRequest(records[j], records[i])
  }

  /** The shards gain so many rows, each an incoming record, and keep all others. */
  ghost predicate Gains(records: seq<Record>, before: seq<Record>, after: seq<Record>, inserted: nat)
  {
    exists placed: seq<Record> ::
      && |placed| == inserted && multiset(after) == multiset(before) + multiset(placed)
      && forall p :: p in placed ==> ComesFrom(records, p)
  }

  lemma {:induction false} UniqueIsFirst(records: seq<Record>, r: Record)
    requires r in Uniques(records)
    ensures exists i :: 0 <= i < |records| && records[i] == r && forall j :: 0 <= j < i ==> !SameRequest(records[j], r)
    decreases |records|
  {
    var front, last := records[..|records| - 1], records[|records| - 1];
    if r in Uniques(front) {
      UniqueIsFirst(front, r);
      var i :| 0 <= i < |front| && front[i] == r && forall j :: 0 <= j < i ==> !SameRequest(front[j], r);
      assert records[i] == r && forall j :: 0 <= j < i ==> records[j] == front[j];
    } else {
      forall j | 0 <= j < |front|
        ensures !SameRequest(records[j], r)
      {
        assert front[j] in front;
        SameKeyIff(front[j], r);
      }
    }
  }

  lemma {:induction false} NewRowsAreUnique(rs: seq<Record>, existing: set<DedupKey>)
    ensures forall r :: r in NewRows(rs, existing) ==> r in rs
    decreases |rs|
  {
    if rs != [] {
      NewRowsAreUnique(rs[..|rs| - 1], existing);
      assert forall r :: r in rs <==> r in rs[..|rs| - 1] || r == rs[|rs| - 1];
    }
  }

  lemma PlacedComeFrom(records: seq<Record>, existing: set<DedupKey>, placed: seq<Record>, before: seq<Record>, after: seq<Record>)
    requires Renumbered(NewRows(Uniques(records), existing), placed)
    requires multiset(after) == multiset(before) + multiset(placed)
    ensures Gains(records, before, after, |placed|)
  {
    var rows := NewRows(Uniques(records), existing);
    NewRowsAreUnique(Uniques(records), existing);
    forall p | p in placed
      ensures ComesFrom(records, p)
    {
      var k :| 0 <= k < |placed| && placed[k] == p;
      assert IsStored(rows[k], p) && rows[k] in rows;
      UniqueIsFirst(records, rows[k]);
    }
  }

  /** Inserting the same records again adds nothing. */
  lemma ReplayAddsNothing(records: seq<Record>, before: seq<Record>, after: seq<Record>, inserted: nat,
                          replayed: seq<Record>, again: nat)
    requires OneRowPerNewKey(records, before, after, inserted)
    requires OneRowPerNewKey(records, after, replayed, again)
    ensures again == 0 && KeyBag(replayed) == KeyBag(after)
  {
    assert KeysOf(records) - KeysOf(after) == {};
  }

  class Store {
    const backend: Dialect
    var shards: seq<seq<Record>>
    var detailed: Table
    var nextID: nat

    ghost predicate Valid()
      reads this
    {
      && |shards| == SHARD_COUNT && nextID > 0
      && forall i :: 0 <= i < SHARD_COUNT ==> forall r :: r in shards[i] ==> r.id % SHARD_COUNT == i
    }

    /** The rollups mirror the stored records, each counted once. */
    ghost predicate RollupExact()
      reads this
    {
      detailed == Aggregate(Flatten(shards))
    }

    constructor (backend: Dialect)
      ensures Valid() && RollupExact() && |shards| == 10 && Flatten(shards) == [] && this.backend == backend
    {
      this.backend := backend;
      var empty := seq(SHARD_COUNT, i => []);
      shards, detailed, nextID := empty, map[], 1;
      new;
      FlattenEmpty(shards);
    }

    /** Keep an ID that is set; otherwise take the next fresh one. */
    method AssignID(r: Record) returns (placed: Record)
      requires Valid()
      modifies this`nextID
      ensures Valid() && placed == r.(id := if r.id != 0 then r.id else old(nextID))
    {
      placed := r;
      if r.id == 0 {
        placed := r.(id := nextID);
        nextID := nextID + 1;
      }
    }

    /** Insert what is new. When the incoming records all have a time (or all lack one),
        exactly one row is stored for each key not stored before, the count of those keys is
        returned, and a replay stores nothing. The rollups stay exact in any case. */
    method InsertNew(records: seq<Record>) returns (inserted: nat)
      requires Valid()
      modifies this
      ensures Valid()
      ensures old(RollupExact()) ==> RollupExact()
      ensures NoneZero(records) || AllZero(records) ==>
                OneRowPerNewKey(records, old(Flatten(shards)), Flatten(shards), inserted)
      ensures Gains(records, old(Flatten(shards)), Flatten(shards), inserted)
      ensures inserted == 0 ==> shards == old(shards) && detailed == old(detailed)
    {
      var unique, ranges := CollectIncoming(records);
      var range := CombinedRange(ranges);
      var existing := ExistingKeys(shards, ranges.Keys, range);
      var placed := PlaceNew(unique, existing);
      inserted := AppendByShard(placed);
      InsertMeaning(records, range, existing, placed, old(Flatten(shards)), Flatten(shards));
      RowsOfNothing(placed, detailed);
      detailed := Upsert(detailed, Aggregate(placed));
    }

    /** Assign IDs to the rows that are not there yet. */
    method PlaceNew(unique: seq<Record>, existing: set<DedupKey>) returns (placed: seq<Record>)
      requires Valid()
      modifies this`nextID
      ensures Valid() && Renumbered(NewRows(unique, existing), placed)
    {
      placed := [];
      for i := 0 to |unique|
        invariant Valid() && Renumbered(NewRows(unique[..i], existing), placed)
      {
        assert unique[..i + 1][..i] == unique[..i];
        if KeyFor(unique[i]) !in existing {
          var record := AssignID(unique[i]);
          placed := placed + [record];
        }
      }
      assert unique[..|unique|] == unique;
    }

    /** Write each record into the shard its ID selects. */
    method AppendByShard(placed: seq<Record>) returns (inserted: nat)
      requires Valid()
      modifies this`shards
      ensures Valid() && inserted == |placed|
      ensures multiset(Flatten(shards)) == old(multiset(Flatten(shards))) + multiset(placed)
      ensures placed == [] ==> shards == old(shards)
    {
      inserted := 0;
      for i := 0 to |placed|
        invariant Valid() && inserted == i
        invariant multiset(Flatten(shards)) == old(multiset(Flatten(shards))) + multiset(placed[..i])
        invariant i == 0 ==> shards == old(shards)
      {
        var table := placed[i].id % SHARD_COUNT;
        FlattenAppend(shards, table, [placed[i]]);
        assert placed[..i + 1] == placed[..i] + [placed[i]];
        shards := shards[table := shards[table] + [placed[i]]];
        inserted := inserted + 1;
      }
      assert placed[..|placed|] == placed;
    }

    /** Delete the rows that match; if any did, rebuild the rollups, which are then exact if and
        only if both rollup paths agree on every record left. */
    method DeleteWhere(doomed: Record -> bool) returns (deleted: nat)
      requires Valid()
      modifies this`shards, this`detailed
      ensures Valid()
      ensures shards == old(Survivors(shards, doomed))
      ensures deleted == |old(Flatten(shards))| - |Flatten(shards)|
      ensures deleted == 0 ==> shards == old(shards) && detailed == old(detailed)
      ensures deleted > 0 ==> (RollupExact() <==> AllNormal(backend, Flatten(shards)))
      ensures forall r :: multiset(Flatten(shards))[r] == if doomed(r) then 0 else old(multiset(Flatten(shards)))[r]
    {
      var kept;
      kept, deleted := DeleteFromShards(shards, doomed);
      forall i | 0 <= i < SHARD_COUNT
        ensures forall r :: r in kept[i] ==> r in shards[i]
      {
        SurvivorsAt(shards, doomed, i);
        KeptSubset(shards[i], doomed);
      }
      SurvivorsCount(shards, doomed);
      shards := kept;
      if deleted > 0 {
        detailed := RebuildTable(backend, shards);
        RebuildIsAggregateIff(backend, shards);
      }
    }
  }

  /** DELETE from every shard, adding up the affected rows. */
  method DeleteFromShards(shards: seq<seq<Record>>, doomed: Record -> bool) returns (kept: seq<seq<Record>>, deleted: nat)
    ensures kept == Survivors(shards, doomed)
    ensures deleted == |Flatten(shards)| - |Flatten(kept)|
    ensures deleted == 0 ==> kept == shards
  {
    kept, deleted := [], 0;
    for i := 0 to |shards|
      invariant kept == Survivors(shards[..i], doomed)
      invariant deleted == |Flatten(shards[..i])| - |Flatten(kept)|
      invariant deleted == 0 ==> kept == shards[..i]
    {
      var rows := Kept(shards[i], doomed);
      KeptSubset(shards[i], doomed);
      if |rows| == |shards[i]| {
        KeptAll(shards[i], doomed);
      }
      assert shards[..i + 1][..i] == shards[..i];
      assert (kept + [rows])[..i] == kept;
      kept := kept + [rows];
      deleted := deleted + (|shards[i]| - |rows|);
    }
    assert shards[..|shards|] == shards;
  }

  lemma {:induction false} SurvivorsAt(shards: seq<seq<Record>>, doomed: Record -> bool, i: nat)
    requires i < |shards|
    ensures Survivors(shards, doomed)[i] == Kept(shards[i], doomed)
    decreases |shards|
  {
    if i < |shards| - 1 {
      SurvivorsAt(shards[..|shards| - 1], doomed, i);
    }
  }

  lemma InsertMeaning(records: seq<Record>, range: TimeRange, existing: set<DedupKey>, placed: seq<Record>,
                      before: seq<Record>, after: seq<Record>)
    requires Spans(Bounds(RangesOf(Uniques(records))), range)
    requires existing == set row | row in before && InScan(RangesOf(Uniques(records)).Keys, range, row) :: KeyFor(row)
    requires Renumbered(NewRows(Uniques(records), existing), placed)
    requires multiset(after) == multiset(before) + multiset(placed)
    ensures Aggregate(after) == Upsert(Aggregate(before), Aggregate(placed))
    ensures NoneZero(records) || AllZero(records) ==> OneRowPerNewKey(records, before, after, |placed|)
    ensures Gains(records, before, after, |placed|)
  {
    PlacedComeFrom(records, existing, placed, before, after);
    InsertedRows(records, existing, placed, before, after);
    if NoneZero(records) || AllZero(records) {
      ScanIsExact(records, range, before, existing);
      OneRowFrom(records, KeysOf(records) - existing, before, after, |placed|);
    }
  }

  lemma OneRowFrom(records: seq<Record>, added: set<DedupKey>, before: seq<Record>, after: seq<Record>, n: nat)
    requires added == KeysOf(records) - KeysOf(before) && n == |added|
    requires KeyBag(after) == KeyBag(before) + multiset(added)
    requires KeysOf(after) == KeysOf(before) + added
    ensures OneRowPerNewKey(records, before, after, n)
  {
    assert KeysOf(before) + added == KeysOf(before) + KeysOf(records);
  }

  lemma RowsOfNothing(placed: seq<Record>, t: Table)
    ensures placed == [] ==> Upsert(t, Aggregate(placed)) == t
  {
    assert Upsert(t, map[]) == t;
  }

  /** What storing the placed rows does to the keys and to the aggregate. */
  lemma InsertedRows(records: seq<Record>, existing: set<DedupKey>, placed: seq<Record>, before: seq<Record>, after: seq<Record>)
    requires Renumbered(NewRows(Uniques(records), existing), placed)
    requires multiset(after) == multiset(before) + multiset(placed)
    ensures |placed| == |KeysOf(records) - existing|
    ensures KeyBag(after) == KeyBag(before) + multiset(KeysOf(records) - existing)
    ensures KeysOf(after) == KeysOf(before) + (KeysOf(records) - existing)
    ensures Aggregate(after) == Upsert(Aggregate(before), Aggregate(placed))
  {
    var added := NewRows(Uniques(records), existing);
    UniquesKeepKeys(records);
    NewRowsKeys(Uniques(records), existing);
    NewRowsDistinct(Uniques(records), existing);
    RenumberedKeys(added, placed);
    DistinctBag(added);
    StoredTogether(before, placed, after);
    KeysFromBags(before, after, KeysOf(records) - existing);
  }

  lemma StoredTogether(before: seq<Record>, placed: seq<Record>, after: seq<Record>)
    requires multiset(after) == multiset(before) + multiset(placed)
    ensures KeyBag(after) == KeyBag(before) + KeyBag(placed)
    ensures Aggregate(after) == Upsert(Aggregate(before), Aggregate(placed))
  {
    assert multiset(before + placed) == multiset(after);
    KeyBagConcat(before, placed);
    KeyBagPermutation(after, before + placed);
    AggregateConcat(before, placed);
    AggregatePermutation(after, before + placed);
  }

  lemma KeysFromBags(before: seq<Record>, after: seq<Record>, added: set<DedupKey>)
    requires KeyBag(after) == KeyBag(before) + multiset(added)
    ensures KeysOf(after) == KeysOf(before) + added
  {
    KeyBagKeys(after);
    KeyBagKeys(before);
    assert forall k :: k in KeyBag(after) <==> k in KeyBag(before) || k in added;
  }

  /** On the incoming keys, the scanned keys are the stored keys. */
  lemma ScanIsExact(records: seq<Record>, range: TimeRange, stored: seq<Record>, existing: set<DedupKey>)
    requires Spans(Bounds(RangesOf(Uniques(records))), range)
    requires existing == set row | row in stored && InScan(RangesOf(Uniques(records)).Keys, range, row) :: KeyFor(row)
    ensures NoneZero(records) || AllZero(records) ==> KeysOf(records) - existing == KeysOf(records) - KeysOf(stored)
  {
    var unique := Uniques(records);
    UniquesKeepKeys(records);
    if NoneZero(records) || AllZero(records) {
      UniformTimesAreCovered(unique, range);
      forall k | k in KeysOf(records) && k in KeysOf(stored)
        ensures k in existing
      {
        var row :| row in stored && KeyFor(row) == k;
        assert InScan(RangesOf(unique).Keys, range, row);
      }
    }
  }

  /** The rows of a table after DELETE WHERE. */
  function Kept(rs: seq<Record>, doomed: Record -> bool): seq<Record>
  {
    if rs == [] then [] else
      var front := Kept(rs[..|rs| - 1], doomed);
      if doomed(rs[|rs| - 1]) then front else front + [rs[|rs| - 1]]
  }

  function Survivors(shards: seq<seq<Record>>, doomed: Record -> bool): (r: seq<seq<Record>>)
    ensures |r| == |shards|
  {
    if shards == [] then [] else Survivors(shards[..|shards| - 1], doomed) + [Kept(shards[|shards| - 1], doomed)]
  }

  lemma {:induction false} KeptSubset(rs: seq<Record>, doomed: Record -> bool)
    ensures |Kept(rs, doomed)| <= |rs|
    ensures forall r :: r in Kept(rs, doomed) <==> r in rs && !doomed(r)
    decreases |rs|
  {
    if rs != [] {
      KeptSubset(rs[..|rs| - 1], doomed);
      assert rs == rs[..|rs| - 1] + [rs[|rs| - 1]];
    }
  }

  lemma {:induction false} KeptCount(rs: seq<Record>, doomed: Record -> bool)
    ensures forall r :: multiset(Kept(rs, doomed))[r] == if doomed(r) then 0 else multiset(rs)[r]
    decreases |rs|
  {
    if rs != [] {
      KeptCount(rs[..|rs| - 1], doomed);
      assert rs == rs[..|rs| - 1] + [rs[|rs| - 1]];
    }
  }

  /** The doomed rows are gone, and every other row is there as often as before. */
  lemma {:induction false} SurvivorsCount(shards: seq<seq<Record>>, doomed: Record -> bool)
    ensures forall r :: multiset(Flatten(Survivors(shards, doomed)))[r] == if doomed(r) then 0 else multiset(Flatten(shards))[r]
    decreases |shards|
  {
    if shards != [] {
      var front, last := shards[..|shards| - 1], shards[|shards| - 1];
      SurvivorsCount(front, doomed);
      KeptCount(last, doomed);
      var kept := Survivors(front, doomed) + [Kept(last, doomed)];
      assert kept[..|kept| - 1] == Survivors(front, doomed);
      assert Flatten(kept) == Flatten(Survivors(front, doomed)) + Kept(last, doomed);
    }
  }

  lemma {:induction false} KeptAll(rs: seq<Record>, doomed: Record -> bool)
    requires |Kept(rs, doomed)| == |rs|
    ensures Kept(rs, doomed) == rs
    decreases |rs|
  {
    if rs != [] {
      KeptSubset(rs[..|rs| - 1], doomed);
      KeptAll(rs[..|rs| - 1], doomed);
      assert rs == rs[..|rs| - 1] + [rs[|rs| - 1]];
    }
  }
}

/** Re-sharding legacy observability tables: rename, recreate, copy every row under a fresh ID
    into the shard the ID selects, drop the legacy tables. */
module LegacyResharding {
  import opened Sharding
  import opened Wrappers
  import opened Sums
  import opened Sorting

  const BATCH_SIZE: nat := 500

  /** A row: its ID and everything else in it. */
  datatype Row = Row(id: nat, columns: seq<string>)

  /** A table may be missing. */
  type Table = Option<seq<Row>>

  /** The tables of one base name: renamed ones and current ones, by shard. */
  datatype Base = Base(legacy: seq<Table>, current: seq<Table>)

  predicate WellFormed(b: Base)
  {
    |b.legacy| == SHARD_COUNT && |b.current| == SHARD_COUNT
  }

  predicate NoTables(tables: seq<Table>)
  {
    forall t :: t in tables ==> t.None?
  }

  ghost predicate Ascending(rows: seq<Row>)
  {
    forall i, j :: 0 <= i < j < |rows| ==> rows[i].id < rows[j].id
  }

  /** The one table the keyset scan cannot get past: zero means "nothing seen yet". */
  predicate OnlyZero(rows: seq<Row>)
  {
    |rows| == 1 && rows[0].id == 0
  }

  /** What the query of the next batch sees. */
  function After(rows: seq<Row>, lastSeenID: nat): seq<Row>
  {
    if lastSeenID > 0 then Select(rows, (r: Row) => r.id > lastSeenID) else rows
  }

  function Batch(rows: seq<Row>, lastSeenID: nat): seq<Row>
  {
    Take(After(rows, lastSeenID), BATCH_SIZE)
  }

  lemma {:induction false} AfterIsSuffix(rows: seq<Row>, k: nat)
    requires Ascending(rows) && k < |rows| && rows[k].id > 0
    ensures After(rows, rows[k].id) == rows[k + 1..]
    decreases |rows|
  {
    var front, last := rows[..|rows| - 1], rows[|rows| - 1];
    var p := (r: Row) => r.id > rows[k].id;
    if k < |rows| - 1 {
      AfterIsSuffix(front, k);
      assert front[k + 1..] + [last] == rows[k + 1..];
    } else {
      NothingAfter(front, p);
    }
  }

  lemma {:induction false} NothingAfter(rows: seq<Row>, p: Row -> bool)
    requires forall i :: 0 <= i < |rows| ==> !p(rows[i])
    ensures Select(rows, p) == []
    decreases |rows|
  {
    if rows != [] {
      NothingAfter(rows[..|rows| - 1], p);
    }
  }

  /** The scan moves on from every batch of every table, except that a table whose only row has
      the ID zero gives the same batch forever. */
  lemma ScanMovesOnIff(rows: seq<Row>, k: nat)
    requires Ascending(rows) && k < |rows|
    requires k + 1 == |rows| || k + 1 >= BATCH_SIZE
    ensures After(rows, rows[k].id) == rows[k + 1..] <==> !OnlyZero(rows)
    ensures OnlyZero(rows) ==> Batch(rows, rows[k].id) == Batch(rows, 0) == rows
  {
    if k > 0 {
      assert rows[0].id < rows[k].id;
    }
    if rows[k].id > 0 {
      AfterIsSuffix(rows, k);
    }
  }

  // ----- what a copy is -----

  /** `copies` are the rows `source` in order, unchanged except for the IDs, which count up from `first`. */
  ghost predicate Copied(source: seq<Row>, copies: seq<Row>, first: nat)
  {
    && |copies| == |source|
    && forall i :: 0 <= i < |source| ==> copies[i] == source[i].(id := first + i)
  }

  lemma CopiedNext(a: seq<Row>, b: seq<Row>, copiesA: seq<Row>, copiesB: seq<Row>, first: nat)
    requires Copied(a, copiesA, first) && Copied(b, copiesB, first + |a|)
    ensures Copied(a + b, copiesA + copiesB, first)
  {
  }

  type Shards = seq<seq<Row>>

  predicate Selects(rows: seq<Row>, shard: nat)
  {
    forall r :: r in rows ==> r.id % SHARD_COUNT == shard
  }

  /** Every row lies in the shard its ID selects. */
  predicate InPlace(shards: Shards)
  {
    |shards| == SHARD_COUNT && forall i :: 0 <= i < SHARD_COUNT ==> Selects(shards[i], i)
  }

  /** The shards hold the rows they held before and these, each as often as it occurs. */
  ghost predicate Gained(before: Shards, after: Shards, rows: seq<Row>)
  {
    multiset(Flatten(after)) == multiset(Flatten(before)) + multiset(rows)
  }

  lemma GainedNext(before: Shards, mid: Shards, after: Shards, a: seq<Row>, b: seq<Row>)
    requires Gained(before, mid, a) && Gained(mid, after, b)
    ensures Gained(before, after, a + b)
  {
  }

  lemma Put(shards: Shards, shard: nat, rows: seq<Row>)
    requires InPlace(shards) && shard < SHARD_COUNT && Selects(rows, shard)
    ensures InPlace(shards[shard := shards[shard] + rows])
    ensures Gained(shards, shards[shard := shards[shard] + rows], rows)
  {
    FlattenAppend(shards, shard, rows);
    assert Selects(shards[shard], shard);
  }

  // ----- the copy -----

  const EMPTY: Shards := [[], [], [], [], [], [], [], [], [], []]

  lemma EmptyShards(shards: Shards)
    requires shards == EMPTY
    ensures InPlace(shards) && Flatten(shards) == []
  {
    FlattenEmpty(shards);
  }

  /** Fresh IDs for a batch, and the batch grouped by target shard. */
  method Renumber(rows: seq<Row>, nextID: nat) returns (grouped: Shards, ghost copies: seq<Row>)
    ensures InPlace(grouped) && Copied(rows, copies, nextID) && Gained(EMPTY, grouped, copies)
  {
    grouped, copies := EMPTY, [];
    EmptyShards(grouped);
    for i := 0 to |rows|
      invariant InPlace(grouped) && Copied(rows[..i], copies, nextID) && Gained(EMPTY, grouped, copies)
    {
      var row := rows[i].(id := nextID + i);
      var target := row.id % SHARD_COUNT;
      Put(grouped, target, [row]);
      GainedNext(EMPTY, grouped, grouped[target := grouped[target] + [row]], copies, [row]);
      CopiedNext(rows[..i], [rows[i]], copies, [row], nextID);
      assert rows[..i + 1] == rows[..i] + [rows[i]];
      grouped := grouped[target := grouped[target] + [row]];
      copies := copies + [row];
    }
    assert rows[..|rows|] == rows;
  }

  /** Write the groups into their tables. A failed write stops with some groups written. */
  method WriteGroups(grouped: Shards, current: Shards, writes: nat -> bool) returns (ok: bool, after: Shards)
    requires InPlace(grouped) && InPlace(current)
    ensures InPlace(after)
    ensures ok ==> Gained(current, after, Flatten(grouped))
    ensures !ok ==> exists shard :: !writes(shard)
  {
    after := current;
    for i := 0 to SHARD_COUNT
      invariant InPlace(after) && Gained(current, after, Flatten(grouped[..i]))
    {
      assert grouped[..i + 1][..i] == grouped[..i];
      if grouped[i] != [] {
        if !writes(i) {
          return false, after;
        }
        assert Selects(grouped[i], i);
        Put(after, i, grouped[i]);
        GainedNext(current, after, after[i := after[i] + grouped[i]], Flatten(grouped[..i]), grouped[i]);
        after := after[i := after[i] + grouped[i]];
      }
    }
    assert grouped[..SHARD_COUNT] == grouped;
    ok := true;
  }

  lemma GroupsAreCopies(current: Shards, after: Shards, grouped: Shards, copies: seq<Row>)
    requires Gained(EMPTY, grouped, copies) && Gained(current, after, Flatten(grouped))
    ensures Gained(current, after, copies)
  {
    EmptyShards(EMPTY);
  }

  /** The write of some batch into some shard fails. */
  ghost predicate SomeFails(writes: (nat, nat) -> bool)
  {
    exists firstID, shard :: !writes(firstID, shard)
  }

  /** How far the copy of a table has come. */
  ghost predicate Progress(rows: seq<Row>, current: Shards, firstID: nat, done: nat, lastSeenID: nat, after: Shards, copies: seq<Row>)
  {
    && done <= |rows| && After(rows, lastSeenID) == rows[done..]
    && InPlace(after) && Copied(rows[..done], copies, firstID) && Gained(current, after, copies)
  }

  lemma NextBatch(rows: seq<Row>, lastSeenID: nat, done: nat)
    requires Ascending(rows) && !OnlyZero(rows) && done <= |rows| && After(rows, lastSeenID) == rows[done..]
    requires Batch(rows, lastSeenID) != []
    ensures var batch := Batch(rows, lastSeenID);
            var n := |batch|;
            && done + n <= |rows| && rows[..done] + batch == rows[..done + n]
            && After(rows, batch[n - 1].id) == rows[done + n..]
  {
    var batch := Batch(rows, lastSeenID);
    var n := |batch|;
    assert batch == rows[done..done + n];
    assert batch[n - 1] == rows[done + n - 1];
    ScanMovesOnIff(rows, done + n - 1);
  }

  lemma CopyStep(rows: seq<Row>, current: Shards, firstID: nat, done: nat, lastSeenID: nat, mid: Shards, copies: seq<Row>,
                 grouped: Shards, batchCopies: seq<Row>, after: Shards)
    requires Ascending(rows) && !OnlyZero(rows) && Progress(rows, current, firstID, done, lastSeenID, mid, copies)
    requires Batch(rows, lastSeenID) != [] && Copied(Batch(rows, lastSeenID), batchCopies, firstID + done)
    requires Gained(EMPTY, grouped, batchCopies) && Gained(mid, after, Flatten(grouped)) && InPlace(after)
    ensures var batch := Batch(rows, lastSeenID);
            Progress(rows, current, firstID, done + |batch|, batch[|batch| - 1].id, after, copies + batchCopies)
  {
    NextBatch(rows, lastSeenID, done);
    CopiedNext(rows[..done], Batch(rows, lastSeenID), copies, batchCopies, firstID);
    GroupsAreCopies(mid, after, grouped, batchCopies);
    GainedNext(current, mid, after, copies, batchCopies);
  }

  /** Copy one legacy table, batch by batch. It terminates because each batch leaves fewer rows above
      the last ID seen. */
  method CopyTable(rows: seq<Row>, current: Shards, firstID: nat, writes: (nat, nat) -> bool)
    returns (ok: bool, after: Shards, nextID: nat, ghost copies: seq<Row>)
    requires Ascending(rows) && !OnlyZero(rows) && InPlace(current)
    ensures InPlace(after) && nextID >= firstID
    ensures ok ==> Copied(rows, copies, firstID) && nextID == firstID + |rows| && Gained(current, after, copies)
    ensures !ok ==> SomeFails(writes)
  {
    after, nextID, copies, ok := current, firstID, [], true;
    var lastSeenID := 0;
    ghost var done := 0;
    while true
      invariant nextID == firstID + done && Progress(rows, current, firstID, done, lastSeenID, after, copies)
      decreases |rows| - done
    {
      var batch := Batch(rows, lastSeenID);
      if batch == [] {
        break;
      }
      var grouped, batchCopies := Renumber(batch, nextID);
      ghost var mid := after;
      var batchID := nextID;
      ok, after := WriteGroups(grouped, after, (shard: nat) => writes(batchID, shard));
      if !ok {
        var shard :| !writes(batchID, shard);
        return;
      }
      CopyStep(rows, current, firstID, done, lastSeenID, mid, copies, grouped, batchCopies, after);
      lastSeenID := batch[|batch| - 1].id;
      nextID := nextID + |batch|;
      copies := copies + batchCopies;
      done := done + |batch|;
    }
    assert done == |rows| && rows[..done] == rows;
  }

  // ----- the whole step -----

  ghost predicate Copyable(t: Table)
  {
    t.Some? ==> Ascending(t.value) && !OnlyZero(t.value)
  }

  function RowsIn(t: Table): seq<Row>
  {
    if t.Some? then t.value else []
  }

  function Contents(tables: seq<Table>): Shards
  {
    seq(|tables|, i requires 0 <= i < |tables| => RowsIn(tables[i]))
  }

  /** Copy the legacy tables of one base, shard by shard; a missing one is skipped. */
  method CopyBase(legacy: seq<Table>, firstID: nat, writes: (nat, nat) -> bool)
    returns (ok: bool, current: Shards, nextID: nat, ghost copies: seq<Row>)
    requires |legacy| == SHARD_COUNT && forall t :: t in legacy ==> Copyable(t)
    ensures InPlace(current) && nextID >= firstID
    ensures ok ==> Copied(Flatten(Contents(legacy)), copies, firstID) && multiset(Flatten(current)) == multiset(copies)
    ensures ok ==> nextID == firstID + |copies|
    ensures !ok ==> SomeFails(writes)
  {
    ok, current, nextID, copies := true, EMPTY, firstID, [];
    EmptyShards(EMPTY);
    for i := 0 to SHARD_COUNT
      invariant nextID == firstID + |copies| && CopiedSoFar(legacy[..i], current, firstID, copies)
    {
      if legacy[i].Some? {
        assert Copyable(legacy[i]);
        ghost var mid, tableCopies := current, [];
        ok, current, nextID, tableCopies := CopyTable(legacy[i].value, current, nextID, writes);
        if !ok {
          return;
        }
        OneTableMore(legacy, i, mid, current, firstID, copies, tableCopies);
        copies := copies + tableCopies;
      } else {
        ContentsNext(legacy, i);
      }
    }
    assert legacy[..SHARD_COUNT] == legacy;
  }

  ghost predicate CopiedSoFar(legacy: seq<Table>, current: Shards, firstID: nat, copies: seq<Row>)
  {
    InPlace(current) && Copied(Flatten(Contents(legacy)), copies, firstID) && Gained(EMPTY, current, copies)
  }

  lemma OneTableMore(legacy: seq<Table>, i: nat, mid: Shards, current: Shards, firstID: nat, copies: seq<Row>, tableCopies: seq<Row>)
    requires i < |legacy| && legacy[i].Some? && CopiedSoFar(legacy[..i], mid, firstID, copies)
    requires InPlace(current) && Copied(legacy[i].value, tableCopies, firstID + |copies|) && Gained(mid, current, tableCopies)
    ensures CopiedSoFar(legacy[..i + 1], current, firstID, copies + tableCopies)
  {
    ContentsNext(legacy, i);
    CopiedNext(Flatten(Contents(legacy[..i])), legacy[i].value, copies, tableCopies, firstID);
    GainedNext(EMPTY, mid, current, copies, tableCopies);
  }

  lemma ContentsNext(tables: seq<Table>, i: nat)
    requires i < |tables|
    ensures Flatten(Contents(tables[..i + 1])) == Flatten(Contents(tables[..i])) + RowsIn(tables[i])
  {
    assert Contents(tables[..i + 1])[..i] == Contents(tables[..i]);
  }

  /** Rename every current table of a base; a legacy table in the way stops it. Rows only move. */
  method RenameBase(b: Base) returns (ok: bool, after: Base)
    requires WellFormed(b)
    ensures WellFormed(after) && Keeps(b, after)
    ensures ok <==> NoTables(b.legacy)
    ensures ok ==> after.legacy == b.current && NoTables(after.current)
  {
    after := b;
    for i := 0 to SHARD_COUNT
      invariant WellFormed(after) && Keeps(b, after)
      invariant forall k :: 0 <= k < i ==> b.legacy[k].None? && after.legacy[k] == b.current[k] && after.current[k].None?
      invariant forall k :: i <= k < SHARD_COUNT ==> after.legacy[k] == b.legacy[k] && after.current[k] == b.current[k]
    {
      if after.legacy[i].Some? {
        assert b.legacy[i] in b.legacy;
        return false, after;
      }
      if after.current[i].Some? {
        after := Base(after.legacy[i := after.current[i]], after.current[i := None]);
      }
    }
    ok := true;
  }

  /** No row of any table is gone. */
  ghost predicate Keeps(was: Base, now: Base)
    requires WellFormed(was) && WellFormed(now)
  {
    forall i, r :: 0 <= i < SHARD_COUNT && (r in RowsIn(was.legacy[i]) || r in RowsIn(was.current[i])) ==>
                     r in RowsIn(now.legacy[i]) || r in RowsIn(now.current[i])
  }

  /** A base after the step: its legacy tables are gone, and its rows are those it had in its current
      tables, in order and unchanged except for fresh IDs counting from `first`, each once, in the
      shard its ID selects. */
  ghost predicate Resharded(was: Base, now: Base, first: nat, copies: seq<Row>)
  {
    && WellFormed(now) && NoTables(now.legacy) && (forall t :: t in now.current ==> t.Some?)
    && InPlace(Contents(now.current))
    && Copied(Flatten(Contents(was.current)), copies, first)
    && multiset(Flatten(Contents(now.current))) == multiset(copies)
  }

  function Existing(shards: Shards): (r: seq<Table>)
    ensures |r| == |shards| && (forall i :: 0 <= i < |r| ==> r[i] == Some(shards[i])) && Contents(r) == shards
  {
    seq(|shards|, i requires 0 <= i < |shards| => Some(shards[i]))
  }

  function Missing(): (r: seq<Table>)
    ensures |r| == SHARD_COUNT && NoTables(r)
  {
    [None, None, None, None, None, None, None, None, None, None]
  }

  class Database {
    var bases: seq<Base>
    var nextID: nat

    ghost predicate Valid()
      reads this
    {
      nextID > 0 && forall b :: 0 <= b < |bases| ==> WellFormed(bases[b])
    }

    method RenameAll() returns (ok: bool)
      requires Valid()
      modifies this`bases
      ensures Valid() && |bases| == |old(bases)|
      ensures forall b :: 0 <= b < |bases| ==> Keeps(old(bases)[b], bases[b])
      ensures ok <==> forall b :: 0 <= b < |bases| ==> NoTables(old(bases)[b].legacy)
      ensures ok ==> forall b :: 0 <= b < |bases| ==> bases[b].legacy == old(bases)[b].current && NoTables(bases[b].current)
    {
      for b := 0 to |bases|
        invariant Valid() && |bases| == |old(bases)|
        invariant forall k :: 0 <= k < b ==> Keeps(old(bases)[k], bases[k]) && NoTables(old(bases)[k].legacy)
        invariant forall k :: 0 <= k < b ==> bases[k].legacy == old(bases)[k].current && NoTables(bases[k].current)
        invariant forall k :: b <= k < |bases| ==> bases[k] == old(bases)[k]
      {
        var renamed;
        ok, renamed := RenameBase(bases[b]);
        bases := bases[b := renamed];
        if !ok {
          return;
        }
      }
      ok := true;
    }

    /** Create the current tables and copy the legacy rows into them, base by base. */
    method CopyAll(writes: (nat, nat) -> bool) returns (ok: bool, ghost firsts: seq<nat>, ghost copies: seq<seq<Row>>)
      requires Valid()
      requires forall b :: 0 <= b < |bases| ==> forall t :: t in bases[b].legacy ==> Copyable(t)
      modifies this
      ensures Valid() && |bases| == |old(bases)|
      ensures forall b :: 0 <= b < |bases| ==> bases[b].legacy == old(bases)[b].legacy
      ensures !ok ==> SomeFails(writes)
      ensures ok ==> |firsts| == |copies| == |bases|
      ensures ok ==> forall b :: 0 <= b < |bases| ==>
                firsts[b] >= old(nextID) && (forall t :: t in bases[b].current ==> t.Some?) && InPlace(Contents(bases[b].current))
                && Copied(Flatten(Contents(old(bases)[b].legacy)), copies[b], firsts[b])
                && multiset(Flatten(Contents(bases[b].current))) == multiset(copies[b])
    {
      firsts, copies := [], [];
      for b := 0 to |bases|
        invariant Valid() && |bases| == |old(bases)| && nextID >= old(nextID)
        invariant forall k :: 0 <= k < |bases| ==> bases[k].legacy == old(bases)[k].legacy
        invariant |firsts| == |copies| == b
        invariant forall k :: 0 <= k < b ==>
                    firsts[k] >= old(nextID) && (forall t :: t in bases[k].current ==> t.Some?) && InPlace(Contents(bases[k].current))
                    && Copied(Flatten(Contents(old(bases)[k].legacy)), copies[k], firsts[k])
                    && multiset(Flatten(Contents(bases[k].current))) == multiset(copies[k])
      {
        var current, next;
        ghost var baseCopies;
        ok, current, next, baseCopies := CopyBase(bases[b].legacy, nextID, writes);
        firsts, copies := firsts + [nextID], copies + [baseCopies];
        nextID := next;
        bases := bases[b := Base(bases[b].legacy, Existing(current))];
        if !ok {
          return;
        }
      }
      ok := true;
    }

    /** The migration step. If it succeeds, every base is re-sharded. If it stops, no row is gone:
        legacy tables are dropped only after every copy. */
    method MigrateV3(writes: (nat, nat) -> bool) returns (ok: bool, ghost firsts: seq<nat>, ghost copies: seq<seq<Row>>)
      requires Valid()
      requires forall b :: 0 <= b < |bases| ==> forall t :: t in bases[b].current ==> Copyable(t)
      modifies this
      ensures Valid() && |bases| == |old(bases)|
      ensures !ok ==> SomeFails(writes) || exists b :: 0 <= b < |old(bases)| && !NoTables(old(bases)[b].legacy)
      ensures !ok ==> forall b :: 0 <= b < |bases| ==> Keeps(old(bases)[b], bases[b])
      ensures ok ==> |firsts| == |copies| == |bases|
      ensures ok ==> forall b :: 0 <= b < |bases| ==>
                NoTables(old(bases)[b].legacy) && firsts[b] >= old(nextID) && Resharded(old(bases)[b], bases[b], firsts[b], copies[b])
    {
      ghost var before := bases;
      firsts, copies := [], [];
      ok := RenameAll();
      if !ok {
        return;
      }
      ok, firsts, copies := CopyAll(writes);
      if !ok {
        forall b | 0 <= b < |bases|
          ensures Keeps(before[b], bases[b])
        {
          RenamedKeeps(before[b], bases[b]);
        }
        return;
      }
      for b := 0 to |bases|
        invariant Valid() && |bases| == |before|
        invariant forall k :: 0 <= k < b ==> Resharded(before[k], bases[k], firsts[k], copies[k])
        invariant forall k :: b <= k < |bases| ==>
                    bases[k].legacy == before[k].current
                    && (forall t :: t in bases[k].current ==> t.Some?) && InPlace(Contents(bases[k].current))
                    && Copied(Flatten(Contents(before[k].current)), copies[k], firsts[k])
                    && multiset(Flatten(Contents(bases[k].current))) == multiset(copies[k])
      {
        bases := bases[b := Base(Missing(), bases[b].current)];
      }
    }
  }

  /** With the old current tables still there under their legacy names, nothing is gone. */
  lemma RenamedKeeps(was: Base, now: Base)
    requires WellFormed(was) && WellFormed(now) && NoTables(was.legacy) && now.legacy == was.current
    ensures Keeps(was, now)
  {
    forall i | 0 <= i < SHARD_COUNT
      ensures was.legacy[i].None?
    {
      assert was.legacy[i] in was.legacy;
    }
  }
}

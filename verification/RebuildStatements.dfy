/** A rebuild of all rollups, statement by statement: after raw records were deleted it clears the
    detailed table and the three derived ones, groups the shards, clears the derived tables again and
    refreshes them chunk by chunk. It runs under no lock and in no transaction. */
module RebuildStatements {
  import opened Sums
  import opened AccessLog
  import opened DerivedRollups
  import opened RefreshStatements

  /** The derived tables are cleared before the shards are grouped, again before they are refilled, and
      only once when all logs are deleted. */
  datatype Clear = First | Again | Only

  /** The next statement of the rebuild in flight. `chunk` is the statement of the chunk in hand, or
      NoRefresh between two chunks. */
  datatype Rebuild =
    | NoRebuild
    | ClearDetailed(all: bool)
    | ClearTable(table: nat, clear: Clear)
    | GroupShards(next: nat)
    | PluckMinutes
    | RefreshChunks(chunk: Phase, rest: seq<set<int>>)

  const NO_TABLES: Tables := Tables(map[], {}, {})

  const CHUNK_SIZE := 500

  function WithoutRows(tables: Tables, table: nat): Tables
  {
    if table == 0 then tables.(identities := {})
    else if table == 1 then tables.(filterIdentities := {})
    else tables.(buckets := map[])
  }

  function AfterClear(table: nat, clear: Clear): Rebuild
  {
    if table < 2 then ClearTable(table + 1, clear)
    else
      match clear
      case First => GroupShards(0)
      case Again => PluckMinutes
      case Only => NoRebuild
  }

  ghost function Covered(chunks: seq<set<int>>): set<int>
  {
    set i, m | 0 <= i < |chunks| && m in chunks[i] :: m
  }

  /** The minutes in ascending order, cut into chunks. */
  ghost predicate Chunking(chunks: seq<set<int>>, minutes: set<int>)
  {
    Covered(chunks) == minutes && Ascending(chunks) && Filled(chunks)
  }

  ghost predicate Ascending(chunks: seq<set<int>>)
  {
    forall i, j, m, n :: 0 <= i < j < |chunks| && m in chunks[i] && n in chunks[j] ==> m < n
  }

  ghost predicate Filled(chunks: seq<set<int>>)
  {
    forall i :: 0 <= i < |chunks| ==> 0 < |chunks[i]| <= CHUNK_SIZE && (i < |chunks| - 1 ==> |chunks[i]| == CHUNK_SIZE)
  }

  /** The next chunk begins, or the rebuild is done. */
  function NextChunk(rest: seq<set<int>>): Rebuild
  {
    if rest == [] then NoRebuild else RefreshChunks(DropIdentities(rest[0]), rest[1..])
  }

  lemma {:induction false} Least(s: set<int>) returns (m: int)
    requires s != {}
    ensures m in s && forall x :: x in s ==> m <= x
    decreases |s|
  {
    var some := SomeElement(s);
    var rest := s - {some};
    assert forall x :: x in s ==> x == some || x in rest;
    if rest == {} {
      m := some;
    } else {
      var n := Least(rest);
      m := if n < some then n else some;
    }
  }

  ghost predicate Below(low: set<int>, high: set<int>)
  {
    forall x, y :: x in low && y in high ==> x < y
  }

  lemma {:induction false} Smallest(s: set<int>, n: nat) returns (low: set<int>)
    requires n <= |s|
    ensures low <= s && |low| == n && Below(low, s - low)
    decreases n
  {
    if n == 0 {
      low := {};
    } else {
      var less := Smallest(s, n - 1);
      assert |s - less| == |s| - |less|;
      var m := Least(s - less);
      low := less + {m};
      assert forall y :: y in s - low ==> y in s - less && y != m;
    }
  }

  /** Every set of minutes can be cut so. */
  lemma {:induction false} ChunkingExists(minutes: set<int>) returns (chunks: seq<set<int>>)
    ensures Chunking(chunks, minutes)
    ensures forall i :: 0 <= i < |chunks| ==> 0 < |chunks[i]| <= 500 && (i < |chunks| - 1 ==> |chunks[i]| == 500)
    decreases |minutes|
  {
    if minutes == {} {
      chunks := [];
      assert Covered(chunks) == {};
    } else {
      var n := if |minutes| <= CHUNK_SIZE then |minutes| else CHUNK_SIZE;
      var low := Smallest(minutes, n);
      assert |minutes - low| == |minutes| - |low|;
      var rest := ChunkingExists(minutes - low);
      chunks := [low] + rest;
      FirstChunk(low, rest, minutes);
    }
  }

  lemma {:induction false} FirstChunk(low: set<int>, rest: seq<set<int>>, minutes: set<int>)
    requires low <= minutes && 0 < |low| <= CHUNK_SIZE && (low != minutes ==> |low| == CHUNK_SIZE)
    requires Chunking(rest, minutes - low) && Below(low, minutes - low)
    ensures Chunking([low] + rest, minutes)
  {
    CoveredNext([low] + rest);
    assert ([low] + rest)[1..] == rest && low + (minutes - low) == minutes;
    FirstIsLowest(low, rest);
    if rest != [] {
      RestIsThere(rest, minutes - low);
    }
    FirstIsFilled(low, rest);
  }

  lemma FirstIsLowest(low: set<int>, rest: seq<set<int>>)
    requires Ascending(rest) && Below(low, Covered(rest))
    ensures Ascending([low] + rest)
  {
    var chunks := [low] + rest;
    forall i, j, m, n | 0 <= i < j < |chunks| && m in chunks[i] && n in chunks[j]
      ensures m < n
    {
      assert n in rest[j - 1] && n in Covered(rest);
      assert i > 0 ==> m in rest[i - 1];
    }
  }

  lemma FirstIsFilled(low: set<int>, rest: seq<set<int>>)
    requires Filled(rest) && 0 < |low| <= CHUNK_SIZE && (rest != [] ==> |low| == CHUNK_SIZE)
    ensures Filled([low] + rest)
  {
    assert forall i :: 0 < i < |[low] + rest| ==> ([low] + rest)[i] == rest[i - 1];
  }

  lemma RestIsThere(rest: seq<set<int>>, minutes: set<int>)
    requires Chunking(rest, minutes) && rest != []
    ensures minutes != {}
  {
    CoveredNext(rest);
  }

  // ----- a rebuild that nothing disturbs -----

  /** The chunks refreshed one after the other. */
  ghost function ChunksDone(t: Table, tables: Tables, chunks: seq<set<int>>): Tables
    decreases |chunks|
  {
    if chunks == [] then tables
    else ChunksDone(t, Remaining(DropIdentities(chunks[0]), t, tables), chunks[1..])
  }

  lemma CoveredNext(chunks: seq<set<int>>)
    requires chunks != []
    ensures Covered(chunks) == chunks[0] + Covered(chunks[1..])
  {
    forall m
      ensures m in Covered(chunks) <==> m in chunks[0] + Covered(chunks[1..])
    {
      if m in Covered(chunks) {
        var i :| 0 <= i < |chunks| && m in chunks[i];
        assert i > 0 ==> m in chunks[1..][i - 1];
      }
      if m in Covered(chunks[1..]) {
        var i :| 0 <= i < |chunks[1..]| && m in chunks[1..][i];
        assert m in chunks[i + 1];
      }
    }
  }

  lemma CoveredLast(chunks: seq<set<int>>)
    requires chunks != []
    ensures Covered(chunks) == Covered(chunks[..|chunks| - 1]) + chunks[|chunks| - 1]
  {
    var n := |chunks| - 1;
    forall m | m in Covered(chunks)
      ensures m in Covered(chunks[..n]) + chunks[n]
    {
      var i :| 0 <= i < |chunks| && m in chunks[i];
      assert i == n || m in chunks[..n][i];
    }
    forall m | m in Covered(chunks[..n]) + chunks[n]
      ensures m in Covered(chunks)
    {
      if m in Covered(chunks[..n]) {
        var i :| 0 <= i < n && m in chunks[..n][i];
        assert m in chunks[i];
      } else {
        assert m in chunks[n];
      }
    }
  }

  /** Refreshing chunks makes their minutes fresh and leaves the others alone. */
  lemma {:induction false} ChunksDoneAt(t: Table, tables: Tables, chunks: seq<set<int>>, m: int)
    ensures m in Covered(chunks) ==> Fresh(t, ChunksDone(t, tables, chunks), m)
    ensures m !in Covered(chunks) ==> SameAt(tables, ChunksDone(t, tables, chunks), m)
    decreases |chunks|
  {
    if chunks != [] {
      var next := Remaining(DropIdentities(chunks[0]), t, tables);
      CoveredNext(chunks);
      ChunksDoneAt(t, next, chunks[1..], m);
      if m in chunks[0] {
        WholeRefreshIsFresh(chunks[0], t, tables, m);
        if m !in Covered(chunks[1..]) {
          FreshSame(t, next, ChunksDone(t, next, chunks[1..]), m);
        }
      } else {
        RemainingOutside(DropIdentities(chunks[0]), t, tables, m);
      }
    }
  }

  lemma EmptyIsFresh(t: Table, m: int)
    requires m !in MinutesOf(t)
    ensures Fresh(t, NO_TABLES, m)
  {
    IdentityRowsSplit(t, {}, m);
  }

  /** However the minutes are cut into chunks, the rebuild of cleared tables ends with the derivation. */
  lemma RebuildInChunks(t: Table, chunks: seq<set<int>>)
    requires MinutesOf(t) <= Covered(chunks)
    ensures ChunksDone(t, NO_TABLES, chunks) == Derive(t)
  {
    var done := ChunksDone(t, NO_TABLES, chunks);
    forall m
      ensures Fresh(t, done, m)
    {
      ChunksDoneAt(t, NO_TABLES, chunks, m);
      if m !in Covered(chunks) {
        EmptyIsFresh(t, m);
        FreshSame(t, NO_TABLES, done, m);
      }
    }
    FreshEverywhere(t, done);
  }
}

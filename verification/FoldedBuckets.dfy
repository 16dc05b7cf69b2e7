/** Access-log counts folded into time buckets of any width: the raw GROUP BY over the
    shards, and the three rollup paths that fold minutes instead of records. */
module FoldedBuckets {
  import opened Wrappers
  import opened Sums
  import opened AccessLog
  import opened DerivedRollups
  import opened SqlDialect
  import opened RollupQueries

  const DEFAULT_FOLD_SECONDS: int := 180

  function FoldWidth(minutes: int): (w: int)
    ensures w > 0 && w % 60 == 0
  {
    Width(minutes, DEFAULT_FOLD_SECONDS)
  }

  /** The start of the bucket of an instant. */
  type Start = int -> int

  function StartIn(d: Dialect, w: int): Start
    requires w > 0
  {
    (t: int) => BucketStart(d, w, t)
  }

  // ----- the raw scan -----

  ghost function RawBucketFilter(d: Dialect, q: Query, start: Start, b: int, c: StatusClass): Record -> bool
  {
    (r: Record) => RawMatches(d, q, r) && start(r.loggedAt) == b && InClass(c, r.status)
  }

  /** SUM over shards of the per-shard count of one bucket and status class. */
  ghost function RawBucketCount(d: Dialect, shards: seq<seq<Record>>, q: Query, start: Start, b: int, c: StatusClass): nat
  {
    if shards == [] then 0
    else RawBucketCount(d, shards[..|shards| - 1], q, start, b, c)
         + CountIf(shards[|shards| - 1], RawBucketFilter(d, q, start, b, c))
  }

  ghost function RawBucketValues(d: Dialect, shards: seq<seq<Record>>, q: Query, start: Start, b: int, kind: Kind): set<string>
  {
    set i, r | 0 <= i < |shards| && r in shards[i] && RawMatches(d, q, r)
               && start(r.loggedAt) == b && ValueOf(KeyOf(r).dims, kind) != "" ::
      ValueOf(KeyOf(r).dims, kind)
  }

  ghost function RawStarts(d: Dialect, shards: seq<seq<Record>>, q: Query, start: Start): set<int>
  {
    set i, r | 0 <= i < |shards| && r in shards[i] && RawMatches(d, q, r) :: start(r.loggedAt)
  }

  ghost function RawRow(d: Dialect, shards: seq<seq<Record>>, q: Query, start: Start, b: int): BucketRow
  {
    BucketRow(
      RawBucketCount(d, shards, q, start, b, AnyStatus),
      |RawBucketValues(d, shards, q, start, b, Address)|, |RawBucketValues(d, shards, q, start, b, HostName)|,
      RawBucketCount(d, shards, q, start, b, Success), RawBucketCount(d, shards, q, start, b, ClientError),
      RawBucketCount(d, shards, q, start, b, ServerError))
  }

  ghost function RawFold(d: Dialect, shards: seq<seq<Record>>, q: Query, start: Start): map<int, BucketRow>
  {
    map b | b in RawStarts(d, shards, q, start) :: RawRow(d, shards, q, start, b)
  }

  // ----- what a bucket list holds, field by field -----

  /** How many seconds a bucket of so many minutes spans; three minutes if none are given. */
  function Seconds(minutes: int): (w: int)
    ensures w > 0
  {
    if minutes > 0 then 60 * minutes else 180
  }

  ghost predicate WantedIn(d: Dialect, q: Query, minutes: int, b: int, r: Record)
  {
    Wanted(d, q, r) && InBucketOf(d, Seconds(minutes), r.loggedAt, b)
  }

  /** The records asked for in a bucket, by status, and their distinct non-empty addresses and hosts. */
  ghost predicate CountsBucket(d: Dialect, rs: seq<Record>, q: Query, minutes: int, b: int, row: BucketRow)
  {
    && row.requests == CountIf(rs, (r: Record) => WantedIn(d, q, minutes, b, r))
    && row.uniqueAddresses == |set r | r in rs && WantedIn(d, q, minutes, b, r) && r.remoteAddr != "" :: r.remoteAddr|
    && row.uniqueHosts == |set r | r in rs && WantedIn(d, q, minutes, b, r) && r.host != "" :: r.host|
    && row.success == CountIf(rs, (r: Record) => WantedIn(d, q, minutes, b, r) && r.status < 400)
    && row.clientErrors == CountIf(rs, (r: Record) => WantedIn(d, q, minutes, b, r) && 400 <= r.status < 500)
    && row.serverErrors == CountIf(rs, (r: Record) => WantedIn(d, q, minutes, b, r) && r.status >= 500)
  }

  lemma ClassCountIs(d: Dialect, shards: seq<seq<Record>>, q: Query, minutes: int, b: int, c: StatusClass, p: Record -> bool)
    requires PlainFilter(d, q.filter)
    requires forall r :: p(r) == (WantedIn(d, q, minutes, b, r) && InClass(c, r.status))
    ensures RawBucketCount(d, shards, q, StartIn(d, FoldWidth(minutes)), b, c) == CountIf(Flatten(shards), p)
  {
    var start := StartIn(d, FoldWidth(minutes));
    RawBucketCountOfUnion(d, shards, q, start, b, c);
    forall r
      ensures RawBucketFilter(d, q, start, b, c)(r) == p(r)
    {
      RawMatchesMeaning(d, q, r);
      BucketStartMeaning(d, FoldWidth(minutes), r.loggedAt, b);
    }
    CountIfCongruence(Flatten(shards), RawBucketFilter(d, q, start, b, c), p);
  }

  lemma RecordsOfBucket(d: Dialect, shards: seq<seq<Record>>, q: Query, minutes: int, b: int)
    requires PlainFilter(d, q.filter)
    ensures forall r :: r in Flatten(shards) <==> exists i :: 0 <= i < |shards| && r in shards[i]
    ensures forall r :: RawMatches(d, q, r) && StartIn(d, FoldWidth(minutes))(r.loggedAt) == b <==> WantedIn(d, q, minutes, b, r)
  {
    forall r
      ensures r in Flatten(shards) <==> exists i :: 0 <= i < |shards| && r in shards[i]
      ensures RawMatches(d, q, r) && StartIn(d, FoldWidth(minutes))(r.loggedAt) == b <==> WantedIn(d, q, minutes, b, r)
    {
      FlattenMembers(shards, r);
      RawMatchesMeaning(d, q, r);
      BucketStartMeaning(d, FoldWidth(minutes), r.loggedAt, b);
    }
  }

  lemma AddressesAre(d: Dialect, shards: seq<seq<Record>>, q: Query, minutes: int, b: int)
    requires PlainFilter(d, q.filter)
    ensures RawBucketValues(d, shards, q, StartIn(d, FoldWidth(minutes)), b, Address)
         == set r | r in Flatten(shards) && WantedIn(d, q, minutes, b, r) && r.remoteAddr != "" :: r.remoteAddr
  {
    RecordsOfBucket(d, shards, q, minutes, b);
  }

  lemma HostsAre(d: Dialect, shards: seq<seq<Record>>, q: Query, minutes: int, b: int)
    requires PlainFilter(d, q.filter)
    ensures RawBucketValues(d, shards, q, StartIn(d, FoldWidth(minutes)), b, HostName)
         == set r | r in Flatten(shards) && WantedIn(d, q, minutes, b, r) && r.host != "" :: r.host
  {
    RecordsOfBucket(d, shards, q, minutes, b);
  }

  lemma RawRowMeaning(d: Dialect, shards: seq<seq<Record>>, q: Query, minutes: int, b: int)
    requires PlainFilter(d, q.filter)
    ensures CountsBucket(d, Flatten(shards), q, minutes, b, RawRow(d, shards, q, StartIn(d, FoldWidth(minutes)), b))
  {
    ClassCountIs(d, shards, q, minutes, b, AnyStatus, (r: Record) => WantedIn(d, q, minutes, b, r));
    ClassCountIs(d, shards, q, minutes, b, Success, (r: Record) => WantedIn(d, q, minutes, b, r) && r.status < 400);
    ClassCountIs(d, shards, q, minutes, b, ClientError, (r: Record) => WantedIn(d, q, minutes, b, r) && 400 <= r.status < 500);
    ClassCountIs(d, shards, q, minutes, b, ServerError, (r: Record) => WantedIn(d, q, minutes, b, r) && r.status >= 500);
    AddressesAre(d, shards, q, minutes, b);
    HostsAre(d, shards, q, minutes, b);
  }

  /** The buckets listed are those that hold a record asked for, each with the counts of its records. */
  ghost predicate ListsWanted(d: Dialect, rs: seq<Record>, q: Query, minutes: int, list: map<int, BucketRow>)
  {
    && (forall b :: b in list <==> exists r :: r in rs && WantedIn(d, q, minutes, b, r))
    && (forall b :: b in list ==> CountsBucket(d, rs, q, minutes, b, list[b]))
  }

  lemma RawFoldMeaning(d: Dialect, shards: seq<seq<Record>>, q: Query, minutes: int)
    requires PlainFilter(d, q.filter)
    ensures ListsWanted(d, Flatten(shards), q, minutes, RawFold(d, shards, q, StartIn(d, FoldWidth(minutes))))
  {
    var raw := RawFold(d, shards, q, StartIn(d, FoldWidth(minutes)));
    forall b
      ensures b in raw <==> exists r :: r in Flatten(shards) && WantedIn(d, q, minutes, b, r)
    {
      ListedBucket(d, shards, q, minutes, b);
    }
    forall b | b in raw
      ensures CountsBucket(d, Flatten(shards), q, minutes, b, raw[b])
    {
      RawRowMeaning(d, shards, q, minutes, b);
    }
  }

  lemma ListedBucket(d: Dialect, shards: seq<seq<Record>>, q: Query, minutes: int, b: int)
    requires PlainFilter(d, q.filter)
    ensures b in RawStarts(d, shards, q, StartIn(d, FoldWidth(minutes))) <==>
            exists r :: r in Flatten(shards) && WantedIn(d, q, minutes, b, r)
  {
    RecordsOfBucket(d, shards, q, minutes, b);
  }

  // ----- the rollup paths -----

  ghost function FoldedKeys(d: Dialect, t: Table, q: Query, start: Start, b: int): set<Key>
  {
    set k | k in SelectedKeys(d, t, q) && start(k.minute) == b
  }

  ghost function DetailedStarts(d: Dialect, t: Table, q: Query, start: Start): set<int>
  {
    set k | k in SelectedKeys(d, t, q) :: start(k.minute)
  }

  /** Counts from the detailed rows, with the two distinct counts given separately. */
  ghost function DetailedRow(d: Dialect, t: Table, q: Query, start: Start, b: int, addresses: nat, hosts: nat): BucketRow
  {
    var rows := FoldedKeys(d, t, q, start, b);
    BucketRow(
      ClassTotal(t, rows, AnyStatus), addresses, hosts,
      ClassTotal(t, rows, Success), ClassTotal(t, rows, ClientError), ClassTotal(t, rows, ServerError))
  }

  ghost function DetailedFold(d: Dialect, t: Table, q: Query, start: Start): map<int, BucketRow>
  {
    map b | b in DetailedStarts(d, t, q, start) :: DetailedFoldRow(d, t, q, start, b)
  }

  ghost function DetailedFoldRow(d: Dialect, t: Table, q: Query, start: Start, b: int): BucketRow
  {
    var rows := FoldedKeys(d, t, q, start, b);
    DetailedRow(d, t, q, start, b, |DistinctValues(rows, Address)|, |DistinctValues(rows, HostName)|)
  }

  /** Members of a bucket in the filter-identity table: grouped by bucket and value first. */
  ghost function FilterMembers(d: Dialect, rows: set<FilterIdentity>, q: Query, start: Start, b: int, kind: Kind): set<string>
  {
    set i | i in rows && FilterIdentityMatches(d, q, kind, i) && start(i.minute) == b :: i.value
  }

  ghost function FilterFold(d: Dialect, t: Table, rows: set<FilterIdentity>, q: Query, start: Start): map<int, BucketRow>
  {
    map b | b in DetailedStarts(d, t, q, start) ::
      DetailedRow(d, t, q, start, b, |FilterMembers(d, rows, q, start, b, Address)|, |FilterMembers(d, rows, q, start, b, HostName)|)
  }

  ghost function FoldedMinutes(d: Dialect, buckets: map<int, BucketRow>, q: Query, start: Start, b: int): set<int>
  {
    set m | m in BucketMinutes(buckets, q.since) && start(m) == b
  }

  ghost function Members(d: Dialect, rows: set<Identity>, q: Query, start: Start, b: int, kind: Kind): set<string>
  {
    set i | i in rows && i.kind == kind && SinceMinute(q.since, i.minute) && start(i.minute) == b :: i.value
  }

  ghost function BucketStarts(d: Dialect, buckets: map<int, BucketRow>, q: Query, start: Start): set<int>
  {
    set m | m in BucketMinutes(buckets, q.since) :: start(m)
  }

  ghost function BucketFold(d: Dialect, tables: Tables, q: Query, start: Start): map<int, BucketRow>
  {
    map b | b in BucketStarts(d, tables.buckets, q, start) :: BucketFoldRow(d, tables, q, start, b)
  }

  ghost function BucketFoldRow(d: Dialect, tables: Tables, q: Query, start: Start, b: int): BucketRow
  {
    var minutes := FoldedMinutes(d, tables.buckets, q, start, b);
    BucketRow(
      SumSet(minutes, BucketColumn(tables.buckets, AnyStatus)),
      |Members(d, tables.identities, q, start, b, Address)|, |Members(d, tables.identities, q, start, b, HostName)|,
      SumSet(minutes, BucketColumn(tables.buckets, Success)),
      SumSet(minutes, BucketColumn(tables.buckets, ClientError)),
      SumSet(minutes, BucketColumn(tables.buckets, ServerError)))
  }

  ghost predicate BucketsServe(db: Db, q: Query)
  {
    Aligned(q.since) && Unfiltered(q.filter) && db.idle && db.tables.buckets != map[]
  }

  /** The bucket list before sorting and paging, by whichever path serves it. */
  ghost function ListBuckets(d: Dialect, db: Db, q: Query, foldMinutes: int): map<int, BucketRow>
  {
    var start := StartIn(d, FoldWidth(foldMinutes));
    if BucketsServe(db, q) then BucketFold(d, db.tables, q, start)
    else if db.detailed == map[] || !Aligned(q.since) then RawFold(d, db.shards, q, start)
    else if FilterIdentitiesServe(db) then FilterFold(d, db.detailed, db.tables.filterIdentities, q, start)
    else DetailedFold(d, db.detailed, q, start)
  }

  /** The number of buckets, counted without building them. */
  ghost function CountBuckets(d: Dialect, db: Db, q: Query, foldMinutes: int): nat
  {
    var start := StartIn(d, FoldWidth(foldMinutes));
    if BucketsServe(db, q) then |BucketStarts(d, db.tables.buckets, q, start)|
    else if db.detailed == map[] || !Aligned(q.since) then |RawStarts(d, db.shards, q, start)|
    else |DetailedStarts(d, db.detailed, q, start)|
  }

  // ----- folding minutes is folding records -----

  /** Folding a record's minute gives the record's own bucket (FoldOfMinuteIff). */
  predicate FoldsWithMinute(start: Start, t: int)
  {
    start(MinuteOf(t)) == start(t)
  }

  ghost function KeyBucketFilter(d: Dialect, q: Query, start: Start, b: int, c: StatusClass): Key -> bool
  {
    (k: Key) => KeyMatches(d, q, k) && start(k.minute) == b && InClass(c, k.dims.status)
  }

  lemma {:induction false} RawBucketCountOfUnion(d: Dialect, shards: seq<seq<Record>>, q: Query, start: Start, b: int, c: StatusClass)
    ensures RawBucketCount(d, shards, q, start, b, c) == CountIf(Flatten(shards), RawBucketFilter(d, q, start, b, c))
    decreases |shards|
  {
    if shards != [] {
      RawBucketCountOfUnion(d, shards[..|shards| - 1], q, start, b, c);
      CountIfConcat(Flatten(shards[..|shards| - 1]), shards[|shards| - 1], RawBucketFilter(d, q, start, b, c));
    }
  }

  ghost predicate Foldable(d: Dialect, db: Db, q: Query, start: Start)
  {
    && Consistent(db) && Aligned(q.since) && q.before == None
    && forall r :: r in Flatten(db.shards) && RawMatches(d, q, r) ==> FoldsWithMinute(start, r.loggedAt)
  }

  /** The folded rows count the records whose minutes fold into the bucket. */
  lemma FoldedCountOfMinutes(d: Dialect, db: Db, q: Query, start: Start, b: int, c: StatusClass)
    requires Consistent(db)
    ensures ClassTotal(db.detailed, FoldedKeys(d, db.detailed, q, start, b), c) == CountIf(Flatten(db.shards), OfKey(KeyBucketFilter(d, q, start, b, c)))
  {
    var p := KeyBucketFilter(d, q, start, b, c);
    assert InClassRows(FoldedKeys(d, db.detailed, q, start, b), c) == Select(db.detailed, p);
    RequestsCountRecords(Flatten(db.shards), p);
  }

  lemma FoldedCount(d: Dialect, db: Db, q: Query, start: Start, b: int, c: StatusClass)
    requires Foldable(d, db, q, start)
    ensures ClassTotal(db.detailed, FoldedKeys(d, db.detailed, q, start, b), c) == RawBucketCount(d, db.shards, q, start, b, c)
  {
    var rs := Flatten(db.shards);
    var p := KeyBucketFilter(d, q, start, b, c);
    FoldedCountOfMinutes(d, db, q, start, b, c);
    forall r | r in rs
      ensures OfKey(p)(r) == RawBucketFilter(d, q, start, b, c)(r)
    {
      AlignedMatch(d, q, r);
    }
    CountIfCongruence(rs, OfKey(p), RawBucketFilter(d, q, start, b, c));
    RawBucketCountOfUnion(d, db.shards, q, start, b, c);
  }

  /** Distinct identities of a bucket are a union over its minutes, not a sum. */
  lemma FoldedValues(d: Dialect, db: Db, q: Query, start: Start, b: int, kind: Kind)
    requires Foldable(d, db, q, start)
    ensures DistinctValues(FoldedKeys(d, db.detailed, q, start, b), kind) == RawBucketValues(d, db.shards, q, start, b, kind)
  {
    var rs := Flatten(db.shards);
    var p := KeyBucketFilter(d, q, start, b, AnyStatus);
    assert FoldedKeys(d, db.detailed, q, start, b) == Select(db.detailed, p);
    DistinctThroughKeys(rs, p, kind);
    forall r
      ensures r in rs <==> exists i :: 0 <= i < |db.shards| && r in db.shards[i]
      ensures r in rs ==> (p(KeyOf(r)) <==> RawMatches(d, q, r) && start(r.loggedAt) == b)
    {
      FlattenMembers(db.shards, r);
      AlignedMatch(d, q, r);
    }
  }

  lemma FoldedStarts(d: Dialect, db: Db, q: Query, start: Start)
    requires Foldable(d, db, q, start)
    ensures DetailedStarts(d, db.detailed, q, start) == RawStarts(d, db.shards, q, start)
  {
    forall k | k in SelectedKeys(d, db.detailed, q)
      ensures start(k.minute) in RawStarts(d, db.shards, q, start)
    {
      KeyHasRecord(d, db, q, start, k);
    }
    forall i, r | 0 <= i < |db.shards| && r in db.shards[i] && RawMatches(d, q, r)
      ensures start(r.loggedAt) in DetailedStarts(d, db.detailed, q, start)
    {
      RecordHasKey(d, db, q, start, i, r);
    }
  }

  lemma KeyHasRecord(d: Dialect, db: Db, q: Query, start: Start, k: Key)
    requires Foldable(d, db, q, start) && k in SelectedKeys(d, db.detailed, q)
    ensures start(k.minute) in RawStarts(d, db.shards, q, start)
  {
    var rs := Flatten(db.shards);
    AggregateIsGrouping(rs);
    var r :| r in rs && KeyOf(r) == k;
    FlattenMembers(db.shards, r);
    AlignedMatch(d, q, r);
    assert FoldsWithMinute(start, r.loggedAt);
    var i :| 0 <= i < |db.shards| && r in db.shards[i];
    assert RawMatches(d, q, r);
  }

  lemma RecordHasKey(d: Dialect, db: Db, q: Query, start: Start, i: nat, r: Record)
    requires Foldable(d, db, q, start) && i < |db.shards| && r in db.shards[i] && RawMatches(d, q, r)
    ensures start(r.loggedAt) in DetailedStarts(d, db.detailed, q, start)
  {
    var rs := Flatten(db.shards);
    AggregateIsGrouping(rs);
    FlattenMembers(db.shards, r);
    AlignedMatch(d, q, r);
    assert r in rs && FoldsWithMinute(start, r.loggedAt);
    assert KeyOf(r) in SelectedKeys(d, db.detailed, q);
  }

  lemma DetailedFoldServes(d: Dialect, db: Db, q: Query, start: Start)
    requires Foldable(d, db, q, start)
    ensures DetailedFold(d, db.detailed, q, start) == RawFold(d, db.shards, q, start)
  {
    FoldedStarts(d, db, q, start);
    var fold, raw := DetailedFold(d, db.detailed, q, start), RawFold(d, db.shards, q, start);
    forall b | b in fold.Keys
      ensures fold[b] == raw[b]
    {
      RowServes(d, db, q, start, b);
    }
    SameMap(fold, raw);
  }

  lemma RowServes(d: Dialect, db: Db, q: Query, start: Start, b: int)
    requires Foldable(d, db, q, start)
    ensures DetailedFoldRow(d, db.detailed, q, start, b) == RawRow(d, db.shards, q, start, b)
  {
    FoldedCount(d, db, q, start, b, AnyStatus);
    FoldedCount(d, db, q, start, b, Success);
    FoldedCount(d, db, q, start, b, ClientError);
    FoldedCount(d, db, q, start, b, ServerError);
    FoldedValues(d, db, q, start, b, Address);
    FoldedValues(d, db, q, start, b, HostName);
  }

  // ----- the derived tables -----

  lemma FilterMembersServe(d: Dialect, t: Table, q: Query, start: Start, b: int, kind: Kind)
    ensures FilterMembers(d, FilterIdentityRows(t, MinutesOf(t)), q, start, b, kind) == DistinctValues(FoldedKeys(d, t, q, start, b), kind)
  {
    var minutes := set m | m in MinutesOf(t) && start(m) == b;
    var rows := FilterIdentityRows(t, MinutesOf(t));
    FilterIdentitiesServeRows(d, t, q, kind, minutes);
    forall i | i in rows
      ensures i.minute in MinutesOf(t)
    {
      var k, j :| k in KeysIn(t, MinutesOf(t)) && ValueOf(k.dims, j) != "" && i == FilterIdentityOf(k, j);
    }
    assert FilterMembers(d, rows, q, start, b, kind)
        == set i | i in rows && FilterIdentityMatches(d, q, kind, i) && i.minute in minutes :: i.value;
    assert forall k :: k in t.Keys ==> k.minute in MinutesOf(t);
    assert SelectedKeys(d, t, q) * KeysIn(t, minutes) == FoldedKeys(d, t, q, start, b);
  }

  lemma FilterFoldServes(d: Dialect, t: Table, q: Query, start: Start)
    ensures FilterFold(d, t, FilterIdentityRows(t, MinutesOf(t)), q, start) == DetailedFold(d, t, q, start)
  {
    forall b, kind
      ensures FilterMembers(d, FilterIdentityRows(t, MinutesOf(t)), q, start, b, kind) == DistinctValues(FoldedKeys(d, t, q, start, b), kind)
    {
      FilterMembersServe(d, t, q, start, b, kind);
    }
  }

  lemma FoldedMinutesSelect(d: Dialect, t: Table, q: Query, start: Start, b: int)
    requires Unfiltered(q.filter)
    ensures KeysIn(t, FoldedMinutes(d, BucketRows(t, MinutesOf(t)), q, start, b)) == FoldedKeys(d, t, q, start, b)
  {
    assert forall k :: k in t.Keys ==> k.minute in MinutesOf(t);
  }

  lemma MembersServe(d: Dialect, t: Table, q: Query, start: Start, b: int, kind: Kind)
    requires Unfiltered(q.filter)
    ensures Members(d, IdentityRows(t, MinutesOf(t)), q, start, b, kind) == DistinctValues(FoldedKeys(d, t, q, start, b), kind)
  {
    var minutes := FoldedMinutes(d, BucketRows(t, MinutesOf(t)), q, start, b);
    var rows := IdentityRows(t, MinutesOf(t));
    IdentitiesServe(t, minutes, kind);
    FoldedMinutesSelect(d, t, q, start, b);
    forall i | i in rows
      ensures i.minute in MinutesOf(t)
    {
      var k, j :| k in KeysIn(t, MinutesOf(t)) && ValueOf(k.dims, j) != "" && i == IdentityOf(k, j);
    }
    assert Members(d, rows, q, start, b, kind) == set i | i in rows && i.kind == kind && i.minute in minutes :: i.value;
  }

  lemma BucketStartsServe(d: Dialect, t: Table, q: Query, start: Start)
    requires Unfiltered(q.filter)
    ensures BucketStarts(d, BucketRows(t, MinutesOf(t)), q, start) == DetailedStarts(d, t, q, start)
  {
    BucketMinutesSelect(d, t, q);
    var minutes := BucketMinutes(BucketRows(t, MinutesOf(t)), q.since);
    forall m | m in minutes
      ensures start(m) in DetailedStarts(d, t, q, start)
    {
      assert m in BucketRows(t, MinutesOf(t)).Keys;
      var k :| k in t.Keys && k.minute == m;
      assert k in SelectedKeys(d, t, q);
    }
    forall k | k in SelectedKeys(d, t, q)
      ensures k.minute in minutes
    {
      assert k in KeysIn(t, minutes);
    }
  }

  lemma BucketRowServes(d: Dialect, t: Table, q: Query, start: Start, b: int, c: StatusClass)
    requires Unfiltered(q.filter)
    ensures var buckets := BucketRows(t, MinutesOf(t));
            SumSet(FoldedMinutes(d, buckets, q, start, b), BucketColumn(buckets, c)) == ClassTotal(t, FoldedKeys(d, t, q, start, b), c)
  {
    forall m | m in FoldedMinutes(d, BucketRows(t, MinutesOf(t)), q, start, b)
      ensures m in MinutesOf(t)
    {
      assert m in BucketRows(t, MinutesOf(t)).Keys;
    }
    BucketTotals(t, FoldedMinutes(d, BucketRows(t, MinutesOf(t)), q, start, b), c);
    FoldedMinutesSelect(d, t, q, start, b);
  }

  lemma BucketFoldServes(d: Dialect, t: Table, q: Query, start: Start)
    requires Unfiltered(q.filter)
    ensures BucketFold(d, Derive(t), q, start) == DetailedFold(d, t, q, start)
  {
    BucketStartsServe(d, t, q, start);
    var buckets, fold := BucketFold(d, Derive(t), q, start), DetailedFold(d, t, q, start);
    forall b | b in buckets.Keys
      ensures buckets[b] == fold[b]
    {
      BucketFoldRowServes(d, t, q, start, b);
    }
    SameMap(buckets, fold);
  }

  lemma BucketFoldRowServes(d: Dialect, t: Table, q: Query, start: Start, b: int)
    requires Unfiltered(q.filter)
    ensures BucketFoldRow(d, Derive(t), q, start, b) == DetailedFoldRow(d, t, q, start, b)
  {
    BucketRowServes(d, t, q, start, b, AnyStatus);
    BucketRowServes(d, t, q, start, b, Success);
    BucketRowServes(d, t, q, start, b, ClientError);
    BucketRowServes(d, t, q, start, b, ServerError);
    MembersServe(d, t, q, start, b, Address);
    MembersServe(d, t, q, start, b, HostName);
  }

  // ----- a record that does not fold with its minute -----

  ghost predicate Moved(d: Dialect, q: Query, start: Start, r: Record)
  {
    RawMatches(d, q, r) && !FoldsWithMinute(start, r.loggedAt)
  }

  /** The moved record with the latest bucket. */
  lemma {:induction false} LatestMoved(d: Dialect, q: Query, start: Start, rs: seq<Record>, r: Record) returns (m: Record)
    requires r in rs && Moved(d, q, start, r)
    ensures m in rs && Moved(d, q, start, m)
    ensures forall x :: x in rs && Moved(d, q, start, x) ==> start(x.loggedAt) <= start(m.loggedAt)
    decreases |rs|
  {
    var front, last := rs[..|rs| - 1], rs[|rs| - 1];
    assert forall x :: x in rs <==> x in front || x == last;
    if exists x :: x in front && Moved(d, q, start, x) {
      var x :| x in front && Moved(d, q, start, x);
      m := LatestMoved(d, q, start, front, x);
      if Moved(d, q, start, last) && start(last.loggedAt) > start(m.loggedAt) {
        m := last;
      }
    } else {
      m := last;
    }
  }

  /** Its bucket loses it and gains nothing, so the folded minutes count fewer requests there. */
  lemma MovedIsMissed(d: Dialect, db: Db, q: Query, start: Start, m: Record)
    requires Consistent(db) && Aligned(q.since) && q.before == None && m in Flatten(db.shards) && Moved(d, q, start, m)
    requires forall t :: start(MinuteOf(t)) <= start(t)
    requires forall x :: x in Flatten(db.shards) && Moved(d, q, start, x) ==> start(x.loggedAt) <= start(m.loggedAt)
    ensures var b := start(m.loggedAt);
            ClassTotal(db.detailed, FoldedKeys(d, db.detailed, q, start, b), AnyStatus) < RawBucketCount(d, db.shards, q, start, b, AnyStatus)
  {
    var rs, b := Flatten(db.shards), start(m.loggedAt);
    var p, raw := OfKey(KeyBucketFilter(d, q, start, b, AnyStatus)), RawBucketFilter(d, q, start, b, AnyStatus);
    forall x | x in rs && p(x)
      ensures raw(x)
    {
      AlignedMatch(d, q, x);
      assert start(x.loggedAt) != b ==> Moved(d, q, start, x);
    }
    AlignedMatch(d, q, m);
    CountWithin(rs, p, raw);
    assert raw(m) && !p(m);
    FoldedCountOfMinutes(d, db, q, start, b, AnyStatus);
    RawBucketCountOfUnion(d, db.shards, q, start, b, AnyStatus);
  }

  lemma MovedRecordShows(d: Dialect, db: Db, q: Query, start: Start, r: Record)
    requires Consistent(db) && Aligned(q.since) && q.before == None && r in Flatten(db.shards) && Moved(d, q, start, r)
    requires forall t :: start(MinuteOf(t)) <= start(t)
    ensures DetailedFold(d, db.detailed, q, start) != RawFold(d, db.shards, q, start)
  {
    var m := LatestMoved(d, q, start, Flatten(db.shards), r);
    MovedIsMissed(d, db, q, start, m);
    FlattenMembers(db.shards, m);
    FewerShows(d, db, q, start, m);
  }

  lemma FewerShows(d: Dialect, db: Db, q: Query, start: Start, m: Record)
    requires RawMatches(d, q, m) && exists i :: 0 <= i < |db.shards| && m in db.shards[i]
    requires var b := start(m.loggedAt);
             ClassTotal(db.detailed, FoldedKeys(d, db.detailed, q, start, b), AnyStatus) < RawBucketCount(d, db.shards, q, start, b, AnyStatus)
    ensures DetailedFold(d, db.detailed, q, start) != RawFold(d, db.shards, q, start)
  {
    var b := start(m.loggedAt);
    var fold, raw := DetailedFold(d, db.detailed, q, start), RawFold(d, db.shards, q, start);
    assert b in raw;
    if b in fold {
      assert fold[b].requests < raw[b].requests;
    }
  }

  // ----- main results -----

  ghost predicate AllFold(d: Dialect, shards: seq<seq<Record>>, q: Query, w: int)
    requires w > 0
  {
    forall r :: r in Flatten(shards) && RawMatches(d, q, r) ==> MinuteFolds(d, w, r.loggedAt)
  }

  /** The folded minutes are the raw buckets if and only if every selected record folds with its minute. */
  lemma DetailedFoldServesIff(d: Dialect, db: Db, q: Query, w: int)
    requires Consistent(db) && Aligned(q.since) && q.before == None && w > 0 && w % 60 == 0
    ensures DetailedFold(d, db.detailed, q, StartIn(d, w)) == RawFold(d, db.shards, q, StartIn(d, w)) <==> AllFold(d, db.shards, q, w)
  {
    var start := StartIn(d, w);
    forall t
      ensures start(MinuteOf(t)) <= start(t) && (FoldsWithMinute(start, t) <==> MinuteFolds(d, w, t))
    {
      FoldOfMinuteIff(d, w, t);
      StartIsMonotone(d, w, MinuteOf(t), t);
    }
    if AllFold(d, db.shards, q, w) {
      DetailedFoldServes(d, db, q, start);
    } else {
      var r :| r in Flatten(db.shards) && RawMatches(d, q, r) && !MinuteFolds(d, w, r.loggedAt);
      MovedRecordShows(d, db, q, start, r);
    }
  }

  /** For every fold width, the list of buckets is the raw list, with the same requests, status classes
      and distinct addresses and hosts, if and only if the query starts inside a minute, or every
      record it selects folds with its minute. */
  lemma FoldIsExactIff(d: Dialect, db: Db, q: Query, foldMinutes: int)
    requires Consistent(db) && q.before == None
    ensures ListBuckets(d, db, q, foldMinutes) == RawFold(d, db.shards, q, StartIn(d, FoldWidth(foldMinutes)))
            <==> !Aligned(q.since) || AllFold(d, db.shards, q, FoldWidth(foldMinutes))
  {
    var w := FoldWidth(foldMinutes);
    if Aligned(q.since) {
      DetailedFoldServesIff(d, db, q, w);
      if db.detailed == map[] && !BucketsServe(db, q) {
        NoRowsNoRecords(db);
      } else {
        ListIsDetailedFold(d, db, q, foldMinutes);
      }
    }
  }

  lemma NoRowsNoRecords(db: Db)
    requires Consistent(db) && db.detailed == map[]
    ensures Flatten(db.shards) == []
  {
    var rs := Flatten(db.shards);
    assert rs != [] ==> rs[0] in rs;
    AggregateIsGrouping(rs);
    assert forall r :: r in rs ==> KeyOf(r) in Aggregate(rs).Keys;
  }

  /** Whichever rollup table serves, the list is the fold of the detailed rows. */
  lemma ListIsDetailedFold(d: Dialect, db: Db, q: Query, foldMinutes: int)
    requires Consistent(db) && Aligned(q.since) && (db.detailed != map[] || BucketsServe(db, q))
    ensures ListBuckets(d, db, q, foldMinutes) == DetailedFold(d, db.detailed, q, StartIn(d, FoldWidth(foldMinutes)))
  {
    var start := StartIn(d, FoldWidth(foldMinutes));
    if BucketsServe(db, q) {
      BucketFoldServes(d, db.detailed, q, start);
    } else if FilterIdentitiesServe(db) {
      FilterFoldServes(d, db.detailed, q, start);
    }
  }

  /** The same condition makes the number of buckets right. */
  lemma BucketCountIsExact(d: Dialect, db: Db, q: Query, foldMinutes: int)
    requires Consistent(db) && q.before == None
    requires !Aligned(q.since) || AllFold(d, db.shards, q, FoldWidth(foldMinutes))
    ensures CountBuckets(d, db, q, foldMinutes) == |RawFold(d, db.shards, q, StartIn(d, FoldWidth(foldMinutes))).Keys|
  {
    var start := StartIn(d, FoldWidth(foldMinutes));
    assert RawFold(d, db.shards, q, start).Keys == RawStarts(d, db.shards, q, start);
    if Aligned(q.since) {
      forall r | r in Flatten(db.shards) && RawMatches(d, q, r)
        ensures FoldsWithMinute(start, r.loggedAt)
      {
        FoldOfMinuteIff(d, FoldWidth(foldMinutes), r.loggedAt);
      }
      FoldedStarts(d, db, q, start);
      if BucketsServe(db, q) {
        BucketStartsServe(d, db.detailed, q, start);
      }
    }
  }
}

/** Count and bucket queries over access logs: the raw scan across shards, and every
    rollup path that may answer instead of it. */
module RollupQueries {
  import opened Wrappers
  import opened Sums
  import opened AccessLog
  import opened DerivedRollups
  import opened SqlDialect

  // ----- queries -----

  /** A host or path filter after normalisation. `Unusable` is text that was given but
      normalises to nothing, so it puts no condition in the WHERE clause. */
  datatype TextFilter = Absent | Unusable | Given(text: string)

  datatype Filter = Filter(nodeID: string, remoteAddr: string, host: TextFilter, path: TextFilter)

  datatype Query = Query(filter: Filter, since: Option<int>, before: Option<int>)

  function TrimSlashes(p: string): string
  {
    if p != [] && p[|p| - 1] == '/' then TrimSlashes(p[..|p| - 1]) else p
  }

  /** What is left ends in no slash, and only slashes were dropped. */
  lemma {:induction false} TrimSlashesMeaning(p: string)
    ensures var r := TrimSlashes(p);
            && (r == [] || r[|r| - 1] != '/')
            && r <= p && forall i :: |r| <= i < |p| ==> p[i] == '/'
    decreases |p|
  {
    if p != [] && p[|p| - 1] == '/' {
      TrimSlashesMeaning(p[..|p| - 1]);
    }
  }

  predicate HostMatches(d: Dialect, f: TextFilter, host: string)
  {
    f.Given? ==> host == f.text || Like(d, DefaultEscape(d), "%." + f.text, host)
  }

  predicate PathMatches(d: Dialect, f: TextFilter, path: string)
  {
    f.Given? ==>
      || path == f.text
      || (f.text != "/" && Like(d, Some('\\'), EscapePattern(TrimSlashes(f.text) + "/") + "%", path))
  }

  /** The WHERE conditions on the four columns every table keeps. */
  predicate Matches(d: Dialect, f: Filter, c: Dimensions)
  {
    && (f.nodeID != "" ==> c.nodeID == f.nodeID)
    && (f.remoteAddr != "" ==> Like(d, DefaultEscape(d), f.remoteAddr + "%", c.remoteAddr))
    && HostMatches(d, f.host, c.host)
    && PathMatches(d, f.path, c.path)
  }

  /** The path filter keeps the path itself and everything below it. */
  lemma PathFilterMeaning(d: Dialect, text: string, path: string)
    ensures PathMatches(d, Given(text), path) <==>
            path == text || (text != "/" && StartsWith(d, path, TrimSlashes(text) + "/"))
  {
    EscapedPrefixIsExact(d, TrimSlashes(text) + "/", path);
  }

  /** The host filter keeps the host itself and its subdomains, for a text without pattern characters. */
  lemma HostFilterMeaning(d: Dialect, text: string, host: string)
    requires Plain(d, text)
    ensures HostMatches(d, Given(text), host) <==> host == text || EndsWith(d, host, "." + text)
  {
    assert "%." + text == "%" + ("." + text);
    assert forall i :: 0 < i < |"." + text| ==> ("." + text)[i] == text[i - 1];
    PlainSuffixIsExact(d, "." + text, host);
  }

  // ----- the raw scan -----

  function CountIf<T>(rs: seq<T>, p: T -> bool): nat
  {
    if rs == [] then 0 else CountIf(rs[..|rs| - 1], p) + (if p(rs[|rs| - 1]) then 1 else 0)
  }

  predicate RawMatches(d: Dialect, q: Query, r: Record)
  {
    && Matches(d, q.filter, KeyOf(r).dims)
    && (q.since.Some? ==> r.loggedAt >= q.since.value)
    && (q.before.Some? ==> r.loggedAt < q.before.value)
  }

  ghost function RawFilter(d: Dialect, q: Query): Record -> bool
  {
    (r: Record) => RawMatches(d, q, r)
  }

  /** SUM over shards of COUNT(*). */
  ghost function RawRecords(d: Dialect, shards: seq<seq<Record>>, q: Query): nat
  {
    if shards == [] then 0
    else RawRecords(d, shards[..|shards| - 1], q) + CountIf(shards[|shards| - 1], RawFilter(d, q))
  }

  /** The distinct non-empty identities of the matching rows, grouped again over the shards. */
  ghost function RawIdentities(d: Dialect, shards: seq<seq<Record>>, q: Query, kind: Kind): set<string>
  {
    set i, r | 0 <= i < |shards| && r in shards[i] && RawMatches(d, q, r) && ValueOf(KeyOf(r).dims, kind) != "" ::
      ValueOf(KeyOf(r).dims, kind)
  }

  datatype Answer = Answer(records: int, addresses: int)

  ghost function RawCount(d: Dialect, shards: seq<seq<Record>>, q: Query): Answer
  {
    Answer(RawRecords(d, shards, q), |RawIdentities(d, shards, q, Address)|)
  }

  // ----- what a count counts, field by field -----

  predicate PlainFilter(d: Dialect, f: Filter)
  {
    Plain(d, f.remoteAddr) && (f.host.Given? ==> Plain(d, f.host.text))
  }

  /** A record that a query asks for. */
  predicate Wanted(d: Dialect, q: Query, r: Record)
  {
    && (q.filter.nodeID != "" ==> r.nodeID == q.filter.nodeID)
    && (q.filter.remoteAddr != "" ==> StartsWith(d, r.remoteAddr, q.filter.remoteAddr))
    && (q.filter.host.Given? ==> r.host == q.filter.host.text || EndsWith(d, r.host, "." + q.filter.host.text))
    && (q.filter.path.Given? ==>
          || r.path == q.filter.path.text
          || (q.filter.path.text != "/" && StartsWith(d, r.path, TrimSlashes(q.filter.path.text) + "/")))
    && (q.since.Some? ==> q.since.value <= r.loggedAt)
    && (q.before.Some? ==> r.loggedAt < q.before.value)
  }

  ghost function WantedBy(d: Dialect, q: Query): Record -> bool
  {
    (r: Record) => Wanted(d, q, r)
  }

  lemma RawMatchesMeaning(d: Dialect, q: Query, r: Record)
    requires PlainFilter(d, q.filter)
    ensures RawMatches(d, q, r) <==> Wanted(d, q, r)
  {
    PlainPrefixIsExact(d, q.filter.remoteAddr, r.remoteAddr);
    if q.filter.host.Given? {
      HostFilterMeaning(d, q.filter.host.text, r.host);
    }
    if q.filter.path.Given? {
      PathFilterMeaning(d, q.filter.path.text, r.path);
    }
  }

  /** The number of records asked for, and of their distinct non-empty addresses. */
  ghost function CountOfWanted(d: Dialect, rs: seq<Record>, q: Query): Answer
  {
    Answer(CountIf(rs, WantedBy(d, q)), |set r | r in rs && Wanted(d, q, r) && r.remoteAddr != "" :: r.remoteAddr|)
  }

  lemma RawCountMeaning(d: Dialect, shards: seq<seq<Record>>, q: Query)
    requires PlainFilter(d, q.filter)
    ensures RawCount(d, shards, q) == CountOfWanted(d, Flatten(shards), q)
  {
    forall r
      ensures RawFilter(d, q)(r) == WantedBy(d, q)(r) && (RawMatches(d, q, r) <==> Wanted(d, q, r))
    {
      RawMatchesMeaning(d, q, r);
    }
    RawRecordsOfUnion(d, shards, q);
    CountIfCongruence(Flatten(shards), RawFilter(d, q), WantedBy(d, q));
    RawIdentitiesOfUnion(d, shards, q, Address);
    assert RawIdentities(d, shards, q, Address)
        == set r | r in Flatten(shards) && Wanted(d, q, r) && r.remoteAddr != "" :: r.remoteAddr;
  }

  // ----- the rollup paths -----

  /** What a query sees: the shards, the tables, and whether the refresh is idle. */
  datatype Db = Db(shards: seq<seq<Record>>, detailed: Table, tables: Tables, idle: bool)

  predicate Aligned(since: Option<int>)
  {
    since.Some? ==> since.value == MinuteOf(since.value)
  }

  predicate SinceMinute(since: Option<int>, minute: int)
  {
    since.Some? ==> minute >= MinuteOf(since.value)
  }

  /** Where whole minutes begin after `since`. */
  function RemainderSince(since: int): Option<int>
  {
    if since == MinuteOf(since) then Some(since)
    else
      var r := MinuteOf(since) + MINUTE;
      if r > since then Some(r) else None
  }

  predicate Unfiltered(f: Filter)
  {
    f.nodeID == "" && f.remoteAddr == "" && f.host == Absent && f.path == Absent
  }

  predicate KeyMatches(d: Dialect, q: Query, k: Key)
  {
    Matches(d, q.filter, k.dims) && SinceMinute(q.since, k.minute)
  }

  /** The detailed rows a query selects; the rollup filters do not look at `before`. */
  ghost function SelectedKeys(d: Dialect, t: Table, q: Query): set<Key>
  {
    set k | k in t.Keys && KeyMatches(d, q, k)
  }

  ghost function RollupRecords(d: Dialect, t: Table, q: Query): int
  {
    SumSet(SelectedKeys(d, t, q), RequestsOf(t))
  }

  ghost function BucketColumn(buckets: map<int, BucketRow>, c: StatusClass): int -> int
  {
    (m: int) =>
      if m !in buckets then 0 else
        match c
        case AnyStatus => buckets[m].requests
        case Success => buckets[m].success
        case ClientError => buckets[m].clientErrors
        case ServerError => buckets[m].serverErrors
  }

  ghost function BucketMinutes(buckets: map<int, BucketRow>, since: Option<int>): set<int>
  {
    set m | m in buckets.Keys && SinceMinute(since, m)
  }

  ghost function IdentityValues(rows: set<Identity>, since: Option<int>, kind: Kind): set<string>
  {
    set i | i in rows && i.kind == kind && SinceMinute(since, i.minute) :: i.value
  }

  predicate FilterIdentityMatches(d: Dialect, q: Query, kind: Kind, i: FilterIdentity)
  {
    && i.kind == kind
    && Matches(d, q.filter, Dimensions(i.nodeID, i.remoteAddr, "", "", i.host, i.path, 0, ""))
    && SinceMinute(q.since, i.minute)
    && i.value != ""
  }

  ghost function FilterIdentityValues(d: Dialect, rows: set<FilterIdentity>, q: Query, kind: Kind): set<string>
  {
    set i | i in rows && FilterIdentityMatches(d, q, kind, i) :: i.value
  }

  /** Per-minute totals, for queries without filters. */
  ghost function FromBuckets(db: Db, q: Query): Option<Answer>
  {
    if !(Aligned(q.since) && Unfiltered(q.filter)) || !db.idle || db.tables.buckets == map[] then None
    else Some(Answer(
                SumSet(BucketMinutes(db.tables.buckets, q.since), BucketColumn(db.tables.buckets, AnyStatus)),
                |IdentityValues(db.tables.identities, q.since, Address)|))
  }

  predicate FilterIdentitiesServe(db: Db)
  {
    db.idle && db.tables.filterIdentities != {}
  }

  /** Distinct identities from the filter-identity table; a `since` inside a minute is
      split into a raw prefix and a remainder that starts on a minute. */
  ghost function IdentityCount(d: Dialect, db: Db, q: Query, kind: Kind): Option<nat>
    decreases if Aligned(q.since) then 0 else 1, 1
  {
    if !Aligned(q.since) then
      var remainder := RemainderSince(q.since.value);
      if remainder.None? || remainder.value <= q.since.value then None
      else PartialIdentityCount(d, db, q.(before := remainder), q.(since := remainder, before := None), kind)
    else if !FilterIdentitiesServe(db) then None
    else Some(|FilterIdentityValues(d, db.tables.filterIdentities, q, kind)|)
  }

  ghost function PartialIdentityCount(d: Dialect, db: Db, partial: Query, remainder: Query, kind: Kind): Option<nat>
    requires Aligned(remainder.since)
    decreases 1, 0
  {
    var remainderTotal := IdentityCount(d, db, remainder, kind);
    var prefix := RawIdentities(d, db.shards, partial, kind);
    if remainderTotal.None? then None
    else if prefix == {} then remainderTotal
    else if !FilterIdentitiesServe(db) then None
    else Some(HybridTotal(
                remainderTotal.value, |prefix|,
                |FilterIdentityValues(d, db.tables.filterIdentities, remainder, kind) * prefix|))
  }

  /** A raw prefix up to the next minute plus rollups from there on. */
  ghost function FromPartial(d: Dialect, db: Db, q: Query): Option<Answer>
    requires !Aligned(q.since)
  {
    var start := RemainderSince(q.since.value);
    if start.None? || start.value <= q.since.value then None
    else
      var remainder := q.(since := start, before := None);
      var partial := q.(before := start);
      if !(Aligned(remainder.since) && FilterIdentitiesServe(db)) then None
      else
        var addresses := PartialIdentityCount(d, db, partial, remainder, Address);
        if addresses.None? then None
        else Some(Answer(RawRecords(d, db.shards, partial) + RollupRecords(d, db.detailed, remainder), addresses.value))
  }

  ghost function FromRollups(d: Dialect, db: Db, q: Query): Option<Answer>
  {
    if FromBuckets(db, q).Some? then FromBuckets(db, q)
    else if db.detailed == map[] then None
    else if !Aligned(q.since) then FromPartial(d, db, q)
    else
      var addresses := IdentityCount(d, db, q, Address);
      Some(Answer(
             RollupRecords(d, db.detailed, q),
             if addresses.Some? then addresses.value
             else |DistinctValues(SelectedKeys(d, db.detailed, q), Address)|))
  }

  ghost function CountLogs(d: Dialect, db: Db, q: Query): Answer
  {
    if FromRollups(d, db, q).Some? then FromRollups(d, db, q).value else RawCount(d, db.shards, q)
  }

  /** The tables mirror the stored records, the derived ones whenever the refresh is idle. */
  ghost predicate Consistent(db: Db)
  {
    && (forall r :: r in Flatten(db.shards) ==> r.loggedAt != ZERO_TIME)
    && db.detailed == Aggregate(Flatten(db.shards))
    && (db.idle ==> db.tables == Derive(db.detailed))
  }

  // ----- counting through the detailed table -----

  ghost function Select(t: Table, p: Key -> bool): set<Key>
  {
    set k | k in t.Keys && p(k)
  }

  ghost function OfKey(p: Key -> bool): Record -> bool
  {
    (r: Record) => p(KeyOf(r))
  }

  /** SUM(request_count) over the rows with a property of the key is the number of
      records with that property. */
  lemma {:induction false} RequestsCountRecords(rs: seq<Record>, p: Key -> bool)
    requires forall r :: r in rs ==> r.loggedAt != ZERO_TIME
    ensures SumSet(Select(Aggregate(rs), p), RequestsOf(Aggregate(rs))) == CountIf(rs, OfKey(p))
    decreases |rs|
  {
    if rs == [] {
      assert Select(Aggregate(rs), p) == {};
    } else {
      var front, last := rs[..|rs| - 1], rs[|rs| - 1];
      RequestsCountRecords(front, p);
      AddRowRequests(Aggregate(front), KeyOf(last), RowOf(last), p);
    }
  }

  lemma AddRowRequests(t: Table, k: Key, m: Measures, p: Key -> bool)
    ensures SumSet(Select(AddRow(t, k, m), p), RequestsOf(AddRow(t, k, m)))
         == SumSet(Select(t, p), RequestsOf(t)) + (if p(k) then m.requests else 0)
  {
    var u := AddRow(t, k, m);
    var rest := Select(t, p) - {k};
    SumSetCongruence(rest, RequestsOf(t), RequestsOf(u));
    assert Select(u, p) - {k} == rest;
    if p(k) {
      SumSetRemove(Select(u, p), k, RequestsOf(u));
      if k in t {
        SumSetRemove(Select(t, p), k, RequestsOf(t));
      } else {
        assert Select(t, p) == rest;
      }
    } else {
      assert Select(u, p) == rest == Select(t, p);
    }
  }

  /** The distinct identities of the selected rows are those of the records behind them. */
  lemma {:induction false} DistinctThroughKeys(rs: seq<Record>, p: Key -> bool, kind: Kind)
    requires forall r :: r in rs ==> r.loggedAt != ZERO_TIME
    ensures DistinctValues(Select(Aggregate(rs), p), kind)
         == set r | r in rs && p(KeyOf(r)) && ValueOf(KeyOf(r).dims, kind) != "" :: ValueOf(KeyOf(r).dims, kind)
  {
    AggregateIsGrouping(rs);
    var values := set r | r in rs && p(KeyOf(r)) && ValueOf(KeyOf(r).dims, kind) != "" :: ValueOf(KeyOf(r).dims, kind);
    forall v | v in DistinctValues(Select(Aggregate(rs), p), kind)
      ensures v in values
    {
      var k :| k in Select(Aggregate(rs), p) && ValueOf(k.dims, kind) == v && v != "";
      var r :| r in rs && KeyOf(r) == k;
    }
    forall v | v in values
      ensures v in DistinctValues(Select(Aggregate(rs), p), kind)
    {
      var r :| r in rs && p(KeyOf(r)) && ValueOf(KeyOf(r).dims, kind) == v && v != "";
      assert KeyOf(r) in Select(Aggregate(rs), p);
    }
  }

  // ----- the raw scan over the union of the shards -----

  lemma {:induction false} CountIfConcat<T>(a: seq<T>, b: seq<T>, p: T -> bool)
    ensures CountIf(a + b, p) == CountIf(a, p) + CountIf(b, p)
    decreases |b|
  {
    if b == [] {
      assert a + b == a;
    } else {
      assert (a + b)[..|a + b| - 1] == a + b[..|b| - 1];
      CountIfConcat(a, b[..|b| - 1], p);
    }
  }

  lemma {:induction false} CountIfCongruence<T>(rs: seq<T>, p: T -> bool, q: T -> bool)
    requires forall r :: r in rs ==> p(r) == q(r)
    ensures CountIf(rs, p) == CountIf(rs, q)
    decreases |rs|
  {
    if rs != [] {
      CountIfCongruence(rs[..|rs| - 1], p, q);
    }
  }

  lemma {:induction false} CountIfSplit<T>(rs: seq<T>, p: T -> bool, a: T -> bool, b: T -> bool)
    requires forall r :: r in rs ==> (p(r) <==> a(r) || b(r)) && !(a(r) && b(r))
    ensures CountIf(rs, p) == CountIf(rs, a) + CountIf(rs, b)
    decreases |rs|
  {
    if rs != [] {
      CountIfSplit(rs[..|rs| - 1], p, a, b);
    }
  }

  lemma {:induction false} RawRecordsOfUnion(d: Dialect, shards: seq<seq<Record>>, q: Query)
    ensures RawRecords(d, shards, q) == CountIf(Flatten(shards), RawFilter(d, q))
    decreases |shards|
  {
    if shards != [] {
      RawRecordsOfUnion(d, shards[..|shards| - 1], q);
      CountIfConcat(Flatten(shards[..|shards| - 1]), shards[|shards| - 1], RawFilter(d, q));
    }
  }

  lemma RawIdentitiesOfUnion(d: Dialect, shards: seq<seq<Record>>, q: Query, kind: Kind)
    ensures RawIdentities(d, shards, q, kind)
         == set r | r in Flatten(shards) && RawMatches(d, q, r) && ValueOf(KeyOf(r).dims, kind) != "" :: ValueOf(KeyOf(r).dims, kind)
  {
    forall r
      ensures r in Flatten(shards) <==> exists i :: 0 <= i < |shards| && r in shards[i]
    {
      FlattenMembers(shards, r);
    }
  }

  ghost function KeyFilter(d: Dialect, q: Query): Key -> bool
  {
    (k: Key) => KeyMatches(d, q, k)
  }

  /** With a `since` on a minute and no `before`, matching a record is matching its key. */
  lemma AlignedMatch(d: Dialect, q: Query, r: Record)
    requires Aligned(q.since) && q.before == None
    ensures RawMatches(d, q, r) <==> KeyMatches(d, q, KeyOf(r))
  {
  }

  lemma DetailedServes(d: Dialect, db: Db, q: Query)
    requires Consistent(db) && Aligned(q.since) && q.before == None
    ensures RollupRecords(d, db.detailed, q) == RawRecords(d, db.shards, q)
    ensures forall kind :: DistinctValues(SelectedKeys(d, db.detailed, q), kind) == RawIdentities(d, db.shards, q, kind)
  {
    var rs := Flatten(db.shards);
    var p := KeyFilter(d, q);
    assert SelectedKeys(d, db.detailed, q) == Select(db.detailed, p);
    forall r | r in rs
      ensures OfKey(p)(r) == RawFilter(d, q)(r)
    {
      AlignedMatch(d, q, r);
    }
    RequestsCountRecords(rs, p);
    CountIfCongruence(rs, OfKey(p), RawFilter(d, q));
    RawRecordsOfUnion(d, db.shards, q);
    forall kind
      ensures DistinctValues(SelectedKeys(d, db.detailed, q), kind) == RawIdentities(d, db.shards, q, kind)
    {
      DistinctThroughKeys(rs, p, kind);
      RawIdentitiesOfUnion(d, db.shards, q, kind);
      forall r | r in rs
        ensures p(KeyOf(r)) <==> RawMatches(d, q, r)
      {
        AlignedMatch(d, q, r);
      }
    }
  }

  // ----- counting through the derived tables -----

  /** Summing bucket rows over some minutes is summing the detailed rows of those minutes. */
  lemma BucketTotals(t: Table, minutes: set<int>, c: StatusClass)
    requires minutes <= MinutesOf(t)
    ensures SumSet(minutes, BucketColumn(BucketRows(t, MinutesOf(t)), c)) == ClassTotal(t, KeysIn(t, minutes), c)
  {
    var rows := InClassRows(KeysIn(t, minutes), c);
    var minute := (k: Key) => k.minute;
    SumSetByGroup(rows, minutes, minute, RequestsOf(t));
    forall m | m in minutes
      ensures GroupSum(rows, minute, RequestsOf(t))(m) == BucketColumn(BucketRows(t, MinutesOf(t)), c)(m)
    {
      assert Group(rows, minute, m) == InClassRows(KeysIn(t, {m}), c);
    }
    SumSetCongruence(minutes, GroupSum(rows, minute, RequestsOf(t)), BucketColumn(BucketRows(t, MinutesOf(t)), c));
  }

  /** The identity table lists the distinct values of the detailed rows. */
  lemma IdentitiesServe(t: Table, minutes: set<int>, kind: Kind)
    ensures (set i | i in IdentityRows(t, MinutesOf(t)) && i.kind == kind && i.minute in minutes :: i.value)
         == DistinctValues(KeysIn(t, minutes), kind)
  {
    var rows := IdentityRows(t, MinutesOf(t));
    var values := set i | i in rows && i.kind == kind && i.minute in minutes :: i.value;
    forall v | v in values
      ensures v in DistinctValues(KeysIn(t, minutes), kind)
    {
      var i :| i in rows && i.kind == kind && i.minute in minutes && i.value == v;
      var k, j :| k in KeysIn(t, MinutesOf(t)) && ValueOf(k.dims, j) != "" && i == IdentityOf(k, j);
      assert k in KeysIn(t, minutes);
    }
    forall v | v in DistinctValues(KeysIn(t, minutes), kind)
      ensures v in values
    {
      var k :| k in KeysIn(t, minutes) && ValueOf(k.dims, kind) == v && v != "";
      assert k.minute in MinutesOf(t) && k in KeysIn(t, MinutesOf(t));
      assert IdentityOf(k, kind) in rows;
    }
  }

  /** The filter-identity table keeps every column the filter looks at. */
  lemma FilterIdentitiesServeRows(d: Dialect, t: Table, q: Query, kind: Kind, minutes: set<int>)
    ensures (set i | i in FilterIdentityRows(t, MinutesOf(t)) && FilterIdentityMatches(d, q, kind, i) && i.minute in minutes :: i.value)
         == DistinctValues(SelectedKeys(d, t, q) * KeysIn(t, minutes), kind)
  {
    var rows := FilterIdentityRows(t, MinutesOf(t));
    var values := set i | i in rows && FilterIdentityMatches(d, q, kind, i) && i.minute in minutes :: i.value;
    var keys := SelectedKeys(d, t, q) * KeysIn(t, minutes);
    forall v | v in values
      ensures v in DistinctValues(keys, kind)
    {
      var i :| i in rows && FilterIdentityMatches(d, q, kind, i) && i.minute in minutes && i.value == v;
      var k, j :| k in KeysIn(t, MinutesOf(t)) && ValueOf(k.dims, j) != "" && i == FilterIdentityOf(k, j);
      assert KeyMatches(d, q, k);
      assert k in keys;
    }
    forall v | v in DistinctValues(keys, kind)
      ensures v in values
    {
      var k :| k in keys && ValueOf(k.dims, kind) == v && v != "";
      assert k.minute in MinutesOf(t) && k in KeysIn(t, MinutesOf(t));
      assert FilterIdentityOf(k, kind) in rows;
      assert FilterIdentityMatches(d, q, kind, FilterIdentityOf(k, kind));
    }
  }

  lemma FilterTableServes(d: Dialect, db: Db, q: Query, kind: Kind)
    requires Consistent(db) && db.idle && Aligned(q.since) && q.before == None
    ensures FilterIdentityValues(d, db.tables.filterIdentities, q, kind) == RawIdentities(d, db.shards, q, kind)
  {
    var t := db.detailed;
    FilterIdentitiesServeRows(d, t, q, kind, MinutesOf(t));
    var rows := FilterIdentityRows(t, MinutesOf(t));
    forall i | i in rows
      ensures i.minute in MinutesOf(t)
    {
      var k, j :| k in KeysIn(t, MinutesOf(t)) && ValueOf(k.dims, j) != "" && i == FilterIdentityOf(k, j);
    }
    assert SelectedKeys(d, t, q) * KeysIn(t, MinutesOf(t)) == SelectedKeys(d, t, q) by {
      assert forall k :: k in t.Keys ==> k.minute in MinutesOf(t);
    }
    assert FilterIdentityValues(d, rows, q, kind)
        == set i | i in rows && FilterIdentityMatches(d, q, kind, i) && i.minute in MinutesOf(t) :: i.value;
    DetailedServes(d, db, q);
  }

  lemma {:induction false} BucketMinutesSelect(d: Dialect, t: Table, q: Query)
    requires Unfiltered(q.filter)
    ensures KeysIn(t, BucketMinutes(BucketRows(t, MinutesOf(t)), q.since)) == SelectedKeys(d, t, q)
  {
    assert forall k :: k in t.Keys ==> k.minute in MinutesOf(t);
  }

  lemma BucketRecordsServe(d: Dialect, t: Table, q: Query)
    requires Unfiltered(q.filter)
    ensures var buckets := BucketRows(t, MinutesOf(t));
            SumSet(BucketMinutes(buckets, q.since), BucketColumn(buckets, AnyStatus)) == RollupRecords(d, t, q)
  {
    var minutes := BucketMinutes(BucketRows(t, MinutesOf(t)), q.since);
    BucketTotals(t, minutes, AnyStatus);
    assert InClassRows(KeysIn(t, minutes), AnyStatus) == KeysIn(t, minutes);
    BucketMinutesSelect(d, t, q);
  }

  lemma BucketIdentitiesServe(d: Dialect, t: Table, q: Query, kind: Kind)
    requires Unfiltered(q.filter)
    ensures IdentityValues(IdentityRows(t, MinutesOf(t)), q.since, kind) == DistinctValues(SelectedKeys(d, t, q), kind)
  {
    var minutes := BucketMinutes(BucketRows(t, MinutesOf(t)), q.since);
    var rows := IdentityRows(t, MinutesOf(t));
    IdentitiesServe(t, minutes, kind);
    BucketMinutesSelect(d, t, q);
    forall i | i in rows
      ensures i.minute in MinutesOf(t)
    {
      var k, j :| k in KeysIn(t, MinutesOf(t)) && ValueOf(k.dims, j) != "" && i == IdentityOf(k, j);
    }
    assert IdentityValues(rows, q.since, kind) == set i | i in rows && i.kind == kind && i.minute in minutes :: i.value;
  }

  lemma BucketTableServes(d: Dialect, db: Db, q: Query)
    requires Consistent(db) && FromBuckets(db, q).Some?
    ensures FromBuckets(db, q).value == RawCount(d, db.shards, q.(before := None))
  {
    var q0 := q.(before := None);
    BucketRecordsServe(d, db.detailed, q0);
    BucketIdentitiesServe(d, db.detailed, q0, Address);
    DetailedServes(d, db, q0);
  }

  // ----- the hybrid of a raw prefix and a rollup remainder -----

  lemma RemainderStart(since: int)
    requires since != MinuteOf(since)
    ensures RemainderSince(since) == Some(MinuteOf(since) + MINUTE)
    ensures MinuteOf(since) + MINUTE == MinuteOf(MinuteOf(since) + MINUTE) > since
  {
  }

  lemma SplitAtRemainder(d: Dialect, shards: seq<seq<Record>>, q: Query, start: int, kind: Kind)
    requires q.since.Some? && q.since.value < start && q.before == None
    ensures RawRecords(d, shards, q)
         == RawRecords(d, shards, q.(before := Some(start))) + RawRecords(d, shards, q.(since := Some(start)))
    ensures RawIdentities(d, shards, q, kind)
         == RawIdentities(d, shards, q.(before := Some(start)), kind) + RawIdentities(d, shards, q.(since := Some(start)), kind)
  {
    var a, b := q.(before := Some(start)), q.(since := Some(start));
    RawRecordsOfUnion(d, shards, q);
    RawRecordsOfUnion(d, shards, a);
    RawRecordsOfUnion(d, shards, b);
    CountIfSplit(Flatten(shards), RawFilter(d, q), RawFilter(d, a), RawFilter(d, b));
    assert forall r :: RawMatches(d, q, r) <==> RawMatches(d, a, r) || RawMatches(d, b, r);
  }

  /** The total the hybrid forms from a remainder, a prefix and their overlap. */
  function HybridTotal(remainder: nat, prefix: nat, overlap: nat): nat
  {
    if prefix == 0 then remainder
    else
      var total := remainder + prefix - overlap;
      if total < 0 then 0 else total
  }

  /** |P ∪ R| = |R| + |P| - |P ∩ R|; it is never negative, so the clamp does not act. */
  lemma InclusionExclusion(p: set<string>, r: set<string>)
    ensures HybridTotal(|r|, |p|, |r * p|) == |p + r| == |r| + |p| - |r * p|
  {
    assert p + r == r + (p - r);
    assert p == (p - r) + r * p;
    if p == {} {
      assert p + r == r;
    }
  }

  lemma PartialFormula(d: Dialect, db: Db, partial: Query, remainder: Query, kind: Kind)
    requires Aligned(remainder.since) && FilterIdentitiesServe(db)
    ensures var r := FilterIdentityValues(d, db.tables.filterIdentities, remainder, kind);
            PartialIdentityCount(d, db, partial, remainder, kind) == Some(|RawIdentities(d, db.shards, partial, kind) + r|)
  {
    assert IdentityCount(d, db, remainder, kind) == Some(|FilterIdentityValues(d, db.tables.filterIdentities, remainder, kind)|);
    InclusionExclusion(RawIdentities(d, db.shards, partial, kind), FilterIdentityValues(d, db.tables.filterIdentities, remainder, kind));
  }

  lemma PartialIdentitiesServe(d: Dialect, db: Db, q: Query, start: int, kind: Kind)
    requires Consistent(db) && FilterIdentitiesServe(db)
    requires q.since.Some? && q.since.value < start && Aligned(Some(start))
    ensures PartialIdentityCount(d, db, q.(before := Some(start)), q.(since := Some(start), before := None), kind)
         == Some(|RawIdentities(d, db.shards, q.(before := None), kind)|)
  {
    var q0 := q.(before := None);
    var remainder := q0.(since := Some(start));
    SplitAtRemainder(d, db.shards, q0, start, kind);
    assert q0.(before := Some(start)) == q.(before := Some(start));
    FilterTableServes(d, db, remainder, kind);
    PartialFormula(d, db, q.(before := Some(start)), remainder, kind);
  }

  lemma PartialServes(d: Dialect, db: Db, q: Query)
    requires Consistent(db) && !Aligned(q.since) && FromPartial(d, db, q).Some?
    ensures FromPartial(d, db, q).value == RawCount(d, db.shards, q.(before := None))
  {
    var start := MinuteOf(q.since.value) + MINUTE;
    var q0 := q.(before := None);
    RemainderStart(q.since.value);
    PartialIdentitiesServe(d, db, q, start, Address);
    SplitAtRemainder(d, db.shards, q0, start, Address);
    assert q0.(before := Some(start)) == q.(before := Some(start));
    DetailedServes(d, db, q0.(since := Some(start)));
  }

  // ----- main results on counts -----

  /** Whatever path serves the count, it is the raw scan's answer to the query without
      its `before` bound. */
  lemma RollupsAnswerWithoutBefore(d: Dialect, db: Db, q: Query)
    requires Consistent(db) && FromRollups(d, db, q).Some?
    ensures FromRollups(d, db, q).value == RawCount(d, db.shards, q.(before := None))
  {
    var q0 := q.(before := None);
    if FromBuckets(db, q).Some? {
      BucketTableServes(d, db, q);
    } else if !Aligned(q.since) {
      PartialServes(d, db, q);
    } else {
      DetailedServes(d, db, q0);
      assert SelectedKeys(d, db.detailed, q) == SelectedKeys(d, db.detailed, q0);
      if FilterIdentitiesServe(db) {
        FilterTableServes(d, db, q0, Address);
        assert FilterIdentityValues(d, db.tables.filterIdentities, q, Address)
            == FilterIdentityValues(d, db.tables.filterIdentities, q0, Address);
      }
    }
  }

  /** Counting is path-independent: bucket rollups, detailed rollups, filter identities and
      the hybrid all give the raw scan's record and address counts. */
  lemma CountIsPathIndependent(d: Dialect, db: Db, q: Query)
    requires Consistent(db) && q.before == None
    ensures CountLogs(d, db, q) == RawCount(d, db.shards, q)
  {
    if FromRollups(d, db, q).Some? {
      RollupsAnswerWithoutBefore(d, db, q);
      assert q == q.(before := None);
    }
  }

  /** The distinct-identity count needs one unfolding of the mutual recursion, and the
      clamp of a negative total never acts. */
  lemma IdentityCountIsExact(d: Dialect, db: Db, q: Query, kind: Kind)
    requires Consistent(db)
    ensures IdentityCount(d, db, q, kind) ==
            if FilterIdentitiesServe(db) then Some(|RawIdentities(d, db.shards, q.(before := None), kind)|) else None
  {
    var q0 := q.(before := None);
    if Aligned(q.since) {
      if FilterIdentitiesServe(db) {
        FilterTableServes(d, db, q0, kind);
        assert FilterIdentityValues(d, db.tables.filterIdentities, q, kind)
            == FilterIdentityValues(d, db.tables.filterIdentities, q0, kind);
      }
    } else {
      var start := MinuteOf(q.since.value) + MINUTE;
      RemainderStart(q.since.value);
      if FilterIdentitiesServe(db) {
        PartialIdentitiesServe(d, db, q, start, kind);
      } else {
        assert IdentityCount(d, db, q.(since := Some(start), before := None), kind) == None;
      }
    }
  }

  /** Every filter matches some columns. */
  lemma FilterHasMatch(d: Dialect, f: Filter) returns (c: Dimensions)
    ensures Matches(d, f, c)
  {
    var address := PatternHasMatch(d, DefaultEscape(d), f.remoteAddr);
    c := Dimensions(f.nodeID, address, "", "", if f.host.Given? then f.host.text else "",
                    if f.path.Given? then f.path.text else "", 0, "");
  }

  /** A `before` bound is lost on the rollup paths, so a count is right on every database exactly
      when it has none. */
  lemma BeforeIsRespectedIff(d: Dialect, q: Query)
    ensures (forall db :: Consistent(db) ==> CountLogs(d, db, q) == RawCount(d, db.shards, q)) <==> q.before == None
  {
    if q.before == None {
      forall db | Consistent(db)
        ensures CountLogs(d, db, q) == RawCount(d, db.shards, q)
      {
        CountIsPathIndependent(d, db, q);
      }
    } else {
      var c := FilterHasMatch(d, q.filter);
      LateRecordIsCounted(d, q, c);
    }
  }

  /** No matching record lies at or after the bound. */
  ghost predicate NoneLate(d: Dialect, rs: seq<Record>, q: Query)
    requires q.before.Some?
  {
    forall r :: r in rs && RawMatches(d, q.(before := None), r) ==> r.loggedAt < q.before.value
  }

  /** On one database a bounded count is right exactly when the rollups do not answer it or hold
      nothing beyond the bound. */
  lemma {:induction false} BeforeOnOneDatabaseIff(d: Dialect, db: Db, q: Query)
    requires Consistent(db) && q.before.Some?
    ensures CountLogs(d, db, q) == RawCount(d, db.shards, q)
            <==> FromRollups(d, db, q).None? || NoneLate(d, Flatten(db.shards), q)
  {
    var q0, rs := q.(before := None), Flatten(db.shards);
    if FromRollups(d, db, q).Some? {
      RollupsAnswerWithoutBefore(d, db, q);
      RawRecordsOfUnion(d, db.shards, q);
      RawRecordsOfUnion(d, db.shards, q0);
      forall r
        ensures RawFilter(d, q)(r) == (RawFilter(d, q0)(r) && r.loggedAt < q.before.value)
      {
      }
      CountWithin(rs, RawFilter(d, q), RawFilter(d, q0));
      if NoneLate(d, rs, q) {
        RawIdentitiesOfUnion(d, db.shards, q, Address);
        RawIdentitiesOfUnion(d, db.shards, q0, Address);
        assert RawIdentities(d, db.shards, q, Address) == RawIdentities(d, db.shards, q0, Address);
      }
    }
  }

  /** A narrower filter counts as much exactly when it keeps every row. */
  lemma {:induction false} CountWithin<T(!new)>(rs: seq<T>, p: T -> bool, q: T -> bool)
    requires forall r :: r in rs && p(r) ==> q(r)
    ensures CountIf(rs, p) <= CountIf(rs, q)
    ensures CountIf(rs, p) == CountIf(rs, q) <==> forall r :: r in rs && q(r) ==> p(r)
    decreases |rs|
  {
    if rs != [] {
      var front, last := rs[..|rs| - 1], rs[|rs| - 1];
      assert forall r :: r in rs <==> r in front || r == last;
      CountWithin(front, p, q);
    }
  }

  /** One matching record at or after `before` shows the lost bound. */
  lemma LateRecordIsCounted(d: Dialect, q: Query, c: Dimensions)
    requires q.before.Some? && Matches(d, q.filter, c)
    ensures exists db :: Consistent(db) && CountLogs(d, db, q) != RawCount(d, db.shards, q)
  {
    var t0 := if q.since.Some? && q.since.value > q.before.value then q.since.value else q.before.value;
    var t := if t0 < 0 then 0 else t0;
    var r := Record(1, c.nodeID, t, c.remoteAddr, c.region, c.operatorName, c.host, c.path, c.status, c.cacheStatus, 0, 0, 0);
    var seen := r.(id := 2, remoteAddr := "x");
    var q0 := q.(before := None);
    var db := PairDb(r, seen);
    PairDbServes(r, seen);
    assert KeyOf(r).dims == c;
    assert RawMatches(d, q0, r) && !RawMatches(d, q, r);
    assert RawMatches(d, q, seen) ==> RawMatches(d, q0, seen);
    PairCount(d, r, seen, q);
    PairCount(d, r, seen, q0);
    RollupsServeWhenPopulated(d, db, q, KeyOf(seen));
    RollupsAnswerWithoutBefore(d, db, q);
    assert CountLogs(d, db, q).records != RawCount(d, db.shards, q).records;
  }

  /** A database that holds two records, with every table in step. */
  ghost function PairDb(a: Record, b: Record): Db
  {
    var detailed := Aggregate([a, b]);
    Db([[a, b]], detailed, Derive(detailed), true)
  }

  lemma FlattenPair(a: Record, b: Record)
    ensures Flatten([[a, b]]) == [a, b]
  {
    assert [[a, b]][..0] == [];
    assert Flatten([[a, b]][..0]) == [];
  }

  lemma PairDbServes(a: Record, b: Record)
    requires a.loggedAt != ZERO_TIME && b.loggedAt != ZERO_TIME && b.remoteAddr != ""
    ensures var db := PairDb(a, b);
            Consistent(db) && KeyOf(b) in db.detailed && FilterIdentitiesServe(db)
  {
    var t := Aggregate([a, b]);
    FlattenPair(a, b);
    AggregateIsGrouping([a, b]);
    assert b in [a, b] && KeyOf(b) in t.Keys;
    assert KeyOf(b).minute in MinutesOf(t) && KeyOf(b) in KeysIn(t, MinutesOf(t));
    assert FilterIdentityOf(KeyOf(b), Address) in FilterIdentityRows(t, MinutesOf(t));
  }

  lemma PairCount(d: Dialect, a: Record, b: Record, q: Query)
    ensures RawRecords(d, [[a, b]], q) == Indicator(RawMatches(d, q, a)) + Indicator(RawMatches(d, q, b))
  {
    FlattenPair(a, b);
    RawRecordsOfUnion(d, [[a, b]], q);
    assert [a, b][..1] == [a] && [a][..0] == [];
    assert CountIf([a], RawFilter(d, q)) == Indicator(RawMatches(d, q, a));
  }

  /** With rows in the detailed table the rollups answer, unless a split query finds no
      filter identities. */
  lemma {:induction false} RollupsServeWhenPopulated(d: Dialect, db: Db, q: Query, k: Key)
    requires Consistent(db) && k in db.detailed
    requires Aligned(q.since) || FilterIdentitiesServe(db)
    ensures FromRollups(d, db, q).Some?
  {
    if !Aligned(q.since) {
      var start := MinuteOf(q.since.value) + MINUTE;
      RemainderStart(q.since.value);
      PartialFormula(d, db, q.(before := Some(start)), q.(since := Some(start), before := None), Address);
      assert FromPartial(d, db, q).Some?;
    }
  }
}

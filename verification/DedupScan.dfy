/** Which stored rows a deduplicated insert looks at: the nodes of the incoming records and
    one time range that is meant to cover them all. The zero time doubles as "not set". */
module DedupScan {
  import opened AccessLog

  datatype DedupKey = DedupKey(nodeID: string, loggedAt: int, remoteAddr: string, host: string, path: string, status: int)

  function KeyFor(r: Record): DedupKey
  {
    DedupKey(r.nodeID, r.loggedAt, r.remoteAddr, r.host, r.path, r.status)
  }

  /** Two records count as the same request. */
  predicate SameRequest(a: Record, b: Record)
  {
    && a.nodeID == b.nodeID && a.loggedAt == b.loggedAt && a.remoteAddr == b.remoteAddr
    && a.host == b.host && a.path == b.path && a.status == b.status
  }

  lemma SameKeyIff(a: Record, b: Record)
    ensures KeyFor(a) == KeyFor(b) <==> SameRequest(a, b)
  {
  }

  function KeysOf(rs: seq<Record>): set<DedupKey>
  {
    set r | r in rs :: KeyFor(r)
  }

  datatype TimeRange = TimeRange(min: int, max: int)

  const UNSET: TimeRange := TimeRange(ZERO_TIME, ZERO_TIME)

  function Expand(range: TimeRange, t: int): TimeRange
  {
    TimeRange(
      if range.min == ZERO_TIME || t < range.min then t else range.min,
      if range.max == ZERO_TIME || t > range.max then t else range.max)
  }

  type Ranges = map<string, TimeRange>

  /** The first record of each dedup key, in order. */
  function Uniques(rs: seq<Record>): seq<Record>
  {
    if rs == [] then [] else
      var front, last := rs[..|rs| - 1], rs[|rs| - 1];
      if KeyFor(last) in KeysOf(front) then Uniques(front) else Uniques(front) + [last]
  }

  function RangesOf(rs: seq<Record>): Ranges
  {
    if rs == [] then map[] else
      NextRanges(RangesOf(rs[..|rs| - 1]), rs[|rs| - 1])
  }

  /** The loop over the incoming records. */
  method CollectIncoming(records: seq<Record>) returns (unique: seq<Record>, ranges: Ranges)
    ensures unique == Uniques(records) && ranges == RangesOf(Uniques(records))
  {
    unique, ranges := [], map[];
    var seen: set<DedupKey> := {};
    for i := 0 to |records|
      invariant seen == KeysOf(records[..i])
      invariant unique == Uniques(records[..i]) && ranges == RangesOf(unique)
    {
      var record := records[i];
      var key := KeyFor(record);
      CollectNext(records[..i], record);
      assert records[..i + 1] == records[..i] + [record];
      if key !in seen {
        seen := seen + {key};
        RangesNext(unique, record);
        unique := unique + [record];
        var current := if record.nodeID in ranges then ranges[record.nodeID] else UNSET;
        ranges := ranges[record.nodeID := Expand(current, record.loggedAt)];
      }
    }
    assert records[..|records|] == records;
  }

  lemma CollectNext(rs: seq<Record>, r: Record)
    ensures KeysOf(rs + [r]) == KeysOf(rs) + {KeyFor(r)}
    ensures Uniques(rs + [r]) == if KeyFor(r) in KeysOf(rs) then Uniques(rs) else Uniques(rs) + [r]
  {
    assert (rs + [r])[..|rs|] == rs;
  }

  lemma RangesNext(rs: seq<Record>, r: Record)
    ensures RangesOf(rs + [r]) == NextRanges(RangesOf(rs), r)
  {
    assert (rs + [r])[..|rs|] == rs;
  }

  function NextRanges(ranges: Ranges, r: Record): Ranges
  {
    ranges[r.nodeID := Expand(if r.nodeID in ranges then ranges[r.nodeID] else UNSET, r.loggedAt)]
  }

  /** The set bounds of the per-node ranges. */
  ghost function Bounds(ranges: Ranges): set<int>
  {
    (set n | n in ranges.Keys && ranges[n].min != ZERO_TIME :: ranges[n].min)
    + (set n | n in ranges.Keys && ranges[n].max != ZERO_TIME :: ranges[n].max)
  }

  /** The combined range spans the set bounds, in whatever order the map is walked. */
  ghost predicate Spans(bounds: set<int>, c: TimeRange)
  {
    if bounds == {} then c == UNSET
    else c.min in bounds && c.max in bounds && forall v :: v in bounds ==> c.min <= v <= c.max
  }

  lemma SpansExpand(bounds: set<int>, c: TimeRange, v: int)
    requires Spans(bounds, c) && v != ZERO_TIME && ZERO_TIME !in bounds
    ensures Spans(bounds + {v}, Expand(c, v))
  {
    assert v in bounds + {v};
  }

  method CombinedRange(ranges: Ranges) returns (combined: TimeRange)
    ensures Spans(Bounds(ranges), combined)
  {
    combined := UNSET;
    var todo := ranges.Keys;
    ghost var done: set<int> := {};
    while todo != {}
      invariant todo <= ranges.Keys
      invariant done == Bounds(ranges - todo) && Spans(done, combined)
      decreases todo
    {
      var node :| node in todo;
      var range := ranges[node];
      assert ranges - (todo - {node}) == (ranges - todo)[node := range];
      BoundsAdd(ranges - todo, node, range);
      if range.min != ZERO_TIME {
        SpansExpand(done, combined, range.min);
        combined := Expand(combined, range.min);
        done := done + {range.min};
      }
      if range.max != ZERO_TIME {
        SpansExpand(done, combined, range.max);
        combined := Expand(combined, range.max);
        done := done + {range.max};
      }
      todo := todo - {node};
    }
    assert ranges - {} == ranges;
  }

  lemma BoundsAdd(ranges: Ranges, node: string, range: TimeRange)
    requires node !in ranges
    ensures Bounds(ranges[node := range]) == Bounds(ranges)
                                             + (if range.min != ZERO_TIME then {range.min} else {})
                                             + (if range.max != ZERO_TIME then {range.max} else {})
  {
    var after := ranges[node := range];
    forall n | n in ranges
      ensures after[n] == ranges[n]
    {
    }
    assert after[node] == range;
    assert forall n :: n in after.Keys <==> n in ranges.Keys || n == node;
    forall v | v in Bounds(after)
      ensures v in Bounds(ranges) || (v == range.min && v != ZERO_TIME) || (v == range.max && v != ZERO_TIME)
    {
      var n :| n in after.Keys && (v == after[n].min || v == after[n].max) && v != ZERO_TIME;
      if n != node {
        assert after[n] == ranges[n];
      }
    }
    forall v | v in Bounds(ranges)
      ensures v in Bounds(after)
    {
      var n :| n in ranges.Keys && (v == ranges[n].min || v == ranges[n].max) && v != ZERO_TIME;
      assert after[n] == ranges[n];
    }
  }

  /** WHERE node_id IN nodes AND logged_at in the set part of the range. */
  predicate InScan(nodes: set<string>, c: TimeRange, row: Record)
  {
    && row.nodeID in nodes
    && (c.min != ZERO_TIME ==> row.loggedAt >= c.min)
    && (c.max != ZERO_TIME ==> row.loggedAt <= c.max)
  }

  /** Every stored row with the key of an incoming record is looked at. */
  ghost predicate ScanCovers(rs: seq<Record>, nodes: set<string>, c: TimeRange)
  {
    forall row: Record :: KeyFor(row) in KeysOf(rs) ==> InScan(nodes, c, row)
  }

  predicate NoneZero(rs: seq<Record>)
  {
    forall r :: r in rs ==> r.loggedAt != ZERO_TIME
  }

  predicate AllZero(rs: seq<Record>)
  {
    forall r :: r in rs ==> r.loggedAt == ZERO_TIME
  }

  lemma {:induction false} RangesHoldTimes(rs: seq<Record>, r: Record)
    requires NoneZero(rs) && r in rs
    ensures r.nodeID in RangesOf(rs)
    ensures RangesOf(rs)[r.nodeID].min <= r.loggedAt <= RangesOf(rs)[r.nodeID].max
    ensures forall n :: n in RangesOf(rs) ==> RangesOf(rs)[n].min != ZERO_TIME && RangesOf(rs)[n].max != ZERO_TIME
    decreases |rs|
  {
    var front, last := rs[..|rs| - 1], rs[|rs| - 1];
    assert rs == front + [last];
    assert forall x :: x in front ==> x in rs;
    RangesNext(front, last);
    if front != [] {
      RangesHoldTimes(front, front[0]);
    }
    if r in front {
      RangesHoldTimes(front, r);
    }
  }

  lemma {:induction false} RangesOfZero(rs: seq<Record>)
    requires AllZero(rs)
    ensures forall n :: n in RangesOf(rs) ==> RangesOf(rs)[n] == UNSET
    decreases |rs|
  {
    if rs != [] {
      assert rs[|rs| - 1] in rs;
      RangesOfZero(rs[..|rs| - 1]);
    }
  }

  lemma {:induction false} RangesHaveNodes(rs: seq<Record>)
    ensures RangesOf(rs).Keys == set r | r in rs :: r.nodeID
    decreases |rs|
  {
    if rs != [] {
      RangesHaveNodes(rs[..|rs| - 1]);
      assert rs == rs[..|rs| - 1] + [rs[|rs| - 1]];
    }
  }

  /** Times never lie before the zero time; a later one shows in its node's upper bound. */
  lemma {:induction false} LaterTimeShows(rs: seq<Record>, r: Record)
    requires r in rs && forall x :: x in rs ==> x.loggedAt >= ZERO_TIME
    ensures r.nodeID in RangesOf(rs) && RangesOf(rs)[r.nodeID].max >= r.loggedAt
    ensures forall n :: n in RangesOf(rs) ==> RangesOf(rs)[n].min >= ZERO_TIME && RangesOf(rs)[n].max >= ZERO_TIME
    decreases |rs|
  {
    var front, last := rs[..|rs| - 1], rs[|rs| - 1];
    assert rs == front + [last];
    assert forall x :: x in front ==> x in rs;
    if front != [] {
      LaterTimeShows(front, front[0]);
    }
    if r in front {
      LaterTimeShows(front, r);
    }
  }

  /** The scan covers every collision when the incoming records either all have a time or all
      lack one. */
  lemma UniformTimesAreCovered(rs: seq<Record>, c: TimeRange)
    requires Spans(Bounds(RangesOf(rs)), c) && (NoneZero(rs) || AllZero(rs))
    ensures ScanCovers(rs, RangesOf(rs).Keys, c)
  {
    var ranges := RangesOf(rs);
    RangesHaveNodes(rs);
    if NoneZero(rs) {
      forall row: Record | KeyFor(row) in KeysOf(rs)
        ensures InScan(ranges.Keys, c, row)
      {
        var r :| r in rs && KeyFor(r) == KeyFor(row);
        RangesHoldTimes(rs, r);
        assert ranges[r.nodeID].min in Bounds(ranges) && ranges[r.nodeID].max in Bounds(ranges);
      }
    } else {
      RangesOfZero(rs);
      assert Bounds(ranges) == {};
    }
  }

  /** And, with times from the zero time on, only then: a zero time beside a set one falls outside
      the range. */
  lemma ScanCoversIff(rs: seq<Record>, c: TimeRange)
    requires Spans(Bounds(RangesOf(rs)), c)
    requires forall r :: r in rs ==> r.loggedAt >= ZERO_TIME
    ensures ScanCovers(rs, RangesOf(rs).Keys, c) <==> NoneZero(rs) || AllZero(rs)
  {
    var ranges := RangesOf(rs);
    if NoneZero(rs) || AllZero(rs) {
      UniformTimesAreCovered(rs, c);
    } else {
      var z :| z in rs && z.loggedAt == ZERO_TIME;
      var u :| u in rs && u.loggedAt != ZERO_TIME;
      LaterTimeShows(rs, u);
      assert ranges[u.nodeID].max in Bounds(ranges);
      assert forall v :: v in Bounds(ranges) ==> v > ZERO_TIME;
      assert KeyFor(z) in KeysOf(rs) && !InScan(ranges.Keys, c, z);
    }
  }

  lemma {:induction false} UniquesKeepKeys(rs: seq<Record>)
    ensures KeysOf(Uniques(rs)) == KeysOf(rs)
    ensures |Uniques(rs)| == |KeysOf(rs)|
    ensures forall r :: r in Uniques(rs) ==> r in rs
    decreases |rs|
  {
    if rs != [] {
      var front, last := rs[..|rs| - 1], rs[|rs| - 1];
      UniquesKeepKeys(front);
      assert rs == front + [last];
      assert KeysOf(rs) == KeysOf(front) + {KeyFor(last)};
      assert KeysOf(Uniques(front) + [last]) == KeysOf(Uniques(front)) + {KeyFor(last)};
    }
  }
}

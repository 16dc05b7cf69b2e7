/** What the two database backends do differently: integer division of epochs and LIKE. */
module SqlDialect {
  import opened Wrappers

  datatype Dialect = Postgres | Sqlite

  // ----- bucket epochs -----

  const MINUTE: int := 60

  /** The start of the minute of an instant: time truncated to whole minutes. */
  function MinuteOf(t: int): int
  {
    t - t % MINUTE
  }

  /** The bucket width in seconds; a non-positive setting falls back to the default. */
  function Width(minutes: int, fallback: int): int
  {
    if minutes * 60 <= 0 then fallback else minutes * 60
  }

  /** Integer division as SQLite and Go do it: towards zero. */
  function TruncatedQuotient(t: int, w: int): int
    requires w > 0
  {
    if t >= 0 then t / w else -((-t) / w)
  }

  /** The start of the bucket of width `w`: floor(epoch / w) * w on PostgreSQL,
      (epoch / w) * w in truncating integer arithmetic on SQLite. */
  function BucketStart(d: Dialect, w: int, t: int): int
    requires w > 0
  {
    match d
    case Postgres => t / w * w
    case Sqlite => TruncatedQuotient(t, w) * w
  }

  /** `q` is the quotient of `t` as soon as `t` lies in its interval. */
  lemma QuotientIs(t: int, w: int, q: int)
    requires w > 0 && q * w <= t < q * w + w
    ensures t / w == q
  {
    var r := t - q * w;
    assert t == t / w * w + t % w;
    if t / w < q {
      assert (t / w + 1) * w <= q * w by { MultiplyLe(t / w + 1, q, w); }
    } else if t / w > q {
      assert (q + 1) * w <= t / w * w by { MultiplyLe(q + 1, t / w, w); }
    }
  }

  lemma MultiplyLe(a: int, b: int, w: int)
    requires a <= b && w > 0
    ensures a * w <= b * w
  {
    assert (b - a) * w >= 0;
    assert b * w == a * w + (b - a) * w;
  }

  /** Multiples of 60 that reach above a multiple of 60 reach a whole minute above it. */
  lemma MinuteWithin(t: int, w: int, j: int, q: int)
    requires w == 60 * j && j > 0 && q * w <= t < q * w + w
    ensures q * w <= MinuteOf(t) < q * w + w
  {
    var base := q * j;
    assert q * w == 60 * base;
    assert t / 60 >= base;
    assert MinuteOf(t) == t / 60 * 60;
  }

  /** Folding the start of the minute gives the fold of the instant, at any width
      that is a multiple of a minute. */
  lemma FloorOfMinute(w: int, t: int)
    requires w > 0 && w % 60 == 0
    ensures MinuteOf(t) / w == t / w
  {
    var q := t / w;
    assert t == q * w + t % w;
    MinuteWithin(t, w, w / 60, q);
    QuotientIs(MinuteOf(t), w, q);
  }

  /** Truncation moves a negative instant up to the next boundary; a minute start that
      is itself a boundary stays where it is. */
  lemma TruncationOfMinute(w: int, t: int)
    requires w > 0 && w % 60 == 0 && t < 0
    ensures TruncatedQuotient(MinuteOf(t), w) == TruncatedQuotient(t, w) <==> t % 60 == 0 || MinuteOf(t) % w != 0
  {
    var m := MinuteOf(t);
    TruncationBelow(w, m, t, (-m) / w);
  }

  lemma TruncationBelow(w: int, m: int, t: int, p: int)
    requires w > 0 && w % 60 == 0 && m % 60 == 0 && m <= t < m + 60 && t < 0 && p == (-m) / w
    ensures p == (-t) / w <==> t == m || m % w != 0
  {
    NegationKeepsMultiples(m, w, p);
    if m % w == 0 && t != m {
      OneBucketBelow(-t, w, p);
    } else if m % w != 0 {
      SameBucketBelow(-m, -t, w, p);
    }
  }

  lemma OneBucketBelow(u: int, w: int, p: int)
    requires w >= 60 && p * w - 60 < u < p * w
    ensures u / w == p - 1
  {
    assert (p - 1) * w == p * w - w;
    QuotientIs(u, w, p - 1);
  }

  lemma SameBucketBelow(v: int, u: int, w: int, p: int)
    requires w > 0 && w % 60 == 0 && v % 60 == 0
    requires p * w < v < p * w + w && v - 60 < u <= v
    ensures u / w == p
  {
    var base := p * (w / 60);
    assert p * w == 60 * base;
    assert v == 60 * (v / 60);
    assert v / 60 > base;
    QuotientIs(u, w, p);
  }

  lemma NegationKeepsMultiples(m: int, w: int, p: int)
    requires w > 0 && p == (-m) / w
    ensures m % w == 0 <==> -m == p * w
  {
    if -m == p * w {
      assert m == (-p) * w + 0;
      QuotientIs(m, w, -p);
    } else if m % w == 0 {
      var q := m / w;
      assert -m == (-q) * w;
      QuotientIs(-m, w, -q);
    }
  }

  /** The instant folds with its minute. */
  predicate MinuteFolds(d: Dialect, w: int, t: int)
    requires w > 0
  {
    d == Postgres || t >= 0 || t % 60 == 0 || MinuteOf(t) % w != 0
  }

  /** When folding minute rollups gives the bucket the raw record falls in: always on
      PostgreSQL; on SQLite exactly unless an instant before 1970 lies strictly inside
      a minute that starts on a bucket boundary. */
  lemma FoldOfMinuteIff(d: Dialect, w: int, t: int)
    requires w > 0 && w % 60 == 0
    ensures BucketStart(d, w, MinuteOf(t)) == BucketStart(d, w, t) <==> MinuteFolds(d, w, t)
  {
    FloorOfMinute(w, t);
    if d == Sqlite && t < 0 {
      TruncationOfMinute(w, t);
      var a, b := TruncatedQuotient(MinuteOf(t), w), TruncatedQuotient(t, w);
      if a < b {
        MultiplyLe(a + 1, b, w);
      } else if b < a {
        MultiplyLe(b + 1, a, w);
      }
    }
  }

  lemma QuotientIsMonotone(a: int, b: int, w: int)
    requires w > 0 && a <= b
    ensures a / w <= b / w
  {
    if a / w > b / w {
      MultiplyLe(b / w + 1, a / w, w);
    }
  }

  /** Later instants are in the same or a later bucket. */
  lemma StartIsMonotone(d: Dialect, w: int, a: int, b: int)
    requires w > 0 && a <= b
    ensures BucketStart(d, w, a) <= BucketStart(d, w, b)
  {
    match d
    case Postgres =>
      QuotientIsMonotone(a, b, w);
      MultiplyLe(a / w, b / w, w);
    case Sqlite =>
      if a >= 0 {
        QuotientIsMonotone(a, b, w);
      } else if b < 0 {
        QuotientIsMonotone(-b, -a, w);
      } else {
        QuotientIsMonotone(0, -a, w);
        QuotientIsMonotone(0, b, w);
      }
      MultiplyLe(TruncatedQuotient(a, w), TruncatedQuotient(b, w), w);
  }

  /** A bucket is a whole number of widths from 1970, and holds the instants up to its width after its
      start; on SQLite those before 1970 lie before the end of their bucket instead. */
  predicate InBucketOf(d: Dialect, w: int, t: int, b: int)
    requires w > 0
  {
    b % w == 0 && if d == Sqlite && t < 0 then b - w < t <= b else b <= t < b + w
  }

  lemma BucketStartMeaning(d: Dialect, w: int, t: int, b: int)
    requires w > 0
    ensures BucketStart(d, w, t) == b <==> InBucketOf(d, w, t, b)
  {
    StartIsInBucket(d, w, t);
    if InBucketOf(d, w, t, b) {
      var q := b / w;
      assert b == q * w;
      if d == Sqlite && t < 0 {
        assert -b == -q * w;
        QuotientIs(-t, w, -q);
      } else {
        QuotientIs(t, w, q);
      }
    }
  }

  lemma StartIsInBucket(d: Dialect, w: int, t: int)
    requires w > 0
    ensures InBucketOf(d, w, t, BucketStart(d, w, t))
  {
    if d == Sqlite && t < 0 {
      var n := (-t) / w;
      assert -t == n * w + (-t) % w;
      assert BucketStart(d, w, t) == -n * w;
      MultipleOf(-n, w);
    } else {
      var n := t / w;
      assert t == n * w + t % w;
      assert BucketStart(d, w, t) == n * w;
      MultipleOf(n, w);
    }
  }

  lemma MultipleOf(n: int, w: int)
    requires w > 0
    ensures n * w % w == 0
  {
    QuotientIs(n * w, w, n);
    assert n * w == n * w / w * w + n * w % w;
  }

  /** The minute the backend computes for an instant is the minute of the instant, except on
      SQLite for an instant before 1970 inside a minute. */
  lemma SqlMinuteIff(d: Dialect, t: int)
    ensures BucketStart(d, MINUTE, t) == MinuteOf(t) <==> d == Postgres || t >= 0 || t % MINUTE == 0
    ensures MinuteOf(t) <= BucketStart(d, MINUTE, t) <= MinuteOf(t) + MINUTE
  {
  }

  // ----- LIKE -----

  function UpperChar(c: char): char
  {
    if 'a' <= c <= 'z' then ((c as int) - 32) as char else c
  }

  /** SQLite compares LIKE patterns without regard to ASCII case. */
  predicate SameChar(d: Dialect, a: char, b: char)
  {
    match d
    case Postgres => a == b
    case Sqlite => UpperChar(a) == UpperChar(b)
  }

  /** PostgreSQL compares characters as they are; on SQLite the capital and the small letter are one. */
  lemma SameCharIff(d: Dialect, a: char, b: char)
    ensures SameChar(d, a, b) <==>
            || a == b
            || (d == Sqlite && (('a' <= a <= 'z' && b as int == a as int - 32) || ('a' <= b <= 'z' && a as int == b as int - 32)))
  {
  }

  predicate Like(d: Dialect, escape: Option<char>, pattern: string, s: string)
    decreases |pattern| + |s|
  {
    if pattern == [] then s == []
    else if escape == Some(pattern[0]) then
      |pattern| > 1 && s != [] && SameChar(d, pattern[1], s[0]) && Like(d, escape, pattern[2..], s[1..])
    else if pattern[0] == '%' then
      Like(d, escape, pattern[1..], s) || (s != [] && Like(d, escape, pattern, s[1..]))
    else
      s != [] && (pattern[0] == '_' || SameChar(d, pattern[0], s[0])) && Like(d, escape, pattern[1..], s[1..])
  }

  /** The backend's escape character when none is named. */
  function DefaultEscape(d: Dialect): Option<char>
  {
    match d
    case Postgres => Some('\\')
    case Sqlite => None
  }

  /** The pattern metacharacters of a literal, escaped by backslash. */
  function EscapePattern(v: string): string
  {
    if v == [] then []
    else (if v[0] in {'\\', '%', '_'} then ['\\', v[0]] else [v[0]]) + EscapePattern(v[1..])
  }

  predicate StartsWith(d: Dialect, s: string, prefix: string)
  {
    |prefix| <= |s| && forall i :: 0 <= i < |prefix| ==> SameChar(d, prefix[i], s[i])
  }

  lemma {:induction false} PercentMatchesAnything(d: Dialect, s: string)
    ensures Like(d, Some('\\'), "%", s)
    decreases |s|
  {
    if s != [] {
      PercentMatchesAnything(d, s[1..]);
    } else {
      assert "%"[1..] == [];
    }
  }

  /** Without a percent sign and without escapes a pattern matches texts of its own length, and each
      underscore any one character. */
  lemma {:induction false} FixedLengthPattern(d: Dialect, escape: Option<char>, pattern: string, s: string)
    requires forall i :: 0 <= i < |pattern| ==> pattern[i] != '%' && escape != Some(pattern[i])
    ensures Like(d, escape, pattern, s) <==>
            |s| == |pattern| && forall i :: 0 <= i < |s| ==> pattern[i] == '_' || SameChar(d, pattern[i], s[i])
    decreases |pattern|
  {
    if pattern != [] && s != [] {
      FixedLengthPattern(d, escape, pattern[1..], s[1..]);
      assert forall i :: 1 <= i < |s| ==> s[i] == s[1..][i - 1];
      assert forall i :: 1 <= i < |pattern| ==> pattern[i] == pattern[1..][i - 1];
    }
  }

  /** Whatever text comes before it, a pattern that ends in % matches something. */
  lemma {:induction false} PatternHasMatch(d: Dialect, escape: Option<char>, prefix: string) returns (s: string)
    requires escape != Some('%')
    ensures Like(d, escape, prefix + "%", s)
    decreases |prefix|
  {
    var pattern := prefix + "%";
    if prefix == [] {
      s := "";
      assert pattern == "%" && pattern[1..] == [];
    } else if escape == Some(prefix[0]) {
      if |prefix| == 1 {
        s := "%";
        assert pattern[1] == '%' && pattern[2..] == [] && s[1..] == [];
      } else {
        var rest := PatternHasMatch(d, escape, prefix[2..]);
        s := [prefix[1]] + rest;
        assert pattern[2..] == prefix[2..] + "%" && s[1..] == rest;
      }
    } else {
      var rest := PatternHasMatch(d, escape, prefix[1..]);
      s := if prefix[0] == '%' then rest else [prefix[0]] + rest;
      assert pattern[1..] == prefix[1..] + "%";
      assert prefix[0] != '%' ==> s[1..] == rest;
    }
  }

  /** An escaped literal followed by % matches exactly the texts it is a prefix of. */
  lemma {:induction false} EscapedPrefixIsExact(d: Dialect, prefix: string, s: string)
    ensures Like(d, Some('\\'), EscapePattern(prefix) + "%", s) <==> StartsWith(d, s, prefix)
    decreases |prefix|
  {
    if prefix == [] {
      assert EscapePattern(prefix) + "%" == "%";
      PercentMatchesAnything(d, s);
    } else {
      var pattern := EscapePattern(prefix) + "%";
      var rest := EscapePattern(prefix[1..]) + "%";
      if prefix[0] in {'\\', '%', '_'} {
        assert pattern[..2] == ['\\', prefix[0]] && pattern[2..] == rest;
      } else {
        assert pattern[0] == prefix[0] && pattern[1..] == rest;
      }
      if s != [] {
        EscapedPrefixIsExact(d, prefix[1..], s[1..]);
        assert StartsWith(d, s, prefix) <==> SameChar(d, prefix[0], s[0]) && StartsWith(d, s[1..], prefix[1..]) by {
          assert forall i :: 0 < i < |prefix| ==> prefix[i] == prefix[1..][i - 1];
          assert forall i :: 0 < i < |s| ==> s[i] == s[1..][i - 1];
          if SameChar(d, prefix[0], s[0]) && StartsWith(d, s[1..], prefix[1..]) {
            forall i | 0 <= i < |prefix|
              ensures SameChar(d, prefix[i], s[i])
            {
              if i > 0 {
                assert SameChar(d, prefix[1..][i - 1], s[1..][i - 1]);
              }
            }
          }
        }
      }
    }
  }

  // ----- LIKE on plain text -----

  predicate EndsWith(d: Dialect, s: string, suffix: string)
  {
    |suffix| <= |s| && forall i :: 0 <= i < |suffix| ==> SameChar(d, suffix[i], s[|s| - |suffix| + i])
  }

  /** No character of the text means anything but itself in a pattern. */
  predicate Plain(d: Dialect, text: string)
  {
    forall i :: 0 <= i < |text| ==> text[i] != '%' && text[i] != '_' && (d == Postgres ==> text[i] != '\\')
  }

  lemma SameCharNext(d: Dialect, p: string, s: string)
    requires p != [] && s != []
    ensures (forall i :: 0 <= i < |p| && i < |s| ==> SameChar(d, p[i], s[i]))
            <==> SameChar(d, p[0], s[0]) && forall i :: 0 <= i < |p[1..]| && i < |s[1..]| ==> SameChar(d, p[1..][i], s[1..][i])
  {
    if SameChar(d, p[0], s[0]) && forall i :: 0 <= i < |p[1..]| && i < |s[1..]| ==> SameChar(d, p[1..][i], s[1..][i]) {
      forall i | 0 <= i < |p| && i < |s|
        ensures SameChar(d, p[i], s[i])
      {
        assert i > 0 ==> SameChar(d, p[1..][i - 1], s[1..][i - 1]);
      }
    }
    assert forall i :: 0 <= i < |p[1..]| ==> p[1..][i] == p[i + 1];
    assert forall i :: 0 <= i < |s[1..]| ==> s[1..][i] == s[i + 1];
  }

  /** A plain pattern matches the texts of its length that agree with it in every place. */
  lemma {:induction false} PlainIsItself(d: Dialect, p: string, s: string)
    requires Plain(d, p)
    ensures Like(d, DefaultEscape(d), p, s) <==> |p| == |s| && forall i :: 0 <= i < |p| && i < |s| ==> SameChar(d, p[i], s[i])
    decreases |p|
  {
    if p != [] && s != [] {
      PlainIsItself(d, p[1..], s[1..]);
      SameCharNext(d, p, s);
    }
  }

  /** A plain text before % matches the texts it is a prefix of. */
  lemma {:induction false} PlainPrefixIsExact(d: Dialect, p: string, s: string)
    requires Plain(d, p)
    ensures Like(d, DefaultEscape(d), p + "%", s) <==> StartsWith(d, s, p)
    decreases |p|
  {
    if p == [] {
      assert p + "%" == "%";
      BarePercent(d, s);
    } else {
      assert (p + "%")[1..] == p[1..] + "%";
      if s != [] {
        PlainPrefixIsExact(d, p[1..], s[1..]);
        SameCharNext(d, p, s);
      }
    }
  }

  lemma {:induction false} BarePercent(d: Dialect, s: string)
    ensures Like(d, DefaultEscape(d), "%", s)
    decreases |s|
  {
    assert "%"[1..] == [];
    if s != [] {
      BarePercent(d, s[1..]);
    }
  }

  /** And after % the texts it is a suffix of. */
  lemma {:induction false} PlainSuffixIsExact(d: Dialect, p: string, s: string)
    requires Plain(d, p)
    ensures Like(d, DefaultEscape(d), "%" + p, s) <==> EndsWith(d, s, p)
    decreases |s|
  {
    assert ("%" + p)[1..] == p;
    PlainIsItself(d, p, s);
    if s != [] {
      PlainSuffixIsExact(d, p, s[1..]);
      SuffixNext(d, p, s);
    }
  }

  lemma SuffixNext(d: Dialect, p: string, s: string)
    requires s != []
    ensures EndsWith(d, s, p) <==>
              (|p| == |s| && forall i :: 0 <= i < |p| && i < |s| ==> SameChar(d, p[i], s[i])) || EndsWith(d, s[1..], p)
  {
    var t := s[1..];
    if |p| < |s| {
      forall i | 0 <= i < |p|
        ensures SameChar(d, p[i], s[|s| - |p| + i]) <==> SameChar(d, p[i], t[|t| - |p| + i])
      {
      }
    }
  }
}

/** The text that is hashed into a rollup row's dimension_hash: the eight
    dimensions joined by NUL. With SHA-256 taken as injective, two rows share a
    hash exactly when these texts are equal. */
module DimensionKey {
  import opened AccessLog

  function Join(parts: seq<string>): string
    requires parts != []
  {
    if |parts| == 1 then parts[0] else parts[0] + ['\0'] + Join(parts[1..])
  }

  predicate NulFree(s: string)
  {
    '\0' !in s
  }

  function Digit(n: nat): char
    requires n < 10
  {
    ('0' as int + n) as char
  }

  /** Decimal text of a number, as strconv.Itoa writes it. */
  function Decimal(n: nat): (s: string)
    ensures s != [] && forall c :: c in s ==> '0' <= c <= '9'
  {
    if n < 10 then [Digit(n)] else Decimal(n / 10) + [Digit(n % 10)]
  }

  function Itoa(n: int): string
  {
    if n < 0 then "-" + Decimal(-n) else Decimal(n)
  }

  function ParseDecimal(s: string): int
  {
    if s == [] then 0 else 10 * ParseDecimal(s[..|s| - 1]) + (s[|s| - 1] as int - '0' as int)
  }

  lemma {:induction false} ParseInvertsDecimal(n: nat)
    ensures ParseDecimal(Decimal(n)) == n
  {
    if n < 10 {
      assert Decimal(n)[..0] == [];
    } else {
      ParseInvertsDecimal(n / 10);
      assert Decimal(n)[..|Decimal(n)| - 1] == Decimal(n / 10);
    }
  }

  lemma SignIsFirst(n: int)
    ensures Itoa(n) != [] && (Itoa(n)[0] == '-' <==> n < 0)
  {
    if n >= 0 {
      assert Decimal(n)[0] in Decimal(n);
    }
  }

  lemma ItoaInjective(a: int, b: int)
    requires Itoa(a) == Itoa(b)
    ensures a == b
  {
    SignIsFirst(a);
    SignIsFirst(b);
    if a < 0 {
      assert Decimal(-a) == Itoa(a)[1..] == Itoa(b)[1..] == Decimal(-b);
      ParseInvertsDecimal(-a);
      ParseInvertsDecimal(-b);
    } else {
      ParseInvertsDecimal(a);
      ParseInvertsDecimal(b);
    }
  }

  /** NUL-free parts are recovered from their joined text; the last part may hold a NUL. */
  lemma {:induction false} JoinInjective(a: seq<string>, b: seq<string>)
    requires |a| == |b| > 0 && Join(a) == Join(b)
    requires forall i :: 0 <= i < |a| - 1 ==> NulFree(a[i]) && NulFree(b[i])
    ensures a == b
    decreases |a|
  {
    if |a| > 1 {
      var n, m := |a[0]|, |b[0]|;
      assert Join(a)[n] == '\0' && Join(b)[m] == '\0';
      assert forall i :: 0 <= i < n ==> Join(a)[i] == a[0][i] && a[0][i] != '\0';
      assert forall i :: 0 <= i < m ==> Join(b)[i] == b[0][i] && b[0][i] != '\0';
      assert n == m;
      assert a[0] == Join(a)[..n] == Join(b)[..n] == b[0];
      assert Join(a[1..]) == Join(a)[n + 1..] == Join(b)[n + 1..] == Join(b[1..]);
      JoinInjective(a[1..], b[1..]);
      assert a == [a[0]] + a[1..] && b == [b[0]] + b[1..];
    }
  }

  function Parts(d: Dimensions): seq<string>
  {
    [d.nodeID, d.remoteAddr, d.region, d.operatorName, d.host, d.path, Itoa(d.status), d.cacheStatus]
  }

  function HashedText(d: Dimensions): string
  {
    Join(Parts(d))
  }

  /** The dimensions in the order of the source, each but the last followed by a NUL. */
  lemma HashedTextIs(d: Dimensions)
    ensures HashedText(d) == d.nodeID + ['\0'] + d.remoteAddr + ['\0'] + d.region + ['\0'] + d.operatorName + ['\0']
                             + d.host + ['\0'] + d.path + ['\0'] + Itoa(d.status) + ['\0'] + d.cacheStatus
  {
    var p := Parts(d);
    assert Join(p[7..]) == p[7];
    assert Join(p[6..]) == p[6] + ['\0'] + Join(p[7..]) by { assert p[6..][1..] == p[7..]; }
    assert Join(p[5..]) == p[5] + ['\0'] + Join(p[6..]) by { assert p[5..][1..] == p[6..]; }
    assert Join(p[4..]) == p[4] + ['\0'] + Join(p[5..]) by { assert p[4..][1..] == p[5..]; }
    assert Join(p[3..]) == p[3] + ['\0'] + Join(p[4..]) by { assert p[3..][1..] == p[4..]; }
    assert Join(p[2..]) == p[2] + ['\0'] + Join(p[3..]) by { assert p[2..][1..] == p[3..]; }
    assert Join(p[1..]) == p[1] + ['\0'] + Join(p[2..]) by { assert p[1..][1..] == p[2..]; }
  }

  /** The six text fields before the status. */
  function TextParts(d: Dimensions): seq<string>
  {
    [d.nodeID, d.remoteAddr, d.region, d.operatorName, d.host, d.path]
  }

  function WithText(d: Dimensions, p: seq<string>): Dimensions
    requires |p| == 6
  {
    Dimensions(p[0], p[1], p[2], p[3], p[4], p[5], d.status, d.cacheStatus)
  }

  predicate TextNulFree(d: Dimensions)
  {
    forall i :: 0 <= i < 6 ==> NulFree(TextParts(d)[i])
  }

  /** Rows with different dimensions never share a text when the fields before the status are free of
      NUL in both. */
  lemma HashedTextInjective(a: Dimensions, b: Dimensions)
    requires TextNulFree(a) && TextNulFree(b)
    ensures HashedText(a) == HashedText(b) <==> a == b
  {
    if HashedText(a) == HashedText(b) {
      forall i | 0 <= i < 7
        ensures NulFree(Parts(a)[i]) && NulFree(Parts(b)[i])
      {
        assert i < 6 ==> Parts(a)[i] == TextParts(a)[i] && Parts(b)[i] == TextParts(b)[i];
      }
      JoinInjective(Parts(a), Parts(b));
      assert Parts(a)[0] == Parts(b)[0] && Parts(a)[1] == Parts(b)[1] && Parts(a)[2] == Parts(b)[2] && Parts(a)[3] == Parts(b)[3];
      assert Parts(a)[4] == Parts(b)[4] && Parts(a)[5] == Parts(b)[5] && Parts(a)[6] == Parts(b)[6] && Parts(a)[7] == Parts(b)[7];
      ItoaInjective(a.status, b.status);
    }
  }

  // ----- when rows do share a text -----

  lemma {:induction false} JoinConcat(a: seq<string>, b: seq<string>)
    requires a != [] && b != []
    ensures Join(a + b) == Join(a) + ['\0'] + Join(b)
    decreases |a|
  {
    if |a| == 1 {
      assert (a + b)[1..] == b;
    } else {
      assert (a + b)[1..] == a[1..] + b;
      JoinConcat(a[1..], b);
    }
  }

  /** Replacing two neighbours by two that join to the same text. */
  lemma JoinNeighbours(p: seq<string>, i: nat, x: string, y: string)
    requires i + 1 < |p| && p[i] + ['\0'] + p[i + 1] == x + ['\0'] + y
    ensures Join(p[i := x][i + 1 := y]) == Join(p)
  {
    var q := p[i := x][i + 1 := y];
    var before, mid, other, rest := p[..i], [p[i], p[i + 1]], [x, y], p[i + 2..];
    assert Join(mid) == p[i] + ['\0'] + p[i + 1] by { assert mid[1..] == [p[i + 1]]; }
    assert Join(other) == x + ['\0'] + y by { assert other[1..] == [y]; }
    JoinAround(before, mid, other, rest);
    assert p == before + mid + rest && q == before + other + rest;
  }

  lemma JoinAround(before: seq<string>, x: seq<string>, y: seq<string>, rest: seq<string>)
    requires x != [] && y != [] && Join(x) == Join(y)
    ensures Join(before + x + rest) == Join(before + y + rest)
  {
    if rest == [] {
      assert before + x + rest == before + x && before + y + rest == before + y;
    } else {
      JoinConcat(before + x, rest);
      JoinConcat(before + y, rest);
    }
    if before == [] {
      assert before + x == x && before + y == y;
    } else {
      JoinConcat(before, x);
      JoinConcat(before, y);
    }
  }

  lemma TextSplits(d: Dimensions)
    ensures HashedText(d) == Join(TextParts(d)) + ['\0'] + (Itoa(d.status) + ['\0'] + d.cacheStatus)
  {
    var tail := [Itoa(d.status), d.cacheStatus];
    assert Parts(d) == TextParts(d) + tail;
    JoinConcat(TextParts(d), tail);
    assert tail[1..] == [d.cacheStatus];
  }

  lemma NulSplits(s: string) returns (u: string, v: string)
    requires !NulFree(s)
    ensures s == u + ['\0'] + v
  {
    var i :| 0 <= i < |s| && s[i] == '\0';
    u, v := s[..i], s[i + 1..];
  }

  /** A NUL in a field before the status lets the boundary to a neighbour move. */
  lemma NulMovesBoundary(d: Dimensions) returns (e: Dimensions)
    requires !TextNulFree(d)
    ensures e != d && HashedText(e) == HashedText(d)
  {
    var p := TextParts(d);
    var i :| 0 <= i < 6 && !NulFree(p[i]);
    var u, v := NulSplits(p[i]);
    var q;
    if i < 5 {
      q := p[i := u][i + 1 := v + ['\0'] + p[i + 1]];
      assert p[i] + ['\0'] + p[i + 1] == u + ['\0'] + (v + ['\0'] + p[i + 1]);
      JoinNeighbours(p, i, u, v + ['\0'] + p[i + 1]);
      assert |q[i]| < |p[i]|;
    } else {
      q := p[4 := p[4] + ['\0'] + u][5 := v];
      assert p[4] + ['\0'] + p[5] == (p[4] + ['\0'] + u) + ['\0'] + v;
      JoinNeighbours(p, 4, p[4] + ['\0'] + u, v);
      assert |q[5]| < |p[5]|;
    }
    e := WithText(d, q);
    assert TextParts(e) == q;
    TextSplits(d);
    TextSplits(e);
  }

  /** `c` holds, between NULs or at its start and before a NUL, the text of a number. */
  ghost predicate PieceOf(c: string, a: string, n: int, b: string)
  {
    c == a + Itoa(n) + ['\0'] + b && (a == "" || a[|a| - 1] == '\0')
  }

  ghost predicate HasDecimalPiece(c: string)
  {
    exists a, n, b :: PieceOf(c, a, n, b)
  }

  /** What goes to the path when a later number passes for the status. */
  function Moved(code: string, a: string): string
  {
    if a == "" then code else code + ['\0'] + a[..|a| - 1]
  }

  lemma MovedText(code: string, a: string)
    requires a == "" || a[|a| - 1] == '\0'
    ensures Moved(code, a) + ['\0'] == code + ['\0'] + a
  {
    if a != "" {
      assert a == a[..|a| - 1] + ['\0'];
    }
  }

  /** Such a number can pass for the status. */
  lemma PieceMovesStatus(d: Dimensions) returns (e: Dimensions)
    requires HasDecimalPiece(d.cacheStatus)
    ensures e != d && HashedText(e) == HashedText(d)
  {
    var a, n, b :| PieceOf(d.cacheStatus, a, n, b);
    var p, code := TextParts(d), Itoa(d.status);
    var extra := Moved(code, a);
    var q := p[5 := p[5] + ['\0'] + extra];
    e := WithText(d, q).(status := n, cacheStatus := b);
    assert |e.cacheStatus| < |d.cacheStatus|;
    assert TextParts(e) == q;
    LastGrows(p, extra);
    TextSplits(d);
    TextSplits(e);
    var rest := Itoa(n) + ['\0'] + b;
    assert d.cacheStatus == a + rest;
    MovedText(code, a);
    assert HashedText(e) == (Join(p) + ['\0'] + extra) + ['\0'] + rest;
    Regroup(Join(p), code, a, extra, rest);
  }

  lemma Regroup(head: string, code: string, a: string, extra: string, rest: string)
    requires extra + ['\0'] == code + ['\0'] + a
    ensures (head + ['\0'] + extra) + ['\0'] + rest == head + ['\0'] + (code + ['\0'] + (a + rest))
  {
    assert (head + ['\0'] + extra) + ['\0'] + rest == head + ['\0'] + (extra + ['\0']) + rest;
    assert head + ['\0'] + (code + ['\0'] + (a + rest)) == head + ['\0'] + (code + ['\0'] + a) + rest;
  }

  lemma LastGrows(p: seq<string>, extra: string)
    requires |p| == 6
    ensures Join(p[5 := p[5] + ['\0'] + extra]) == Join(p) + ['\0'] + extra
  {
    var q := p[5 := p[5] + ['\0'] + extra];
    assert p == p[..5] + [p[5]] && q == p[..5] + [q[5]];
    JoinConcat(p[..5], [p[5]]);
    JoinConcat(p[..5], [q[5]]);
  }

  function Nuls(s: string): nat
  {
    if s == "" then 0 else Nuls(s[..|s| - 1]) + (if s[|s| - 1] == '\0' then 1 else 0)
  }

  lemma {:induction false} NulsConcat(a: string, b: string)
    ensures Nuls(a + b) == Nuls(a) + Nuls(b)
    decreases |b|
  {
    if b == "" {
      assert a + b == a;
    } else {
      assert (a + b)[..|a + b| - 1] == a + b[..|b| - 1];
      NulsConcat(a, b[..|b| - 1]);
    }
  }

  lemma {:induction false} NulsPositive(s: string)
    ensures Nuls(s) > 0 <==> !NulFree(s)
    decreases |s|
  {
    if s != "" {
      NulsPositive(s[..|s| - 1]);
      assert s == s[..|s| - 1] + [s[|s| - 1]];
    }
  }

  /** The joined text has a NUL between any two parts, and those inside the parts. */
  lemma {:induction false} NulsOfJoin(p: seq<string>)
    requires p != []
    ensures Nuls(Join(p)) >= |p| - 1
    ensures Nuls(Join(p)) == |p| - 1 <==> forall i :: 0 <= i < |p| ==> NulFree(p[i])
    decreases |p|
  {
    NulsPositive(p[0]);
    if |p| > 1 {
      NulsOfJoin(p[1..]);
      NulsConcat(p[0] + ['\0'], Join(p[1..]));
      NulsConcat(p[0], ['\0']);
      assert forall i :: 0 < i < |p| ==> p[i] == p[1..][i - 1];
      assert (forall i :: 0 <= i < |p| ==> NulFree(p[i])) <==> NulFree(p[0]) && forall i :: 0 <= i < |p[1..]| ==> NulFree(p[1..][i]);
    }
  }

  /** A row whose own text fields are free of NUL shares its text only with one that takes a number
      out of its cache status for the status. */
  lemma SharedTextHasPiece(d: Dimensions, e: Dimensions)
    requires TextNulFree(d) && e != d && HashedText(e) == HashedText(d)
    ensures HasDecimalPiece(d.cacheStatus)
  {
    if TextNulFree(e) {
      HashedTextInjective(d, e);
    }
    var hd, he, text := Join(TextParts(d)), Join(TextParts(e)), HashedText(d);
    var status := Itoa(d.status);
    var front := hd + ['\0'] + status;
    TextSplits(d);
    TextSplits(e);
    assert text == front + ['\0'] + d.cacheStatus;
    var tail := Itoa(e.status) + ['\0'] + e.cacheStatus;
    assert text == he + ['\0'] + tail;
    FrontIsShorter(d, e, front, he, text);
    TailOfLonger(text, front, d.cacheStatus, he, tail);
    if |he| == |front| {
      assert d.cacheStatus == "" + Itoa(e.status) + ['\0'] + e.cacheStatus;
      assert PieceOf(d.cacheStatus, "", e.status, e.cacheStatus);
    } else {
      var a := text[|front| + 1..|he|] + ['\0'];
      assert a + tail == a + Itoa(e.status) + ['\0'] + e.cacheStatus;
      assert PieceOf(d.cacheStatus, a, e.status, e.cacheStatus);
    }
  }

  lemma TailOfLonger(text: string, front: string, cache: string, he: string, tail: string)
    requires text == front + ['\0'] + cache && text == he + ['\0'] + tail && |front| <= |he|
    ensures |he| == |front| ==> cache == tail
    ensures |he| > |front| ==> cache == text[|front| + 1..|he|] + ['\0'] + tail
  {
    assert cache == text[|front| + 1..] && tail == text[|he| + 1..];
    if |he| > |front| {
      assert text[|he|] == '\0';
      assert text[|front| + 1..] == text[|front| + 1..|he|] + [text[|he|]] + text[|he| + 1..];
    }
  }

  lemma FrontIsShorter(d: Dimensions, e: Dimensions, front: string, he: string, text: string)
    requires TextNulFree(d) && !TextNulFree(e)
    requires front == Join(TextParts(d)) + ['\0'] + Itoa(d.status) && he == Join(TextParts(e))
    requires |front| < |text| && text[..|front|] == front && |he| < |text| && text[..|he|] == he && text[|he|] == '\0'
    ensures |front| <= |he|
  {
    FrontNuls(d);
    NulsOfJoin(TextParts(e));
    if |he| < |front| {
      assert front == he + ['\0'] + front[|he| + 1..];
      MoreNuls(he, front[|he| + 1..]);
    }
  }

  lemma FrontNuls(d: Dimensions)
    requires TextNulFree(d)
    ensures Nuls(Join(TextParts(d)) + ['\0'] + Itoa(d.status)) == 6
  {
    var head := Join(TextParts(d));
    NulsPositive(Itoa(d.status));
    NulsOfJoin(TextParts(d));
    NulsConcat(head, ['\0']);
    NulsConcat(head + ['\0'], Itoa(d.status));
  }

  lemma MoreNuls(a: string, b: string)
    ensures Nuls(a + ['\0'] + b) > Nuls(a)
  {
    NulsConcat(a + ['\0'], b);
    NulsConcat(a, ['\0']);
  }

  /** Exactly when a row shares its hashed text with another: a field before the status holds a NUL,
      or the cache status holds the text of a number that a NUL follows, at its start or after a NUL. */
  lemma SharesTextIff(d: Dimensions)
    ensures (exists e :: e != d && HashedText(e) == HashedText(d)) <==> !TextNulFree(d) || HasDecimalPiece(d.cacheStatus)
  {
    if !TextNulFree(d) {
      var e := NulMovesBoundary(d);
    } else if HasDecimalPiece(d.cacheStatus) {
      var e := PieceMovesStatus(d);
    } else {
      forall e | HashedText(e) == HashedText(d)
        ensures e == d
      {
        if e != d {
          SharedTextHasPiece(d, e);
        }
      }
    }
  }
}

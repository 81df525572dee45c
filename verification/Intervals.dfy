/** Half-open intervals: merging sorted lists and searching the merged list (src/allocator.cpp). */
module Intervals {

  datatype Span = Span(start: int, end: int)

  predicate Holds(s: Span, x: int) {
    s.start <= x < s.end
  }

  ghost predicate Covers(v: seq<Span>, x: int) {
    exists i :: 0 <= i < |v| && Holds(v[i], x)
  }

  predicate NonEmpty(v: seq<Span>) {
    forall i | 0 <= i < |v| :: v[i].start < v[i].end
  }

  predicate SortedByStart(v: seq<Span>) {
    forall i, j | 0 <= i < j < |v| :: v[i].start <= v[j].start
  }

  /** Non-empty, in order, with a strict gap between neighbours. */
  predicate Canonical(v: seq<Span>) {
    && NonEmpty(v)
    && forall i, j | 0 <= i < j < |v| :: v[i].end < v[j].start
  }

  method InsertOrdered(out: seq<Span>, s: Span) returns (more: seq<Span>)
    requires SortedByStart(out)
    ensures SortedByStart(more) && multiset(more) == multiset(out) + multiset{s}
  {
    var k := |out|;
    while k > 0 && out[k - 1].start > s.start
      invariant 0 <= k <= |out|
      invariant forall j | k <= j < |out| :: out[j].start > s.start
    {
      k := k - 1;
    }
    TwoParts(out, k, s);
    SpliceSorted(out[..k], s, out[k..]);
    SpliceKeeps(out[..k], s, out[k..]);
    more := out[..k] + [s] + out[k..];
  }

  lemma TwoParts(out: seq<Span>, k: nat, s: Span)
    requires SortedByStart(out) && k <= |out| && (k > 0 ==> out[k - 1].start <= s.start)
    requires forall j | k <= j < |out| :: out[j].start > s.start
    ensures out[..k] + out[k..] == out
    ensures SortedByStart(out[..k]) && SortedByStart(out[k..])
    ensures forall i | 0 <= i < |out[..k]| :: out[..k][i].start <= s.start
    ensures forall j | 0 <= j < |out[k..]| :: s.start <= out[k..][j].start
  {
    forall i | 0 <= i < k ensures out[i].start <= s.start {
      assert out[i].start <= out[k - 1].start;
    }
  }

  lemma SpliceKeeps(a: seq<Span>, s: Span, b: seq<Span>)
    ensures multiset(a + [s] + b) == multiset(a + b) + multiset{s}
  {}

  lemma SpliceSorted(a: seq<Span>, s: Span, b: seq<Span>)
    requires SortedByStart(a) && SortedByStart(b)
    requires forall i | 0 <= i < |a| :: a[i].start <= s.start
    requires forall j | 0 <= j < |b| :: s.start <= b[j].start
    ensures SortedByStart(a + [s] + b)
  {}

  /** Every row once, in order of start: what ORDER BY start returns. */
  method OrderByStart(rows: seq<Span>) returns (out: seq<Span>)
    ensures SortedByStart(out) && multiset(out) == multiset(rows)
  {
    out := [];
    for i := 0 to |rows|
      invariant SortedByStart(out) && multiset(out) == multiset(rows[..i])
    {
      assert rows[..i + 1] == rows[..i] + [rows[i]];
      out := InsertOrdered(out, rows[i]);
    }
    assert rows[..|rows|] == rows;
  }

  lemma CoversSnoc(v: seq<Span>, s: Span, x: int)
    ensures Covers(v + [s], x) <==> Covers(v, x) || Holds(s, x)
  {
    if Covers(v, x) {
      var i :| 0 <= i < |v| && Holds(v[i], x);
      assert Holds((v + [s])[i], x);
    }
    if Holds(s, x) {
      assert Holds((v + [s])[|v|], x);
    }
  }

  /** The merge pass over rows sorted by start, with touching intervals joined. */
  method MergeSorted(raw: seq<Span>) returns (merged: seq<Span>)
    requires SortedByStart(raw) && NonEmpty(raw)
    ensures Canonical(merged)
    ensures forall x :: Covers(merged, x) <==> Covers(raw, x)
  {
    merged := [];
    for i := 0 to |raw|
      invariant Canonical(merged) && (i > 0 ==> merged != [])
      invariant merged != [] ==> i > 0 && merged[|merged| - 1].start <= raw[i - 1].start
      invariant forall x :: Covers(merged, x) <==> Covers(raw[..i], x)
    {
      ghost var before := merged;
      var s := raw[i];
      if merged == [] || s.start > merged[|merged| - 1].end {
        merged := merged + [s];
        forall x ensures Covers(merged, x) <==> Covers(before, x) || Holds(s, x) {
          CoversSnoc(before, s, x);
        }
      } else {
        var last := |merged| - 1;
        var joined := Span(merged[last].start, if merged[last].end > s.end then merged[last].end else s.end);
        merged := merged[..last] + [joined];
        forall x ensures Covers(merged, x) <==> Covers(before, x) || Holds(s, x) {
          assert before == before[..last] + [before[last]];
          CoversSnoc(before[..last], before[last], x);
          CoversSnoc(before[..last], joined, x);
        }
      }
      assert raw[..i + 1] == raw[..i] + [s];
      forall x ensures Covers(merged, x) <==> Covers(raw[..i + 1], x) {
        CoversSnoc(raw[..i], s, x);
      }
    }
    assert raw[..|raw|] == raw;
  }

  /** Rows with end > start, ordered and merged. */
  method Load(rows: seq<Span>) returns (merged: seq<Span>)
    ensures Canonical(merged)
    ensures forall x :: Covers(merged, x) <==> Covers(rows, x)
  {
    var ordered := OrderByStart(rows);
    var raw: seq<Span> := [];
    for i := 0 to |ordered|
      invariant NonEmpty(raw) && SortedByStart(raw)
      invariant forall j, k | 0 <= j < |raw| && i <= k < |ordered| :: raw[j].start <= ordered[k].start
      invariant forall x :: Covers(raw, x) <==> Covers(ordered[..i], x)
    {
      ghost var before := raw;
      if ordered[i].end > ordered[i].start {
        raw := raw + [ordered[i]];
      }
      assert ordered[..i + 1] == ordered[..i] + [ordered[i]];
      forall x ensures Covers(raw, x) <==> Covers(ordered[..i + 1], x) {
        CoversSnoc(before, ordered[i], x);
        CoversSnoc(ordered[..i], ordered[i], x);
      }
    }
    assert ordered[..|ordered|] == ordered;
    merged := MergeSorted(raw);
    forall x ensures Covers(ordered, x) <==> Covers(rows, x) {
      SameRowsSameCover(ordered, rows, x);
    }
  }

  lemma SameRowsSameCover(v: seq<Span>, w: seq<Span>, x: int)
    requires multiset(v) == multiset(w)
    ensures Covers(v, x) <==> Covers(w, x)
  {
    if Covers(v, x) {
      var i :| 0 <= i < |v| && Holds(v[i], x);
      assert v[i] in multiset(w);
      assert v[i] in w;
    }
    if Covers(w, x) {
      var i :| 0 <= i < |w| && Holds(w[i], x);
      assert w[i] in multiset(v);
      assert w[i] in v;
    }
  }

  ghost predicate Meets(v: seq<Span>, start: int, end: int) {
    exists x :: start <= x < end && Covers(v, x)
  }

  /** First interval that starts at or after start. */
  method LowerBound(v: seq<Span>, start: int) returns (pos: nat)
    requires SortedByStart(v)
    ensures pos <= |v|
    ensures forall i | 0 <= i < pos :: v[i].start < start
    ensures forall i | pos <= i < |v| :: v[i].start >= start
  {
    var lo, hi := 0, |v|;
    while lo < hi
      invariant 0 <= lo <= hi <= |v|
      invariant forall i | 0 <= i < lo :: v[i].start < start
      invariant forall i | hi <= i < |v| :: v[i].start >= start
    {
      var mid := (lo + hi) / 2;
      if v[mid].start < start {
        lo := mid + 1;
      } else {
        hi := mid;
      }
    }
    pos := lo;
  }

  /** Looking at the found interval and its predecessor decides the overlap. */
  method Overlaps(v: seq<Span>, start: int, endExclusive: int) returns (hit: bool)
    requires Canonical(v) && start < endExclusive
    ensures hit <==> Meets(v, start, endExclusive)
  {
    if |v| == 0 {
      return false;
    }
    var pos := LowerBound(v, start);
    if pos > 0 {
      if v[pos - 1].end > start {
        assert Holds(v[pos - 1], start);
        assert Covers(v, start);
        return true;
      }
    }
    hit := pos < |v| && v[pos].start < endExclusive;
    if hit {
      assert Holds(v[pos], v[pos].start);
      assert Covers(v, v[pos].start);
    }
  }

  /** A canonical list is determined by the points it covers. */
  lemma {:induction false} CanonicalUnique(v: seq<Span>, w: seq<Span>)
    requires Canonical(v) && Canonical(w)
    requires forall x :: Covers(v, x) <==> Covers(w, x)
    ensures v == w
  {
    if v == [] {
      if w != [] {
        assert Holds(w[0], w[0].start);
        assert Covers(w, w[0].start);
      }
    } else {
      FirstAgrees(v, w);
      forall x ensures Covers(v[1..], x) <==> Covers(w[1..], x) {
        DropFirst(v, x);
        DropFirst(w, x);
      }
      CanonicalUnique(v[1..], w[1..]);
      assert v == [v[0]] + v[1..] && w == [w[0]] + w[1..];
    }
  }

  lemma DropFirst(v: seq<Span>, x: int)
    requires Canonical(v) && v != []
    ensures Covers(v[1..], x) <==> Covers(v, x) && !Holds(v[0], x)
  {
    if Covers(v[1..], x) {
      var i :| 0 <= i < |v[1..]| && Holds(v[1..][i], x);
      assert Holds(v[i + 1], x);
    }
    if Covers(v, x) && !Holds(v[0], x) {
      var i :| 0 <= i < |v| && Holds(v[i], x);
      assert Holds(v[1..][i - 1], x);
    }
  }

  lemma CoveredByFirst(v: seq<Span>, x: int)
    requires v != [] && Holds(v[0], x)
    ensures Covers(v, x)
  {}

  lemma FirstAgrees(v: seq<Span>, w: seq<Span>)
    requires Canonical(v) && Canonical(w) && v != []
    requires forall x :: Covers(v, x) <==> Covers(w, x)
    ensures w != [] && v[0] == w[0]
  {
    CoveredByFirst(v, v[0].start);
    CoveredByFirst(w, w[0].start);
    if Holds(w[0], v[0].end) {
      CoveredByFirst(w, v[0].end);
    }
    if Holds(v[0], w[0].end) {
      CoveredByFirst(v, w[0].end);
    }
  }

  // ── Counting ────────────────────────────────────────────────────────────

  function Total(v: seq<Span>): int {
    if v == [] then 0 else Total(v[..|v| - 1]) + (v[|v| - 1].end - v[|v| - 1].start)
  }

  ghost function Points(v: seq<Span>): set<int> {
    if v == [] then {} else Points(v[..|v| - 1]) + SpanPoints(v[|v| - 1])
  }

  ghost function SpanPoints(s: Span): set<int> {
    set x | s.start <= x < s.end && Holds(s, x)
  }

  predicate Disjoint(v: seq<Span>) {
    forall i, j | 0 <= i < j < |v| :: v[i].end <= v[j].start || v[j].end <= v[i].start
  }

  lemma {:induction false} PointsAreCovered(v: seq<Span>, x: int)
    ensures x in Points(v) <==> Covers(v, x)
  {
    if v != [] {
      var p, s := v[..|v| - 1], v[|v| - 1];
      PointsAreCovered(p, x);
      CoversSnoc(p, s, x);
      assert v == p + [s];
    }
  }

  lemma {:induction false} SpanSize(s: Span)
    requires s.start <= s.end
    ensures |SpanPoints(s)| == s.end - s.start
    decreases s.end - s.start
  {
    if s.start == s.end {
      assert SpanPoints(s) == {};
    } else {
      var t := Span(s.start, s.end - 1);
      SpanSize(t);
      assert SpanPoints(s) == SpanPoints(t) + {s.end - 1};
    }
  }

  /** Adding up the lengths of disjoint intervals counts the points they cover. */
  lemma {:induction false} TotalIsSize(v: seq<Span>)
    requires Disjoint(v) && forall i | 0 <= i < |v| :: v[i].start <= v[i].end
    ensures Total(v) == |Points(v)|
  {
    if v != [] {
      var p, s := v[..|v| - 1], v[|v| - 1];
      TotalIsSize(p);
      SpanSize(s);
      forall x | x in Points(p) ensures x !in SpanPoints(s) {
        PointsAreCovered(p, x);
      }
      assert Points(p) !! SpanPoints(s);
    }
  }
}

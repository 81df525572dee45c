/** The blocked-range store: one set of separated intervals per puzzle and source (src/allocator.cpp). */
module BlockedRanges {
  import opened Intervals
  import opened PoolModel

  /** Rows the SELECT returns: same puzzle and source, overlapping or adjacent to v. */
  predicate Touches(r: BlockedRow, p: int, src: string, v: Span) {
    r.puzzle == p && r.source == src && r.span.start <= v.end && r.span.end >= v.start
  }

  function Touching(rows: seq<BlockedRow>, p: int, src: string, v: Span): (t: seq<BlockedRow>)
    ensures forall r :: r in t <==> r in rows && Touches(r, p, src, v)
  {
    if rows == [] then []
    else
      var t := Touching(rows[..|rows| - 1], p, src, v);
      if Touches(rows[|rows| - 1], p, src, v) then t + [rows[|rows| - 1]] else t
  }

  function Others(rows: seq<BlockedRow>, p: int, src: string, v: Span): (t: seq<BlockedRow>)
    ensures forall r :: r in t <==> r in rows && !Touches(r, p, src, v)
  {
    if rows == [] then []
    else
      var t := Others(rows[..|rows| - 1], p, src, v);
      if Touches(rows[|rows| - 1], p, src, v) then t else t + [rows[|rows| - 1]]
  }

  function Join(a: Span, b: Span): Span {
    Span(if a.start < b.start then a.start else b.start, if a.end > b.end then a.end else b.end)
  }

  /** Smallest interval around v and all the rows. */
  function Hull(rows: seq<BlockedRow>, v: Span): (h: Span)
    ensures h.start <= v.start && h.end >= v.end
    ensures forall r | r in rows :: h.start <= r.span.start && h.end >= r.span.end
    ensures h.start == v.start || exists r | r in rows :: r.span.start == h.start
    ensures h.end == v.end || exists r | r in rows :: r.span.end == h.end
  {
    if rows == [] then v
    else
      var h := Hull(rows[..|rows| - 1], v);
      var last := rows[|rows| - 1];
      assert rows == rows[..|rows| - 1] + [last];
      Join(h, last.span)
  }

  /** The table and the return value after insertOrMergeBlockedRange. */
  function InsertOrMerge(rows: seq<BlockedRow>, p: int, src: string, v: Span): (seq<BlockedRow>, int) {
    var t := Touching(rows, p, src, v);
    if t == [] then (rows + [BlockedRow(p, v, src)], 1)
    else if |t| == 1 && Hull(t, v) == t[0].span then (rows, 0)
    else (Others(rows, p, src, v) + [BlockedRow(p, Hull(t, v), src)], 1)
  }

  /** One more row of the scan. */
  lemma ScanStep(rows: seq<BlockedRow>, r: BlockedRow, p: int, src: string, v: Span)
    ensures var t := Touching(rows, p, src, v);
            && Touching(rows + [r], p, src, v) == (if Touches(r, p, src, v) then t + [r] else t)
            && Hull(t + [r], v) == Join(Hull(t, v), r.span)
            && Others(rows + [r], p, src, v)
                 == Others(rows, p, src, v) + if Touches(r, p, src, v) then [] else [r]
  {
    assert (rows + [r])[..|rows|] == rows;
    var t := Touching(rows, p, src, v);
    assert (t + [r])[..|t|] == t;
  }

  // ── Normal form ─────────────────────────────────────────────────────────

  ghost predicate Separate(a: BlockedRow, b: BlockedRow) {
    a.puzzle == b.puzzle && a.source == b.source ==> a.span.end < b.span.start || b.span.end < a.span.start
  }

  /** No empty row, no row twice, and a strict gap between rows of one puzzle and source. */
  ghost predicate Normal(rows: seq<BlockedRow>) {
    && (forall i | 0 <= i < |rows| :: rows[i].span.start < rows[i].span.end)
    && (forall i, j | 0 <= i < j < |rows| :: Separate(rows[i], rows[j]))
  }

  ghost predicate SourceCovers(rows: seq<BlockedRow>, p: int, src: string, x: int) {
    exists r :: r in rows && r.puzzle == p && r.source == src && Holds(r.span, x)
  }

  lemma NormalElements(rows: seq<BlockedRow>, a: BlockedRow, b: BlockedRow)
    requires Normal(rows) && a in rows && b in rows
    ensures a.span.start < a.span.end
    ensures a == b || Separate(a, b)
  {
    var i :| 0 <= i < |rows| && rows[i] == a;
    var j :| 0 <= j < |rows| && rows[j] == b;
    if i < j {
      assert Separate(rows[i], rows[j]);
    } else if j < i {
      assert Separate(rows[j], rows[i]);
    }
  }

  lemma NormalSnoc(rows: seq<BlockedRow>, n: BlockedRow)
    requires Normal(rows) && n.span.start < n.span.end
    requires forall r | r in rows :: Separate(r, n)
    ensures Normal(rows + [n])
  {
    forall i, j | 0 <= i < j < |rows + [n]| ensures Separate((rows + [n])[i], (rows + [n])[j]) {
      if j == |rows| {
        assert rows[i] in rows;
      }
    }
  }

  lemma {:induction false} OthersNormal(rows: seq<BlockedRow>, p: int, src: string, v: Span)
    requires Normal(rows)
    ensures Normal(Others(rows, p, src, v))
  {
    if rows != [] {
      var init, last := rows[..|rows| - 1], rows[|rows| - 1];
      OthersNormal(init, p, src, v);
      if !Touches(last, p, src, v) {
        forall r | r in Others(init, p, src, v) ensures Separate(r, last) {
          var i :| 0 <= i < |init| && init[i] == r;
          assert Separate(rows[i], rows[|rows| - 1]);
        }
        NormalSnoc(Others(init, p, src, v), last);
      }
    }
  }

  /** A row that does not touch v does not touch the hull of v and what v touches either. */
  lemma OthersSeparate(rows: seq<BlockedRow>, p: int, src: string, v: Span, r: BlockedRow)
    requires Normal(rows) && v.start < v.end && r in Others(rows, p, src, v)
    ensures Separate(r, BlockedRow(p, Hull(Touching(rows, p, src, v), v), src))
  {
    var t := Touching(rows, p, src, v);
    var h := Hull(t, v);
    if r.puzzle == p && r.source == src {
      if r.span.start > v.end && h.end != v.end {
        var e :| e in t && e.span.end == h.end;
        NormalElements(rows, e, r);
      }
      if r.span.end < v.start && h.start != v.start {
        var s :| s in t && s.span.start == h.start;
        NormalElements(rows, s, r);
      }
    }
  }

  /** Everything in the hull is covered by v or by a row that v touches. */
  lemma HullCovered(rows: seq<BlockedRow>, p: int, src: string, v: Span, x: int)
    requires v.start < v.end && Holds(Hull(Touching(rows, p, src, v), v), x) && !Holds(v, x)
    ensures SourceCovers(rows, p, src, x)
  {
    var t := Touching(rows, p, src, v);
    var h := Hull(t, v);
    if x < v.start {
      var s :| s in t && s.span.start == h.start;
      assert s in rows && Holds(s.span, x);
    } else {
      var e :| e in t && e.span.end == h.end;
      assert e in rows && Holds(e.span, x);
    }
  }

  /** The store stays in normal form and its coverage becomes exactly old union new. */
  lemma InsertCorrect(rows: seq<BlockedRow>, p: int, src: string, v: Span)
    requires Normal(rows) && v.start < v.end
    ensures var (out, _) := InsertOrMerge(rows, p, src, v);
            Normal(out) &&
            forall q, s, x :: SourceCovers(out, q, s, x)
                         <==> SourceCovers(rows, q, s, x) || (q == p && s == src && Holds(v, x))
  {
    var (out, changed) := InsertOrMerge(rows, p, src, v);
    var t := Touching(rows, p, src, v);
    var n := BlockedRow(p, if t == [] then v else Hull(t, v), src);
    if changed == 0 {
      assert t[0] in t;
      assert forall x :: Holds(v, x) ==> Holds(t[0].span, x);
    } else {
      var kept := Others(rows, p, src, v);
      if t == [] {
        forall r | r in rows ensures Separate(r, n) {
          assert r !in t;
        }
        NormalSnoc(rows, n);
      } else {
        OthersNormal(rows, p, src, v);
        forall r | r in kept ensures Separate(r, n) {
          OthersSeparate(rows, p, src, v, r);
        }
        NormalSnoc(kept, n);
      }
      forall q, s, x ensures SourceCovers(out, q, s, x)
                        <==> SourceCovers(rows, q, s, x) || (q == p && s == src && Holds(v, x)) {
        InsertCoverage(rows, p, src, v, q, s, x);
      }
    }
  }

  lemma InsertCoverage(rows: seq<BlockedRow>, p: int, src: string, v: Span, q: int, s: string, x: int)
    requires Normal(rows) && v.start < v.end && InsertOrMerge(rows, p, src, v).1 != 0
    ensures SourceCovers(InsertOrMerge(rows, p, src, v).0, q, s, x)
       <==> SourceCovers(rows, q, s, x) || (q == p && s == src && Holds(v, x))
  {
    var (out, _) := InsertOrMerge(rows, p, src, v);
    var t := Touching(rows, p, src, v);
    var n := BlockedRow(p, if t == [] then v else Hull(t, v), src);
    assert n in out;
    if SourceCovers(out, q, s, x) {
      var r :| r in out && r.puzzle == q && r.source == s && Holds(r.span, x);
      if r !in rows && !Holds(v, x) {
        assert r == n;
        HullCovered(rows, p, src, v, x);
      }
    }
    if SourceCovers(rows, q, s, x) {
      var r :| r in rows && r.puzzle == q && r.source == s && Holds(r.span, x);
      if r !in out {
        assert r in t;
        assert Holds(n.span, x);
      }
    }
  }

  /** The return value tells whether the range was new, and an old range leaves the table alone. */
  lemma InsertReturns(rows: seq<BlockedRow>, p: int, src: string, v: Span)
    requires Normal(rows) && v.start < v.end
    ensures var (out, changed) := InsertOrMerge(rows, p, src, v);
            (changed == 0 <==> forall x | Holds(v, x) :: SourceCovers(rows, p, src, x)) &&
            (changed == 0 ==> out == rows) && (changed == 0 || changed == 1)
  {
    var (out, changed) := InsertOrMerge(rows, p, src, v);
    var t := Touching(rows, p, src, v);
    if changed == 0 {
      assert t[0] in t;
      assert forall x | Holds(v, x) :: Holds(t[0].span, x);
    }
    if forall x | Holds(v, x) :: SourceCovers(rows, p, src, x) {
      assert Holds(v, v.start);
      var r :| r in rows && r.puzzle == p && r.source == src && Holds(r.span, v.start);
      if r.span.end < v.end {
        assert Holds(v, r.span.end);
        var u :| u in rows && u.puzzle == p && u.source == src && Holds(u.span, r.span.end);
        NormalElements(rows, r, u);
        assert false;
      }
      assert r in t;
      forall u | u in t ensures u == r {
        NormalElements(rows, u, r);
      }
      TouchingOnce(rows, p, src, v, r);
    }
  }

  lemma SomeElement(t: seq<BlockedRow>)
    ensures t == [] || exists u :: u in t
  {
    if t != [] {
      assert t[0] in t;
    }
  }

  lemma LastIsNew(rows: seq<BlockedRow>)
    requires Normal(rows) && rows != []
    ensures rows[|rows| - 1] !in rows[..|rows| - 1]
  {
    forall i | 0 <= i < |rows| - 1 ensures rows[i] != rows[|rows| - 1] {
      assert Separate(rows[i], rows[|rows| - 1]);
    }
  }

  lemma {:induction false} TouchingOnce(rows: seq<BlockedRow>, p: int, src: string, v: Span, r: BlockedRow)
    requires Normal(rows) && r in Touching(rows, p, src, v)
    requires forall u | u in Touching(rows, p, src, v) :: u == r
    ensures Touching(rows, p, src, v) == [r]
  {
    var init, last := rows[..|rows| - 1], rows[|rows| - 1];
    var t := Touching(init, p, src, v);
    if Touches(last, p, src, v) {
      LastIsNew(rows);
      assert forall u :: u !in t;
      SomeElement(t);
    } else {
      TouchingOnce(init, p, src, v, r);
    }
  }

  // ── Order independence ──────────────────────────────────────────────────

  function InsertAll(rows: seq<BlockedRow>, p: int, src: string, vs: seq<Span>): seq<BlockedRow> {
    if vs == [] then rows
    else InsertOrMerge(InsertAll(rows, p, src, vs[..|vs| - 1]), p, src, vs[|vs| - 1]).0
  }

  lemma {:induction false} InsertAllCorrect(rows: seq<BlockedRow>, p: int, src: string, vs: seq<Span>)
    requires Normal(rows) && NonEmpty(vs)
    ensures Normal(InsertAll(rows, p, src, vs))
    ensures forall q, s, x :: SourceCovers(InsertAll(rows, p, src, vs), q, s, x)
                         <==> SourceCovers(rows, q, s, x) || (q == p && s == src && Covers(vs, x))
  {
    if vs != [] {
      var init, last := vs[..|vs| - 1], vs[|vs| - 1];
      InsertAllCorrect(rows, p, src, init);
      InsertCorrect(InsertAll(rows, p, src, init), p, src, last);
      assert vs == init + [last];
      forall x ensures Covers(vs, x) <==> Covers(init, x) || Holds(last, x) {
        CoversSnoc(init, last, x);
      }
    }
  }

  /** Two stores in normal form with the same coverage hold the same rows. */
  lemma NormalUnique(a: seq<BlockedRow>, b: seq<BlockedRow>)
    requires Normal(a) && Normal(b)
    requires forall q, s, x :: SourceCovers(a, q, s, x) <==> SourceCovers(b, q, s, x)
    ensures forall r :: r in a <==> r in b
  {
    forall r | r in a ensures r in b {
      RowReappears(a, b, r);
    }
    forall r | r in b ensures r in a {
      RowReappears(b, a, r);
    }
  }

  lemma RowReappears(a: seq<BlockedRow>, b: seq<BlockedRow>, r: BlockedRow)
    requires Normal(a) && Normal(b) && r in a
    requires forall q, s, x :: SourceCovers(a, q, s, x) <==> SourceCovers(b, q, s, x)
    ensures r in b
  {
    NormalElements(a, r, r);
    assert Holds(r.span, r.span.start);
    assert SourceCovers(a, r.puzzle, r.source, r.span.start);
    var t :| t in b && t.puzzle == r.puzzle && t.source == r.source && Holds(t.span, r.span.start);
    Inside(a, b, r, t);
    assert Holds(r.span, r.span.start);
    Inside(b, a, t, r);
  }

  /** Rows of two stores with the same coverage that share a point: neither sticks out of the other. */
  lemma Inside(a: seq<BlockedRow>, b: seq<BlockedRow>, r: BlockedRow, t: BlockedRow)
    requires Normal(a) && Normal(b) && r in a && t in b && t.puzzle == r.puzzle && t.source == r.source
    requires forall q, s, x :: SourceCovers(a, q, s, x) <==> SourceCovers(b, q, s, x)
    requires exists x :: Holds(r.span, x) && Holds(t.span, x)
    ensures t.span.start <= r.span.start && r.span.end <= t.span.end
  {
    NextToRow(b, t);
    if r.span.start < t.span.start {
      assert Holds(r.span, t.span.start - 1);
    }
    if t.span.end < r.span.end {
      assert Holds(r.span, t.span.end);
    }
  }

  /** The points next to a row are free. */
  lemma NextToRow(b: seq<BlockedRow>, t: BlockedRow)
    requires Normal(b) && t in b
    ensures !SourceCovers(b, t.puzzle, t.source, t.span.start - 1)
    ensures !SourceCovers(b, t.puzzle, t.source, t.span.end)
  {
    forall u | u in b && u.puzzle == t.puzzle && u.source == t.source
      ensures !Holds(u.span, t.span.start - 1) && !Holds(u.span, t.span.end)
    {
      NormalElements(b, u, t);
    }
  }

  /** Imports that block the same virtual chunks, in whatever order and cut, leave the same rows. */
  lemma ImportOrderIrrelevant(rows: seq<BlockedRow>, p: int, src: string, vs: seq<Span>, ws: seq<Span>)
    requires Normal(rows) && NonEmpty(vs) && NonEmpty(ws)
    requires forall x :: Covers(vs, x) <==> Covers(ws, x)
    ensures forall r :: r in InsertAll(rows, p, src, vs) <==> r in InsertAll(rows, p, src, ws)
  {
    InsertAllCorrect(rows, p, src, vs);
    InsertAllCorrect(rows, p, src, ws);
    NormalUnique(InsertAll(rows, p, src, vs), InsertAll(rows, p, src, ws));
  }
}

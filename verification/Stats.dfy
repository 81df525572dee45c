/** The dashboard's sums over chunk rows and blocked rows (src/service_stats.cpp). */
module Stats {
  import opened Wrappers
  import opened Sets
  import opened Intervals
  import opened PoolModel
  import opened LifecycleSafety
  import opened PoolTheorems

  // ── Row selections ──────────────────────────────────────────────────────

  /** Keys of a finished job, as the query with worker_name IS NOT NULL selects them. */
  function DoneKeys(p: int): Chunk -> Option<Span> {
    (c: Chunk) => if c.puzzle == p && !c.isTest && Terminal(c) && c.worker.Some? then Some(c.keys) else None
  }

  function StartedRun(p: int): Chunk -> Option<Span> {
    (c: Chunk) => if c.puzzle == p && !c.isTest && c.run.Some? && c.run.value.end > c.run.value.start then c.run else None
  }

  function DoneRun(p: int): Chunk -> Option<Span> {
    (c: Chunk) => if StartedRun(p)(c).Some? && Terminal(c) then c.run else None
  }

  function Collect(chunks: seq<Chunk>, sel: Chunk -> Option<Span>): seq<Span> {
    if chunks == [] then []
    else
      var n := |chunks| - 1;
      Collect(chunks[..n], sel) + if sel(chunks[n]).Some? then [sel(chunks[n]).value] else []
  }

  lemma CollectSnoc(chunks: seq<Chunk>, i: nat, sel: Chunk -> Option<Span>)
    requires i < |chunks|
    ensures Collect(chunks[..i + 1], sel)
         == Collect(chunks[..i], sel) + if sel(chunks[i]).Some? then [sel(chunks[i]).value] else []
  {
    assert chunks[..i + 1][..i] == chunks[..i];
  }

  lemma TotalSnoc(v: seq<Span>, s: Span)
    ensures Total(v + [s]) == Total(v) + s.end - s.start
  {
    assert (v + [s])[..|v|] == v;
  }

  /** What one more row adds to a sum. */
  function Gain(s: Option<Span>): int {
    if s.Some? then s.value.end - s.value.start else 0
  }

  lemma TotalStep(chunks: seq<Chunk>, i: nat, sel: Chunk -> Option<Span>)
    requires i < |chunks|
    ensures Total(Collect(chunks[..i + 1], sel)) == Total(Collect(chunks[..i], sel)) + Gain(sel(chunks[i]))
  {
    CollectSnoc(chunks, i, sel);
    if sel(chunks[i]).Some? {
      TotalSnoc(Collect(chunks[..i], sel), sel(chunks[i]).value);
    } else {
      assert Collect(chunks[..i], sel) + [] == Collect(chunks[..i], sel);
    }
  }

  // ── The one-pass sums ───────────────────────────────────────────────────

  /** total_keys_completed and the two virtual-chunk sums. */
  method SumRows(db: PoolDb, p: int) returns (keysDone: int, vcStarted: int, vcCompleted: int)
    ensures keysDone == Total(Collect(db.chunks, DoneKeys(p)))
    ensures vcStarted == Total(Collect(db.chunks, StartedRun(p)))
    ensures vcCompleted == Total(Collect(db.chunks, DoneRun(p)))
  {
    keysDone, vcStarted, vcCompleted := 0, 0, 0;
    for i := 0 to |db.chunks|
      invariant keysDone == Total(Collect(db.chunks[..i], DoneKeys(p)))
      invariant vcStarted == Total(Collect(db.chunks[..i], StartedRun(p)))
      invariant vcCompleted == Total(Collect(db.chunks[..i], DoneRun(p)))
    {
      TotalStep(db.chunks, i, DoneKeys(p));
      TotalStep(db.chunks, i, StartedRun(p));
      TotalStep(db.chunks, i, DoneRun(p));
      var c := db.chunks[i];
      if c.puzzle == p && !c.isTest {
        if Terminal(c) && c.worker.Some? {
          keysDone := keysDone + (c.keys.end - c.keys.start);
        }
        if c.run.Some? && c.run.value.end > c.run.value.start {
          vcStarted := vcStarted + (c.run.value.end - c.run.value.start);
          if Terminal(c) {
            vcCompleted := vcCompleted + (c.run.value.end - c.run.value.start);
          }
        }
      }
    }
    assert db.chunks[..|db.chunks|] == db.chunks;
  }

  /** n is the number of chunks that some row of the puzzle blocks. */
  ghost predicate BlockedCountIs(rows: seq<BlockedRow>, p: int, n: int) {
    exists s: set<int> :: n == |s| && IsBlockedSet(rows, p, s)
  }

  ghost predicate IsBlockedSet(rows: seq<BlockedRow>, p: int, s: set<int>) {
    forall x :: x in s <==> Blocked(rows, p, x)
  }

  /** Merged across sources before summing. */
  method CountBlocked(db: PoolDb, p: int) returns (blockedTotal: int)
    ensures BlockedCountIs(db.blocked, p, blockedTotal)
  {
    var rows: seq<Span> := [];
    for i := 0 to |db.blocked|
      invariant forall x :: Covers(rows, x) <==> Blocked(db.blocked[..i], p, x)
    {
      var r := db.blocked[i];
      ghost var before := rows;
      if r.puzzle == p {
        rows := rows + [r.span];
      }
      TakeSnoc(db.blocked, i);
      forall x ensures Covers(rows, x) <==> Blocked(db.blocked[..i + 1], p, x) {
        BlockedSnoc(db.blocked[..i], r, p, x);
        CoversSnoc(before, r.span, x);
      }
    }
    assert db.blocked[..|db.blocked|] == db.blocked;
    var merged := Load(rows);
    blockedTotal := 0;
    for i := 0 to |merged|
      invariant blockedTotal == Total(merged[..i])
    {
      TakeSnoc(merged, i);
      TotalSnoc(merged[..i], merged[i]);
      blockedTotal := blockedTotal + (merged[i].end - merged[i].start);
    }
    assert merged[..|merged|] == merged;
    TotalIsSize(merged);
    ghost var chunks := Points(merged);
    forall x ensures x in chunks <==> Blocked(db.blocked, p, x) {
      PointsAreCovered(merged, x);
    }
    assert IsBlockedSet(db.blocked, p, chunks);
  }

  // ── What the sums mean ──────────────────────────────────────────────────

  ghost predicate Selected(chunks: seq<Chunk>, sel: Chunk -> Option<Span>, x: int) {
    exists i :: 0 <= i < |chunks| && sel(chunks[i]).Some? && Holds(sel(chunks[i]).value, x)
  }

  lemma SelectedSnoc(chunks: seq<Chunk>, c: Chunk, sel: Chunk -> Option<Span>, x: int)
    ensures Selected(chunks + [c], sel, x) <==> Selected(chunks, sel, x) || (sel(c).Some? && Holds(sel(c).value, x))
  {
    var all := chunks + [c];
    if Selected(chunks, sel, x) {
      var i :| 0 <= i < |chunks| && sel(chunks[i]).Some? && Holds(sel(chunks[i]).value, x);
      assert sel(all[i]).Some?;
    }
    if sel(c).Some? && Holds(sel(c).value, x) {
      assert sel(all[|chunks|]).Some?;
    }
  }

  lemma {:induction false} CollectCovers(chunks: seq<Chunk>, sel: Chunk -> Option<Span>, x: int)
    ensures Covers(Collect(chunks, sel), x) <==> Selected(chunks, sel, x)
  {
    if chunks != [] {
      var n := |chunks| - 1;
      var init, last := chunks[..n], chunks[n];
      CollectCovers(init, sel, x);
      assert chunks == init + [last];
      SelectedSnoc(init, last, sel, x);
      if sel(last).Some? {
        CoversSnoc(Collect(init, sel), sel(last).value, x);
      } else {
        assert Collect(chunks, sel) == Collect(init, sel);
      }
    }
  }

  predicate Apart(a: Span, b: Span) {
    a.end <= b.start || b.end <= a.start
  }

  ghost predicate SelectedApart(chunks: seq<Chunk>, sel: Chunk -> Option<Span>) {
    && (forall i | 0 <= i < |chunks| && sel(chunks[i]).Some? :: sel(chunks[i]).value.start < sel(chunks[i]).value.end)
    && forall i, j | 0 <= i < j < |chunks| && sel(chunks[i]).Some? && sel(chunks[j]).Some? ::
         Apart(sel(chunks[i]).value, sel(chunks[j]).value)
  }

  lemma {:induction false} CollectFrom(chunks: seq<Chunk>, sel: Chunk -> Option<Span>, k: nat) returns (i: nat)
    requires k < |Collect(chunks, sel)|
    ensures i < |chunks| && sel(chunks[i]) == Some(Collect(chunks, sel)[k])
  {
    var n := |chunks| - 1;
    if k < |Collect(chunks[..n], sel)| {
      i := CollectFrom(chunks[..n], sel, k);
    } else {
      i := n;
    }
  }

  lemma {:induction false} CollectDisjoint(chunks: seq<Chunk>, sel: Chunk -> Option<Span>)
    requires SelectedApart(chunks, sel)
    ensures Disjoint(Collect(chunks, sel)) && NonEmpty(Collect(chunks, sel))
  {
    if chunks != [] {
      var n := |chunks| - 1;
      var init := chunks[..n];
      assert SelectedApart(init, sel) by {
        assert forall i | 0 <= i < n :: init[i] == chunks[i];
      }
      CollectDisjoint(init, sel);
      var v := Collect(init, sel);
      forall k | 0 <= k < |v| && sel(chunks[n]).Some? ensures Apart(v[k], sel(chunks[n]).value) {
        var i := CollectFrom(init, sel, k);
        assert chunks[i] == init[i];
      }
    }
  }

  /** A sum of selected lengths counts the selected points. */
  lemma SumIsSize(chunks: seq<Chunk>, sel: Chunk -> Option<Span>) returns (s: set<int>)
    requires SelectedApart(chunks, sel)
    ensures Total(Collect(chunks, sel)) == |s|
    ensures forall x :: x in s <==> Selected(chunks, sel, x)
  {
    CollectDisjoint(chunks, sel);
    TotalIsSize(Collect(chunks, sel));
    s := Points(Collect(chunks, sel));
    forall x ensures x in s <==> Selected(chunks, sel, x) {
      PointsAreCovered(Collect(chunks, sel), x);
      CollectCovers(chunks, sel, x);
    }
  }

  /** Key x lies in a completed or FOUND job of the puzzle. */
  ghost predicate Searched(db: Db, p: int, x: int) {
    exists i :: 0 <= i < |db.chunks| && db.chunks[i].puzzle == p && !db.chunks[i].isTest && Terminal(db.chunks[i]) &&
                Holds(db.chunks[i].keys, x)
  }

  lemma DoneKeysApart(db: Db, p: int)
    requires Inv(db)
    ensures SelectedApart(db.chunks, DoneKeys(p))
  {
    forall i | 0 <= i < |db.chunks| && DoneKeys(p)(db.chunks[i]).Some?
      ensures db.chunks[i].keys.start < db.chunks[i].keys.end
    {
      JobKeysInside(db, i);
    }
    forall i, j | 0 <= i < j < |db.chunks| && DoneKeys(p)(db.chunks[i]).Some? && DoneKeys(p)(db.chunks[j]).Some?
      ensures Apart(db.chunks[i].keys, db.chunks[j].keys)
    {
      JobKeysDisjoint(db, i, j);
    }
  }

  /** The worker filter drops nothing. */
  lemma WorkerFilterIsIdle(db: Db, p: int, x: int)
    requires Inv(db)
    ensures Selected(db.chunks, DoneKeys(p), x) <==> Searched(db, p, x)
  {
    forall i | 0 <= i < |db.chunks| && Terminal(db.chunks[i]) ensures db.chunks[i].worker.Some? {
      assert RowState(db.chunks[i]);
    }
    if Searched(db, p, x) {
      var i :| 0 <= i < |db.chunks| && db.chunks[i].puzzle == p && !db.chunks[i].isTest && Terminal(db.chunks[i]) &&
               Holds(db.chunks[i].keys, x);
      assert DoneKeys(p)(db.chunks[i]).Some?;
    }
  }

  /** total_keys_completed is the number of keys searched, each counted once, and no more than the puzzle has. */
  lemma KeysCompletedIsCoverage(db: Db, p: int) returns (searched: set<int>)
    requires Inv(db) && p in db.puzzles
    ensures Total(Collect(db.chunks, DoneKeys(p))) == |searched| <= db.puzzles[p].keys.end - db.puzzles[p].keys.start
    ensures forall x :: x in searched <==> Searched(db, p, x)
  {
    DoneKeysApart(db, p);
    searched := SumIsSize(db.chunks, DoneKeys(p));
    forall x ensures x in searched <==> Searched(db, p, x) {
      WorkerFilterIsIdle(db, p, x);
    }
    assert PuzzleOk(db, p);
    var all := Interval(db.puzzles[p].keys.start, db.puzzles[p].keys.end);
    forall x | x in searched ensures x in all {
      SearchedInside(db, p, x);
    }
    SubsetSize(searched, all);
  }

  lemma SearchedInside(db: Db, p: int, x: int)
    requires Inv(db) && p in db.puzzles && Searched(db, p, x)
    ensures Holds(db.puzzles[p].keys, x)
  {
    var i :| 0 <= i < |db.chunks| && db.chunks[i].puzzle == p && !db.chunks[i].isTest && Terminal(db.chunks[i]) &&
             Holds(db.chunks[i].keys, x);
    JobKeysInside(db, i);
  }

  lemma RunsApart(db: Db, p: int)
    requires Inv(db)
    ensures SelectedApart(db.chunks, StartedRun(p)) && SelectedApart(db.chunks, DoneRun(p))
  {
    forall i, j | 0 <= i < j < |db.chunks| && StartedRun(p)(db.chunks[i]).Some? && StartedRun(p)(db.chunks[j]).Some?
      ensures Apart(db.chunks[i].run.value, db.chunks[j].run.value)
    {
      assert !Clash(db.chunks[i], db.chunks[j]);
    }
  }

  lemma StartedIsOccupied(db: Db, p: int, x: int)
    requires Inv(db)
    ensures Selected(db.chunks, StartedRun(p), x) <==> Occupied(db.chunks, p, x)
    ensures Selected(db.chunks, DoneRun(p), x) ==> Selected(db.chunks, StartedRun(p), x)
  {
    if Occupied(db.chunks, p, x) {
      var i :| 0 <= i < |db.chunks| && OccupiesOf(db.chunks[i], p) && Holds(db.chunks[i].run.value, x);
      assert StartedRun(p)(db.chunks[i]).Some?;
    }
    if Selected(db.chunks, DoneRun(p), x) {
      var i :| 0 <= i < |db.chunks| && DoneRun(p)(db.chunks[i]).Some? && Holds(DoneRun(p)(db.chunks[i]).value, x);
      assert StartedRun(p)(db.chunks[i]).Some?;
    }
  }

  lemma OccupiedInside(db: Db, p: int, x: int)
    requires Inv(db) && p in db.puzzles && db.puzzles[p].strategy == VChunks && Occupied(db.chunks, p, x)
    ensures 0 <= x < db.puzzles[p].count
  {
    var i :| 0 <= i < |db.chunks| && OccupiesOf(db.chunks[i], p) && Holds(db.chunks[i].run.value, x);
    assert RowShape(db.puzzles, db.chunks[i]);
  }

  /** started counts the issued virtual chunks, completed those of finished jobs, and completed <= started <= count. */
  lemma ChunkSumsAreCoverage(db: Db, p: int) returns (started: set<int>, completed: set<int>)
    requires Inv(db) && p in db.puzzles && db.puzzles[p].strategy == VChunks
    ensures Total(Collect(db.chunks, StartedRun(p))) == |started| && Total(Collect(db.chunks, DoneRun(p))) == |completed|
    ensures forall x :: x in started <==> Occupied(db.chunks, p, x)
    ensures forall x :: x in completed <==> Selected(db.chunks, DoneRun(p), x)
    ensures |completed| <= |started| <= db.puzzles[p].count
  {
    RunsApart(db, p);
    started := SumIsSize(db.chunks, StartedRun(p));
    completed := SumIsSize(db.chunks, DoneRun(p));
    var all := Interval(0, db.puzzles[p].count);
    forall x ensures x in started <==> Occupied(db.chunks, p, x) {
      StartedIsOccupied(db, p, x);
    }
    forall x | x in completed ensures x in started {
      StartedIsOccupied(db, p, x);
    }
    forall x | x in started ensures x in all {
      OccupiedInside(db, p, x);
    }
    SubsetSize(completed, started);
    SubsetSize(started, all);
  }
}

/** Invariants of the tables over every run of the pool. */
module LifecycleSafety {
  import opened Wrappers
  import opened HexBigint
  import opened Intervals
  import opened Permutation
  import opened PoolModel
  import opened AllocSearch
  import opened VirtualJobs
  import opened Legacy
  import opened BlockedRanges
  import opened Lifecycle

  // ── The invariant ───────────────────────────────────────────────────────

  predicate RowState(c: Chunk) {
    && (c.worker.None? <==> c.status == Reclaimed)
    && (c.status == Reclaimed ==> c.prevWorker.Some?)
    && (c.status == Assigned ==> c.heartbeat.Some?)
    && (c.foundKey.Some? <==> c.status == Found)
    && (c.foundAddress.Some? ==> c.status == Found)
  }

  predicate RowShape(puzzles: map<int, Puzzle>, c: Chunk) {
    && c.puzzle in puzzles
    && var z := puzzles[c.puzzle];
       if c.isTest then c.run.None? && c.sector.None?
       else if z.strategy == VChunks then
         && c.sector.None? && c.run.Some?
         && 0 <= c.run.value.start < c.run.value.end <= z.count && c.keys == KeysOf(z, c.run.value)
       else c.run.None? && c.sector.Some?
  }

  predicate RowsOk(puzzles: map<int, Puzzle>, chunks: seq<Chunk>) {
    forall i | 0 <= i < |chunks| :: RowState(chunks[i]) && RowShape(puzzles, chunks[i])
  }

  predicate Live(c: Chunk) {
    c.status == Assigned || c.status == Reclaimed
  }

  /** Two jobs of one worker in one puzzle, two rows for one test span, or two runs with a common chunk. */
  predicate Clash(a: Chunk, b: Chunk) {
    && a.puzzle == b.puzzle
    && (|| (a.status == Assigned && b.status == Assigned && a.worker == b.worker)
        || (a.isTest && b.isTest && a.keys == b.keys && Live(a) && Live(b))
        || (a.run.Some? && b.run.Some? && a.run.value.start < b.run.value.end && b.run.value.start < a.run.value.end))
  }

  predicate NoClash(chunks: seq<Chunk>) {
    forall i, j | 0 <= i < j < |chunks| :: !Clash(chunks[i], chunks[j])
  }

  predicate FindingFits(chunks: seq<Chunk>, f: Finding) {
    f.chunk < |chunks| && chunks[f.chunk].status == Found && chunks[f.chunk].worker == Some(f.worker)
  }

  predicate KeyRecorded(findings: seq<Finding>, job: nat, c: Chunk) {
    c.status == Found && c.worker.Some? && c.foundKey.Some? ==>
      HasFinding(findings, job, c.worker.value, c.foundKey.value)
  }

  predicate SameEntry(f: Finding, g: Finding) {
    f.chunk == g.chunk && f.worker == g.worker && f.key == g.key
  }

  predicate FindingsOk(chunks: seq<Chunk>, findings: seq<Finding>) {
    && (forall f | 0 <= f < |findings| :: FindingFits(chunks, findings[f]))
    && (forall i | 0 <= i < |chunks| :: KeyRecorded(findings, i, chunks[i]))
    && (forall f, g | 0 <= f < g < |findings| :: !SameEntry(findings[f], findings[g]))
  }

  ghost predicate PuzzleOk(db: Db, p: int)
    requires p in db.puzzles
  {
    var z := db.puzzles[p];
    && z.keys.start < z.keys.end
    && (z.strategy == VChunks ==> WellSized(z))
    && (z.strategy == Legacy ==> Tiles(SectorSpans(db.sectors, p), z.keys.start, z.keys.end))
  }

  ghost predicate PuzzlesOk(db: Db) {
    && (db.active.Some? ==> db.active.value in db.puzzles)
    && (forall p | p in db.puzzles :: PuzzleOk(db, p))
    && (forall s | 0 <= s < |db.sectors| :: db.sectors[s].puzzle in db.puzzles)
  }

  ghost predicate Inv(db: Db) {
    && RowsOk(db.puzzles, db.chunks) && NoClash(db.chunks)
    && FindingsOk(db.chunks, db.findings)
    && PuzzlesOk(db) && SectorsOk(db)
    && Normal(db.blocked)
  }

  // ── Statements that touch no finding ────────────────────────────────────

  /** Row b is row a, or an assigned row that was kept alive, taken away or completed. */
  predicate Quiet(a: Chunk, b: Chunk) {
    && SameWork(a, b)
    && (a == b
        || (a.status == Assigned && b.status != Found && RowState(b) && (b.status == Assigned ==> b.worker == a.worker)))
  }

  predicate AllQuiet(a: seq<Chunk>, b: seq<Chunk>) {
    |a| == |b| && forall i | 0 <= i < |a| :: Quiet(a[i], b[i])
  }

  predicate SamePuzzle(a: Puzzle, b: Puzzle) {
    a.keys == b.keys && a.strategy == b.strategy && a.size == b.size && a.count == b.count
  }

  predicate SamePuzzles(a: map<int, Puzzle>, b: map<int, Puzzle>) {
    a.Keys == b.Keys && forall p | p in a :: SamePuzzle(a[p], b[p])
  }

  lemma LayoutKept(db: Db, after: Db)
    requires Inv(db) && SameLayout(db.chunks, after.chunks) && SamePuzzles(db.puzzles, after.puzzles)
    requires after.sectors == db.sectors && (after.active.Some? ==> after.active.value in after.puzzles)
    ensures PuzzlesOk(after) && SectorsOk(after)
    ensures forall i | 0 <= i < |after.chunks| :: RowShape(after.puzzles, after.chunks[i])
  {
    forall p | p in after.puzzles ensures PuzzleOk(after, p) {
      assert SamePuzzle(db.puzzles[p], after.puzzles[p]) && PuzzleOk(db, p);
    }
    forall s | 0 <= s < |after.sectors| ensures SectorOk(after.chunks, s, after.sectors[s]) {
      assert SectorOk(db.chunks, s, db.sectors[s]);
      ChunksOfSame(db.chunks, after.chunks, s);
    }
    forall i | 0 <= i < |after.chunks| ensures RowShape(after.puzzles, after.chunks[i]) {
      assert SameWork(db.chunks[i], after.chunks[i]) && RowShape(db.puzzles, db.chunks[i]);
      assert SamePuzzle(db.puzzles[db.chunks[i].puzzle], after.puzzles[db.chunks[i].puzzle]);
    }
    forall i | 0 <= i < |after.chunks| && after.chunks[i].sector.Some?
      ensures !after.chunks[i].isTest && after.chunks[i].sector.value < |after.sectors|
      ensures after.sectors[after.chunks[i].sector.value].puzzle == after.chunks[i].puzzle
    {
      assert SameWork(db.chunks[i], after.chunks[i]) && db.chunks[i].sector.Some?;
    }
  }

  /** Rows that are not FOUND before or after do not matter to findings. */
  predicate FoundUntouched(a: seq<Chunk>, b: seq<Chunk>) {
    |a| == |b| && forall i | 0 <= i < |a| && (a[i].status == Found || b[i].status == Found) :: a[i] == b[i]
  }

  lemma FindingsKept(a: seq<Chunk>, b: seq<Chunk>, findings: seq<Finding>)
    requires FindingsOk(a, findings) && FoundUntouched(a, b)
    ensures FindingsOk(b, findings)
  {
    forall f | 0 <= f < |findings| ensures FindingFits(b, findings[f]) {
      assert FindingFits(a, findings[f]);
    }
    forall i | 0 <= i < |b| ensures KeyRecorded(findings, i, b[i]) {
      assert KeyRecorded(findings, i, a[i]);
    }
  }

  lemma QuietKeeps(db: Db, after: Db)
    requires Inv(db) && AllQuiet(db.chunks, after.chunks) && SamePuzzles(db.puzzles, after.puzzles)
    requires after.sectors == db.sectors && after.findings == db.findings && after.blocked == db.blocked
    requires after.active.Some? ==> after.active.value in after.puzzles
    ensures Inv(after)
  {
    forall i | 0 <= i < |db.chunks| ensures SameWork(db.chunks[i], after.chunks[i]) && RowState(after.chunks[i]) {
      assert Quiet(db.chunks[i], after.chunks[i]) && RowState(db.chunks[i]);
    }
    LayoutKept(db, after);
    forall i, j | 0 <= i < j < |after.chunks| ensures !Clash(after.chunks[i], after.chunks[j]) {
      assert Quiet(db.chunks[i], after.chunks[i]) && Quiet(db.chunks[j], after.chunks[j]);
      assert !Clash(db.chunks[i], db.chunks[j]);
    }
    forall i | 0 <= i < |db.chunks| && (db.chunks[i].status == Found || after.chunks[i].status == Found)
      ensures db.chunks[i] == after.chunks[i]
    {
      assert Quiet(db.chunks[i], after.chunks[i]);
    }
    FindingsKept(db.chunks, after.chunks, db.findings);
  }

  lemma ReclaimIsQuiet(c: Chunk)
    requires RowState(c) && c.status == Assigned
    ensures Quiet(c, Reclaim()(c))
  {}

  lemma BeginKeeps(db: Db, cfg: Config, name: string, now: int)
    requires Inv(db)
    ensures Inv(Begin(db, cfg, name, now))
  {
    var d := Begin(db, cfg, name, now);
    forall i | 0 <= i < |db.chunks| ensures Quiet(db.chunks[i], d.chunks[i]) {
      if d.chunks[i] != db.chunks[i] {
        ReclaimIsQuiet(db.chunks[i]);
      }
    }
    QuietKeeps(db, d);
  }

  lemma TimeoutKeeps(db: Db, cfg: Config, now: int)
    requires Inv(db)
    ensures Inv(ReclaimTimedOut(db, cfg, now).0)
  {
    var d := ReclaimTimedOut(db, cfg, now).0;
    forall i | 0 <= i < |db.chunks| ensures Quiet(db.chunks[i], d.chunks[i]) {
      if d.chunks[i] != db.chunks[i] {
        ReclaimIsQuiet(db.chunks[i]);
      }
    }
    QuietKeeps(db, d);
  }

  lemma HeartbeatKeeps(db: Db, name: string, job: int, now: int)
    requires Inv(db)
    ensures Inv(Heartbeat(db, name, job, now))
  {
    var d := Heartbeat(db, name, job, now);
    forall i | 0 <= i < |db.chunks| ensures Quiet(db.chunks[i], d.chunks[i]) {
      assert RowState(db.chunks[i]);
    }
    QuietKeeps(db, d);
  }

  lemma RestPuzzlesOk(db: Db, after: Db)
    requires PuzzlesOk(db) && after == db.(chunks := after.chunks, findings := after.findings)
    ensures PuzzlesOk(after)
  {
    forall p | p in after.puzzles ensures PuzzleOk(after, p) {
      assert PuzzleOk(db, p);
    }
  }

  lemma ClearTestSame(db: Db, job: int)
    requires PuzzlesOk(db)
    ensures var d := ClearTest(db, job);
            SamePuzzles(db.puzzles, d.puzzles) && d == db.(puzzles := d.puzzles)
  {
    var d := ClearTest(db, job);
    if d != db {
      assert d.puzzles.Keys == db.puzzles.Keys;
    }
  }

  lemma OneQuiet(db: Db, job: nat, c: Chunk)
    requires Inv(db) && job < |db.chunks| && Quiet(db.chunks[job], c)
    ensures Inv(db.(chunks := db.chunks[job := c]))
  {
    QuietKeeps(db, db.(chunks := db.chunks[job := c]));
  }

  lemma ClearTestKeeps(db: Db, job: int)
    requires Inv(db)
    ensures Inv(ClearTest(db, job))
  {
    ClearTestSame(db, job);
    QuietKeeps(db, ClearTest(db, job));
  }

  lemma DoneKeeps(db: Db, name: string, job: int, reported: nat)
    requires Inv(db)
    ensures Inv(SubmitDone(db, name, job, reported).0)
  {
    if HasRow(db, job, AssignedTo(name)) {
      var c := db.chunks[job];
      assert RowState(c);
      if reported < c.keys.end - c.keys.start {
        OneQuiet(db, job, Reclaim()(c));
      } else {
        var done := c.(status := Completed);
        OneQuiet(db, job, done);
        ClearTestKeeps(db.(chunks := db.chunks[job := done]), job);
      }
    }
  }

  // ── Serving a worker ────────────────────────────────────────────────────

  lemma NoneAssigned(db: Db, name: string, p: int)
    requires FirstWhere(db.chunks, AssignedIn(name, p)).None?
    ensures forall i | 0 <= i < |db.chunks| ::
              !(db.chunks[i].worker == Some(name) && db.chunks[i].puzzle == p && db.chunks[i].status == Assigned)
  {
    forall i | 0 <= i < |db.chunks|
      ensures !(db.chunks[i].worker == Some(name) && db.chunks[i].puzzle == p && db.chunks[i].status == Assigned)
    {
      assert !AssignedIn(name, p)(db.chunks[i]);
    }
  }

  lemma RetakeKeeps(db: Db, name: string, p: int, now: int, i: nat)
    requires Inv(db) && i < |db.chunks| && db.chunks[i].status == Reclaimed && db.chunks[i].puzzle == p
    requires FirstWhere(db.chunks, AssignedIn(name, p)).None?
    ensures Inv(db.(chunks := db.chunks[i := AssignTo(name, now)(db.chunks[i])]))
  {
    var after := db.(chunks := db.chunks[i := AssignTo(name, now)(db.chunks[i])]);
    assert RowState(db.chunks[i]);
    LayoutKept(db, after);
    NoneAssigned(db, name, p);
    RetakeNoClash(db.chunks, name, p, now, i);
    FindingsKept(db.chunks, after.chunks, db.findings);
  }

  lemma RetakeNoClash(chunks: seq<Chunk>, name: string, p: int, now: int, i: nat)
    requires NoClash(chunks) && i < |chunks| && chunks[i].status == Reclaimed && chunks[i].puzzle == p
    requires forall j | 0 <= j < |chunks| ::
               !(chunks[j].worker == Some(name) && chunks[j].puzzle == p && chunks[j].status == Assigned)
    ensures NoClash(chunks[i := AssignTo(name, now)(chunks[i])])
  {
    var after := chunks[i := AssignTo(name, now)(chunks[i])];
    forall j, k | 0 <= j < k < |after| ensures !Clash(after[j], after[k]) {
      assert !Clash(chunks[j], chunks[k]);
    }
  }

  lemma AppendRows(puzzles: map<int, Puzzle>, later: map<int, Puzzle>, chunks: seq<Chunk>, c: Chunk)
    requires RowsOk(puzzles, chunks) && SamePuzzles(puzzles, later) && RowState(c) && RowShape(puzzles, c)
    ensures RowsOk(later, chunks + [c])
  {
    var all := chunks + [c];
    forall i | 0 <= i < |all| ensures RowState(all[i]) && RowShape(later, all[i]) {
      assert i < |chunks| ==> RowState(chunks[i]) && RowShape(puzzles, chunks[i]);
      assert SamePuzzle(puzzles[all[i].puzzle], later[all[i].puzzle]);
    }
  }

  lemma AppendNoClash(chunks: seq<Chunk>, c: Chunk)
    requires NoClash(chunks) && forall i | 0 <= i < |chunks| :: !Clash(chunks[i], c)
    ensures NoClash(chunks + [c])
  {
    var all := chunks + [c];
    forall i, j | 0 <= i < j < |all| ensures !Clash(all[i], all[j]) {
      assert all[i] == chunks[i];
    }
  }

  lemma AppendFindings(chunks: seq<Chunk>, c: Chunk, findings: seq<Finding>)
    requires FindingsOk(chunks, findings) && c.status != Found
    ensures FindingsOk(chunks + [c], findings)
  {
    var all := chunks + [c];
    forall f | 0 <= f < |findings| ensures FindingFits(all, findings[f]) {
      assert FindingFits(chunks, findings[f]);
    }
    forall i | 0 <= i < |all| ensures KeyRecorded(findings, i, all[i]) {
      assert i < |chunks| ==> KeyRecorded(findings, i, chunks[i]);
    }
  }

  /** A new row that clashes with none. */
  lemma AppendKeeps(db: Db, after: Db, c: Chunk)
    requires Inv(db) && after.chunks == db.chunks + [c]
    requires SamePuzzles(db.puzzles, after.puzzles) && after.active == db.active && after.blocked == db.blocked
    requires after.findings == db.findings
    requires RowState(c) && c.status == Assigned && RowShape(db.puzzles, c)
    requires forall i | 0 <= i < |db.chunks| :: !Clash(db.chunks[i], c)
    requires SectorsOk(after) && PuzzlesOk(after)
    ensures Inv(after)
  {
    AppendRows(db.puzzles, after.puzzles, db.chunks, c);
    AppendNoClash(db.chunks, c);
    AppendFindings(db.chunks, c, db.findings);
  }

  lemma UnsectoredRow(db: Db, after: Db, c: Chunk)
    requires SectorsOk(db) && after.sectors == db.sectors && after.chunks == db.chunks + [c] && c.sector.None?
    ensures SectorsOk(after)
  {
    forall s | 0 <= s < |after.sectors| ensures SectorOk(after.chunks, s, after.sectors[s]) {
      assert SectorOk(db.chunks, s, db.sectors[s]);
      ChunksOfSnoc(db.chunks, c, s);
      assert ChunksOf(after.chunks, s) == ChunksOf(db.chunks, s);
    }
  }

  lemma NewTestKeeps(db: Db, name: string, p: int, now: int, span: Span)
    requires Inv(db) && p in db.puzzles && ClaimTest(db, p, span) == Some(NewTest(span))
    requires FirstWhere(db.chunks, AssignedIn(name, p)).None?
    ensures Inv(db.(chunks := db.chunks + [TestRow(p, name, now, span)]))
  {
    var c := TestRow(p, name, now, span);
    var after := db.(chunks := db.chunks + [c]);
    NoneAssigned(db, name, p);
    forall i | 0 <= i < |db.chunks| ensures !Clash(db.chunks[i], c) {
      assert !TestWith(p, span, Assigned)(db.chunks[i]) && !TestWith(p, span, Reclaimed)(db.chunks[i]);
    }
    UnsectoredRow(db, after, c);
    forall q | q in after.puzzles ensures PuzzleOk(after, q) {
      assert PuzzleOk(db, q);
    }
    AppendKeeps(db, after, c);
  }

  lemma VirtualKeeps(db: Db, cfg: Config, name: string, p: int, now: int, o: Order, needed: nat, pick: Pick)
    requires Inv(db) && p in db.puzzles && IssueFits(db, p, cfg, VirtualIssue(o, needed, pick))
    requires FirstWhere(db.chunks, AssignedIn(name, p)).None?
    ensures Inv(AfterJob(db, p, name, now, o, pick))
  {
    var after := AfterJob(db, p, name, now, o, pick);
    if pick != NoPick {
      var z := db.puzzles[p];
      var run := Span(pick.start, pick.start + pick.k);
      var c := JobRow(z, p, name, now, run, GenerationOf(o));
      JobSound(db, p, o, needed, cfg.maxProbes, pick);
      NoneAssigned(db, name, p);
      forall i | 0 <= i < |db.chunks| ensures !Clash(db.chunks[i], c) {
        assert RowShape(db.puzzles, db.chunks[i]);
        RunAvoids(db, p, run, i);
      }
      UnsectoredRow(db, after, c);
      AdvancedPuzzles(db, after, p, pick);
      AppendKeeps(db, after, c);
    }
  }

  lemma AdvancedPuzzles(db: Db, after: Db, p: int, pick: Pick)
    requires PuzzlesOk(db) && p in db.puzzles && db.puzzles[p].count > 0
    requires after == db.(chunks := after.chunks, puzzles := db.puzzles[p := Advanced(db.puzzles[p], pick)])
    ensures PuzzlesOk(after) && SamePuzzles(db.puzzles, after.puzzles)
  {
    forall q | q in after.puzzles ensures PuzzleOk(after, q) {
      assert PuzzleOk(db, q);
    }
    assert after.puzzles.Keys == db.puzzles.Keys;
  }

  /** A free run has no chunk in common with a row of the same puzzle. */
  lemma RunAvoids(db: Db, p: int, run: Span, i: nat)
    requires i < |db.chunks| && RowShape(db.puzzles, db.chunks[i]) && run.start < run.end
    requires FreeRun(FreeSet(db, p), run.start, run.end - run.start)
    ensures db.chunks[i].puzzle == p && db.chunks[i].run.Some? ==>
              db.chunks[i].run.value.end <= run.start || run.end <= db.chunks[i].run.value.start
  {
    var c := db.chunks[i];
    if c.puzzle == p && c.run.Some? && run.start < c.run.value.end && c.run.value.start < run.end {
      var x := Max(run.start, c.run.value.start);
      NotFree(db, p, i, x);
      assert false;
    }
  }

  lemma NotFree(db: Db, p: int, i: nat, x: int)
    requires i < |db.chunks| && OccupiesOf(db.chunks[i], p) && Holds(db.chunks[i].run.value, x)
    ensures x !in FreeSet(db, p)
  {
    assert Occupied(db.chunks, p, x);
  }

  lemma LegacyNoClash(chunks: seq<Chunk>, name: string, p: int, c: Chunk)
    requires c.puzzle == p && c.worker == Some(name) && !c.isTest && c.run.None?
    requires forall j | 0 <= j < |chunks| ::
               !(chunks[j].worker == Some(name) && chunks[j].puzzle == p && chunks[j].status == Assigned)
    ensures forall i | 0 <= i < |chunks| :: !Clash(chunks[i], c)
  {}

  /** The parts of the tables that a legacy job changes. */
  lemma LegacyParts(db: Db, p: int, name: string, now: int, chunkSize: int, s: nat)
    requires s < |db.sectors|
    ensures var after := AfterLegacy(db, p, name, now, chunkSize, Some(s));
            && after == db.(chunks := after.chunks, sectors := after.sectors)
            && after.chunks == db.chunks + [LegacyRow(p, name, now, NextKeys(db.sectors[s], chunkSize), s)]
            && |after.sectors| == |db.sectors|
            && forall t | 0 <= t < |db.sectors| ::
                 after.sectors[t].puzzle == db.sectors[t].puzzle && after.sectors[t].keys == db.sectors[t].keys
  {}

  lemma LegacyRowFits(puzzles: map<int, Puzzle>, p: int, name: string, now: int, keys: Span, s: nat)
    requires p in puzzles && puzzles[p].strategy == Legacy
    ensures RowState(LegacyRow(p, name, now, keys, s)) && RowShape(puzzles, LegacyRow(p, name, now, keys, s))
  {}

  lemma LegacyAppends(db: Db, after: Db, p: int, name: string, now: int, keys: Span, s: nat)
    requires Inv(db) && p in db.puzzles && db.puzzles[p].strategy == Legacy
    requires FirstWhere(db.chunks, AssignedIn(name, p)).None?
    requires after == db.(chunks := after.chunks, sectors := after.sectors)
    requires after.chunks == db.chunks + [LegacyRow(p, name, now, keys, s)]
    requires SectorsOk(after) && PuzzlesOk(after)
    ensures Inv(after)
  {
    var c := LegacyRow(p, name, now, keys, s);
    LegacyRowFits(db.puzzles, p, name, now, keys, s);
    NoneAssigned(db, name, p);
    LegacyNoClash(db.chunks, name, p, c);
    AppendKeeps(db, after, c);
  }

  lemma LegacyKeeps(db: Db, cfg: Config, name: string, p: int, now: int, chunkSize: int, pick: Option<nat>)
    requires Inv(db) && p in db.puzzles && IssueFits(db, p, cfg, LegacyIssue(chunkSize, pick))
    requires FirstWhere(db.chunks, AssignedIn(name, p)).None?
    ensures Inv(AfterLegacy(db, p, name, now, chunkSize, pick))
  {
    match pick
    case None =>
    case Some(s) =>
      var after := AfterLegacy(db, p, name, now, chunkSize, pick);
      LegacyKeepsSectors(db, p, name, now, chunkSize, cfg.targetSectors / 2, pick);
      LegacyParts(db, p, name, now, chunkSize, s);
      SectorsMoved(db, after);
      LegacyAppends(db, after, p, name, now, NextKeys(db.sectors[s], chunkSize), s);
  }

  lemma SectorsMoved(db: Db, after: Db)
    requires PuzzlesOk(db) && after.puzzles == db.puzzles && after.active == db.active
    requires |after.sectors| == |db.sectors|
    requires forall s | 0 <= s < |db.sectors| ::
               after.sectors[s].puzzle == db.sectors[s].puzzle && after.sectors[s].keys == db.sectors[s].keys
    ensures PuzzlesOk(after)
  {
    forall q | q in after.puzzles ensures PuzzleOk(after, q) {
      assert PuzzleOk(db, q);
      SpansSame(db.sectors, after.sectors, q);
    }
  }

  lemma {:induction false} SpansSame(a: seq<Sector>, b: seq<Sector>, p: int)
    requires |a| == |b| && forall s | 0 <= s < |a| :: a[s].puzzle == b[s].puzzle && a[s].keys == b[s].keys
    ensures SectorSpans(a, p) == SectorSpans(b, p)
  {
    if a != [] {
      SpansSame(a[..|a| - 1], b[..|b| - 1], p);
    }
  }

  lemma WorkKeeps(db: Db, cfg: Config, name: string, now: int, issue: Issue)
    requires Inv(db) && WorkEnabled(db, cfg, name, now, issue)
    ensures Inv(Work(db, cfg, name, now, issue).0)
  {
    BeginKeeps(db, cfg, name, now);
    var d := Begin(db, cfg, name, now);
    if d.active.Some? {
      ServedKeeps(d, cfg, d.active.value, name, now, Stale(db, cfg, name, now), issue);
    }
  }

  /** The row that is served, and what is known about it. */
  lemma Chosen(d: Db, p: int, name: string, stale: bool)
    requires p in d.puzzles
    ensures var how := Choose(d, p, name, stale);
            && (how.Existing? ==> how.row < |d.chunks| && AssignedIn(name, p)(d.chunks[how.row]))
            && (how.Retake? ==>
                  how.row < |d.chunks| && d.chunks[how.row].status == Reclaimed && d.chunks[how.row].puzzle == p)
            && (how.NewTest? ==> ClaimTest(d, p, how.span) == Some(how))
            && (!how.Existing? ==> FirstWhere(d.chunks, AssignedIn(name, p)).None?)
  {}

  lemma ServedKeeps(d: Db, cfg: Config, p: int, name: string, now: int, stale: bool, issue: Issue)
    requires Inv(d) && p in d.puzzles && (Choose(d, p, name, stale) == Fresh ==> IssueFits(d, p, cfg, issue))
    ensures Inv(Served(d, p, name, now, Choose(d, p, name, stale), issue).0)
  {
    Chosen(d, p, name, stale);
    match Choose(d, p, name, stale)
    case Existing(_) =>
    case Retake(i) => RetakeKeeps(d, name, p, now, i);
    case NewTest(span) => NewTestKeeps(d, name, p, now, span);
    case Fresh => IssuedKeeps(d, cfg, p, name, now, issue);
  }

  lemma IssuedKeeps(d: Db, cfg: Config, p: int, name: string, now: int, issue: Issue)
    requires Inv(d) && p in d.puzzles && IssueFits(d, p, cfg, issue)
    requires FirstWhere(d.chunks, AssignedIn(name, p)).None?
    ensures Inv(Issued(d, p, name, now, issue))
  {
    match issue
    case VirtualIssue(o, needed, pick) => VirtualKeeps(d, cfg, name, p, now, o, needed, pick);
    case LegacyIssue(chunkSize, sector) => LegacyKeeps(d, cfg, name, p, now, chunkSize, sector);
  }

  // ── FOUND ───────────────────────────────────────────────────────────────

  lemma HasFindingSnoc(findings: seq<Finding>, f: Finding, job: int, name: string, key: nat)
    ensures HasFinding(findings + [f], job, name, key)
       <==> HasFinding(findings, job, name, key) || SameFinding(f, job, name, key)
  {
    var all := findings + [f];
    if HasFinding(findings, job, name, key) {
      var i :| 0 <= i < |findings| && SameFinding(findings[i], job, name, key);
      assert SameFinding(all[i], job, name, key);
    }
    if SameFinding(f, job, name, key) {
      assert SameFinding(all[|findings|], job, name, key);
    }
  }

  /** Exactly the reported keys are recorded, under the reporting worker. */
  lemma {:induction false} AddFindingsHas(
      findings: seq<Finding>, job: nat, name: string, rs: seq<Report>, q: int, n: string, k: nat)
    ensures HasFinding(AddFindings(findings, job, name, rs), q, n, k) <==>
              HasFinding(findings, q, n, k) || (q == job && n == name && HasKey(rs, k))
  {
    if rs != [] {
      var init, last := rs[..|rs| - 1], rs[|rs| - 1];
      AddFindingsHas(findings, job, name, init, q, n, k);
      AddFindingsHas(findings, job, name, init, job, name, last.key);
      assert rs == init + [last];
      HasKeySnoc(init, last, k);
      var fs := AddFindings(findings, job, name, init);
      if !HasFinding(fs, job, name, last.key) {
        HasFindingSnoc(fs, Finding(job, name, last.key, last.address), q, n, k);
      }
    }
  }

  predicate AllFit(chunks: seq<Chunk>, findings: seq<Finding>) {
    && (forall f | 0 <= f < |findings| :: FindingFits(chunks, findings[f]))
    && (forall f, g | 0 <= f < g < |findings| :: !SameEntry(findings[f], findings[g]))
  }

  lemma {:induction false} AddFindingsFit(
      chunks: seq<Chunk>, findings: seq<Finding>, job: nat, name: string, rs: seq<Report>)
    requires AllFit(chunks, findings)
    requires job < |chunks| && chunks[job].status == Found && chunks[job].worker == Some(name)
    ensures AllFit(chunks, AddFindings(findings, job, name, rs))
  {
    if rs != [] {
      var init, last := rs[..|rs| - 1], rs[|rs| - 1];
      AddFindingsFit(chunks, findings, job, name, init);
      var fs := AddFindings(findings, job, name, init);
      if !HasFinding(fs, job, name, last.key) {
        forall f | 0 <= f < |fs| ensures !SameEntry(fs[f], Finding(job, name, last.key, last.address)) {
          assert !SameFinding(fs[f], job, name, last.key);
        }
      }
    }
  }

  /** Recording findings for a FOUND row keeps the rest of the invariant. */
  lemma RecordKeeps(db: Db, after: Db, job: nat, name: string, rs: seq<Report>)
    requires after == db.(findings := AddFindings(db.findings, job, name, rs))
    requires RowsOk(db.puzzles, db.chunks) && NoClash(db.chunks) && PuzzlesOk(db) && SectorsOk(db) && Normal(db.blocked)
    requires AllFit(db.chunks, db.findings)
    requires forall i | 0 <= i < |db.chunks| && i != job :: KeyRecorded(db.findings, i, db.chunks[i])
    requires job < |db.chunks| && db.chunks[job].status == Found && db.chunks[job].worker == Some(name)
    requires KeyRecorded(db.findings, job, db.chunks[job]) ||
             (db.chunks[job].foundKey.Some? && HasKey(rs, db.chunks[job].foundKey.value))
    ensures Inv(after)
  {
    AddFindingsFit(db.chunks, db.findings, job, name, rs);
    forall i | 0 <= i < |db.chunks| ensures KeyRecorded(after.findings, i, db.chunks[i]) {
      var c := db.chunks[i];
      if c.status == Found && c.worker.Some? && c.foundKey.Some? {
        AddFindingsHas(db.findings, job, name, rs, i, c.worker.value, c.foundKey.value);
        assert i != job ==> KeyRecorded(db.findings, i, c);
      }
    }
  }

  lemma FewerClashes(a: seq<Chunk>, b: seq<Chunk>)
    requires NoClash(a) && |a| == |b|
    requires forall i | 0 <= i < |a| :: b[i] == a[i] || (SameWork(a[i], b[i]) && b[i].status == Found)
    ensures NoClash(b)
  {
    forall i, j | 0 <= i < j < |b| ensures !Clash(b[i], b[j]) {
      assert !Clash(a[i], a[j]);
    }
  }

  lemma MarkFindings(a: seq<Chunk>, b: seq<Chunk>, job: nat, findings: seq<Finding>)
    requires FindingsOk(a, findings) && job < |a| == |b| && a[job].status != Found
    requires forall i | 0 <= i < |a| && i != job :: b[i] == a[i]
    ensures AllFit(b, findings)
    ensures forall i | 0 <= i < |b| && i != job :: KeyRecorded(findings, i, b[i])
  {
    forall f | 0 <= f < |findings| ensures FindingFits(b, findings[f]) {
      assert FindingFits(a, findings[f]);
    }
    forall i | 0 <= i < |b| && i != job ensures KeyRecorded(findings, i, b[i]) {
      assert KeyRecorded(findings, i, a[i]);
    }
  }

  /** A row that becomes FOUND had no findings before. */
  lemma MarkKeeps(db: Db, job: nat, name: string, primary: Report) returns (mid: Db)
    requires Inv(db) && job < |db.chunks| && Live(db.chunks[job])
    ensures mid == db.(chunks := db.chunks[job := MarkFound(name, primary)(db.chunks[job])])
    ensures mid.chunks[job].foundKey == Some(primary.key)
    ensures RowsOk(mid.puzzles, mid.chunks) && NoClash(mid.chunks) && PuzzlesOk(mid) && SectorsOk(mid)
    ensures AllFit(mid.chunks, mid.findings)
    ensures forall i | 0 <= i < |mid.chunks| && i != job :: KeyRecorded(mid.findings, i, mid.chunks[i])
  {
    var c := db.chunks[job];
    mid := db.(chunks := db.chunks[job := MarkFound(name, primary)(c)]);
    assert RowState(c);
    LayoutKept(db, mid);
    FewerClashes(db.chunks, mid.chunks);
    MarkFindings(db.chunks, mid.chunks, job, db.findings);
  }

  lemma FoundKeeps(db: Db, name: string, job: int, reports: seq<Report>)
    requires Inv(db) && reports != []
    ensures Inv(SubmitFound(db, name, job, reports).0)
  {
    var rs := Distinct(reports);
    HasKeySnoc(rs[..0], rs[0], rs[0].key);
    assert rs[0].key == reports[0].key && HasKey(rs, rs[0].key);
    if HasRow(db, job, AssignedTo(name))
       || (!HasFinding(db.findings, job, name, rs[0].key) && HasRow(db, job, LateFor(name))) {
      var mid := MarkKeeps(db, job, name, rs[0]);
      var after := mid.(findings := AddFindings(mid.findings, job, name, rs));
      RecordKeeps(mid, after, job, name, rs);
      ClearTestKeeps(after, job);
    } else if HasFinding(db.findings, job, name, rs[0].key) {
      var f :| 0 <= f < |db.findings| && SameFinding(db.findings[f], job, name, rs[0].key);
      assert FindingFits(db.chunks, db.findings[f]);
      var after := db.(findings := AddFindings(db.findings, job, name, rs));
      RecordKeeps(db, after, job, name, rs);
      ClearTestKeeps(after, job);
    }
  }

  // ── Administration ──────────────────────────────────────────────────────

  lemma SetTestKeeps(db: Db, test: Option<Span>)
    requires Inv(db)
    ensures Inv(SetTest(db, test))
  {
    assert SetTest(db, test).puzzles.Keys == db.puzzles.Keys;
    QuietKeeps(db, SetTest(db, test));
  }

  lemma ImportKeeps(db: Db, p: int, source: string, spans: seq<Span>)
    requires Inv(db) && NonEmpty(spans)
    ensures Inv(Import(db, p, source, spans))
  {
    InsertAllCorrect(db.blocked, p, source, spans);
    var after := Import(db, p, source, spans);
    LayoutKept(db, after);
  }

  lemma {:induction false} NoSpansYet(sectors: seq<Sector>, p: int)
    requires forall s | 0 <= s < |sectors| :: sectors[s].puzzle != p
    ensures SectorSpans(sectors, p) == []
  {
    if sectors != [] {
      NoSpansYet(sectors[..|sectors| - 1], p);
    }
  }

  lemma {:induction false} SeededAre(p: int, keys: Span, n: nat, k: nat)
    requires 0 < n <= keys.end - keys.start && k <= n
    ensures |SeededSectors(p, keys, n, k)| == k
    ensures forall i | 0 <= i < k ::
              var s := SeededSectors(p, keys, n, k)[i];
              s.puzzle == p && s.open && s.current == s.keys.start < s.keys.end
  {
    if k > 0 {
      SeededAre(p, keys, n, k - 1);
      SectorStep(keys, n, k);
    }
  }

  lemma AddSectorsKeeps(db: Db, after: Db, p: int, keys: Span, n: nat)
    requires SectorsOk(db) && 0 < n <= keys.end - keys.start && after.chunks == db.chunks
    requires after.sectors == db.sectors + SeededSectors(p, keys, n, n)
    ensures SectorsOk(after)
  {
    SeededAre(p, keys, n, n);
    forall s | 0 <= s < |after.sectors| ensures SectorOk(after.chunks, s, after.sectors[s]) {
      if s < |db.sectors| {
        assert SectorOk(db.chunks, s, db.sectors[s]);
      } else {
        assert after.sectors[s] == SeededSectors(p, keys, n, n)[s - |db.sectors|];
        NoChunksYet(db.chunks, s);
      }
    }
  }

  lemma RowsWithPuzzle(db: Db, p: int, z: Puzzle)
    requires RowsOk(db.puzzles, db.chunks) && p !in db.puzzles
    ensures RowsOk(db.puzzles[p := z], db.chunks)
  {
    forall i | 0 <= i < |db.chunks| ensures RowShape(db.puzzles[p := z], db.chunks[i]) {
      assert RowShape(db.puzzles, db.chunks[i]);
    }
  }

  lemma AddVirtualKeeps(db: Db, cfg: Config, p: int, keys: Span, size: nat)
    requires Inv(db) && Enabled(db, cfg, DoAddPuzzle(p, keys, VChunks, size))
    ensures Inv(AddPuzzle(db, cfg, p, keys, VChunks, size))
  {
    var after := AddPuzzle(db, cfg, p, keys, VChunks, size);
    RowsWithPuzzle(db, p, after.puzzles[p]);
    forall q | q in after.puzzles ensures PuzzleOk(after, q) {
      assert q != p ==> PuzzleOk(db, q);
    }
    forall s | 0 <= s < |after.sectors| ensures SectorOk(after.chunks, s, after.sectors[s]) {
      assert SectorOk(db.chunks, s, db.sectors[s]);
    }
  }

  lemma AddLegacyPuzzle(db: Db, after: Db, p: int, keys: Span, n: nat, q: int)
    requires PuzzlesOk(db) && p !in db.puzzles && 0 < n <= keys.end - keys.start
    requires after.puzzles == db.puzzles[p := Puzzle(keys, None, Legacy, 0, 0, 0, 0)] && q in after.puzzles
    requires after.sectors == db.sectors + SeededSectors(p, keys, n, n)
    ensures PuzzleOk(after, q)
  {
    var added := SeededSectors(p, keys, n, n);
    SpansConcat(db.sectors, added, q);
    if q == p {
      NoSpansYet(db.sectors, p);
      SeededTiles(p, keys, n, n);
      assert SectorSpans(after.sectors, p) == SectorSpans(added, p);
    } else {
      assert PuzzleOk(db, q);
      SeededAre(p, keys, n, n);
      NoSpansYet(added, q);
      assert SectorSpans(after.sectors, q) == SectorSpans(db.sectors, q);
    }
  }

  lemma AddLegacyKeeps(db: Db, cfg: Config, p: int, keys: Span, size: nat)
    requires Inv(db) && Enabled(db, cfg, DoAddPuzzle(p, keys, Legacy, size))
    ensures Inv(AddPuzzle(db, cfg, p, keys, Legacy, size))
  {
    var after := AddPuzzle(db, cfg, p, keys, Legacy, size);
    var n := SectorCount(keys.end - keys.start, cfg.targetSectors);
    SectorCountFits(keys.end - keys.start, cfg.targetSectors);
    RowsWithPuzzle(db, p, after.puzzles[p]);
    AddSectorsKeeps(db, after, p, keys, n);
    forall q | q in after.puzzles ensures PuzzleOk(after, q) {
      AddLegacyPuzzle(db, after, p, keys, n, q);
    }
    var added := SeededSectors(p, keys, n, n);
    SeededAre(p, keys, n, n);
    forall s | 0 <= s < |after.sectors| ensures after.sectors[s].puzzle in after.puzzles {
      if s >= |db.sectors| {
        assert after.sectors[s] == added[s - |db.sectors|];
      }
    }
  }

  lemma ActivateKeeps(db: Db, p: int)
    requires Inv(db) && p in db.puzzles
    ensures Inv(db.(active := Some(p)))
  {
    QuietKeeps(db, db.(active := Some(p)));
  }

  // ── Every run ───────────────────────────────────────────────────────────

  lemma StepKeeps(db: Db, cfg: Config, op: Op)
    requires Inv(db) && Enabled(db, cfg, op)
    ensures Inv(Step(db, cfg, op))
  {
    match op
    case DoWork(name, now, issue) => WorkKeeps(db, cfg, name, now, issue);
    case DoHeartbeat(name, job, now) => HeartbeatKeeps(db, name, job, now);
    case DoTimeout(now) => TimeoutKeeps(db, cfg, now);
    case DoDone(name, job, reported) => DoneKeeps(db, name, job, reported);
    case DoFound(name, job, reports) => FoundKeeps(db, name, job, reports);
    case DoImport(p, source, spans) => ImportKeeps(db, p, source, spans);
    case DoSetTest(test) => SetTestKeeps(db, test);
    case DoActivate(p) => ActivateKeeps(db, p);
    case DoAddPuzzle(p, keys, VChunks, size) => AddVirtualKeeps(db, cfg, p, keys, size);
    case DoAddPuzzle(p, keys, Legacy, size) => AddLegacyKeeps(db, cfg, p, keys, size);
  }

  /** The invariant holds in every state of every run from the empty tables. */
  lemma {:induction false} RunsAreSafe(cfg: Config, ops: seq<Op>, run: seq<Db>, i: nat)
    requires IsRun(cfg, ops, run) && run[0] == EMPTY && i < |run|
    ensures Inv(run[i])
  {
    if i > 0 {
      RunsAreSafe(cfg, ops, run, i - 1);
      assert Enabled(run[i - 1], cfg, ops[i - 1]) && run[i - 1 + 1] == Step(run[i - 1], cfg, ops[i - 1]);
      StepKeeps(run[i - 1], cfg, ops[i - 1]);
    }
  }
}

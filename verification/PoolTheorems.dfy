/** What the invariant means for keys, workers and submissions, over every run of the pool. */
module PoolTheorems {
  import opened Wrappers
  import opened Sets
  import opened Intervals
  import opened Permutation
  import opened PoolModel
  import opened VirtualJobs
  import opened Legacy
  import opened Lifecycle
  import opened LifecycleSafety

  // ── No key is issued twice ──────────────────────────────────────────────

  lemma TilesUnsnoc(v: seq<Span>, s: Span, a: int, b: int)
    requires Tiles(v + [s], a, b)
    ensures Tiles(v, a, s.start) && a <= s.start < s.end == b
  {
    assert (v + [s])[..|v|] == v;
    TilesMeans(v, a, s.start);
  }

  /** Within a sector, later rows hold later keys. */
  lemma {:induction false} SectorOrder(chunks: seq<Chunk>, s: nat, a: int, b: int, i: nat, j: nat)
    requires Tiles(ChunksOf(chunks, s), a, b) && i <= j < |chunks|
    requires InSector(chunks[i], s) && InSector(chunks[j], s)
    ensures a <= chunks[i].keys.start < chunks[i].keys.end <= b
    ensures i < j ==> chunks[i].keys.end <= chunks[j].keys.start
  {
    var n := |chunks| - 1;
    var init, last := chunks[..n], chunks[n];
    assert chunks == init + [last];
    ChunksOfSnoc(init, last, s);
    if InSector(last, s) {
      TilesUnsnoc(ChunksOf(init, s), last.keys, a, b);
      if i < n {
        SectorOrder(init, s, a, last.keys.start, i, if j < n then j else i);
      }
    } else {
      assert ChunksOf(chunks, s) == ChunksOf(init, s);
      SectorOrder(init, s, a, b, i, j);
    }
  }

  /** Sectors of a puzzle are disjoint and lie in its range. */
  lemma {:induction false} SectorsApart(sectors: seq<Sector>, p: int, a: int, b: int, i: nat, j: nat)
    requires Tiles(SectorSpans(sectors, p), a, b) && i <= j < |sectors|
    requires sectors[i].puzzle == p && sectors[j].puzzle == p
    ensures a <= sectors[i].keys.start < sectors[i].keys.end <= b
    ensures i < j ==> sectors[i].keys.end <= sectors[j].keys.start
  {
    var n := |sectors| - 1;
    var init, last := sectors[..n], sectors[n];
    assert sectors == init + [last];
    SpansSnoc(init, last, p);
    if last.puzzle == p {
      TilesUnsnoc(SectorSpans(init, p), last.keys, a, b);
      if i < n {
        SectorsApart(init, p, a, last.keys.start, i, if j < n then j else i);
      }
    } else {
      assert SectorSpans(sectors, p) == SectorSpans(init, p);
      SectorsApart(init, p, a, b, i, j);
    }
  }

  lemma LegacyRowBounds(db: Db, i: nat) returns (s: nat)
    requires Inv(db) && i < |db.chunks| && !db.chunks[i].isTest
    requires db.chunks[i].puzzle in db.puzzles ==> db.puzzles[db.chunks[i].puzzle].strategy == Legacy
    ensures InSector(db.chunks[i], s) && s < |db.sectors| && db.sectors[s].puzzle == db.chunks[i].puzzle
    ensures SectorOk(db.chunks, s, db.sectors[s])
    ensures db.sectors[s].keys.start <= db.chunks[i].keys.start < db.chunks[i].keys.end <= db.sectors[s].keys.end
  {
    assert RowShape(db.puzzles, db.chunks[i]);
    s := db.chunks[i].sector.value;
    assert SectorOk(db.chunks, s, db.sectors[s]);
    SectorOrder(db.chunks, s, db.sectors[s].keys.start, db.sectors[s].current, i, i);
  }

  /** Every job is a non-empty part of its puzzle's key range. */
  lemma JobKeysInside(db: Db, i: nat)
    requires Inv(db) && i < |db.chunks| && !db.chunks[i].isTest
    ensures db.chunks[i].puzzle in db.puzzles
    ensures var keys := db.puzzles[db.chunks[i].puzzle].keys;
            keys.start <= db.chunks[i].keys.start < db.chunks[i].keys.end <= keys.end
  {
    assert RowShape(db.puzzles, db.chunks[i]);
    var p := db.chunks[i].puzzle;
    var z := db.puzzles[p];
    assert PuzzleOk(db, p);
    if z.strategy == VChunks {
      KeysOfRun(z, db.chunks[i].run.value);
    } else {
      var s := LegacyRowBounds(db, i);
      SectorsApart(db.sectors, p, z.keys.start, z.keys.end, s, s);
    }
  }

  /** No key of a puzzle belongs to two jobs, whoever held them and whatever became of them. */
  lemma JobKeysDisjoint(db: Db, i: nat, j: nat)
    requires Inv(db) && i < j < |db.chunks| && !db.chunks[i].isTest && !db.chunks[j].isTest
    requires db.chunks[i].puzzle == db.chunks[j].puzzle
    ensures db.chunks[i].keys.end <= db.chunks[j].keys.start || db.chunks[j].keys.end <= db.chunks[i].keys.start
  {
    var a, b := db.chunks[i], db.chunks[j];
    assert RowShape(db.puzzles, a) && RowShape(db.puzzles, b) && !Clash(a, b);
    var p := a.puzzle;
    var z := db.puzzles[p];
    assert PuzzleOk(db, p);
    if z.strategy == VChunks {
      if a.run.value.end <= b.run.value.start {
        DisjointRuns(z, a.run.value, b.run.value);
      } else {
        DisjointRuns(z, b.run.value, a.run.value);
      }
    } else {
      var s := LegacyRowBounds(db, i);
      var t := LegacyRowBounds(db, j);
      if s == t {
        SectorOrder(db.chunks, s, db.sectors[s].keys.start, db.sectors[s].current, i, j);
      } else if s < t {
        SectorsApart(db.sectors, p, z.keys.start, z.keys.end, s, t);
      } else {
        SectorsApart(db.sectors, p, z.keys.start, z.keys.end, t, s);
      }
    }
  }

  ghost predicate Holder(c: Chunk, p: int, key: int) {
    c.puzzle == p && !c.isTest && c.status == Assigned && Holds(c.keys, key)
  }

  /** In every state of every run a key is being searched by at most one worker, through at most one job. */
  lemma OneHolderPerKey(cfg: Config, ops: seq<Op>, run: seq<Db>, t: nat, p: int, key: int, i: nat, j: nat)
    requires IsRun(cfg, ops, run) && run[0] == EMPTY && t < |run|
    requires i < |run[t].chunks| && Holder(run[t].chunks[i], p, key)
    requires j < |run[t].chunks| && Holder(run[t].chunks[j], p, key)
    ensures i == j && run[t].chunks[i].worker == run[t].chunks[j].worker
  {
    RunsAreSafe(cfg, ops, run, t);
    if i < j {
      JobKeysDisjoint(run[t], i, j);
      assert false;
    } else if j < i {
      JobKeysDisjoint(run[t], j, i);
      assert false;
    }
  }

  /** Number of jobs a virtual-chunk puzzle ever issues. */
  lemma JobsBounded(db: Db, p: int)
    requires Inv(db) && p in db.puzzles && db.puzzles[p].strategy == VChunks
    ensures CountWhere(db.chunks, IssuedBy(p)) <= db.puzzles[p].count
  {
    var starts := RunStarts(db, p, |db.chunks|);
    var all := Interval(0, db.puzzles[p].count);
    assert forall x | x in starts :: x in all;
    SubsetSize(starts, all);
    assert db.chunks[..|db.chunks|] == db.chunks;
  }

  ghost predicate StartsAt(chunks: seq<Chunk>, p: int, k: nat, x: int) {
    exists i :: 0 <= i < k <= |chunks| && OccupiesOf(chunks[i], p) && chunks[i].run.value.start == x
  }

  /** Two jobs of a puzzle never start at the same virtual chunk. */
  lemma NewStart(db: Db, p: int, k: nat)
    requires Inv(db) && k < |db.chunks| && OccupiesOf(db.chunks[k], p)
    ensures !StartsAt(db.chunks, p, k, db.chunks[k].run.value.start)
  {
    forall i | 0 <= i < k && OccupiesOf(db.chunks[i], p)
      ensures db.chunks[i].run.value.start != db.chunks[k].run.value.start
    {
      assert RowShape(db.puzzles, db.chunks[i]) && RowShape(db.puzzles, db.chunks[k]);
      assert !Clash(db.chunks[i], db.chunks[k]);
    }
  }

  lemma {:induction false} RunStarts(db: Db, p: int, k: nat) returns (starts: set<int>)
    requires Inv(db) && p in db.puzzles && db.puzzles[p].strategy == VChunks && k <= |db.chunks|
    ensures |starts| == CountWhere(db.chunks[..k], IssuedBy(p))
    ensures forall x | x in starts :: 0 <= x < db.puzzles[p].count && StartsAt(db.chunks, p, k, x)
  {
    if k == 0 {
      starts := {};
    } else {
      starts := RunStarts(db, p, k - 1);
      var c := db.chunks[k - 1];
      assert db.chunks[..k][..k - 1] == db.chunks[..k - 1];
      assert RowShape(db.puzzles, c);
      forall x | x in starts ensures StartsAt(db.chunks, p, k, x) {
        var i :| 0 <= i < k - 1 && OccupiesOf(db.chunks[i], p) && db.chunks[i].run.value.start == x;
      }
      if IssuedBy(p)(c) {
        NewStart(db, p, k - 1);
        starts := starts + {c.run.value.start};
      }
    }
  }

  // ── Workers ─────────────────────────────────────────────────────────────

  /** A served worker holds the job it was told about, in the active puzzle. */
  lemma ServedJobIsHeld(db: Db, cfg: Config, name: string, now: int, issue: Issue, i: nat)
    requires Inv(db) && WorkEnabled(db, cfg, name, now, issue)
    requires Work(db, cfg, name, now, issue).1 == Job(i)
    ensures var after := Work(db, cfg, name, now, issue).0;
            && i < |after.chunks| && AssignedTo(name)(after.chunks[i])
            && after.active == db.active && Some(after.chunks[i].puzzle) == db.active
  {
    var d := Begin(db, cfg, name, now);
    ServedIsHeld(d, d.active.value, name, now, Stale(db, cfg, name, now), issue, i);
  }

  lemma ServedIsHeld(d: Db, p: int, name: string, now: int, stale: bool, issue: Issue, i: nat)
    requires p in d.puzzles && (Choose(d, p, name, stale) == Fresh ==> IssueUsable(d, p, issue))
    requires Choose(d, p, name, stale).Existing? || Choose(d, p, name, stale).Retake? ==>
               Choose(d, p, name, stale).row < |d.chunks|
    requires Served(d, p, name, now, Choose(d, p, name, stale), issue).1 == Job(i)
    ensures var after := Served(d, p, name, now, Choose(d, p, name, stale), issue).0;
            i < |after.chunks| && AssignedIn(name, p)(after.chunks[i]) && after.active == d.active
  {
    Chosen(d, p, name, stale);
    if Choose(d, p, name, stale) == Fresh {
      var after := Issued(d, p, name, now, issue);
      assert after.chunks[|d.chunks|].worker == Some(name);
    }
  }

  /** Asking again before the worker counts as gone returns the same job and changes only its last-seen time. */
  lemma AskingAgain(db: Db, cfg: Config, name: string, now: int, issue: Issue, i: nat, again: int, unused: Issue)
    requires Inv(db) && WorkEnabled(db, cfg, name, now, issue)
    requires Work(db, cfg, name, now, issue).1 == Job(i) && again - cfg.reactivateAfter <= now
    ensures var after := Work(db, cfg, name, now, issue).0;
            && WorkEnabled(after, cfg, name, again, unused)
            && Work(after, cfg, name, again, unused) == (after.(workers := after.workers[name := again]), Job(i))
  {
    var after := Work(db, cfg, name, now, issue).0;
    ServedJobIsHeld(db, cfg, name, now, issue, i);
    WorkKeeps(db, cfg, name, now, issue);
    WorkRecords(db, cfg, name, now, issue);
    var d := Begin(after, cfg, name, again);
    assert d.chunks == after.chunks;
    OnlyJob(after, name, i);
  }

  lemma WorkRecords(db: Db, cfg: Config, name: string, now: int, issue: Issue)
    requires WorkEnabled(db, cfg, name, now, issue)
    ensures Work(db, cfg, name, now, issue).0.workers == db.workers[name := now]
  {}

  lemma OnlyJob(db: Db, name: string, i: nat)
    requires Inv(db) && i < |db.chunks| && AssignedTo(name)(db.chunks[i])
    ensures FirstWhere(db.chunks, AssignedIn(name, db.chunks[i].puzzle)) == Some(i)
  {
    var p := db.chunks[i].puzzle;
    assert AssignedIn(name, p)(db.chunks[i]);
    var r := FirstWhere(db.chunks, AssignedIn(name, p));
    assert forall j | 0 <= j < i :: !Clash(db.chunks[j], db.chunks[i]);
  }

  // ── What a fresh job is made of ─────────────────────────────────────────

  /** A fresh virtual-chunk job takes only chunks that are neither blocked nor issued when it is created. */
  lemma FreshJobIsFree(db: Db, cfg: Config, name: string, p: int, now: int, o: Order, needed: nat, pick: Pick, x: int)
    requires p in db.puzzles && IssueFits(db, p, cfg, VirtualIssue(o, needed, pick)) && pick != NoPick
    ensures var after := AfterJob(db, p, name, now, o, pick);
            && |after.chunks| == |db.chunks| + 1
            && after.chunks[|db.chunks|].run.Some?
            && (Holds(after.chunks[|db.chunks|].run.value, x) ==>
                  0 <= x < db.puzzles[p].count && !Blocked(db.blocked, p, x) && !Occupied(db.chunks, p, x))
  {
    JobSound(db, p, o, needed, cfg.maxProbes, pick);
    if pick.start <= x < pick.start + pick.k {
      assert x in FreeSet(db, p);
    }
  }

  /** When a worker is told that the key space is used up, it is. */
  lemma ExhaustedIsTrue(db: Db, cfg: Config, name: string, now: int, issue: Issue)
    requires Inv(db) && WorkEnabled(db, cfg, name, now, issue)
    requires Work(db, cfg, name, now, issue).1 == Exhausted
    requires issue.VirtualIssue? && db.active.Some? && db.active.value in db.puzzles ==>
               db.puzzles[db.active.value].count <= cfg.maxProbes
    requires issue.LegacyIssue? ==> issue.chunkSize > 0
    ensures var d, p := Begin(db, cfg, name, now), db.active.value;
            if issue.VirtualIssue? then forall x | 0 <= x < d.puzzles[p].count :: !Free(d, p, x)
            else forall x | Holds(d.puzzles[p].keys, x) :: IssuedKey(d.chunks, p, x)
  {
    BeginKeeps(db, cfg, name, now);
    var d := Begin(db, cfg, name, now);
    var p := d.active.value;
    assert PuzzleOk(d, p);
    match issue
    case VirtualIssue(o, needed, pick) =>
      JobExact(d, p, o, needed, cfg.maxProbes, pick);
      forall x | 0 <= x < d.puzzles[p].count ensures !Free(d, p, x) {
        assert x in FreeSet(d, p) <==> Free(d, p, x);
      }
    case LegacyIssue(chunkSize, sector) =>
      ExhaustedMeansAllIssued(d, p, d.puzzles[p].keys);
  }

  // ── Rows over time ──────────────────────────────────────────────────────

  predicate Terminal(c: Chunk) {
    c.status == Completed || c.status == Found
  }

  /** Rows keep their place and their work; a terminal row never changes again. */
  predicate RowsEvolve(a: seq<Chunk>, b: seq<Chunk>) {
    && |a| <= |b|
    && forall i | 0 <= i < |a| :: SameWork(a[i], b[i]) && (Terminal(a[i]) ==> b[i] == a[i])
  }

  predicate Evolves(a: Db, b: Db) {
    RowsEvolve(a.chunks, b.chunks) && a.findings <= b.findings
  }

  lemma {:induction false} AddFindingsExtends(findings: seq<Finding>, job: nat, name: string, rs: seq<Report>)
    ensures findings <= AddFindings(findings, job, name, rs)
  {
    if rs != [] {
      AddFindingsExtends(findings, job, name, rs[..|rs| - 1]);
    }
  }

  lemma BeginEvolves(db: Db, cfg: Config, name: string, now: int)
    ensures Evolves(db, Begin(db, cfg, name, now))
  {}

  lemma RetakenIsReclaimed(d: Db, p: int, name: string, stale: bool)
    requires p in d.puzzles && Choose(d, p, name, stale).Retake?
    ensures Choose(d, p, name, stale).row < |d.chunks|
    ensures d.chunks[Choose(d, p, name, stale).row].status == Reclaimed
  {}

  lemma EvolvesOn(a: Db, b: Db, c: Db)
    requires Evolves(a, b) && Evolves(b, c)
    ensures Evolves(a, c)
  {
    forall i | 0 <= i < |a.chunks|
      ensures SameWork(a.chunks[i], c.chunks[i]) && (Terminal(a.chunks[i]) ==> c.chunks[i] == a.chunks[i])
    {
      assert SameWork(a.chunks[i], b.chunks[i]) && SameWork(b.chunks[i], c.chunks[i]);
    }
  }

  lemma WorkEvolves(db: Db, cfg: Config, name: string, now: int, issue: Issue)
    requires WorkEnabled(db, cfg, name, now, issue)
    ensures Evolves(db, Work(db, cfg, name, now, issue).0)
  {
    var d, stale := Begin(db, cfg, name, now), Stale(db, cfg, name, now);
    BeginEvolves(db, cfg, name, now);
    if d.active.Some? {
      var how := Choose(d, d.active.value, name, stale);
      if how.Retake? {
        RetakenIsReclaimed(d, d.active.value, name, stale);
      }
      ServedEvolves(d, d.active.value, name, now, how, issue);
      EvolvesOn(db, d, Served(d, d.active.value, name, now, how, issue).0);
    }
  }

  lemma ServedEvolves(d: Db, p: int, name: string, now: int, how: Serving, issue: Issue)
    requires how.Existing? || how.Retake? ==> how.row < |d.chunks|
    requires how.Retake? ==> d.chunks[how.row].status == Reclaimed
    requires how.Fresh? ==> IssueUsable(d, p, issue)
    ensures Evolves(d, Served(d, p, name, now, how, issue).0)
  {}

  lemma OneRowEvolves(db: Db, job: nat, c: Chunk)
    requires job < |db.chunks| && !Terminal(db.chunks[job]) && SameWork(db.chunks[job], c)
    ensures RowsEvolve(db.chunks, db.chunks[job := c])
  {}

  /** An accepted FOUND in terms of its two statements. */
  lemma FoundParts(db: Db, name: string, job: int, reports: seq<Report>)
    requires reports != []
    ensures var (after, result) := SubmitFound(db, name, job, reports);
            var marked := Marked(db, name, job, Distinct(reports)[0]);
            && (result == Accepted <==> marked.Some?)
            && (marked.None? ==> after == db)
            && (marked.Some? ==>
                  && job >= 0 && after.chunks == marked.value.chunks
                  && after.findings == AddFindings(db.findings, job, name, Distinct(reports)))
  {
    var rs := Distinct(reports);
    match Marked(db, name, job, rs[0])
    case Some(d) =>
      MarkedFindings(db, name, job, rs[0]);
      var recorded := d.(findings := AddFindings(d.findings, job, name, rs));
      assert SubmitFound(db, name, job, reports) == (ClearTest(recorded, job), Accepted);
      ClearTestRows(recorded, job);
    case None =>
  }

  lemma MarkedFindings(db: Db, name: string, job: int, primary: Report)
    requires Marked(db, name, job, primary).Some?
    ensures Marked(db, name, job, primary).value.findings == db.findings
  {}

  lemma ClearTestRows(db: Db, job: int)
    ensures ClearTest(db, job).chunks == db.chunks && ClearTest(db, job).findings == db.findings
  {}

  lemma MarkedEvolves(db: Db, name: string, job: int, primary: Report)
    requires Marked(db, name, job, primary).Some?
    ensures RowsEvolve(db.chunks, Marked(db, name, job, primary).value.chunks)
  {
    if HasRow(db, job, AssignedTo(name))
       || (!HasFinding(db.findings, job, name, primary.key) && HasRow(db, job, LateFor(name))) {
      OneRowEvolves(db, job, MarkFound(name, primary)(db.chunks[job]));
    }
  }

  lemma FoundEvolves(db: Db, name: string, job: int, reports: seq<Report>)
    requires reports != []
    ensures Evolves(db, SubmitFound(db, name, job, reports).0)
  {
    FoundParts(db, name, job, reports);
    var rs := Distinct(reports);
    var after := SubmitFound(db, name, job, reports).0;
    match Marked(db, name, job, rs[0])
    case Some(d) =>
      MarkedEvolves(db, name, job, rs[0]);
      AddFindingsExtends(db.findings, job, name, rs);
      assert RowsEvolve(db.chunks, after.chunks) && db.findings <= after.findings;
    case None =>
      assert after == db;
      EvolvesNot(db);
  }

  lemma EvolvesNot(db: Db)
    ensures Evolves(db, db)
  {}

  lemma DoneEvolves(db: Db, name: string, job: int, reported: nat)
    ensures Evolves(db, SubmitDone(db, name, job, reported).0)
  {}

  lemma TimeoutEvolves(db: Db, cfg: Config, now: int)
    ensures Evolves(db, ReclaimTimedOut(db, cfg, now).0)
  {}

  lemma HeartbeatEvolves(db: Db, name: string, job: int, now: int)
    ensures Evolves(db, Heartbeat(db, name, job, now))
  {}

  lemma AdminEvolves(db: Db, cfg: Config, op: Op)
    requires Enabled(db, cfg, op)
    requires op.DoImport? || op.DoSetTest? || op.DoActivate? || op.DoAddPuzzle?
    ensures Evolves(db, Step(db, cfg, op)) && Step(db, cfg, op).chunks == db.chunks
  {}

  lemma StepEvolves(db: Db, cfg: Config, op: Op)
    requires Inv(db) && Enabled(db, cfg, op)
    ensures Evolves(db, Step(db, cfg, op))
  {
    match op
    case DoWork(name, now, issue) => WorkEvolves(db, cfg, name, now, issue);
    case DoFound(name, job, reports) => FoundEvolves(db, name, job, reports);
    case DoDone(name, job, reported) => DoneEvolves(db, name, job, reported);
    case DoTimeout(now) => TimeoutEvolves(db, cfg, now);
    case DoHeartbeat(name, job, now) => HeartbeatEvolves(db, name, job, now);
    case _ => AdminEvolves(db, cfg, op);
  }

  /** Completed and FOUND rows are frozen, and findings are never lost, from any point of a run on. */
  lemma {:induction false} RunEvolves(cfg: Config, ops: seq<Op>, run: seq<Db>, i: nat, j: nat)
    requires IsRun(cfg, ops, run) && Inv(run[0]) && i <= j < |run|
    ensures Inv(run[j]) && Evolves(run[i], run[j])
  {
    if j > 0 {
      RunEvolves(cfg, ops, run, if i < j then i else j - 1, j - 1);
      assert Enabled(run[j - 1], cfg, ops[j - 1]) && run[j - 1 + 1] == Step(run[j - 1], cfg, ops[j - 1]);
      StepKeeps(run[j - 1], cfg, ops[j - 1]);
      StepEvolves(run[j - 1], cfg, ops[j - 1]);
      if i < j {
        EvolvesOn(run[i], run[j - 1], run[j]);
      }
    }
  }

  // ── Reporting again ─────────────────────────────────────────────────────

  lemma {:induction false} AddNothing(findings: seq<Finding>, job: nat, name: string, rs: seq<Report>)
    requires forall k | HasKey(rs, k) :: HasFinding(findings, job, name, k)
    ensures AddFindings(findings, job, name, rs) == findings
  {
    if rs != [] {
      var init, last := rs[..|rs| - 1], rs[|rs| - 1];
      assert rs == init + [last];
      forall k | HasKey(init, k) || k == last.key ensures HasFinding(findings, job, name, k) {
        HasKeySnoc(init, last, k);
      }
      AddNothing(findings, job, name, init);
    }
  }

  /** What an accepted FOUND leaves: a FOUND row of this worker and a finding for every reported key. */
  ghost predicate Recorded(db: Db, name: string, job: int, reports: seq<Report>) {
    && 0 <= job < |db.chunks| && db.chunks[job].status == Found && db.chunks[job].worker == Some(name)
    && forall k | HasKey(Distinct(reports), k) :: HasFinding(db.findings, job, name, k)
  }

  lemma MarkedIsFound(db: Db, name: string, job: int, primary: Report)
    requires Inv(db) && Marked(db, name, job, primary).Some?
    ensures var chunks := Marked(db, name, job, primary).value.chunks;
            0 <= job < |chunks| && chunks[job].status == Found && chunks[job].worker == Some(name)
  {
    if HasFinding(db.findings, job, name, primary.key) {
      var f :| 0 <= f < |db.findings| && SameFinding(db.findings[f], job, name, primary.key);
      assert FindingFits(db.chunks, db.findings[f]);
    }
  }

  lemma AcceptedIsRecorded(db: Db, name: string, job: int, reports: seq<Report>)
    requires Inv(db) && reports != [] && SubmitFound(db, name, job, reports).1 == Accepted
    ensures Recorded(SubmitFound(db, name, job, reports).0, name, job, reports)
  {
    var rs := Distinct(reports);
    FoundParts(db, name, job, reports);
    MarkedIsFound(db, name, job, rs[0]);
    forall k | HasKey(rs, k) ensures HasFinding(AddFindings(db.findings, job, name, rs), job, name, k) {
      AddFindingsHas(db.findings, job, name, rs, job, name, k);
    }
  }

  lemma RecordedStays(a: Db, b: Db, name: string, job: int, reports: seq<Report>)
    requires Evolves(a, b) && Recorded(a, name, job, reports)
    ensures Recorded(b, name, job, reports)
  {
    forall k | HasKey(Distinct(reports), k) ensures HasFinding(b.findings, job, name, k) {
      var f :| 0 <= f < |a.findings| && SameFinding(a.findings[f], job, name, k);
      assert b.findings[f] == a.findings[f];
    }
  }

  /** The one thing that reporting again can change: the same test span, set once more, is cleared once more. */
  predicate TestSpanBack(db: Db, job: int) {
    && 0 <= job < |db.chunks| && db.chunks[job].isTest && db.chunks[job].puzzle in db.puzzles
    && db.puzzles[db.chunks[job].puzzle].test == Some(db.chunks[job].keys)
  }

  lemma RecordedAgain(db: Db, name: string, job: int, reports: seq<Report>)
    requires reports != [] && Recorded(db, name, job, reports)
    ensures SubmitFound(db, name, job, reports) == (ClearTest(db, job), Accepted)
    ensures ClearTest(db, job) == db <==> !TestSpanBack(db, job)
  {
    var rs := Distinct(reports);
    assert rs[0].key == reports[0].key && HasKey(rs, rs[0].key);
    AddNothing(db.findings, job, name, rs);
    assert db.(findings := db.findings) == db;
    if TestSpanBack(db, job) {
      assert ClearTest(db, job).puzzles[db.chunks[job].puzzle].test == None;
    }
  }

  lemma StillRecorded(cfg: Config, ops: seq<Op>, run: seq<Db>, i: nat, j: nat,
                      name: string, job: int, reports: seq<Report>)
    requires IsRun(cfg, ops, run) && run[0] == EMPTY && i < j < |run|
    requires ops[i] == DoFound(name, job, reports) && reports != []
    requires SubmitFound(run[i], name, job, reports).1 == Accepted
    ensures Inv(run[j]) && Recorded(run[j], name, job, reports)
  {
    RunsAreSafe(cfg, ops, run, 0);
    RunsAreSafe(cfg, ops, run, i);
    AcceptedIsRecorded(run[i], name, job, reports);
    assert run[i + 1] == Step(run[i], cfg, ops[i]);
    RunEvolves(cfg, ops, run, i + 1, j);
    RecordedStays(run[i + 1], run[j], name, job, reports);
  }

  /**
   * A FOUND that was accepted is accepted again at any later time, as the owner, late, or after reassignment. It changes
   * nothing, except when the row's test span has been set again.
   */
  lemma ReportingAgain(cfg: Config, ops: seq<Op>, run: seq<Db>, i: nat, j: nat,
                       name: string, job: int, reports: seq<Report>)
    requires IsRun(cfg, ops, run) && run[0] == EMPTY && i < j < |run|
    requires ops[i] == DoFound(name, job, reports) && reports != []
    requires SubmitFound(run[i], name, job, reports).1 == Accepted
    ensures var (after, result) := SubmitFound(run[j], name, job, reports);
            && result == Accepted
            && after.chunks == run[j].chunks && after.findings == run[j].findings
            && (after == run[j] <==> !TestSpanBack(run[j], job))
  {
    StillRecorded(cfg, ops, run, i, j, name, job, reports);
    RecordedAgain(run[j], name, job, reports);
  }

  lemma TurnedAway(db: Db, name: string, job: int, reports: seq<Report>,
                   other: string, others: seq<Report>, reported: nat)
    requires Inv(db) && Recorded(db, name, job, reports) && other != name && others != []
    ensures SubmitFound(db, other, job, others) == (db, Rejected)
    ensures SubmitDone(db, other, job, reported) == (db, Rejected)
  {
    NoFindingByOther(db, name, job, other, Distinct(others)[0].key);
  }

  lemma NoFindingByOther(db: Db, name: string, job: int, other: string, key: nat)
    requires Inv(db) && 0 <= job < |db.chunks| && db.chunks[job].worker == Some(name) && other != name
    ensures !HasFinding(db.findings, job, other, key)
  {}

  /** Once a FOUND is accepted, every submission for the job by another worker is turned away and changes nothing. */
  lemma OthersTurnedAway(cfg: Config, ops: seq<Op>, run: seq<Db>, i: nat, j: nat,
                         name: string, job: int, reports: seq<Report>,
                         other: string, others: seq<Report>, reported: nat)
    requires IsRun(cfg, ops, run) && run[0] == EMPTY && i < j < |run|
    requires ops[i] == DoFound(name, job, reports) && reports != []
    requires SubmitFound(run[i], name, job, reports).1 == Accepted
    requires other != name && others != []
    ensures SubmitFound(run[j], other, job, others) == (run[j], Rejected)
    ensures SubmitDone(run[j], other, job, reported) == (run[j], Rejected)
  {
    StillRecorded(cfg, ops, run, i, j, name, job, reports);
    TurnedAway(run[j], name, job, reports, other, others, reported);
  }

  // ── The state of rows, in every run ─────────────────────────────────────

  ghost predicate HasFindings(db: Db, i: nat) {
    exists f :: 0 <= f < |db.findings| && db.findings[f].chunk == i
  }

  /** A chunk is FOUND exactly when it has findings; all are by its worker and one carries its found_key. */
  lemma FoundMeansFindings(cfg: Config, ops: seq<Op>, run: seq<Db>, t: nat, i: nat)
    requires IsRun(cfg, ops, run) && run[0] == EMPTY && t < |run| && i < |run[t].chunks|
    ensures run[t].chunks[i].status == Found <==> HasFindings(run[t], i)
    ensures forall f | 0 <= f < |run[t].findings| && run[t].findings[f].chunk == i ::
              run[t].chunks[i].worker == Some(run[t].findings[f].worker)
    ensures run[t].chunks[i].status == Found ==>
              && run[t].chunks[i].worker.Some? && run[t].chunks[i].foundKey.Some?
              && HasFinding(run[t].findings, i, run[t].chunks[i].worker.value, run[t].chunks[i].foundKey.value)
  {
    RunsAreSafe(cfg, ops, run, t);
    var db := run[t];
    assert RowState(db.chunks[i]) && KeyRecorded(db.findings, i, db.chunks[i]);
    forall f | 0 <= f < |db.findings| && db.findings[f].chunk == i ensures FindingFits(db.chunks, db.findings[f]) {
    }
    if db.chunks[i].status == Found {
      var f :| 0 <= f < |db.findings| &&
               SameFinding(db.findings[f], i, db.chunks[i].worker.value, db.chunks[i].foundKey.value);
      assert db.findings[f].chunk == i;
    }
  }

  /**
   * A row has no worker exactly when it is reclaimed, and then it knows its last one. No worker holds two jobs of one
   * puzzle, and no test span is held, or waiting to be handed out again, twice.
   */
  lemma RowsAreConsistent(cfg: Config, ops: seq<Op>, run: seq<Db>, t: nat, i: nat, j: nat)
    requires IsRun(cfg, ops, run) && run[0] == EMPTY && t < |run| && i < j < |run[t].chunks|
    ensures var a, b := run[t].chunks[i], run[t].chunks[j];
            && (a.worker.None? <==> a.status == Reclaimed) && (a.status == Reclaimed ==> a.prevWorker.Some?)
            && (b.worker.None? <==> b.status == Reclaimed) && (b.status == Reclaimed ==> b.prevWorker.Some?)
            && !(a.status == Assigned && b.status == Assigned && a.worker == b.worker && a.puzzle == b.puzzle)
            && !(a.isTest && b.isTest && a.puzzle == b.puzzle && a.keys == b.keys && Live(a) && Live(b))
  {
    RunsAreSafe(cfg, ops, run, t);
    assert RowState(run[t].chunks[i]) && RowState(run[t].chunks[j]) && !Clash(run[t].chunks[i], run[t].chunks[j]);
  }

  // ── Who can take a job away ─────────────────────────────────────────────

  /** Row i is assigned to the worker it was assigned to before. */
  predicate StillAssigned(a: Db, b: Db, i: nat)
    requires i < |a.chunks|
  {
    i < |b.chunks| && b.chunks[i].status == Assigned && b.chunks[i].worker == a.chunks[i].worker
  }

  /** Its worker is back from a long absence or reports too few keys, or a sweep finds its heartbeat too old. */
  predicate GivenUp(db: Db, cfg: Config, op: Op, i: nat)
    requires i < |db.chunks|
  {
    var c := db.chunks[i];
    c.status == Assigned &&
    match op
    case DoWork(name, now, _) =>
      c.worker == Some(name) && name in db.workers && db.workers[name] < now - cfg.reactivateAfter
    case DoTimeout(now) => !c.isTest && c.heartbeat.Some? && c.heartbeat.value < now - cfg.timeout
    case DoDone(name, job, reported) =>
      job == i && c.worker == Some(name) && reported < c.keys.end - c.keys.start
    case _ => false
  }

  /** The row is given up, done by its worker, or reported FOUND by its worker or the one before. */
  predicate TakesJob(db: Db, cfg: Config, op: Op, i: nat)
    requires i < |db.chunks|
  {
    var c := db.chunks[i];
    || GivenUp(db, cfg, op, i)
    || (op.DoDone? && op.job == i && c.worker == Some(op.name))
    || (op.DoFound? && op.job == i && (c.worker == Some(op.name) || c.prevWorker == Some(op.name)))
  }

  /** A returning worker's job that is the test chunk of the active puzzle: it is handed out again at once. */
  predicate HandedBack(db: Db, cfg: Config, op: Op, i: nat)
    requires i < |db.chunks|
  {
    var c := db.chunks[i];
    && op.DoWork? && GivenUp(db, cfg, op, i)
    && c.isTest && db.active == Some(c.puzzle) && c.puzzle in db.puzzles && db.puzzles[c.puzzle].test == Some(c.keys)
  }

  lemma ServedLeaves(d: Db, p: int, name: string, now: int, how: Serving, issue: Issue, i: nat)
    requires how.Existing? || how.Retake? ==> how.row < |d.chunks|
    requires how.Fresh? ==> IssueUsable(d, p, issue)
    requires i < |d.chunks| && !(how.Retake? && how.row == i)
    ensures i < |Served(d, p, name, now, how, issue).0.chunks|
    ensures Served(d, p, name, now, how, issue).0.chunks[i] == d.chunks[i]
  {}

  /** Row i as the first statements of a work request leave it. */
  lemma BeginRow(db: Db, cfg: Config, name: string, now: int, issue: Issue, i: nat)
    requires i < |db.chunks|
    ensures i < |Begin(db, cfg, name, now).chunks|
    ensures Begin(db, cfg, name, now).chunks[i] ==
              if GivenUp(db, cfg, DoWork(name, now, issue), i) then
                db.chunks[i].(status := Reclaimed, prevWorker := Some(name), worker := None,
                              assignedAt := None, heartbeat := None)
              else db.chunks[i]
  {}

  lemma GivesUpAll(db: Db, cfg: Config, name: string, now: int, issue: Issue, p: int, i: nat)
    requires i < |db.chunks| && GivenUp(db, cfg, DoWork(name, now, issue), i)
    ensures FirstWhere(Begin(db, cfg, name, now).chunks, AssignedIn(name, p)) == None
  {
    var d := Begin(db, cfg, name, now);
    forall j | 0 <= j < |d.chunks| ensures !AssignedIn(name, p)(d.chunks[j]) {
      BeginRow(db, cfg, name, now, issue, j);
    }
  }

  /** No other row for the span of an assigned test row is assigned or waiting. */
  lemma OnlyTestRow(db: Db, cfg: Config, name: string, now: int, issue: Issue, i: nat, j: nat, status: Status)
    requires Inv(db) && i < |db.chunks| && j < |db.chunks| && i != j && db.chunks[i].status == Assigned
    requires db.chunks[i].isTest && (status == Assigned || status == Reclaimed)
    ensures !TestWith(db.chunks[i].puzzle, db.chunks[i].keys, status)(Begin(db, cfg, name, now).chunks[j])
  {
    BeginRow(db, cfg, name, now, issue, j);
    if i < j {
      assert !Clash(db.chunks[i], db.chunks[j]);
    } else {
      assert !Clash(db.chunks[j], db.chunks[i]);
    }
  }

  lemma TestRowIsFirst(db: Db, cfg: Config, name: string, now: int, issue: Issue, i: nat)
    requires Inv(db) && i < |db.chunks| && GivenUp(db, cfg, DoWork(name, now, issue), i) && db.chunks[i].isTest
    ensures ClaimTest(Begin(db, cfg, name, now), db.chunks[i].puzzle, db.chunks[i].keys) == Some(Retake(i))
  {
    var d, p, span := Begin(db, cfg, name, now), db.chunks[i].puzzle, db.chunks[i].keys;
    BeginRow(db, cfg, name, now, issue, i);
    forall j | 0 <= j < |d.chunks| && j != i
      ensures !TestWith(p, span, Assigned)(d.chunks[j]) && !TestWith(p, span, Reclaimed)(d.chunks[j])
    {
      OnlyTestRow(db, cfg, name, now, issue, i, j, Assigned);
      OnlyTestRow(db, cfg, name, now, issue, i, j, Reclaimed);
    }
    assert TestWith(p, span, Reclaimed)(d.chunks[i]) && !TestWith(p, span, Assigned)(d.chunks[i]);
    assert FirstWhere(d.chunks, TestWith(p, span, Reclaimed)) == Some(i);
  }

  lemma RetakenGivenUp(db: Db, cfg: Config, name: string, now: int, issue: Issue, i: nat)
    requires WorkEnabled(db, cfg, name, now, issue) && db.active.Some?
    requires i < |db.chunks| && db.chunks[i].status == Assigned
    requires Choose(Begin(db, cfg, name, now), db.active.value, name, Stale(db, cfg, name, now)) == Retake(i)
    ensures HandedBack(db, cfg, DoWork(name, now, issue), i)
  {
    RetakenIsReclaimed(Begin(db, cfg, name, now), db.active.value, name, Stale(db, cfg, name, now));
    BeginRow(db, cfg, name, now, issue, i);
  }

  /** Of the assigned rows, a work request hands out exactly those that are handed back. */
  lemma HandsBack(db: Db, cfg: Config, name: string, now: int, issue: Issue, i: nat)
    requires Inv(db) && WorkEnabled(db, cfg, name, now, issue)
    requires i < |db.chunks| && db.chunks[i].status == Assigned && db.active.Some?
    ensures HandedBack(db, cfg, DoWork(name, now, issue), i) <==>
              Choose(Begin(db, cfg, name, now), db.active.value, name, Stale(db, cfg, name, now)) == Retake(i)
  {
    if HandedBack(db, cfg, DoWork(name, now, issue), i) {
      GivesUpAll(db, cfg, name, now, issue, db.active.value, i);
      TestRowIsFirst(db, cfg, name, now, issue, i);
    } else if Choose(Begin(db, cfg, name, now), db.active.value, name, Stale(db, cfg, name, now)) == Retake(i) {
      RetakenGivenUp(db, cfg, name, now, issue, i);
    }
  }

  lemma WorkTakes(db: Db, cfg: Config, name: string, now: int, issue: Issue, i: nat)
    requires Inv(db) && WorkEnabled(db, cfg, name, now, issue)
    requires i < |db.chunks| && db.chunks[i].status == Assigned
    ensures var op, after := DoWork(name, now, issue), Work(db, cfg, name, now, issue).0;
            && (StillAssigned(db, after, i) <==> !TakesJob(db, cfg, op, i) || HandedBack(db, cfg, op, i))
            && (!TakesJob(db, cfg, op, i) ==> i < |after.chunks| && after.chunks[i] == db.chunks[i])
  {
    var d, stale := Begin(db, cfg, name, now), Stale(db, cfg, name, now);
    BeginRow(db, cfg, name, now, issue, i);
    if d.active.Some? {
      var p := d.active.value;
      var how := Choose(d, p, name, stale);
      Chosen(d, p, name, stale);
      HandsBack(db, cfg, name, now, issue, i);
      if how != Retake(i) {
        ServedLeaves(d, p, name, now, how, issue, i);
      }
    }
  }

  lemma FoundTakes(db: Db, name: string, job: int, reports: seq<Report>, i: nat)
    requires Inv(db) && reports != [] && i < |db.chunks| && db.chunks[i].status == Assigned
    ensures var after := SubmitFound(db, name, job, reports).0;
            var takes := job == i && (db.chunks[i].worker == Some(name) || db.chunks[i].prevWorker == Some(name));
            && i < |after.chunks| && (StillAssigned(db, after, i) <==> !takes)
            && (!takes ==> after.chunks[i] == db.chunks[i])
  {
    FoundParts(db, name, job, reports);
    var rs := Distinct(reports);
    NoFindingYet(db, i, name, rs[0].key);
    MarkedAt(db, name, job, rs[0], i);
  }

  lemma NoFindingYet(db: Db, i: nat, name: string, key: nat)
    requires Inv(db) && i < |db.chunks| && db.chunks[i].status != Found
    ensures !HasFinding(db.findings, i, name, key)
  {
    forall f | 0 <= f < |db.findings| ensures !SameFinding(db.findings[f], i, name, key) {
      assert FindingFits(db.chunks, db.findings[f]);
    }
  }

  /** A report changes no row but its own. */
  lemma MarkedAt(db: Db, name: string, job: int, primary: Report, i: nat)
    requires i < |db.chunks| && (job == i ==> !HasFinding(db.findings, job, name, primary.key))
    ensures Marked(db, name, job, primary).Some? ==> i < |Marked(db, name, job, primary).value.chunks|
    ensures Marked(db, name, job, primary).Some? ==>
              Marked(db, name, job, primary).value.chunks[i]
              == if job == i then MarkFound(name, primary)(db.chunks[i]) else db.chunks[i]
    ensures job == i ==>
              (Marked(db, name, job, primary).Some? <==> AssignedTo(name)(db.chunks[i]) || LateFor(name)(db.chunks[i]))
  {}

  lemma DoneTakes(db: Db, name: string, job: int, reported: nat, i: nat)
    requires i < |db.chunks| && db.chunks[i].status == Assigned
    ensures var after := SubmitDone(db, name, job, reported).0;
            var takes := job == i && db.chunks[i].worker == Some(name);
            && i < |after.chunks| && (StillAssigned(db, after, i) <==> !takes)
            && (!takes ==> after.chunks[i] == db.chunks[i])
  {}

  lemma SweepTakes(db: Db, cfg: Config, now: int, i: nat)
    requires i < |db.chunks| && db.chunks[i].status == Assigned
    ensures var after := ReclaimTimedOut(db, cfg, now).0;
            var takes := GivenUp(db, cfg, DoTimeout(now), i);
            && i < |after.chunks| && (StillAssigned(db, after, i) <==> !takes)
            && (!takes ==> after.chunks[i] == db.chunks[i])
  {}

  lemma HeartbeatLeaves(db: Db, name: string, job: int, now: int, i: nat)
    requires i < |db.chunks| && db.chunks[i].status == Assigned
    ensures var after := Heartbeat(db, name, job, now);
            && i < |after.chunks|
            && after.chunks[i] == if job == i && db.chunks[i].worker == Some(name)
                                  then db.chunks[i].(heartbeat := Some(now)) else db.chunks[i]
  {}

  /** Exactly these requests end an assignment; no other worker's request can. */
  lemma JobTakenIff(db: Db, cfg: Config, op: Op, i: nat)
    requires Inv(db) && Enabled(db, cfg, op) && i < |db.chunks| && db.chunks[i].status == Assigned
    ensures StillAssigned(db, Step(db, cfg, op), i) <==> !TakesJob(db, cfg, op, i) || HandedBack(db, cfg, op, i)
  {
    match op
    case DoWork(name, now, issue) => WorkTakes(db, cfg, name, now, issue, i);
    case DoFound(name, job, reports) => FoundTakes(db, name, job, reports, i);
    case DoDone(name, job, reported) => DoneTakes(db, name, job, reported, i);
    case DoTimeout(now) => SweepTakes(db, cfg, now, i);
    case DoHeartbeat(name, job, now) => HeartbeatLeaves(db, name, job, now, i);
    case _ => AdminEvolves(db, cfg, op);
  }

  /** A request that does not take the job changes nothing of its row but the heartbeat. */
  lemma JobUntouched(db: Db, cfg: Config, op: Op, i: nat)
    requires Inv(db) && Enabled(db, cfg, op) && i < |db.chunks| && db.chunks[i].status == Assigned
    requires !TakesJob(db, cfg, op, i)
    ensures i < |Step(db, cfg, op).chunks|
    ensures Step(db, cfg, op).chunks[i] ==
              if op.DoHeartbeat? && op.job == i && db.chunks[i].worker == Some(op.name)
              then db.chunks[i].(heartbeat := Some(op.now)) else db.chunks[i]
  {
    match op
    case DoWork(name, now, issue) => WorkTakes(db, cfg, name, now, issue, i);
    case DoFound(name, job, reports) => FoundTakes(db, name, job, reports, i);
    case DoDone(name, job, reported) => DoneTakes(db, name, job, reported, i);
    case DoTimeout(now) => SweepTakes(db, cfg, now, i);
    case DoHeartbeat(name, job, now) => HeartbeatLeaves(db, name, job, now, i);
    case _ => AdminEvolves(db, cfg, op);
  }

  /** A sweep within the timeout after at, a heartbeat no earlier than at, or another request that does not take job i. */
  predicate LeavesAlive(db: Db, cfg: Config, op: Op, i: nat, at: int)
    requires i < |db.chunks|
  {
    match op
    case DoTimeout(now) => now - cfg.timeout <= at
    case DoHeartbeat(_, job, now) => job == i ==> now >= at
    case _ => !TakesJob(db, cfg, op, i)
  }

  ghost predicate AllLeaveAlive(cfg: Config, ops: seq<Op>, run: seq<Db>, s: nat, t: nat, i: nat, at: int)
    requires IsRun(cfg, ops, run) && t < |run|
  {
    forall u | s < u < t :: i < |run[u].chunks| ==> LeavesAlive(run[u], cfg, ops[u], i, at)
  }

  /** The worker holds row i, which was heard of at that time or later. */
  predicate AliveSince(db: Db, i: nat, name: string, at: int) {
    && i < |db.chunks| && db.chunks[i].status == Assigned && db.chunks[i].worker == Some(name)
    && db.chunks[i].heartbeat.Some? && db.chunks[i].heartbeat.value >= at
  }

  lemma StaysAlive(db: Db, cfg: Config, op: Op, i: nat, name: string, at: int)
    requires Inv(db) && Enabled(db, cfg, op) && AliveSince(db, i, name, at) && LeavesAlive(db, cfg, op, i, at)
    ensures AliveSince(Step(db, cfg, op), i, name, at)
  {
    JobUntouched(db, cfg, op, i);
  }

  lemma ComesAlive(db: Db, cfg: Config, i: nat, name: string, at: int)
    requires i < |db.chunks| && db.chunks[i].status == Assigned && db.chunks[i].worker == Some(name)
    ensures AliveSince(Step(db, cfg, DoHeartbeat(name, i, at)), i, name, at)
  {}

  /** After a heartbeat the worker holds the job through every later sweep within the timeout. */
  lemma {:induction false} HeartbeatProtects(
      cfg: Config, ops: seq<Op>, run: seq<Db>, s: nat, t: nat, i: nat, name: string, at: int)
    requires IsRun(cfg, ops, run) && run[0] == EMPTY && s < t < |run|
    requires ops[s] == DoHeartbeat(name, i, at)
    requires i < |run[s].chunks| && run[s].chunks[i].status == Assigned && run[s].chunks[i].worker == Some(name)
    requires AllLeaveAlive(cfg, ops, run, s, t, i, at)
    ensures AliveSince(run[t], i, name, at)
  {
    var u := t - 1;
    RunsAreSafe(cfg, ops, run, u);
    assert Enabled(run[u], cfg, ops[u]) && run[u + 1] == Step(run[u], cfg, ops[u]);
    if s < u {
      HeartbeatProtects(cfg, ops, run, s, u, i, name, at);
      StaysAlive(run[u], cfg, ops[u], i, name, at);
    } else {
      ComesAlive(run[s], cfg, i, name, at);
    }
  }
}

/**
 * What each request answers and what it leaves in the rows, column by column (src/work_service.cpp,
 * src/submission_service.cpp).
 */
module RequestOutcomes {
  import opened Wrappers
  import opened HexBigint
  import opened Intervals
  import opened PoolModel
  import opened Legacy
  import opened Lifecycle
  import opened LifecycleSafety
  import opened PoolTheorems

  // ── Done ────────────────────────────────────────────────────────────────

  /** The puzzle of a test row no longer offers its span; nothing else about puzzles changes. */
  predicate TestCleared(a: Db, b: Db, row: nat)
    requires row < |a.chunks|
  {
    var c := a.chunks[row];
    && b.puzzles.Keys == a.puzzles.Keys
    && forall q | q in a.puzzles ::
         b.puzzles[q] == if c.isTest && q == c.puzzle && a.puzzles[q].test == Some(c.keys)
                         then a.puzzles[q].(test := None) else a.puzzles[q]
  }

  lemma ClearsTest(db: Db, row: nat)
    requires row < |db.chunks|
    ensures TestCleared(db, ClearTest(db, row), row)
    ensures ClearTest(db, row) == db.(puzzles := ClearTest(db, row).puzzles)
  {}

  /** Done is about a row that the worker holds; enough keys complete it, too few give it up. */
  lemma DoneAnswer(db: Db, name: string, job: int, reported: nat)
    ensures var result := SubmitDone(db, name, job, reported).1;
            var held := && 0 <= job < |db.chunks| && db.chunks[job].status == Assigned
                        && db.chunks[job].worker == Some(name);
            && (result == Accepted <==> held && reported >= db.chunks[job].keys.end - db.chunks[job].keys.start)
            && (result == UnderScan <==> held && reported < db.chunks[job].keys.end - db.chunks[job].keys.start)
            && (result == Rejected <==> !held)
  {}

  lemma DoneWrites(db: Db, name: string, job: int, reported: nat)
    ensures var (after, result) := SubmitDone(db, name, job, reported);
            match result
            case Rejected => after == db
            case UnderScan =>
              && 0 <= job < |db.chunks|
              && after == db.(chunks := db.chunks[job := db.chunks[job].(
                   status := Reclaimed, worker := None, prevWorker := Some(name), assignedAt := None, heartbeat := None)])
            case Accepted =>
              && 0 <= job < |db.chunks|
              && after == db.(chunks := db.chunks[job := db.chunks[job].(status := Completed)], puzzles := after.puzzles)
              && TestCleared(db, after, job)
  {
    if SubmitDone(db, name, job, reported).1 == Accepted {
      var mid := db.(chunks := db.chunks[job := db.chunks[job].(status := Completed)]);
      ClearsTest(mid, job);
    }
  }

  // ── FOUND ───────────────────────────────────────────────────────────────

  lemma MarkedIff(db: Db, name: string, job: int, primary: Report)
    ensures Marked(db, name, job, primary).Some? <==>
              || (0 <= job < |db.chunks| && db.chunks[job].status == Assigned && db.chunks[job].worker == Some(name))
              || HasFinding(db.findings, job, name, primary.key)
              || (0 <= job < |db.chunks| && db.chunks[job].prevWorker == Some(name)
                  && (db.chunks[job].status == Assigned || db.chunks[job].status == Reclaimed))
  {}

  lemma HasFindingMeans(findings: seq<Finding>, job: int, name: string, key: nat)
    ensures HasFinding(findings, job, name, key) <==>
              exists f :: 0 <= f < |findings| && findings[f].chunk == job
                          && findings[f].worker == name && findings[f].key == key
  {
    if f :| 0 <= f < |findings| && findings[f].chunk == job && findings[f].worker == name && findings[f].key == key {
      assert SameFinding(findings[f], job, name, key);
    }
  }

  /**
   * A FOUND is accepted from the worker that holds the row, from one whose finding of this key is recorded, and from the
   * last one that lost the row, as long as the row is not finished.
   */
  lemma FoundAnswer(db: Db, name: string, job: int, reports: seq<Report>)
    requires reports != []
    ensures SubmitFound(db, name, job, reports).1 == Accepted <==>
              || (0 <= job < |db.chunks| && db.chunks[job].status == Assigned && db.chunks[job].worker == Some(name))
              || (exists f :: 0 <= f < |db.findings| && db.findings[f].chunk == job
                              && db.findings[f].worker == name && db.findings[f].key == reports[0].key)
              || (0 <= job < |db.chunks| && db.chunks[job].prevWorker == Some(name)
                  && (db.chunks[job].status == Assigned || db.chunks[job].status == Reclaimed))
  {
    FoundParts(db, name, job, reports);
    MarkedIff(db, name, job, reports[0]);
    HasFindingMeans(db.findings, job, name, reports[0].key);
  }

  /** Any other is rejected and changes nothing. */
  lemma FoundRejected(db: Db, name: string, job: int, reports: seq<Report>)
    requires reports != [] && SubmitFound(db, name, job, reports).1 != Accepted
    ensures SubmitFound(db, name, job, reports) == (db, Rejected)
  {
    match Marked(db, name, job, Distinct(reports)[0])
    case None => assert SubmitFound(db, name, job, reports) == (db, Rejected);
    case Some(d) =>
  }

  lemma MarkedRow(db: Db, name: string, job: int, primary: Report)
    requires Inv(db) && Marked(db, name, job, primary).Some?
    ensures 0 <= job < |db.chunks|
    ensures var c := db.chunks[job];
            && (c.status == Found ==> c.worker == Some(name))
            && Marked(db, name, job, primary).value == db.(chunks := db.chunks[job :=
                 if c.status == Found then c
                 else c.(status := Found, worker := Some(name), foundKey := Some(primary.key),
                         foundAddress := if primary.address == Some("") then None else primary.address)])
  {
    MarkedIsFound(db, name, job, primary);
    var c := db.chunks[job];
    assert RowState(c);
    if c.status == Found {
      assert db.chunks[job := c] == db.chunks;
    } else {
      NoFindingYet(db, job, name, primary.key);
    }
  }

  lemma AcceptedMarks(db: Db, name: string, job: int, reports: seq<Report>)
    requires reports != [] && SubmitFound(db, name, job, reports).1 == Accepted
    ensures Marked(db, name, job, reports[0]).Some?
    ensures SubmitFound(db, name, job, reports).0.chunks == Marked(db, name, job, reports[0]).value.chunks
  {
    FoundParts(db, name, job, reports);
  }

  /** An accepted FOUND leaves the row FOUND by this worker; found_key and found_address come from the first report. */
  lemma FoundRow(db: Db, name: string, job: int, reports: seq<Report>)
    requires Inv(db) && reports != [] && SubmitFound(db, name, job, reports).1 == Accepted
    ensures 0 <= job < |db.chunks|
    ensures db.chunks[job].status == Found ==> db.chunks[job].worker == Some(name)
    ensures SubmitFound(db, name, job, reports).0.chunks == db.chunks[job :=
              if db.chunks[job].status == Found then db.chunks[job]
              else db.chunks[job].(
                status := Found, worker := Some(name), foundKey := Some(reports[0].key),
                foundAddress := if reports[0].address == Some("") then None else reports[0].address)]
  {
    AcceptedMarks(db, name, job, reports);
    MarkedRow(db, name, job, reports[0]);
  }

  /** Beside the row and the findings it may clear the test span, and nothing else. */
  lemma FoundRest(db: Db, name: string, job: int, reports: seq<Report>)
    requires Inv(db) && reports != [] && SubmitFound(db, name, job, reports).1 == Accepted
    ensures 0 <= job < |db.chunks|
    ensures var after := SubmitFound(db, name, job, reports).0;
            && after == db.(chunks := after.chunks, findings := after.findings, puzzles := after.puzzles)
            && TestCleared(db, after, job)
  {
    AcceptedMarks(db, name, job, reports);
    MarkedRow(db, name, job, reports[0]);
    FoundTests(db, name, job, reports, Marked(db, name, job, reports[0]).value);
  }

  lemma FoundTests(db: Db, name: string, job: int, reports: seq<Report>, d: Db)
    requires reports != [] && Marked(db, name, job, reports[0]) == Some(d) && 0 <= job < |db.chunks|
    requires d == db.(chunks := d.chunks) && |d.chunks| == |db.chunks| && SameWork(db.chunks[job], d.chunks[job])
    ensures var after := SubmitFound(db, name, job, reports).0;
            && after == db.(chunks := after.chunks, findings := after.findings, puzzles := after.puzzles)
            && TestCleared(db, after, job)
  {
    var rs := Distinct(reports);
    var recorded := d.(findings := AddFindings(d.findings, job, name, rs));
    assert SubmitFound(db, name, job, reports) == (ClearTest(recorded, job), Accepted);
    ClearsTest(recorded, job);
  }

  predicate FirstWithKey(reports: seq<Report>, r: nat) {
    r < |reports| && forall q | 0 <= q < r :: reports[q].key != reports[r].key
  }

  ghost predicate ComesFrom(f: Finding, job: nat, name: string, reports: seq<Report>) {
    && f.chunk == job && f.worker == name
    && exists r: nat :: FirstWithKey(reports, r) && reports[r].key == f.key && reports[r].address == f.address
  }

  ghost predicate AllFirst(rs: seq<Report>, reports: seq<Report>) {
    forall i | 0 <= i < |rs| :: exists r: nat :: FirstWithKey(reports, r) && reports[r] == rs[i]
  }

  lemma FirstStays(reports: seq<Report>, r: Report, i: nat)
    requires FirstWithKey(reports, i)
    ensures FirstWithKey(reports + [r], i)
  {}

  lemma NewIsFirst(reports: seq<Report>, r: Report)
    requires !HasKey(reports, r.key)
    ensures FirstWithKey(reports + [r], |reports|)
  {
    assert forall q | 0 <= q < |reports| :: reports[q].key != r.key;
  }

  lemma {:induction false} DistinctAreFirst(reports: seq<Report>)
    ensures AllFirst(Distinct(reports), reports)
  {
    if reports != [] {
      var n := |reports| - 1;
      var init, last := reports[..n], reports[n];
      var rs := Distinct(init);
      assert reports == init + [last];
      DistinctAreFirst(init);
      DistinctKeys(init, last.key);
      forall i | 0 <= i < |rs| ensures exists r: nat :: FirstWithKey(reports, r) && reports[r] == rs[i] {
        var r: nat :| FirstWithKey(init, r) && init[r] == rs[i];
        FirstStays(init, last, r);
      }
      if !HasKey(rs, last.key) {
        NewIsFirst(init, last);
        assert reports[n] == last;
      }
    }
  }

  /** Every new finding is some first report of its key, with the address given there. */
  lemma {:induction false} NewFindings(
      findings: seq<Finding>, job: nat, name: string, rs: seq<Report>, reports: seq<Report>)
    requires AllFirst(rs, reports)
    ensures findings <= AddFindings(findings, job, name, rs)
    ensures forall f | |findings| <= f < |AddFindings(findings, job, name, rs)| ::
              ComesFrom(AddFindings(findings, job, name, rs)[f], job, name, reports)
  {
    if rs != [] {
      var n := |rs| - 1;
      assert AllFirst(rs[..n], reports) by {
        forall i | 0 <= i < n ensures exists r: nat :: FirstWithKey(reports, r) && reports[r] == rs[..n][i] {
          assert rs[..n][i] == rs[i];
        }
      }
      NewFindings(findings, job, name, rs[..n], reports);
      var r: nat :| FirstWithKey(reports, r) && reports[r] == rs[n];
      var fs, last := AddFindings(findings, job, name, rs[..n]), Finding(job, name, rs[n].key, rs[n].address);
      assert ComesFrom(last, job, name, reports);
      assert AddFindings(findings, job, name, rs) == fs || AddFindings(findings, job, name, rs) == fs + [last];
    }
  }

  /** An accepted FOUND keeps the findings there are and adds those that are missing, one for every key reported. */
  lemma FoundFindings(db: Db, name: string, job: int, reports: seq<Report>)
    requires reports != [] && SubmitFound(db, name, job, reports).1 == Accepted
    ensures job >= 0 && db.findings <= SubmitFound(db, name, job, reports).0.findings
    ensures var findings := SubmitFound(db, name, job, reports).0.findings;
            && (forall f | |db.findings| <= f < |findings| :: ComesFrom(findings[f], job, name, reports))
            && forall r | 0 <= r < |reports| ::
                 exists f :: 0 <= f < |findings| && findings[f].chunk == job && findings[f].worker == name
                             && findings[f].key == reports[r].key
  {
    var rs := Distinct(reports);
    FoundParts(db, name, job, reports);
    DistinctAreFirst(reports);
    NewFindings(db.findings, job, name, rs, reports);
    var findings := AddFindings(db.findings, job, name, rs);
    forall r | 0 <= r < |reports|
      ensures exists f :: 0 <= f < |findings| && findings[f].chunk == job && findings[f].worker == name
                          && findings[f].key == reports[r].key
    {
      DistinctKeys(reports, reports[r].key);
      AddFindingsHas(db.findings, job, name, rs, job, name, reports[r].key);
      HasFindingMeans(findings, job, name, reports[r].key);
    }
  }

  // ── Heartbeat and sweep ─────────────────────────────────────────────────

  /** The worker was seen; the row lives on exactly when this worker holds it. */
  lemma HeartbeatWrites(db: Db, name: string, job: int, now: int)
    ensures Heartbeat(db, name, job, now) ==
              db.(workers := db.workers[name := now],
                  chunks := if 0 <= job < |db.chunks| && db.chunks[job].status == Assigned
                               && db.chunks[job].worker == Some(name)
                            then db.chunks[job := db.chunks[job].(heartbeat := Some(now))] else db.chunks)
  {}

  /** A sweep takes a job from its worker if and only if it is no test job and its heartbeat is too old. */
  lemma SweepWrites(db: Db, cfg: Config, now: int, i: nat)
    requires Inv(db) && i < |db.chunks|
    ensures var (after, c) := (ReclaimTimedOut(db, cfg, now).0, db.chunks[i]);
            && after == db.(chunks := after.chunks) && |after.chunks| == |db.chunks|
            && (c.status == Assigned ==> c.heartbeat.Some?)
            && (c.status == Assigned ==> (after.chunks[i] == c <==> c.isTest || c.heartbeat.value >= now - cfg.timeout))
            && (c.status != Assigned ==> after.chunks[i] == c)
            && (after.chunks[i] != c ==>
                  after.chunks[i] == c.(status := Reclaimed, worker := None, prevWorker := c.worker,
                                        assignedAt := None, heartbeat := None))
  {
    assert RowState(db.chunks[i]);
  }

  function Changed(a: seq<Chunk>, b: seq<Chunk>): set<nat>
    requires |a| == |b|
  {
    set i: nat | i < |a| && b[i] != a[i]
  }

  lemma {:induction false} CountsChanged(chunks: seq<Chunk>, p: Chunk -> bool, f: Chunk -> Chunk)
    requires forall c: Chunk | c in chunks && p(c) :: f(c) != c
    ensures CountWhere(chunks, p) == |Changed(chunks, UpdateWhere(chunks, p, f))|
  {
    var after := UpdateWhere(chunks, p, f);
    if chunks == [] {
      assert Changed(chunks, after) == {};
    } else {
      var n := |chunks| - 1;
      var init := UpdateWhere(chunks[..n], p, f);
      CountsChanged(chunks[..n], p, f);
      assert forall i | 0 <= i < n :: init[i] == after[i] && chunks[..n][i] == chunks[i];
      assert chunks[n] in chunks;
      if p(chunks[n]) {
        assert Changed(chunks, after) == Changed(chunks[..n], init) + {n};
      } else {
        assert Changed(chunks, after) == Changed(chunks[..n], init);
      }
    }
  }

  /** The number that a sweep returns is the number of rows it changes. */
  lemma SweepCount(db: Db, cfg: Config, now: int)
    ensures ReclaimTimedOut(db, cfg, now).1 == |Changed(db.chunks, ReclaimTimedOut(db, cfg, now).0.chunks)|
  {
    CountsChanged(db.chunks, TimedOut(now - cfg.timeout), Reclaim());
  }

  // ── A new puzzle ────────────────────────────────────────────────────────

  /** A new puzzle is active, with the least number of virtual chunks that cover it or with its sectors. */
  lemma AddedPuzzle(db: Db, cfg: Config, p: int, keys: Span, strategy: Strategy, size: nat)
    requires keys.start < keys.end && cfg.targetSectors > 0 && size > 0
    ensures var after := AddPuzzle(db, cfg, p, keys, strategy, size);
            && p in after.puzzles && after.active == Some(p)
            && after == db.(puzzles := db.puzzles[p := after.puzzles[p]], active := Some(p), sectors := after.sectors)
            && var (z, range) := (after.puzzles[p], keys.end - keys.start);
               match strategy
               case VChunks =>
                 && z == Puzzle(keys, None, VChunks, if size < range then size else range, z.count, 0, 0)
                 && (z.count - 1) * z.size < range <= z.count * z.size && after.sectors == db.sectors
               case Legacy =>
                 && z == Puzzle(keys, None, Strategy.Legacy, 0, 0, 0, 0)
                 && after.sectors == db.sectors + SeededSectors(p, keys, SectorCount(range, cfg.targetSectors),
                                                                SectorCount(range, cfg.targetSectors))
  {
    if strategy == VChunks {
      var range: nat := keys.end - keys.start;
      var s: nat := if size < range then size else range;
      var n := CeilDiv(range, s);
      CeilDivIsLeast(range, s, n);
      CeilDivIsLeast(range, s, 0);
      CeilDivIsLeast(range, s, n - 1);
    }
  }
}

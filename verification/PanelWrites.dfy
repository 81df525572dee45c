/**
 * Which requests bump the revision of every puzzle whose panels they change (src/service_work.cpp,
 * src/service_submit.cpp).
 */
module PanelWrites {
  import opened Wrappers
  import opened Intervals
  import opened PoolModel
  import opened BlockedRanges
  import opened Lifecycle
  import L = LifecycleSafety
  import T = PoolTheorems
  import opened VisProtocol

  /** What the handler of each operation invalidates before it releases the lock. */
  ghost function BumpOf(db: Db, cfg: Config, op: Op): Bump
    requires Lifecycle.Enabled(db, cfg, op)
  {
    match op
    case DoWork(name, now, issue) =>
      if Work(db, cfg, name, now, issue).1.Job? && db.active.Some? then BumpOne(db.active.value) else NoBump
    case DoHeartbeat(_, _, _) => NoBump
    case DoTimeout(now) => if ReclaimTimedOut(db, cfg, now).1 > 0 then BumpAll else NoBump
    case DoDone(name, job, reported) =>
      if SubmitDone(db, name, job, reported).1 != UnderScan && 0 <= job < |db.chunks| then BumpOne(db.chunks[job].puzzle)
      else NoBump
    case DoFound(_, job, _) => if 0 <= job < |db.chunks| then BumpOne(db.chunks[job].puzzle) else NoBump
    case DoImport(p, _, _) => BumpOne(p)
    case DoSetTest(_) => NoBump
    case DoActivate(p) => BumpOne(p)
    case DoAddPuzzle(p, _, _, _) => BumpOne(p)
  }

  /** A worker back from a long absence loses a job in this puzzle, and the answer bumps another puzzle or none. */
  ghost predicate LosesUnseen(db: Db, cfg: Config, name: string, now: int, issue: Issue, i: nat)
    requires WorkEnabled(db, cfg, name, now, issue)
  {
    && i < |db.chunks| && AssignedTo(name)(db.chunks[i]) && !db.chunks[i].isTest
    && (!Work(db, cfg, name, now, issue).1.Job? || Some(db.chunks[i].puzzle) != db.active)
  }

  /** The two kinds of request that change a panel without bumping it. */
  ghost predicate Unbumped(db: Db, cfg: Config, op: Op)
    requires Lifecycle.Enabled(db, cfg, op)
  {
    match op
    case DoWork(name, now, issue) =>
      Stale(db, cfg, name, now) && exists i: nat :: LosesUnseen(db, cfg, name, now, issue, i)
    case DoDone(name, job, reported) =>
      && HasRow(db, job, AssignedTo(name)) && !db.chunks[job].isTest
      && reported < db.chunks[job].keys.end - db.chunks[job].keys.start
    case _ => false
  }

  /** The request is about this puzzle: it answers for it, submits for one of its rows, or names it. */
  ghost predicate IsAbout(db: Db, cfg: Config, op: Op, p: int)
    requires Lifecycle.Enabled(db, cfg, op)
  {
    match op
    case DoWork(name, now, issue) => Work(db, cfg, name, now, issue).1.Job? && db.active == Some(p)
    case DoDone(_, job, _) => 0 <= job < |db.chunks| && db.chunks[job].puzzle == p
    case DoFound(_, job, _) => 0 <= job < |db.chunks| && db.chunks[job].puzzle == p
    case DoImport(q, _, _) => q == p
    case DoActivate(q) => q == p
    case DoAddPuzzle(q, _, _, _) => q == p
    case _ => false
  }

  /** Requests bump no other puzzle than the one they are about, and all puzzles only in a sweep that changes rows. */
  lemma BumpsOnly(db: Db, cfg: Config, op: Op)
    requires Lifecycle.Enabled(db, cfg, op)
    ensures BumpOf(db, cfg, op) == BumpAll <==> op.DoTimeout? && Step(db, cfg, op).chunks != db.chunks
    ensures BumpOf(db, cfg, op).BumpOne? ==> IsAbout(db, cfg, op, BumpOf(db, cfg, op).p)
  {
    if op.DoTimeout? {
      var filter := TimedOut(op.now - cfg.timeout);
      if CountWhere(db.chunks, filter) == 0 {
        NoneMatch(db.chunks, filter, Reclaim());
      } else {
        var i := SomeMatch(db.chunks, filter);
        assert Step(db, cfg, op).chunks[i] != db.chunks[i];
      }
    }
  }

  lemma {:induction false} SomeMatch(chunks: seq<Chunk>, p: Chunk -> bool) returns (i: nat)
    requires CountWhere(chunks, p) > 0
    ensures i < |chunks| && p(chunks[i])
  {
    i := |chunks| - 1;
    if !p(chunks[i]) {
      i := SomeMatch(chunks[..i], p);
    }
  }

  // ── When panels agree ───────────────────────────────────────────────────

  predicate Shown(c: Chunk, p: int) {
    c.puzzle == p && !c.isTest
  }

  /** The row looks the same in the panels of p. */
  predicate LooksSame(a: Chunk, b: Chunk, p: int) {
    && (Shown(a, p) <==> Shown(b, p))
    && (Shown(a, p) ==> a.status == b.status && a.keys == b.keys && a.generation == b.generation)
  }

  lemma {:induction false} RowsAgree(a: seq<Chunk>, b: seq<Chunk>, p: int)
    requires |a| == |b| && forall i | 0 <= i < |a| :: LooksSame(a[i], b[i], p)
    ensures RowsPart(a, p) == RowsPart(b, p)
  {
    if a != [] {
      var n := |a| - 1;
      RowsAgree(a[..n], b[..n], p);
      assert LooksSame(a[n], b[n], p);
    }
  }

  lemma RowsAppend(a: seq<Chunk>, c: Chunk, p: int)
    requires !Shown(c, p)
    ensures RowsPart(a + [c], p) == RowsPart(a, p)
  {
    assert (a + [c])[..|a|] == a;
  }

  lemma SameStart<T>(v: seq<T>, x: seq<T>, w: seq<T>, y: seq<T>)
    requires |v| == |w|
    ensures v + x == w + y ==> v == w
  {
    assert (v + x)[..|v|] == v && (w + y)[..|w|] == w;
  }

  lemma {:induction false} RowsDiffer(a: seq<Chunk>, b: seq<Chunk>, p: int, i: nat)
    requires SameLayout(a, b) && i < |a| && Shown(a[i], p) && a[i].status != b[i].status
    ensures RowsPart(a, p) != RowsPart(b, p)
  {
    var n := |a| - 1;
    SameLength(a[..n], b[..n], p);
    assert SameWork(a[n], b[n]);
    if i < n {
      RowsDiffer(a[..n], b[..n], p, i);
      var v, w := RowsPart(a[..n], p), RowsPart(b[..n], p);
      SameStart(v, RowsPart(a, p)[|v|..], w, RowsPart(b, p)[|w|..]);
      assert v + RowsPart(a, p)[|v|..] == RowsPart(a, p) && w + RowsPart(b, p)[|w|..] == RowsPart(b, p);
    } else {
      var v, w := RowsPart(a, p), RowsPart(b, p);
      assert v[|v| - 1].status != w[|w| - 1].status;
    }
  }

  lemma {:induction false} SameLength(a: seq<Chunk>, b: seq<Chunk>, p: int)
    requires SameLayout(a, b)
    ensures |RowsPart(a, p)| == |RowsPart(b, p)|
  {
    if a != [] {
      var n := |a| - 1;
      SameLength(a[..n], b[..n], p);
      assert SameWork(a[n], b[n]);
    }
  }

  ghost predicate SameFrame(a: Db, b: Db, p: int)
    requires p in a.puzzles && p in b.puzzles
  {
    a.puzzles[p].keys == b.puzzles[p].keys && a.puzzles[p].size == b.puzzles[p].size
  }

  lemma Agree(a: Db, b: Db, p: int)
    requires p in a.puzzles && p in b.puzzles && SameFrame(a, b, p)
    requires RowsPart(a.chunks, p) == RowsPart(b.chunks, p)
    requires forall x :: Blocked(a.blocked, p, x) <==> Blocked(b.blocked, p, x)
    ensures SameInputs(a, b, p)
  {
    assert BlockedPart(a.blocked, p) == BlockedPart(b.blocked, p);
  }

  /** Rows updated in place. */
  lemma AgreeInPlace(a: Db, b: Db, p: int)
    requires p in a.puzzles && p in b.puzzles && SameFrame(a, b, p) && a.blocked == b.blocked
    requires |a.chunks| == |b.chunks| && forall i | 0 <= i < |a.chunks| :: LooksSame(a.chunks[i], b.chunks[i], p)
    ensures SameInputs(a, b, p)
  {
    RowsAgree(a.chunks, b.chunks, p);
    Agree(a, b, p);
  }

  // ── Work ────────────────────────────────────────────────────────────────

  lemma BeginAgrees(db: Db, cfg: Config, name: string, now: int, p: int)
    requires p in db.puzzles
    requires Stale(db, cfg, name, now) ==>
               forall i | 0 <= i < |db.chunks| && AssignedTo(name)(db.chunks[i]) && !db.chunks[i].isTest ::
                 db.chunks[i].puzzle != p
    ensures SameInputs(db, Begin(db, cfg, name, now), p)
  {
    AgreeInPlace(db, Begin(db, cfg, name, now), p);
  }

  lemma ServedAgrees(d: Db, q: int, name: string, now: int, how: Serving, issue: Issue, p: int)
    requires p in d.puzzles && q in d.puzzles && p != q
    requires how.Existing? || how.Retake? ==> how.row < |d.chunks| && d.chunks[how.row].puzzle == q
    requires how.Fresh? ==> IssueUsable(d, q, issue)
    ensures p in Served(d, q, name, now, how, issue).0.puzzles
    ensures SameInputs(d, Served(d, q, name, now, how, issue).0, p)
  {
    var after := Served(d, q, name, now, how, issue).0;
    if |after.chunks| == |d.chunks| {
      AgreeInPlace(d, after, p);
    } else {
      RowsAppend(d.chunks, after.chunks[|d.chunks|], p);
      assert after.chunks == d.chunks + [after.chunks[|d.chunks|]];
      Agree(d, after, p);
    }
  }

  lemma SameOn(a: Db, b: Db, c: Db, p: int)
    requires p in a.puzzles && p in b.puzzles && p in c.puzzles && SameInputs(a, b, p) && SameInputs(b, c, p)
    ensures SameInputs(a, c, p)
  {}

  lemma ChosenRow(d: Db, p: int, name: string, stale: bool)
    requires p in d.puzzles
    ensures var how := Choose(d, p, name, stale);
            how.Existing? || how.Retake? ==> how.row < |d.chunks| && d.chunks[how.row].puzzle == p
  {}

  lemma WorkCovered(db: Db, cfg: Config, name: string, now: int, issue: Issue)
    requires L.Inv(db) && WorkEnabled(db, cfg, name, now, issue) && !Unbumped(db, cfg, DoWork(name, now, issue))
    ensures Covered(db, BumpOf(db, cfg, DoWork(name, now, issue)), Work(db, cfg, name, now, issue).0)
  {
    var (after, result) := Work(db, cfg, name, now, issue);
    var d, stale := Begin(db, cfg, name, now), Stale(db, cfg, name, now);
    forall p | p in db.puzzles && p in after.puzzles && !(result.Job? && db.active == Some(p))
      ensures SameInputs(db, after, p)
    {
      forall i | 0 <= i < |db.chunks| && AssignedTo(name)(db.chunks[i]) && !db.chunks[i].isTest && stale
        ensures db.chunks[i].puzzle != p
      {
        assert !LosesUnseen(db, cfg, name, now, issue, i);
      }
      BeginAgrees(db, cfg, name, now, p);
      if result.Job? {
        var q := d.active.value;
        ChosenRow(d, q, name, stale);
        ServedAgrees(d, q, name, now, Choose(d, q, name, stale), issue, p);
        SameOn(db, d, after, p);
      } else {
        assert after == d;
      }
    }
  }

  /** Of the rows that a returning worker loses, only test rows can be handed out again at once. */
  lemma LostStaysLost(db: Db, cfg: Config, name: string, now: int, issue: Issue, i: nat)
    requires WorkEnabled(db, cfg, name, now, issue) && Stale(db, cfg, name, now)
    requires i < |db.chunks| && AssignedTo(name)(db.chunks[i]) && !db.chunks[i].isTest
    ensures var after := Work(db, cfg, name, now, issue).0;
            i < |after.chunks| && after.chunks[i] == Reclaim()(db.chunks[i])
  {
    var d := Begin(db, cfg, name, now);
    assert d.chunks[i] == Reclaim()(db.chunks[i]);
  }

  lemma WorkKeepsPuzzles(db: Db, cfg: Config, name: string, now: int, issue: Issue)
    requires WorkEnabled(db, cfg, name, now, issue)
    ensures Work(db, cfg, name, now, issue).0.puzzles.Keys == db.puzzles.Keys
  {}

  lemma WorkUncovered(db: Db, cfg: Config, name: string, now: int, issue: Issue, i: nat)
    requires L.Inv(db) && WorkEnabled(db, cfg, name, now, issue)
    requires Stale(db, cfg, name, now) && LosesUnseen(db, cfg, name, now, issue, i)
    ensures !Covered(db, BumpOf(db, cfg, DoWork(name, now, issue)), Work(db, cfg, name, now, issue).0)
  {
    var after := Work(db, cfg, name, now, issue).0;
    WorkKeepsPuzzles(db, cfg, name, now, issue);
    assert L.RowShape(db.puzzles, db.chunks[i]);
    LostStaysLost(db, cfg, name, now, issue, i);
    T.WorkEvolves(db, cfg, name, now, issue);
    LostShows(db, after, i);
  }

  /** A job that stops being assigned shows in its puzzle's panels. */
  lemma LostShows(a: Db, b: Db, i: nat)
    requires i < |a.chunks| && T.RowsEvolve(a.chunks, b.chunks)
    requires !a.chunks[i].isTest && a.chunks[i].status != b.chunks[i].status
    requires a.chunks[i].puzzle in a.puzzles && a.chunks[i].puzzle in b.puzzles
    ensures !SameInputs(a, b, a.chunks[i].puzzle)
  {
    var p, n := a.chunks[i].puzzle, |a.chunks|;
    RowsDiffer(a.chunks, b.chunks[..n], p, i);
    RowsPrefix(b.chunks, n, p);
    SameLength(a.chunks, b.chunks[..n], p);
    SameWhole(RowsPart(a.chunks, p), RowsPart(b.chunks[..n], p), RowsPart(b.chunks, p));
  }

  lemma SameWhole<T>(v: seq<T>, w: seq<T>, z: seq<T>)
    requires |v| == |w| && w <= z
    ensures v == z ==> v == w
  {}

  lemma {:induction false} RowsPrefix(b: seq<Chunk>, n: nat, p: int)
    requires n <= |b|
    ensures RowsPart(b[..n], p) <= RowsPart(b, p)
  {
    if n < |b| {
      RowsPrefix(b[..|b| - 1], n, p);
      assert b[..|b| - 1][..n] == b[..n];
    } else {
      assert b[..n] == b;
    }
  }

  // ── Submissions and administration ──────────────────────────────────────

  /** At most one row and the test columns changed. */
  ghost predicate OnlyRow(a: Db, b: Db, job: int) {
    && L.SamePuzzles(a.puzzles, b.puzzles) && a.blocked == b.blocked
    && SameLayout(a.chunks, b.chunks)
    && forall i | 0 <= i < |a.chunks| && i != job :: b.chunks[i] == a.chunks[i]
  }

  lemma OnlyRowAgrees(a: Db, b: Db, job: int, p: int)
    requires OnlyRow(a, b, job) && p in a.puzzles && !(0 <= job < |a.chunks| && Shown(a.chunks[job], p))
    ensures p in b.puzzles && SameInputs(a, b, p)
  {
    assert L.SamePuzzle(a.puzzles[p], b.puzzles[p]);
    forall i | 0 <= i < |a.chunks| ensures LooksSame(a.chunks[i], b.chunks[i], p) {
      assert SameWork(a.chunks[i], b.chunks[i]);
    }
    AgreeInPlace(a, b, p);
  }

  lemma OnlyRowCovered(a: Db, b: Db, job: int, bump: Bump)
    requires OnlyRow(a, b, job) && (0 <= job < |a.chunks| ==> bump == BumpOne(a.chunks[job].puzzle))
    ensures Covered(a, bump, b)
  {
    forall p | p in a.puzzles && p in b.puzzles && bump != BumpOne(p) ensures SameInputs(a, b, p) {
      OnlyRowAgrees(a, b, job, p);
    }
  }

  lemma ClearTestOnlyRow(a: Db, b: Db, job: int)
    requires L.PuzzlesOk(b) && OnlyRow(a, b, job)
    ensures OnlyRow(a, ClearTest(b, job), job)
  {
    L.ClearTestSame(b, job);
    forall p | p in a.puzzles ensures L.SamePuzzle(a.puzzles[p], ClearTest(b, job).puzzles[p]) {
      assert L.SamePuzzle(a.puzzles[p], b.puzzles[p]) && L.SamePuzzle(b.puzzles[p], ClearTest(b, job).puzzles[p]);
    }
  }

  lemma DoneOnlyRow(db: Db, name: string, job: int, reported: nat)
    requires L.Inv(db)
    ensures OnlyRow(db, SubmitDone(db, name, job, reported).0, job)
  {
    if HasRow(db, job, AssignedTo(name)) {
      var c := db.chunks[job];
      if reported >= c.keys.end - c.keys.start {
        var done := db.(chunks := db.chunks[job := c.(status := Completed)]);
        L.RestPuzzlesOk(db, done);
        ClearTestOnlyRow(db, done, job);
      }
    }
  }

  lemma DoneExact(db: Db, cfg: Config, name: string, job: int, reported: nat)
    requires L.Inv(db)
    ensures Covered(db, BumpOf(db, cfg, DoDone(name, job, reported)), SubmitDone(db, name, job, reported).0)
       <==> !Unbumped(db, cfg, DoDone(name, job, reported))
  {
    var (after, result) := SubmitDone(db, name, job, reported);
    DoneOnlyRow(db, name, job, reported);
    if result != UnderScan {
      OnlyRowCovered(db, after, job, BumpOf(db, cfg, DoDone(name, job, reported)));
    } else if db.chunks[job].isTest {
      TestRowCovered(db, after, job);
    } else {
      assert L.RowShape(db.puzzles, db.chunks[job]);
      T.DoneEvolves(db, name, job, reported);
      LostShows(db, after, job);
    }
  }

  lemma TestRowCovered(a: Db, b: Db, job: nat)
    requires OnlyRow(a, b, job) && job < |a.chunks| && a.chunks[job].isTest
    ensures Covered(a, NoBump, b)
  {
    forall p | p in a.puzzles && p in b.puzzles ensures SameInputs(a, b, p) {
      OnlyRowAgrees(a, b, job, p);
    }
  }

  lemma MarkedOnlyRow(db: Db, name: string, job: int, primary: Report)
    requires Marked(db, name, job, primary).Some?
    ensures OnlyRow(db, Marked(db, name, job, primary).value, job)
    ensures Marked(db, name, job, primary).value == db.(chunks := Marked(db, name, job, primary).value.chunks)
  {}

  lemma RecordOnlyRow(db: Db, mid: Db, job: nat, name: string, rs: seq<Report>)
    requires L.PuzzlesOk(db) && OnlyRow(db, mid, job) && mid == db.(chunks := mid.chunks)
    ensures OnlyRow(db, ClearTest(mid.(findings := AddFindings(mid.findings, job, name, rs)), job), job)
  {
    var after := mid.(findings := AddFindings(mid.findings, job, name, rs));
    L.RestPuzzlesOk(db, after);
    ClearTestOnlyRow(db, after, job);
  }

  lemma FoundOnlyRow(db: Db, name: string, job: int, reports: seq<Report>)
    requires L.PuzzlesOk(db) && reports != []
    ensures OnlyRow(db, SubmitFound(db, name, job, reports).0, job)
  {
    var rs := Distinct(reports);
    var marked := Marked(db, name, job, rs[0]);
    match marked
    case Some(mid) =>
      MarkedOnlyRow(db, name, job, rs[0]);
      RecordOnlyRow(db, mid, job, name, rs);
      assert SubmitFound(db, name, job, reports).0
          == ClearTest(mid.(findings := AddFindings(mid.findings, job, name, rs)), job);
    case None =>
      assert SubmitFound(db, name, job, reports).0 == db;
  }

  lemma FoundCovered(db: Db, cfg: Config, name: string, job: int, reports: seq<Report>)
    requires L.Inv(db) && reports != []
    ensures Covered(db, BumpOf(db, cfg, DoFound(name, job, reports)), SubmitFound(db, name, job, reports).0)
  {
    FoundOnlyRow(db, name, job, reports);
    OnlyRowCovered(db, SubmitFound(db, name, job, reports).0, job, BumpOf(db, cfg, DoFound(name, job, reports)));
  }

  lemma TimeoutCovered(db: Db, cfg: Config, now: int)
    ensures Covered(db, BumpOf(db, cfg, DoTimeout(now)), ReclaimTimedOut(db, cfg, now).0)
  {
    var (after, n) := ReclaimTimedOut(db, cfg, now);
    if n == 0 {
      NoneMatch(db.chunks, TimedOut(now - cfg.timeout), Reclaim());
    }
  }

  lemma {:induction false} NoneMatch(chunks: seq<Chunk>, p: Chunk -> bool, f: Chunk -> Chunk)
    requires CountWhere(chunks, p) == 0
    ensures UpdateWhere(chunks, p, f) == chunks
  {
    if chunks != [] {
      var n := |chunks| - 1;
      NoneMatch(chunks[..n], p, f);
      forall i | 0 <= i < n ensures UpdateWhere(chunks, p, f)[i] == chunks[i] {
        assert UpdateWhere(chunks[..n], p, f)[i] == chunks[..n][i];
      }
    }
  }

  lemma HeartbeatCovered(db: Db, cfg: Config, name: string, job: int, now: int)
    ensures Covered(db, NoBump, Heartbeat(db, name, job, now))
  {
    var after := Heartbeat(db, name, job, now);
    forall p | p in db.puzzles ensures SameInputs(db, after, p) {
      AgreeInPlace(db, after, p);
    }
  }

  lemma ImportCovered(db: Db, p: int, source: string, spans: seq<Span>)
    requires L.Inv(db) && NonEmpty(spans)
    ensures Covered(db, BumpOne(p), Lifecycle.Import(db, p, source, spans))
  {
    var after := Lifecycle.Import(db, p, source, spans);
    InsertAllCorrect(db.blocked, p, source, spans);
    forall q | q in db.puzzles && q != p ensures SameInputs(db, after, q) {
      forall x ensures Blocked(db.blocked, q, x) <==> Blocked(after.blocked, q, x) {
        BySource(db.blocked, q, x);
        BySource(after.blocked, q, x);
      }
      Agree(db, after, q);
    }
  }

  lemma BySource(rows: seq<BlockedRow>, p: int, x: int)
    ensures Blocked(rows, p, x) <==> exists s :: SourceCovers(rows, p, s, x)
  {
    if Blocked(rows, p, x) {
      var i :| 0 <= i < |rows| && rows[i].puzzle == p && Holds(rows[i].span, x);
      assert rows[i] in rows;
      assert SourceCovers(rows, p, rows[i].source, x);
    }
    if s :| SourceCovers(rows, p, s, x) {
      var r :| r in rows && r.puzzle == p && r.source == s && Holds(r.span, x);
    }
  }

  lemma AdminCovered(db: Db, cfg: Config, op: Op)
    requires op.DoSetTest? || op.DoActivate? || op.DoAddPuzzle?
    requires Lifecycle.Enabled(db, cfg, op)
    ensures Covered(db, BumpOf(db, cfg, op), Step(db, cfg, op))
  {
    var after := Step(db, cfg, op);
    forall p | p in db.puzzles && p in after.puzzles ensures SameInputs(db, after, p) {
      AgreeInPlace(db, after, p);
    }
  }

  /**
   * Exactly two requests change a panel without invalidating it: a rejected under-scan, and the reclaim of a returning
   * worker's jobs outside the puzzle that the answer bumps. Every other write satisfies the cache's condition.
   */
  lemma CoveredExceptTwo(db: Db, cfg: Config, op: Op)
    requires L.Inv(db) && Lifecycle.Enabled(db, cfg, op)
    ensures Covered(db, BumpOf(db, cfg, op), Step(db, cfg, op)) <==> !Unbumped(db, cfg, op)
  {
    match op
    case DoWork(name, now, issue) =>
      if Unbumped(db, cfg, op) {
        var i: nat :| LosesUnseen(db, cfg, name, now, issue, i);
        WorkUncovered(db, cfg, name, now, issue, i);
      } else {
        WorkCovered(db, cfg, name, now, issue);
      }
    case DoDone(name, job, reported) => DoneExact(db, cfg, name, job, reported);
    case DoFound(name, job, reports) => FoundCovered(db, cfg, name, job, reports);
    case DoTimeout(now) => TimeoutCovered(db, cfg, now);
    case DoHeartbeat(name, job, now) => HeartbeatCovered(db, cfg, name, job, now);
    case DoImport(p, source, spans) => ImportCovered(db, p, source, spans);
    case _ => AdminCovered(db, cfg, op);
  }
}

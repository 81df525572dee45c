/** Concrete runs from the empty tables that reach the cases in which a promised property fails. */
module ReachedCases {
  import opened Wrappers
  import opened HexBigint
  import opened Intervals
  import opened Permutation
  import opened Sets
  import opened PoolModel
  import opened AllocSearch
  import opened VirtualJobs
  import opened Legacy
  import opened BlockedRanges
  import opened Lifecycle
  import opened PoolTheorems
  import opened PanelWrites
  import P = PoolPanels
  import V = VisProtocol

  const TEN_KEYS := Span(0, 10)

  function LegacyPuzzle(test: Option<Span>): Puzzle {
    Puzzle(TEN_KEYS, test, Legacy, 0, 0, 0, 0)
  }

  lemma OnlySectorKeys(keys: Span)
    requires keys.start < keys.end
    ensures SectorKeys(keys, 1, 0) == keys
  {
    assert 0 * ((keys.end - keys.start) / 1) == 0;
  }

  lemma OneSector(p: int, keys: Span)
    requires keys.start < keys.end
    ensures SeededSectors(p, keys, 1, 1) == [Sector(p, keys, keys.start, true)]
  {
    OnlySectorKeys(keys);
    assert SeededSectors(p, keys, 1, 0) == [];
  }

  // ── States that a run reaches ───────────────────────────────────────────

  ghost predicate Reaches(cfg: Config, db: Db) {
    exists ops, run :: IsRun(cfg, ops, run) && run[0] == EMPTY && run[|ops|] == db
  }

  lemma ReachesEmpty(cfg: Config)
    ensures Reaches(cfg, EMPTY)
  {
    assert IsRun(cfg, [], [EMPTY]);
  }

  lemma ReachesNext(cfg: Config, a: Db, op: Op, b: Db)
    requires Reaches(cfg, a) && Enabled(a, cfg, op) && Step(a, cfg, op) == b
    ensures Reaches(cfg, b)
  {
    var ops, run :| IsRun(cfg, ops, run) && run[0] == EMPTY && run[|ops|] == a;
    RunOn(cfg, ops, run, op);
    var run' := run + [b];
    assert run'[0] == EMPTY && run'[|ops + [op]|] == b;
  }

  /** One more operation. */
  lemma RunOn(cfg: Config, ops: seq<Op>, run: seq<Db>, op: Op)
    requires IsRun(cfg, ops, run) && Enabled(run[|ops|], cfg, op)
    ensures IsRun(cfg, ops + [op], run + [Step(run[|ops|], cfg, op)])
  {
    var ops', run' := ops + [op], run + [Step(run[|ops|], cfg, op)];
    forall i | 0 <= i < |ops'| ensures Enabled(run'[i], cfg, ops'[i]) && run'[i + 1] == Step(run'[i], cfg, ops'[i]) {
      if i < |ops| {
        assert Enabled(run[i], cfg, ops[i]) && run[i + 1] == Step(run[i], cfg, ops[i]);
      }
    }
  }

  function Add(p: int): Op {
    DoAddPuzzle(p, TEN_KEYS, Strategy.Legacy, 1)
  }

  function WithLegacy(db: Db, p: int): Db {
    db.(puzzles := db.puzzles[p := LegacyPuzzle(None)], active := Some(p),
        sectors := db.sectors + [Sector(p, TEN_KEYS, 0, true)])
  }

  lemma SmallPuzzle(cfg: Config, keys: Span)
    requires keys.start < keys.end < keys.start + MIN_SECTOR_SIZE && cfg.targetSectors > 0
    ensures SectorCount(keys.end - keys.start, cfg.targetSectors) == 1
  {}

  lemma AddSmall(db: Db, cfg: Config, p: int, keys: Span, size: nat)
    requires keys.start < keys.end < keys.start + MIN_SECTOR_SIZE && cfg.targetSectors > 0 && size > 0
    ensures AddPuzzle(db, cfg, p, keys, Strategy.Legacy, size) ==
              db.(puzzles := db.puzzles[p := Puzzle(keys, None, Strategy.Legacy, 0, 0, 0, 0)], active := Some(p),
                  sectors := db.sectors + [Sector(p, keys, keys.start, true)])
  {
    SmallPuzzle(cfg, keys);
    OneSector(p, keys);
  }

  lemma AddsLegacy(db: Db, cfg: Config, p: int)
    requires cfg.targetSectors > 0 && p !in db.puzzles
    ensures Enabled(db, cfg, Add(p)) && Step(db, cfg, Add(p)) == WithLegacy(db, p)
  {
    AddSmall(db, cfg, p, TEN_KEYS, 1);
  }

  // ── An under-scan that no panel hears of ────────────────────────────────

  function WithPuzzle(): Db {
    Db(map[1 := LegacyPuzzle(None)], Some(1), map[], [], [], [Sector(1, TEN_KEYS, 0, true)], [])
  }

  lemma FirstPuzzle()
    ensures WithLegacy(EMPTY, 1) == WithPuzzle()
  {}

  lemma PuzzleReached(cfg: Config)
    requires cfg.targetSectors > 0
    ensures Reaches(cfg, WithPuzzle())
  {
    FirstPuzzle();
    ReachesEmpty(cfg);
    AddsLegacy(EMPTY, cfg, 1);
    ReachesNext(cfg, EMPTY, Add(1), WithLegacy(EMPTY, 1));
  }

  function WithJob(): Db {
    WithPuzzle().(workers := map["a" := 0], chunks := [LegacyRow(1, "a", 0, TEN_KEYS, 0)],
                  sectors := [Sector(1, TEN_KEYS, 10, false)])
  }

  lemma IssuesJob(cfg: Config) returns (op: Op)
    ensures Enabled(WithPuzzle(), cfg, op) && Step(WithPuzzle(), cfg, op) == WithJob()
  {
    op := DoWork("a", 0, LegacyIssue(10, Some(0)));
    var d := Begin(WithPuzzle(), cfg, "a", 0);
    assert d == WithPuzzle().(workers := map["a" := 0]);
    assert OpenIds(d.sectors[..0], 1) == [];
    assert OpenIds(d.sectors, 1) == [0];
    assert Choose(d, 1, "a", false) == Fresh;
    assert LegacyPicks(d, 1, 10, cfg.targetSectors / 2, Some(0));
  }

  lemma JobReached(cfg: Config)
    requires cfg.targetSectors > 0
    ensures Reaches(cfg, WithJob())
  {
    PuzzleReached(cfg);
    var op := IssuesJob(cfg);
    ReachesNext(cfg, WithPuzzle(), op, WithJob());
  }

  /** One puzzle, one job, one done with no keys scanned. */
  lemma UnderScanReached(cfg: Config) returns (db: Db)
    requires cfg.targetSectors > 0
    ensures Reaches(cfg, db) && Unbumped(db, cfg, DoDone("a", 0, 0))
  {
    JobReached(cfg);
    db := WithJob();
  }

  // ── A worker back from a long absence, told that the puzzle is exhausted ──

  lemma NothingLeft(cfg: Config, now: int)
    requires now > cfg.reactivateAfter
    ensures Enabled(WithJob(), cfg, DoWork("a", now, LegacyIssue(10, None))) && Stale(WithJob(), cfg, "a", now)
    ensures Work(WithJob(), cfg, "a", now, LegacyIssue(10, None)).1 == Exhausted
  {
    var d := Begin(WithJob(), cfg, "a", now);
    assert OpenIds(d.sectors[..0], 1) == [];
    assert OpenIds(d.sectors, 1) == [];
    assert Choose(d, 1, "a", true) == Fresh;
  }

  lemma ReactivationReached(cfg: Config, now: int) returns (db: Db)
    requires cfg.targetSectors > 0 && now > cfg.reactivateAfter
    ensures Reaches(cfg, db) && Enabled(db, cfg, DoWork("a", now, LegacyIssue(10, None)))
    ensures Unbumped(db, cfg, DoWork("a", now, LegacyIssue(10, None)))
  {
    JobReached(cfg);
    NothingLeft(cfg, now);
    db := WithJob();
    assert LosesUnseen(db, cfg, "a", now, LegacyIssue(10, None), 0);
  }

  // ── Stale panels ────────────────────────────────────────────────────────

  /** Each request of an exceptional kind that a run allows extends it to an interleaving that serves a stale panel. */
  lemma UnbumpedIsSeen(cfg: Config, db: Db, op: Op) returns (es: seq<V.Event>, ss: seq<V.Sys>)
    requires Reaches(cfg, db) && Enabled(db, cfg, op) && Unbumped(db, cfg, op)
    ensures V.IsTrace(P.PoolWrites(cfg), es, ss) && ss[0] == V.Initial(EMPTY) && !V.FreshTrace(es, ss)
  {
    var ops, run :| IsRun(cfg, ops, run) && run[0] == EMPTY && run[|ops|] == db;
    RunOn(cfg, ops, run, op);
    es, ss := P.UnbumpedServesStale(cfg, ops + [op], run + [Step(db, cfg, op)]);
  }

  /** So the pool does serve stale panels: after an under-scan, say. */
  lemma StalePanelReached(cfg: Config) returns (es: seq<V.Event>, ss: seq<V.Sys>)
    requires cfg.targetSectors > 0
    ensures V.IsTrace(P.PoolWrites(cfg), es, ss) && ss[0] == V.Initial(EMPTY) && !V.FreshTrace(es, ss)
  {
    var db := UnderScanReached(cfg);
    es, ss := UnbumpedIsSeen(cfg, db, DoDone("a", 0, 0));
  }

  // ── A test span set again ───────────────────────────────────────────────

  const TEST_KEYS := Span(3, 5)

  const REPORTS := [Report(4, None)]

  function Testing(test: Option<Span>, chunks: seq<Chunk>, findings: seq<Finding>): Db {
    WithPuzzle().(puzzles := map[1 := LegacyPuzzle(test)], workers := if chunks == [] then map[] else map["a" := 0],
                  chunks := chunks, findings := findings)
  }

  function TestJob(): Chunk {
    TestRow(1, "a", 0, TEST_KEYS)
  }

  function FoundJob(): Chunk {
    MarkFound("a", REPORTS[0])(TestJob())
  }

  lemma SetsTest(cfg: Config, chunks: seq<Chunk>, findings: seq<Finding>)
    ensures Step(Testing(None, chunks, findings), cfg, DoSetTest(Some(TEST_KEYS))) ==
              Testing(Some(TEST_KEYS), chunks, findings)
  {}

  lemma ServesTest(cfg: Config) returns (op: Op)
    ensures Enabled(Testing(Some(TEST_KEYS), [], []), cfg, op)
    ensures Step(Testing(Some(TEST_KEYS), [], []), cfg, op) == Testing(Some(TEST_KEYS), [TestJob()], [])
  {
    op := DoWork("a", 0, LegacyIssue(10, None));
    var d := Begin(Testing(Some(TEST_KEYS), [], []), cfg, "a", 0);
    assert Choose(d, 1, "a", false) == NewTest(TEST_KEYS);
  }

  lemma OneReport(r: Report, job: nat, name: string)
    ensures Distinct([r]) == [r]
    ensures AddFindings([], job, name, [r]) == [Finding(job, name, r.key, r.address)]
  {
    assert [r][..0] == [];
    assert Distinct([r][..0]) == [] && AddFindings([], job, name, [r][..0]) == [];
  }

  /** The first report, by the owner of the job. */
  lemma OwnerReports(db: Db, name: string, job: nat, r: Report)
    requires HasRow(db, job, AssignedTo(name)) && db.findings == []
    ensures SubmitFound(db, name, job, [r]) ==
              (ClearTest(db.(chunks := db.chunks[job := MarkFound(name, r)(db.chunks[job])],
                             findings := [Finding(job, name, r.key, r.address)]), job), Accepted)
  {
    OneReport(r, job, name);
  }

  lemma ClearsTest(findings: seq<Finding>)
    ensures ClearTest(Testing(Some(TEST_KEYS), [FoundJob()], findings), 0) == Testing(None, [FoundJob()], findings)
  {
    assert map[1 := LegacyPuzzle(Some(TEST_KEYS))][1 := LegacyPuzzle(None)] == map[1 := LegacyPuzzle(None)];
  }

  lemma FindsTest()
    ensures SubmitFound(Testing(Some(TEST_KEYS), [TestJob()], []), "a", 0, REPORTS) ==
              (Testing(None, [FoundJob()], [Finding(0, "a", 4, None)]), Accepted)
  {
    OwnerReports(Testing(Some(TEST_KEYS), [TestJob()], []), "a", 0, REPORTS[0]);
    assert [TestJob()][0 := FoundJob()] == [FoundJob()];
    ClearsTest([Finding(0, "a", 4, None)]);
  }

  lemma TestReached(cfg: Config)
    requires cfg.targetSectors > 0
    ensures Reaches(cfg, Testing(Some(TEST_KEYS), [TestJob()], []))
  {
    PuzzleReached(cfg);
    SetsTest(cfg, [], []);
    ReachesNext(cfg, WithPuzzle(), DoSetTest(Some(TEST_KEYS)), Testing(Some(TEST_KEYS), [], []));
    var op := ServesTest(cfg);
    ReachesNext(cfg, Testing(Some(TEST_KEYS), [], []), op, Testing(Some(TEST_KEYS), [TestJob()], []));
  }

  /** The span is set again after the FOUND, and repeating the report is not without effect. */
  lemma TestSpanBackReached(cfg: Config) returns (db: Db)
    requires cfg.targetSectors > 0
    ensures Reaches(cfg, db) && SubmitFound(db, "a", 0, REPORTS).1 == Accepted
    ensures var again := SetTest(SubmitFound(db, "a", 0, REPORTS).0, Some(TEST_KEYS));
            && Reaches(cfg, again) && TestSpanBack(again, 0)
            && SubmitFound(again, "a", 0, REPORTS).1 == Accepted && SubmitFound(again, "a", 0, REPORTS).0 != again
  {
    db := Testing(Some(TEST_KEYS), [TestJob()], []);
    var findings := [Finding(0, "a", 4, None)];
    var done, again := Testing(None, [FoundJob()], findings), Testing(Some(TEST_KEYS), [FoundJob()], findings);
    TestReached(cfg);
    FindsTest();
    ReachesNext(cfg, db, DoFound("a", 0, REPORTS), done);
    SetsTest(cfg, [FoundJob()], findings);
    ReachesNext(cfg, done, DoSetTest(Some(TEST_KEYS)), again);
    ReportAgain(again);
  }

  lemma ReportAgain(db: Db)
    requires db == Testing(Some(TEST_KEYS), [FoundJob()], [Finding(0, "a", 4, None)])
    ensures TestSpanBack(db, 0)
    ensures SubmitFound(db, "a", 0, REPORTS).1 == Accepted && SubmitFound(db, "a", 0, REPORTS).0 != db
  {
    assert SameFinding(db.findings[0], 0, "a", 4);
    RecordedAgain(db, "a", 0, REPORTS);
  }

  // ── A free chunk that is overlooked ─────────────────────────────────────

  /** The chunks that the walk looks at are no more than its probes. */
  lemma {:induction false} Probed(o: Order, n: nat, cursor: nat, limit: nat) returns (s: set<int>)
    requires ValidOrder(o, n)
    ensures |s| <= limit && forall c: nat | WalkLooks(o, n, cursor, limit, c) :: c in s
  {
    if limit == 0 {
      s := {};
    } else {
      s := Probed(o, n, cursor, limit - 1);
      var last := RunAt(o, n, cursor, 1, limit - 1);
      forall c: nat | WalkLooks(o, n, cursor, limit, c) ensures c in s + {last} {
        var offset: nat :| offset < limit && RunAt(o, n, cursor, 1, offset) == c;
        assert offset < limit - 1 ==> WalkLooks(o, n, cursor, limit - 1, c);
      }
      s := s + {last};
    }
  }

  /** The first call for a large puzzle cannot look at every chunk, whatever the order. */
  lemma SomeUnseen(z: Puzzle, o: Order, maxProbes: nat) returns (c: nat)
    requires ValidOrder(o, z.count) && z.stage == 0 && z.count > 3 * maxProbes
    ensures c < z.count && !Looks(z, true, o, maxProbes, c)
  {
    var n := z.count;
    var walk := Probed(o, n, z.cursor, Min(n, maxProbes));
    var middle := Interval(n / 2 - maxProbes, n / 2 + maxProbes);
    var all := Interval(0, n);
    var seen := walk + middle;
    var unseen := all - seen;
    if unseen == {} {
      forall x | x in all ensures x in seen {
        assert x !in unseen;
      }
      SubsetSize(all, seen);
      assert false;
    }
    c := Sets.Member(unseen);
  }

  function Large(n: nat): Puzzle {
    Puzzle(Span(0, n), None, VChunks, 1, n, 0, 0)
  }

  function WithLarge(n: nat, blocked: seq<BlockedRow>): Db {
    Db(map[1 := Large(n)], Some(1), map[], [], [], [], blocked)
  }

  lemma AddsLarge(cfg: Config, n: nat)
    requires n > 0 && cfg.targetSectors > 0
    ensures Enabled(EMPTY, cfg, DoAddPuzzle(1, Span(0, n), VChunks, 1))
    ensures Step(EMPTY, cfg, DoAddPuzzle(1, Span(0, n), VChunks, 1)) == WithLarge(n, [])
  {}

  /** All chunks but c. */
  function Others(n: nat, c: nat): seq<Span> {
    (if c > 0 then [Span(0, c)] else []) + if c + 1 < n then [Span(c + 1, n)] else []
  }

  lemma OthersCover(n: nat, c: nat, x: int)
    requires c < n
    ensures Covers(Others(n, c), x) <==> 0 <= x < n && x != c
  {
    var v := Others(n, c);
    if 0 <= x < c {
      assert Holds(v[0], x);
    } else if c < x < n {
      assert Holds(v[|v| - 1], x);
    }
  }

  lemma ImportLeaves(n: nat, c: nat) returns (blocked: seq<BlockedRow>)
    requires c < n
    ensures NonEmpty(Others(n, c)) && Import(WithLarge(n, []), 1, "import", Others(n, c)) == WithLarge(n, blocked)
    ensures OnlyFree(FreeSet(WithLarge(n, blocked), 1), n, c)
  {
    blocked := InsertAll([], 1, "import", Others(n, c));
    InsertAllCorrect([], 1, "import", Others(n, c));
    forall x | 0 <= x < n ensures x in FreeSet(WithLarge(n, blocked), 1) <==> x == c {
      BySource(blocked, 1, x);
      OthersCover(n, c, x);
      assert forall s :: SourceCovers(blocked, 1, s, x) <==> s == "import" && Covers(Others(n, c), x);
      assert SourceCovers(blocked, 1, "import", x) <==> x != c;
      assert x in FreeSet(WithLarge(n, blocked), 1) <==> Free(WithLarge(n, blocked), 1, x);
    }
  }

  lemma FirstCallFails(cfg: Config, o: Order, n: nat, needed: nat, blocked: seq<BlockedRow>, c: nat)
    requires ValidOrder(o, n) && 1 <= needed <= n
    requires OnlyFree(FreeSet(WithLarge(n, blocked), 1), n, c) && !Looks(Large(n), true, o, cfg.maxProbes, c)
    ensures WorkEnabled(WithLarge(n, blocked), cfg, "a", 0, VirtualIssue(o, needed, NoPick))
    ensures Work(WithLarge(n, blocked), cfg, "a", 0, VirtualIssue(o, needed, NoPick)).1 == Exhausted
  {
    var db := WithLarge(n, blocked);
    var d := Begin(db, cfg, "a", 0);
    assert d == db.(workers := map["a" := 0]);
    assert FreeSet(d, 1) == FreeSet(db, 1);
    MissesUnseen(d, 1, o, needed, cfg.maxProbes, c);
    assert Choose(d, 1, "a", false) == Fresh;
  }

  /** For every probe limit and order, a run in which a worker is told that a puzzle with a free chunk is exhausted. */
  lemma OverlookReached(cfg: Config, o: Order, n: nat, needed: nat) returns (db: Db, c: nat)
    requires cfg.targetSectors > 0 && ValidOrder(o, n) && n > 3 * cfg.maxProbes && 1 <= needed <= n
    ensures Reaches(cfg, db) && 1 in db.puzzles && db.puzzles[1].count == n && c < n && Free(db, 1, c)
    ensures WorkEnabled(db, cfg, "a", 0, VirtualIssue(o, needed, NoPick))
    ensures Work(db, cfg, "a", 0, VirtualIssue(o, needed, NoPick)).1 == Exhausted
  {
    c := SomeUnseen(Large(n), o, cfg.maxProbes);
    ReachesEmpty(cfg);
    AddsLarge(cfg, n);
    ReachesNext(cfg, EMPTY, DoAddPuzzle(1, Span(0, n), VChunks, 1), WithLarge(n, []));
    var blocked := ImportLeaves(n, c);
    db := WithLarge(n, blocked);
    ReachesNext(cfg, WithLarge(n, []), DoImport(1, "import", Others(n, c)), db);
    FirstCallFails(cfg, o, n, needed, blocked, c);
    assert c in FreeSet(db, 1);
  }
}

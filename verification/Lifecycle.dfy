/** What each request does to the tables (src/work_service.cpp, src/submission_service.cpp, src/service_admin.cpp). */
module Lifecycle {
  import opened Wrappers
  import opened HexBigint
  import opened Intervals
  import opened Permutation
  import opened PoolModel
  import opened VirtualJobs
  import opened Legacy
  import opened BlockedRanges

  /** Times and ages share one unit. */
  datatype Config = Config(maxProbes: nat, targetSectors: nat, reactivateAfter: int, timeout: int)

  // ── Row filters and row updates ─────────────────────────────────────────

  function AssignedTo(name: string): Chunk -> bool {
    (c: Chunk) => c.worker == Some(name) && c.status == Assigned
  }

  function AssignedIn(name: string, p: int): Chunk -> bool {
    (c: Chunk) => c.worker == Some(name) && c.puzzle == p && c.status == Assigned
  }

  function ReclaimedOf(p: int): Chunk -> bool {
    (c: Chunk) => c.status == Reclaimed && c.puzzle == p && !c.isTest
  }

  function TestWith(p: int, span: Span, status: Status): Chunk -> bool {
    (c: Chunk) => c.puzzle == p && c.keys == span && c.isTest && c.status == status
  }

  function TimedOut(deadline: int): Chunk -> bool {
    (c: Chunk) => c.status == Assigned && !c.isTest && c.heartbeat.Some? && c.heartbeat.value < deadline
  }

  function Reclaim(): Chunk -> Chunk {
    (c: Chunk) => c.(status := Reclaimed, prevWorker := c.worker, worker := None, assignedAt := None, heartbeat := None)
  }

  function AssignTo(name: string, now: int): Chunk -> Chunk {
    (c: Chunk) => c.(status := Assigned, worker := Some(name), assignedAt := Some(now), heartbeat := Some(now))
  }

  // ── /api/v1/work ────────────────────────────────────────────────────────

  datatype WorkResult = NoPuzzle | Exhausted | Job(id: nat)

  /** Outcome of the allocator, which the request reaches last. */
  datatype Issue = VirtualIssue(o: Order, needed: nat, pick: Pick) | LegacyIssue(chunkSize: int, sector: Option<nat>)

  ghost predicate IssueFits(db: Db, p: int, cfg: Config, issue: Issue)
    requires p in db.puzzles
  {
    var z := db.puzzles[p];
    match issue
    case VirtualIssue(o, needed, pick) =>
      && z.strategy == VChunks && ValidOrder(o, z.count) && 1 <= needed <= z.count
      && Picks(db, p, o, needed, cfg.maxProbes, pick)
    case LegacyIssue(chunkSize, sector) =>
      && z.strategy == Legacy
      && LegacyPicks(db, p, chunkSize, cfg.targetSectors / 2, sector)
  }

  predicate IssueFails(issue: Issue) {
    if issue.VirtualIssue? then issue.pick == NoPick else issue.sector == None
  }

  function Issued(db: Db, p: int, name: string, now: int, issue: Issue): Db
    requires p in db.puzzles && (issue.VirtualIssue? ==> db.puzzles[p].count > 0)
    requires issue.LegacyIssue? && issue.sector.Some? ==> issue.sector.value < |db.sectors|
  {
    match issue
    case VirtualIssue(o, _, pick) => AfterJob(db, p, name, now, o, pick)
    case LegacyIssue(chunkSize, sector) => AfterLegacy(db, p, name, now, chunkSize, sector)
  }

  predicate Stale(db: Db, cfg: Config, name: string, now: int) {
    name in db.workers && db.workers[name] < now - cfg.reactivateAfter
  }

  /** The worker is recorded; one that was away for long gives up its chunks. */
  function Begin(db: Db, cfg: Config, name: string, now: int): Db {
    db.(workers := db.workers[name := now],
        chunks := if Stale(db, cfg, name, now) then UpdateWhere(db.chunks, AssignedTo(name), Reclaim()) else db.chunks)
  }

  /** Which row a worker is served from: Retake reassigns a reclaimed one. */
  datatype Serving = Existing(row: nat) | Retake(row: nat) | NewTest(span: Span) | Fresh

  /** claimTestChunk: nothing while another worker holds the span. */
  function ClaimTest(db: Db, p: int, span: Span): Option<Serving> {
    if FirstWhere(db.chunks, TestWith(p, span, Assigned)).Some? then None
    else
      match FirstWhere(db.chunks, TestWith(p, span, Reclaimed))
      case Some(i) => Some(Retake(i))
      case None => Some(NewTest(span))
  }

  function Choose(db: Db, p: int, name: string, stale: bool): Serving
    requires p in db.puzzles
  {
    var test := db.puzzles[p].test;
    match FirstWhere(db.chunks, AssignedIn(name, p))
    case Some(i) => Existing(i)
    case None =>
      if test.Some? && ClaimTest(db, p, test.value).Some? then ClaimTest(db, p, test.value).value
      else
        match if stale then None else FirstWhere(db.chunks, ReclaimedOf(p))
        case Some(i) => Retake(i)
        case None => Fresh
  }

  function TestRow(p: int, name: string, now: int, span: Span): Chunk {
    Chunk(p, span, Assigned, Some(name), None, Some(now), Some(now), None, None, true, None, None, TestGen)
  }

  predicate IssueUsable(db: Db, p: int, issue: Issue) {
    && p in db.puzzles
    && (issue.VirtualIssue? ==> db.puzzles[p].count > 0)
    && (issue.LegacyIssue? && issue.sector.Some? ==> issue.sector.value < |db.sectors|)
  }

  /** Serving an existing, reclaimed or test row. */
  function ServedRow(db: Db, p: int, name: string, now: int, how: Serving): (Db, nat)
    requires !how.Fresh? && (how.Existing? || how.Retake? ==> how.row < |db.chunks|)
  {
    match how
    case Existing(i) => (db, i)
    case Retake(i) => (db.(chunks := db.chunks[i := AssignTo(name, now)(db.chunks[i])]), i)
    case NewTest(span) => (db.(chunks := db.chunks + [TestRow(p, name, now, span)]), |db.chunks|)
  }

  function Served(db: Db, p: int, name: string, now: int, how: Serving, issue: Issue): (Db, WorkResult)
    requires how.Existing? || how.Retake? ==> how.row < |db.chunks|
    requires how.Fresh? ==> IssueUsable(db, p, issue)
  {
    if how.Fresh? then
      (Issued(db, p, name, now, issue), if IssueFails(issue) then Exhausted else Job(|db.chunks|))
    else
      var (d, i) := ServedRow(db, p, name, now, how);
      (d, Job(i))
  }

  /** The issue is one the allocator can produce in the state in which it is called. */
  ghost predicate WorkEnabled(db: Db, cfg: Config, name: string, now: int, issue: Issue) {
    var d := Begin(db, cfg, name, now);
    d.active.Some? ==>
      && d.active.value in d.puzzles
      && (Choose(d, d.active.value, name, Stale(db, cfg, name, now)) == Fresh ==>
            IssueFits(d, d.active.value, cfg, issue))
  }

  function Work(db: Db, cfg: Config, name: string, now: int, issue: Issue): (Db, WorkResult)
    requires WorkEnabled(db, cfg, name, now, issue)
  {
    var d := Begin(db, cfg, name, now);
    if d.active.None? then (d, NoPuzzle)
    else
      var p := d.active.value;
      Served(d, p, name, now, Choose(d, p, name, Stale(db, cfg, name, now)), issue)
  }

  // ── Heartbeat and timeouts ──────────────────────────────────────────────

  predicate HasRow(db: Db, job: int, p: Chunk -> bool) {
    0 <= job < |db.chunks| && p(db.chunks[job])
  }

  function Heartbeat(db: Db, name: string, job: int, now: int): Db {
    var d := db.(workers := db.workers[name := now]);
    if HasRow(d, job, AssignedTo(name)) then
      d.(chunks := d.chunks[job := d.chunks[job].(heartbeat := Some(now))])
    else d
  }

  function ReclaimTimedOut(db: Db, cfg: Config, now: int): (Db, nat) {
    (db.(chunks := UpdateWhere(db.chunks, TimedOut(now - cfg.timeout), Reclaim())),
     CountWhere(db.chunks, TimedOut(now - cfg.timeout)))
  }

  // ── /api/v1/submit ──────────────────────────────────────────────────────

  /** A test chunk that is done is no longer offered. */
  function ClearTest(db: Db, job: int): Db {
    if !(0 <= job < |db.chunks|) || !db.chunks[job].isTest then db
    else
      var c := db.chunks[job];
      if c.puzzle in db.puzzles && db.puzzles[c.puzzle].test == Some(c.keys) then
        db.(puzzles := db.puzzles[c.puzzle := db.puzzles[c.puzzle].(test := None)])
      else db
  }

  datatype SubmitResult = Accepted | Rejected | UnderScan

  function SubmitDone(db: Db, name: string, job: int, reported: nat): (Db, SubmitResult) {
    if !HasRow(db, job, AssignedTo(name)) then (db, Rejected)
    else
      var c := db.chunks[job];
      if reported < c.keys.end - c.keys.start then
        (db.(chunks := db.chunks[job := Reclaim()(c)]), UnderScan)
      else
        (ClearTest(db.(chunks := db.chunks[job := c.(status := Completed)]), job), Accepted)
  }

  datatype Report = Report(key: nat, address: Option<string>)

  predicate HasKey(reports: seq<Report>, key: nat) {
    exists i :: 0 <= i < |reports| && reports[i].key == key
  }

  /** Reports with a key not seen before, in order. */
  function Distinct(reports: seq<Report>): (d: seq<Report>)
    ensures reports != [] ==> d != [] && d[0] == reports[0]
  {
    if reports == [] then []
    else
      var n := |reports| - 1;
      var d := Distinct(reports[..n]);
      if HasKey(d, reports[n].key) then d else d + [reports[n]]
  }

  lemma HasKeySnoc(reports: seq<Report>, r: Report, key: nat)
    ensures HasKey(reports + [r], key) <==> HasKey(reports, key) || r.key == key
  {
    var all := reports + [r];
    if HasKey(reports, key) {
      var i :| 0 <= i < |reports| && reports[i].key == key;
      assert all[i].key == key;
    }
    if r.key == key {
      assert all[|reports|].key == key;
    }
  }

  /** Every reported key once. */
  lemma {:induction false} DistinctKeys(reports: seq<Report>, key: nat)
    ensures HasKey(Distinct(reports), key) <==> HasKey(reports, key)
    ensures forall i, j | 0 <= i < j < |Distinct(reports)| :: Distinct(reports)[i].key != Distinct(reports)[j].key
  {
    if reports != [] {
      var init, last := reports[..|reports| - 1], reports[|reports| - 1];
      DistinctKeys(init, key);
      assert reports == init + [last];
      HasKeySnoc(init, last, key);
      HasKeySnoc(Distinct(init), last, key);
    }
  }

  predicate SameFinding(f: Finding, job: int, name: string, key: nat) {
    f.chunk == job && f.worker == name && f.key == key
  }

  predicate HasFinding(findings: seq<Finding>, job: int, name: string, key: nat) {
    exists i :: 0 <= i < |findings| && SameFinding(findings[i], job, name, key)
  }

  /** INSERT OR IGNORE, one report after the other. */
  function AddFindings(findings: seq<Finding>, job: nat, name: string, reports: seq<Report>): seq<Finding> {
    if reports == [] then findings
    else
      var n := |reports| - 1;
      var fs, last := AddFindings(findings, job, name, reports[..n]), reports[n];
      if HasFinding(fs, job, name, last.key) then fs else fs + [Finding(job, name, last.key, last.address)]
  }

  /** An empty address counts as none in the chunk row. */
  function PrimaryAddress(r: Report): Option<string> {
    if r.address == Some("") then None else r.address
  }

  function OrElse<T>(a: Option<T>, b: Option<T>): Option<T> {
    if a.Some? then a else b
  }

  function MarkFound(name: string, primary: Report): Chunk -> Chunk {
    (c: Chunk) => c.(status := Found, worker := Some(name), foundKey := OrElse(c.foundKey, Some(primary.key)),
                     foundAddress := OrElse(c.foundAddress, PrimaryAddress(primary)))
  }

  /** A worker whose chunk was taken away may still report, until the chunk is done. */
  function LateFor(name: string): Chunk -> bool {
    (c: Chunk) => c.prevWorker == Some(name) && (c.status == Assigned || c.status == Reclaimed)
  }

  /** The owner's update, or none for a finding already recorded, or the late update. */
  function Marked(db: Db, name: string, job: int, primary: Report): (r: Option<Db>)
    ensures r.Some? ==> job >= 0
  {
    if HasRow(db, job, AssignedTo(name)) then
      Some(db.(chunks := db.chunks[job := MarkFound(name, primary)(db.chunks[job])]))
    else if HasFinding(db.findings, job, name, primary.key) then Some(db)
    else if HasRow(db, job, LateFor(name)) then
      Some(db.(chunks := db.chunks[job := MarkFound(name, primary)(db.chunks[job])]))
    else None
  }

  function SubmitFound(db: Db, name: string, job: int, reports: seq<Report>): (Db, SubmitResult)
    requires reports != []
  {
    var rs := Distinct(reports);
    match Marked(db, name, job, rs[0])
    case None => (db, Rejected)
    case Some(d) => (ClearTest(d.(findings := AddFindings(d.findings, job, name, rs)), job), Accepted)
  }

  // ── Administration ──────────────────────────────────────────────────────

  function Import(db: Db, p: int, source: string, spans: seq<Span>): Db {
    db.(blocked := InsertAll(db.blocked, p, source, spans))
  }

  function SetTest(db: Db, test: Option<Span>): Db {
    if db.active.None? || db.active.value !in db.puzzles then db
    else db.(puzzles := db.puzzles[db.active.value := db.puzzles[db.active.value].(test := test)])
  }

  /** A new puzzle becomes active and is seeded at once. */
  function AddPuzzle(db: Db, cfg: Config, p: int, keys: Span, strategy: Strategy, size: nat): Db
    requires keys.start < keys.end && cfg.targetSectors > 0 && size > 0
  {
    var range := keys.end - keys.start;
    var s: nat := Min(size, range);
    match strategy
    case VChunks =>
      db.(puzzles := db.puzzles[p := Puzzle(keys, None, VChunks, s, CeilDiv(range, s), 0, 0)], active := Some(p))
    case Legacy =>
      var n := SectorCount(range, cfg.targetSectors);
      db.(puzzles := db.puzzles[p := Puzzle(keys, None, Legacy, 0, 0, 0, 0)], active := Some(p),
          sectors := db.sectors + SeededSectors(p, keys, n, n))
  }

  // ── Runs ────────────────────────────────────────────────────────────────

  datatype Op =
    | DoWork(name: string, now: int, issue: Issue)
    | DoHeartbeat(name: string, job: int, now: int)
    | DoTimeout(now: int)
    | DoDone(name: string, job: int, reported: nat)
    | DoFound(name: string, job: int, reports: seq<Report>)
    | DoImport(p: int, source: string, spans: seq<Span>)
    | DoSetTest(test: Option<Span>)
    | DoActivate(p: int)
    | DoAddPuzzle(p: int, keys: Span, strategy: Strategy, size: nat)

  ghost predicate Enabled(db: Db, cfg: Config, op: Op) {
    match op
    case DoWork(name, now, issue) => WorkEnabled(db, cfg, name, now, issue)
    case DoFound(_, _, reports) => reports != []
    case DoImport(p, _, spans) => p in db.puzzles && NonEmpty(spans)
    case DoActivate(p) => p in db.puzzles
    case DoAddPuzzle(p, keys, _, size) =>
      p !in db.puzzles && keys.start < keys.end && size > 0 && cfg.targetSectors > 0
    case _ => true
  }

  ghost function Step(db: Db, cfg: Config, op: Op): Db
    requires Enabled(db, cfg, op)
  {
    match op
    case DoWork(name, now, issue) => Work(db, cfg, name, now, issue).0
    case DoHeartbeat(name, job, now) => Heartbeat(db, name, job, now)
    case DoTimeout(now) => ReclaimTimedOut(db, cfg, now).0
    case DoDone(name, job, reported) => SubmitDone(db, name, job, reported).0
    case DoFound(name, job, reports) => SubmitFound(db, name, job, reports).0
    case DoImport(p, source, spans) => Import(db, p, source, spans)
    case DoSetTest(test) => SetTest(db, test)
    case DoActivate(p) => db.(active := Some(p))
    case DoAddPuzzle(p, keys, strategy, size) => AddPuzzle(db, cfg, p, keys, strategy, size)
  }

  const EMPTY := Db(map[], None, map[], [], [], [], [])

  /** run lists the states a series of operations goes through, one more than operations. */
  ghost predicate IsRun(cfg: Config, ops: seq<Op>, run: seq<Db>) {
    && |run| == |ops| + 1
    && forall i | 0 <= i < |ops| :: Enabled(run[i], cfg, ops[i]) && run[i + 1] == Step(run[i], cfg, ops[i])
  }
}

/** How a row got where it is: what each request does to its status and its previous worker, in every run of the pool. */
module JobHistory {
  import opened Wrappers
  import opened PoolModel
  import opened Lifecycle
  import opened LifecycleSafety
  import opened PoolTheorems
  import opened RequestOutcomes

  // ── One request ─────────────────────────────────────────────────────────

  /** The worker that holds the row reports at least as many keys as the row has. */
  predicate Completes(db: Db, op: Op, i: nat)
    requires i < |db.chunks|
  {
    var c := db.chunks[i];
    && op.DoDone? && op.job == i && c.status == Assigned && c.worker == Some(op.name)
    && op.reported >= c.keys.end - c.keys.start
  }

  /** The worker that holds the unfinished row, or the last one that lost it, reports a key. */
  predicate Finds(db: Db, op: Op, i: nat)
    requires i < |db.chunks|
  {
    var c := db.chunks[i];
    && op.DoFound? && op.job == i && (c.status == Assigned || c.status == Reclaimed)
    && ((c.status == Assigned && c.worker == Some(op.name)) || c.prevWorker == Some(op.name))
  }

  /** Everything that a request can do to the status and the previous worker of a row. */
  predicate RowMoves(db: Db, cfg: Config, op: Op, i: nat, e: Chunk)
    requires i < |db.chunks|
  {
    var c := db.chunks[i];
    && e.prevWorker == (if GivenUp(db, cfg, op, i) then c.worker else c.prevWorker)
    && (e.status == Completed <==> c.status == Completed || Completes(db, op, i))
    && (e.status == Found <==> c.status == Found || Finds(db, op, i))
    && (c.status == Assigned ==> (e.status == Reclaimed <==> GivenUp(db, cfg, op, i) && !HandedBack(db, cfg, op, i)))
    && (c.status == Reclaimed && e.status == Assigned ==> op.DoWork?)
    && (c.status == Completed || c.status == Found ==> e == c)
  }

  lemma RetakenMoves(d: Db, p: int, name: string, now: int, issue: Issue, i: nat)
    requires i < |d.chunks|
    ensures var after := Served(d, p, name, now, Retake(i), issue).0;
            && i < |after.chunks| && after.chunks[i].prevWorker == d.chunks[i].prevWorker
            && after.chunks[i].status == Assigned
  {}

  /** The row that is handed out again, if any, and the others. */
  lemma WorkLeaves(db: Db, cfg: Config, name: string, now: int, issue: Issue, i: nat) returns (retaken: bool)
    requires WorkEnabled(db, cfg, name, now, issue) && i < |db.chunks|
    ensures i < |Work(db, cfg, name, now, issue).0.chunks|
    ensures var (d, e) := (Begin(db, cfg, name, now), Work(db, cfg, name, now, issue).0.chunks[i]);
            if retaken then
              && d.chunks[i].status == Reclaimed && e.status == Assigned && e.prevWorker == d.chunks[i].prevWorker
              && d.active.Some? && Choose(d, d.active.value, name, Stale(db, cfg, name, now)) == Retake(i)
            else
              && e == d.chunks[i]
              && (d.active.Some? ==> Choose(d, d.active.value, name, Stale(db, cfg, name, now)) != Retake(i))
  {
    var d, stale := Begin(db, cfg, name, now), Stale(db, cfg, name, now);
    retaken := false;
    if d.active.Some? {
      var p := d.active.value;
      var how := Choose(d, p, name, stale);
      Chosen(d, p, name, stale);
      retaken := how == Retake(i);
      if retaken {
        RetakenIsReclaimed(d, p, name, stale);
        RetakenMoves(d, p, name, now, issue, i);
      } else {
        ServedLeaves(d, p, name, now, how, issue, i);
      }
    }
  }

  lemma WorkMoves(db: Db, cfg: Config, name: string, now: int, issue: Issue, i: nat)
    requires Inv(db) && WorkEnabled(db, cfg, name, now, issue) && i < |db.chunks|
    ensures var after := Work(db, cfg, name, now, issue).0;
            i < |after.chunks| && RowMoves(db, cfg, DoWork(name, now, issue), i, after.chunks[i])
  {
    var retaken := WorkLeaves(db, cfg, name, now, issue, i);
    BeginRow(db, cfg, name, now, issue, i);
    if db.chunks[i].status == Assigned && db.active.Some? {
      HandsBack(db, cfg, name, now, issue, i);
    }
    RowMovesOn(db, cfg, DoWork(name, now, issue), i, Begin(db, cfg, name, now).chunks[i],
               Work(db, cfg, name, now, issue).0.chunks[i], retaken);
  }

  lemma RowMovesOn(db: Db, cfg: Config, op: Op, i: nat, d: Chunk, e: Chunk, retaken: bool)
    requires i < |db.chunks| && op.DoWork?
    requires d == if GivenUp(db, cfg, op, i) then
                    db.chunks[i].(status := Reclaimed, prevWorker := Some(op.name), worker := None,
                                  assignedAt := None, heartbeat := None)
                  else db.chunks[i]
    requires if retaken then d.status == Reclaimed && e.status == Assigned && e.prevWorker == d.prevWorker else e == d
    requires db.chunks[i].status == Assigned ==> (retaken <==> HandedBack(db, cfg, op, i))
    ensures RowMoves(db, cfg, op, i, e)
  {}

  lemma DoneMoves(db: Db, cfg: Config, name: string, job: int, reported: nat, i: nat)
    requires i < |db.chunks|
    ensures var after := SubmitDone(db, name, job, reported).0;
            i < |after.chunks| && RowMoves(db, cfg, DoDone(name, job, reported), i, after.chunks[i])
  {
    DoneAnswer(db, name, job, reported);
    DoneWrites(db, name, job, reported);
  }

  lemma FoundMoves(db: Db, cfg: Config, name: string, job: int, reports: seq<Report>, i: nat)
    requires Inv(db) && reports != [] && i < |db.chunks|
    ensures var after := SubmitFound(db, name, job, reports).0;
            i < |after.chunks| && RowMoves(db, cfg, DoFound(name, job, reports), i, after.chunks[i])
  {
    FoundAnswer(db, name, job, reports);
    if SubmitFound(db, name, job, reports).1 == Accepted {
      FoundRow(db, name, job, reports);
      if job == i && db.chunks[i].status != Found {
        HasFindingMeans(db.findings, job, name, reports[0].key);
        NoFindingYet(db, i, name, reports[0].key);
      }
    } else {
      FoundRejected(db, name, job, reports);
    }
  }

  lemma StepMoves(db: Db, cfg: Config, op: Op, i: nat)
    requires Inv(db) && Enabled(db, cfg, op) && i < |db.chunks|
    ensures i < |Step(db, cfg, op).chunks| && RowMoves(db, cfg, op, i, Step(db, cfg, op).chunks[i])
  {
    match op
    case DoWork(name, now, issue) => WorkMoves(db, cfg, name, now, issue, i);
    case DoDone(name, job, reported) => DoneMoves(db, cfg, name, job, reported, i);
    case DoFound(name, job, reports) => FoundMoves(db, cfg, name, job, reports, i);
    case DoTimeout(now) => SweepWrites(db, cfg, now, i);
    case DoHeartbeat(name, job, now) => HeartbeatWrites(db, name, job, now);
    case _ => AdminEvolves(db, cfg, op);
  }

  predicate IsNew(c: Chunk) {
    c.status == Assigned && c.prevWorker == None
  }

  lemma ServedNew(d: Db, p: int, name: string, now: int, how: Serving, issue: Issue, i: nat)
    requires how.Existing? || how.Retake? ==> how.row < |d.chunks|
    requires how.Fresh? ==> IssueUsable(d, p, issue)
    requires |d.chunks| <= i < |Served(d, p, name, now, how, issue).0.chunks|
    ensures IsNew(Served(d, p, name, now, how, issue).0.chunks[i])
  {}

  lemma WorkNew(db: Db, cfg: Config, name: string, now: int, issue: Issue, i: nat)
    requires WorkEnabled(db, cfg, name, now, issue) && |db.chunks| <= i < |Work(db, cfg, name, now, issue).0.chunks|
    ensures IsNew(Work(db, cfg, name, now, issue).0.chunks[i])
  {
    var d, stale := Begin(db, cfg, name, now), Stale(db, cfg, name, now);
    if d.active.Some? {
      var how := Choose(d, d.active.value, name, stale);
      Chosen(d, d.active.value, name, stale);
      ServedNew(d, d.active.value, name, now, how, issue, i);
    }
  }

  lemma FoundAddsNone(db: Db, name: string, job: int, reports: seq<Report>)
    requires Inv(db) && reports != []
    ensures |SubmitFound(db, name, job, reports).0.chunks| == |db.chunks|
  {
    if SubmitFound(db, name, job, reports).1 == Accepted {
      FoundRow(db, name, job, reports);
    } else {
      FoundRejected(db, name, job, reports);
    }
  }

  /** A row starts assigned, and nobody has lost it. */
  lemma NewRow(db: Db, cfg: Config, op: Op, i: nat)
    requires Inv(db) && Enabled(db, cfg, op) && |db.chunks| <= i < |Step(db, cfg, op).chunks|
    ensures IsNew(Step(db, cfg, op).chunks[i])
  {
    match op
    case DoWork(name, now, issue) => WorkNew(db, cfg, name, now, issue, i);
    case DoFound(name, job, reports) => FoundAddsNone(db, name, job, reports);
    case DoDone(name, job, reported) => DoneWrites(db, name, job, reported);
    case DoTimeout(now) =>
    case DoHeartbeat(name, job, now) => HeartbeatWrites(db, name, job, now);
    case _ => AdminEvolves(db, cfg, op);
  }

  // ── Every run ───────────────────────────────────────────────────────────

  ghost predicate CompletedAt(ops: seq<Op>, run: seq<Db>, s: nat, i: nat)
    requires |run| == |ops| + 1
  {
    s < |ops| && i < |run[s].chunks| && Completes(run[s], ops[s], i)
  }

  ghost predicate LostAt(cfg: Config, ops: seq<Op>, run: seq<Db>, s: nat, i: nat)
    requires |run| == |ops| + 1
  {
    s < |ops| && i < |run[s].chunks| && GivenUp(run[s], cfg, ops[s], i)
  }

  /** The worker lost the row at some point before t, and nobody has lost it since. */
  ghost predicate LastLoser(cfg: Config, ops: seq<Op>, run: seq<Db>, t: nat, i: nat, name: string)
    requires |run| == |ops| + 1
  {
    exists s: nat :: s < t && LostAt(cfg, ops, run, s, i) && run[s].chunks[i].worker == Some(name)
                     && forall u: nat | s < u < t :: !LostAt(cfg, ops, run, u, i)
  }

  lemma RunStep(cfg: Config, ops: seq<Op>, run: seq<Db>, t: nat)
    requires IsRun(cfg, ops, run) && run[0] == EMPTY && t < |ops|
    ensures Inv(run[t]) && Enabled(run[t], cfg, ops[t]) && run[t + 1] == Step(run[t], cfg, ops[t])
  {
    RunsAreSafe(cfg, ops, run, t);
  }

  /** A row is completed if and only if its holder reported all of its keys at some point. */
  lemma {:induction false} CompletedByDone(cfg: Config, ops: seq<Op>, run: seq<Db>, t: nat, i: nat)
    requires IsRun(cfg, ops, run) && run[0] == EMPTY && t < |run| && i < |run[t].chunks|
    ensures run[t].chunks[i].status == Completed <==> exists s: nat :: s < t && CompletedAt(ops, run, s, i)
  {
    if t > 0 {
      var s := t - 1;
      RunStep(cfg, ops, run, s);
      if i < |run[s].chunks| {
        CompletedByDone(cfg, ops, run, s, i);
        StepMoves(run[s], cfg, ops[s], i);
        assert CompletedAt(ops, run, s, i) <==> Completes(run[s], ops[s], i);
      } else {
        NewRow(run[s], cfg, ops[s], i);
        NoRowBefore(cfg, ops, run, s, i);
      }
    }
  }

  lemma {:induction false} NoRowBefore(cfg: Config, ops: seq<Op>, run: seq<Db>, t: nat, i: nat)
    requires IsRun(cfg, ops, run) && run[0] == EMPTY && t < |run| && i >= |run[t].chunks|
    ensures forall s: nat | s <= t :: i >= |run[s].chunks|
  {
    if t > 0 {
      RunStep(cfg, ops, run, t - 1);
      StepEvolves(run[t - 1], cfg, ops[t - 1]);
      NoRowBefore(cfg, ops, run, t - 1, i);
    }
  }

  /** The previous worker of a row is the last one that lost it. */
  lemma {:induction false} PrevWorkerIs(cfg: Config, ops: seq<Op>, run: seq<Db>, t: nat, i: nat, name: string)
    requires IsRun(cfg, ops, run) && run[0] == EMPTY && t < |run| && i < |run[t].chunks|
    ensures run[t].chunks[i].prevWorker == Some(name) <==> LastLoser(cfg, ops, run, t, i, name)
  {
    if t > 0 {
      var s := t - 1;
      RunStep(cfg, ops, run, s);
      if i < |run[s].chunks| {
        PrevWorkerIs(cfg, ops, run, s, i, name);
        StepMoves(run[s], cfg, ops[s], i);
        LoserStep(cfg, ops, run, s, i, name);
      } else {
        NewRow(run[s], cfg, ops[s], i);
        NoRowBefore(cfg, ops, run, s, i);
      }
    }
  }

  lemma LoserStep(cfg: Config, ops: seq<Op>, run: seq<Db>, s: nat, i: nat, name: string)
    requires |run| == |ops| + 1 && s < |ops| && i < |run[s].chunks|
    ensures LastLoser(cfg, ops, run, s + 1, i, name) <==>
              if LostAt(cfg, ops, run, s, i) then run[s].chunks[i].worker == Some(name)
              else LastLoser(cfg, ops, run, s, i, name)
  {
    if LastLoser(cfg, ops, run, s, i, name) && !LostAt(cfg, ops, run, s, i) {
      var r: nat :| r < s && LostAt(cfg, ops, run, r, i) && run[r].chunks[i].worker == Some(name)
                    && forall u: nat | r < u < s :: !LostAt(cfg, ops, run, u, i);
      assert forall u: nat | r < u < s + 1 :: !LostAt(cfg, ops, run, u, i);
    }
    if LastLoser(cfg, ops, run, s + 1, i, name) {
      var r: nat :| r < s + 1 && LostAt(cfg, ops, run, r, i) && run[r].chunks[i].worker == Some(name)
                    && forall u: nat | r < u < s + 1 :: !LostAt(cfg, ops, run, u, i);
      assert r < s ==> !LostAt(cfg, ops, run, s, i);
    }
  }

  /** In every run, for a row that is not finished: its holder and the last worker that lost it may report FOUND. */
  lemma FoundFromLoser(cfg: Config, ops: seq<Op>, run: seq<Db>, t: nat, i: nat, name: string, reports: seq<Report>)
    requires IsRun(cfg, ops, run) && run[0] == EMPTY && t < |run| && i < |run[t].chunks| && reports != []
    requires run[t].chunks[i].status == Assigned || run[t].chunks[i].status == Reclaimed
    ensures SubmitFound(run[t], name, i, reports).1 == Accepted <==>
              || (run[t].chunks[i].status == Assigned && run[t].chunks[i].worker == Some(name))
              || LastLoser(cfg, ops, run, t, i, name)
  {
    RunsAreSafe(cfg, ops, run, t);
    PrevWorkerIs(cfg, ops, run, t, i, name);
    FoundAnswer(run[t], name, i, reports);
    HasFindingMeans(run[t].findings, i, name, reports[0].key);
    NoFindingYet(run[t], i, name, reports[0].key);
  }

  /**
   * A worker that lost its job to a sweep, an under-scan or its own return can still report a key: as long as the row was
   * not handed to somebody who finished or lost it too.
   */
  lemma LateFound(cfg: Config, ops: seq<Op>, run: seq<Db>, s: nat, t: nat, i: nat, name: string, reports: seq<Report>)
    requires IsRun(cfg, ops, run) && run[0] == EMPTY && s < t < |run| && reports != []
    requires LostAt(cfg, ops, run, s, i) && run[s].chunks[i].worker == Some(name)
    requires forall u: nat | s < u < t :: !LostAt(cfg, ops, run, u, i)
    ensures i < |run[t].chunks|
    ensures run[t].chunks[i].status == Assigned || run[t].chunks[i].status == Reclaimed ==>
              && SubmitFound(run[t], name, i, reports).1 == Accepted
              && SubmitFound(run[t], name, i, reports).0.chunks[i].status == Found
              && SubmitFound(run[t], name, i, reports).0.chunks[i].worker == Some(name)
              && SubmitFound(run[t], name, i, reports).0.chunks[i].foundKey == Some(reports[0].key)
  {
    RunsAreSafe(cfg, ops, run, 0);
    RunEvolves(cfg, ops, run, s, t);
    if run[t].chunks[i].status == Assigned || run[t].chunks[i].status == Reclaimed {
      FoundFromLoser(cfg, ops, run, t, i, name, reports);
      FoundRow(run[t], name, i, reports);
    }
  }
}

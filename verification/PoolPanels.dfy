/** The handler protocol run against the pool's own requests: which panels are fresh (src/service_visualization.cpp). */
module PoolPanels {
  import opened PoolModel
  import LC = Lifecycle
  import L = LifecycleSafety
  import opened PanelWrites
  import opened VisProtocol

  /** A request of the pool, with what its handler invalidates. */
  ghost predicate IsPoolWrite(cfg: LC.Config, a: Db, bump: Bump, b: Db) {
    exists op :: LC.Enabled(a, cfg, op) && bump == BumpOf(a, cfg, op) && b == LC.Step(a, cfg, op)
  }

  /** One that is not of the two kinds that change a panel without invalidating it. */
  ghost predicate IsBumpedWrite(cfg: LC.Config, a: Db, bump: Bump, b: Db) {
    exists op ::
      LC.Enabled(a, cfg, op) && !Unbumped(a, cfg, op) && bump == BumpOf(a, cfg, op) && b == LC.Step(a, cfg, op)
  }

  ghost function PoolWrites(cfg: LC.Config): (Db, Bump, Db) -> bool {
    (a, bump, b) => IsPoolWrite(cfg, a, bump, b)
  }

  ghost function BumpedWrites(cfg: LC.Config): (Db, Bump, Db) -> bool {
    (a, bump, b) => IsBumpedWrite(cfg, a, bump, b)
  }

  ghost function SafeBumpedWrites(cfg: LC.Config): (Db, Bump, Db) -> bool {
    (a, bump, b) => L.Inv(a) && IsBumpedWrite(cfg, a, bump, b)
  }

  /** The protocol leaves out no request: puzzles are never deleted, and a bumped one exists. */
  lemma RequestsAreWrites(db: Db, cfg: LC.Config, op: LC.Op)
    requires L.Inv(db) && LC.Enabled(db, cfg, op)
    ensures WriteOk(db, BumpOf(db, cfg, op), LC.Step(db, cfg, op))
  {
    match op
    case DoWork(name, now, issue) => WorkKeepsPuzzles(db, cfg, name, now, issue);
    case DoDone(name, job, reported) =>
      DoneOnlyRow(db, name, job, reported);
      RowPuzzle(db, job);
    case DoFound(name, job, reports) =>
      FoundOnlyRow(db, name, job, reports);
      RowPuzzle(db, job);
    case _ =>
  }

  lemma RowPuzzle(db: Db, job: int)
    requires L.Inv(db)
    ensures 0 <= job < |db.chunks| ==> db.chunks[job].puzzle in db.puzzles
  {
    if 0 <= job < |db.chunks| {
      assert L.RowShape(db.puzzles, db.chunks[job]);
    }
  }

  lemma SafeWritesBump(cfg: LC.Config)
    ensures BumpsWhatItChanges(SafeBumpedWrites(cfg))
  {
    forall a, bump, b | WriteOk(a, bump, b) && SafeBumpedWrites(cfg)(a, bump, b) ensures Covered(a, bump, b) {
      var op :| LC.Enabled(a, cfg, op) && !Unbumped(a, cfg, op) && bump == BumpOf(a, cfg, op) && b == LC.Step(a, cfg, op);
      CoveredExceptTwo(a, cfg, op);
    }
  }

  lemma OnlyWritesWrite(s: Sys, e: Event)
    requires Enabled(s, e)
    ensures Next(s, e).0.db == if e.Write? then e.after else s.db
  {}

  lemma BumpedWriteSafe(cfg: LC.Config, a: Db, bump: Bump, b: Db)
    requires L.Inv(a) && IsBumpedWrite(cfg, a, bump, b)
    ensures L.Inv(b)
  {
    var op :| LC.Enabled(a, cfg, op) && !Unbumped(a, cfg, op) && bump == BumpOf(a, cfg, op) && b == LC.Step(a, cfg, op);
    L.StepKeeps(a, cfg, op);
  }

  /** The tables satisfy the invariant throughout an interleaving. */
  lemma {:induction false} StatesAreSafe(cfg: LC.Config, es: seq<Event>, ss: seq<Sys>, i: nat)
    requires Follows(BumpedWrites(cfg), es, ss) && L.Inv(ss[0].db) && i < |ss|
    ensures L.Inv(ss[i].db)
  {
    if i > 0 {
      StatesAreSafe(cfg, es, ss, i - 1);
      var s, e := ss[i - 1], es[i - 1];
      assert IsStep(BumpedWrites(cfg), s, e, ss[i - 1 + 1]);
      OnlyWritesWrite(s, e);
      if e.Write? {
        BumpedWriteSafe(cfg, s.db, e.bump, e.after);
      }
    }
  }

  /**
   * In every interleaving of handlers with requests of the pool, none of the two exceptional kinds, each returned panel
   * is the one the tables give at that instant.
   */
  lemma PoolPanelsFresh(cfg: LC.Config, es: seq<Event>, ss: seq<Sys>)
    requires IsTrace(BumpedWrites(cfg), es, ss) && L.Inv(ss[0].db)
    ensures FreshTrace(es, ss)
  {
    var w := SafeBumpedWrites(cfg);
    forall i | 0 <= i < |es| ensures IsStep(w, ss[i], es[i], ss[i + 1]) {
      assert IsStep(BumpedWrites(cfg), ss[i], es[i], ss[i + 1]);
      StatesAreSafe(cfg, es, ss, i);
    }
    SafeWritesBump(cfg);
    BumpingIsEnough(w, es, ss);
  }

  // ── The exceptions ──────────────────────────────────────────────────────

  lemma QuietWrite(s: Sys, bump: Bump, after: Db)
    requires Quiet(s) && WriteOk(s.db, bump, after)
    ensures var n := Next(s, Write(bump, after)).0;
            Quiet(n) && n.db == after
  {}

  ghost function WriteOf(db: Db, cfg: LC.Config, op: LC.Op): Event
    requires LC.Enabled(db, cfg, op)
  {
    Write(BumpOf(db, cfg, op), LC.Step(db, cfg, op))
  }

  lemma RequestIsStep(cfg: LC.Config, s: Sys, op: LC.Op) returns (n: Sys)
    requires Quiet(s) && L.Inv(s.db) && LC.Enabled(s.db, cfg, op)
    ensures IsStep(PoolWrites(cfg), s, WriteOf(s.db, cfg, op), n)
    ensures Quiet(n) && n.db == LC.Step(s.db, cfg, op)
  {
    var e := WriteOf(s.db, cfg, op);
    RequestsAreWrites(s.db, cfg, op);
    QuietWrite(s, e.bump, e.after);
    n := Next(s, e).0;
    assert IsPoolWrite(cfg, s.db, e.bump, e.after);
  }

  lemma OneMoreRequest(cfg: LC.Config, es: seq<Event>, ss: seq<Sys>, op: LC.Op) returns (es': seq<Event>, ss': seq<Sys>)
    requires IsTrace(PoolWrites(cfg), es, ss) && ss[0] == Initial(LC.EMPTY) && Quiet(ss[|es|])
    requires L.Inv(ss[|es|].db) && LC.Enabled(ss[|es|].db, cfg, op)
    ensures IsTrace(PoolWrites(cfg), es', ss') && ss'[0] == Initial(LC.EMPTY)
    ensures Quiet(ss'[|es'|]) && ss'[|es'|].db == LC.Step(ss[|es|].db, cfg, op)
  {
    var s := ss[|es|];
    var e := WriteOf(s.db, cfg, op);
    var n := RequestIsStep(cfg, s, op);
    FollowsOn(PoolWrites(cfg), es, ss, [e], [s, n]);
    es', ss' := es + [e], ss + [s, n][1..];
  }

  /** A run of the pool without any handler at work is an interleaving. */
  lemma {:induction false} RunIsTrace(cfg: LC.Config, ops: seq<LC.Op>, run: seq<Db>, k: nat)
    returns (es: seq<Event>, ss: seq<Sys>)
    requires LC.IsRun(cfg, ops, run) && run[0] == LC.EMPTY && k < |run|
    ensures IsTrace(PoolWrites(cfg), es, ss) && ss[0] == Initial(LC.EMPTY)
    ensures Quiet(ss[|es|]) && ss[|es|].db == run[k]
  {
    if k == 0 {
      es, ss := [], [Initial(LC.EMPTY)];
    } else {
      es, ss := RunIsTrace(cfg, ops, run, k - 1);
      var op := ops[k - 1];
      assert LC.Enabled(run[k - 1], cfg, op) && run[k - 1 + 1] == LC.Step(run[k - 1], cfg, op);
      L.RunsAreSafe(cfg, ops, run, k - 1);
      es, ss := OneMoreRequest(cfg, es, ss, op);
    }
  }

  /** Any run ending in a request of an exceptional kind extends to an interleaving that serves a stale panel. */
  lemma UnbumpedServesStale(cfg: LC.Config, ops: seq<LC.Op>, run: seq<Db>) returns (es: seq<Event>, ss: seq<Sys>)
    requires LC.IsRun(cfg, ops, run) && run[0] == LC.EMPTY && ops != []
    requires LC.Enabled(run[|ops| - 1], cfg, ops[|ops| - 1]) && Unbumped(run[|ops| - 1], cfg, ops[|ops| - 1])
    ensures IsTrace(PoolWrites(cfg), es, ss) && ss[0] == Initial(LC.EMPTY) && !FreshTrace(es, ss)
  {
    var k := |ops| - 1;
    var db, op := run[k], ops[k];
    L.RunsAreSafe(cfg, ops, run, k);
    RequestsAreWrites(db, cfg, op);
    CoveredExceptTwo(db, cfg, op);
    var es1, ss1 := RunIsTrace(cfg, ops, run, k);
    assert IsPoolWrite(cfg, db, BumpOf(db, cfg, op), LC.Step(db, cfg, op));
    var es2, ss2 := StaleFrom(PoolWrites(cfg), ss1[|es1|], BumpOf(db, cfg, op), LC.Step(db, cfg, op));
    FollowsOn(PoolWrites(cfg), es1, ss1, es2, ss2);
    es, ss := es1 + es2, ss1 + ss2[1..];
    assert es[|es1| + 5] == es2[5] && ss[|es1| + 5] == ss2[5];
    assert !ReturnsFresh(ss[|es1| + 5], es[|es1| + 5]);
  }
}

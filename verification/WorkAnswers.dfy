/** Which job a work request answers with, in terms of the rows it finds (src/work_service.cpp, src/allocator.cpp). */
module WorkAnswers {
  import opened Wrappers
  import opened Intervals
  import opened Permutation
  import opened PoolModel
  import opened VirtualJobs
  import opened Legacy
  import opened Lifecycle
  import opened LifecycleSafety
  import opened PoolTheorems

  // ── What a worker is entitled to, in order ──────────────────────────────

  /** The worker is known and was last seen too long ago. */
  predicate Returning(db: Db, cfg: Config, name: string, now: int) {
    name in db.workers && db.workers[name] < now - cfg.reactivateAfter
  }

  predicate HasOwnJob(db: Db, p: int, name: string) {
    exists i :: 0 <= i < |db.chunks| && db.chunks[i].status == Assigned
                && db.chunks[i].worker == Some(name) && db.chunks[i].puzzle == p
  }

  /** The worker keeps a job of the puzzle: it is not returning, which would give it up. */
  predicate KeepsJob(db: Db, cfg: Config, p: int, name: string, now: int) {
    !Returning(db, cfg, name, now) && HasOwnJob(db, p, name)
  }

  predicate IsTestRow(c: Chunk, p: int, span: Span) {
    c.isTest && c.puzzle == p && c.keys == span
  }

  /** The test chunk of the puzzle is to be had: a span is set and no row for it stays assigned. */
  predicate TestToGive(db: Db, cfg: Config, p: int, name: string, now: int)
    requires p in db.puzzles
  {
    && db.puzzles[p].test.Some?
    && forall i | 0 <= i < |db.chunks| && IsTestRow(db.chunks[i], p, db.puzzles[p].test.value) ::
         db.chunks[i].status == Assigned ==> Returning(db, cfg, name, now) && db.chunks[i].worker == Some(name)
  }

  predicate IsLost(c: Chunk, p: int) {
    c.status == Reclaimed && c.puzzle == p && !c.isTest
  }

  lemma BeginIs(db: Db, cfg: Config, name: string, now: int)
    ensures var d := Begin(db, cfg, name, now);
            && d == db.(workers := db.workers[name := now], chunks := d.chunks) && |d.chunks| == |db.chunks|
            && (!Returning(db, cfg, name, now) ==> d.chunks == db.chunks)
  {}

  /** 1. An own job: the same one as before. */
  lemma OwnJobFirst(db: Db, cfg: Config, name: string, now: int, issue: Issue, i: nat)
    requires Inv(db) && WorkEnabled(db, cfg, name, now, issue) && !Returning(db, cfg, name, now)
    requires i < |db.chunks| && db.chunks[i].status == Assigned && db.chunks[i].worker == Some(name)
    requires db.active == Some(db.chunks[i].puzzle)
    ensures Work(db, cfg, name, now, issue) == (db.(workers := db.workers[name := now]), Job(i))
  {
    BeginIs(db, cfg, name, now);
    OnlyJob(db, name, i);
  }

  lemma NoOwnJob(db: Db, cfg: Config, p: int, name: string, now: int)
    requires !KeepsJob(db, cfg, p, name, now)
    ensures FirstWhere(Begin(db, cfg, name, now).chunks, AssignedIn(name, p)) == None
  {
    var d := Begin(db, cfg, name, now);
    forall j | 0 <= j < |d.chunks| ensures !AssignedIn(name, p)(d.chunks[j]) {
      BeginRow(db, cfg, name, now, LegacyIssue(0, None), j);
    }
  }

  lemma TestRowFound(db: Db, cfg: Config, name: string, now: int, p: int, i: nat)
    requires p in db.puzzles && TestToGive(db, cfg, p, name, now)
    requires i < |db.chunks| && IsTestRow(db.chunks[i], p, db.puzzles[p].test.value)
    requires db.chunks[i].status == Reclaimed || db.chunks[i].status == Assigned
    requires forall j | 0 <= j < i && IsTestRow(db.chunks[j], p, db.puzzles[p].test.value) ::
               db.chunks[j].status != Reclaimed && db.chunks[j].status != Assigned
    ensures ClaimTest(Begin(db, cfg, name, now), p, db.puzzles[p].test.value) == Some(Retake(i))
  {
    var d, span := Begin(db, cfg, name, now), db.puzzles[p].test.value;
    forall j | 0 <= j < |d.chunks|
      ensures !TestWith(p, span, Assigned)(d.chunks[j])
      ensures j < i ==> !TestWith(p, span, Reclaimed)(d.chunks[j])
    {
      BeginRow(db, cfg, name, now, LegacyIssue(0, None), j);
    }
    BeginRow(db, cfg, name, now, LegacyIssue(0, None), i);
    assert TestWith(p, span, Reclaimed)(d.chunks[i]);
    assert FirstWhere(d.chunks, TestWith(p, span, Reclaimed)) == Some(i);
  }

  lemma NoTestRowFound(db: Db, cfg: Config, name: string, now: int, p: int)
    requires p in db.puzzles && TestToGive(db, cfg, p, name, now)
    requires forall j | 0 <= j < |db.chunks| && IsTestRow(db.chunks[j], p, db.puzzles[p].test.value) ::
               db.chunks[j].status != Reclaimed && db.chunks[j].status != Assigned
    ensures ClaimTest(Begin(db, cfg, name, now), p, db.puzzles[p].test.value)
         == Some(NewTest(db.puzzles[p].test.value))
  {
    var d, span := Begin(db, cfg, name, now), db.puzzles[p].test.value;
    forall j | 0 <= j < |d.chunks|
      ensures !TestWith(p, span, Assigned)(d.chunks[j]) && !TestWith(p, span, Reclaimed)(d.chunks[j])
    {
      BeginRow(db, cfg, name, now, LegacyIssue(0, None), j);
    }
  }

  lemma TestChosen(db: Db, cfg: Config, name: string, now: int, issue: Issue, p: int, how: Serving)
    requires WorkEnabled(db, cfg, name, now, issue) && db.active == Some(p) && p in db.puzzles
    requires !KeepsJob(db, cfg, p, name, now) && db.puzzles[p].test.Some? && !how.Fresh?
    requires ClaimTest(Begin(db, cfg, name, now), p, db.puzzles[p].test.value) == Some(how)
    requires how.Existing? || how.Retake? ==> how.row < |Begin(db, cfg, name, now).chunks|
    ensures var (after, i) := ServedRow(Begin(db, cfg, name, now), p, name, now, how);
            Work(db, cfg, name, now, issue) == (after, Job(i))
  {
    NoOwnJob(db, cfg, p, name, now);
  }

  /** 2. The test chunk: a reclaimed row of the span, the worker's own given-up row included. */
  lemma TestRowNext(db: Db, cfg: Config, name: string, now: int, issue: Issue, p: int, i: nat)
    requires WorkEnabled(db, cfg, name, now, issue) && db.active == Some(p) && p in db.puzzles
    requires !KeepsJob(db, cfg, p, name, now) && TestToGive(db, cfg, p, name, now)
    requires i < |db.chunks| && IsTestRow(db.chunks[i], p, db.puzzles[p].test.value)
    requires db.chunks[i].status == Reclaimed || db.chunks[i].status == Assigned
    requires forall j | 0 <= j < i && IsTestRow(db.chunks[j], p, db.puzzles[p].test.value) ::
               db.chunks[j].status != Reclaimed && db.chunks[j].status != Assigned
    ensures Work(db, cfg, name, now, issue).1 == Job(i)
    ensures var (after, c) := (Work(db, cfg, name, now, issue).0, db.chunks[i]);
            && |after.chunks| == |db.chunks|
            && after.chunks[i] == c.(status := Assigned, worker := Some(name), assignedAt := Some(now),
                                     heartbeat := Some(now),
                                     prevWorker := if c.status == Assigned then Some(name) else c.prevWorker)
  {
    TestRowFound(db, cfg, name, now, p, i);
    TestChosen(db, cfg, name, now, issue, p, Retake(i));
    BeginRow(db, cfg, name, now, issue, i);
  }

  /** Or, when there is none, a new row for the span. */
  lemma NewTestRowNext(db: Db, cfg: Config, name: string, now: int, issue: Issue, p: int)
    requires WorkEnabled(db, cfg, name, now, issue) && db.active == Some(p) && p in db.puzzles
    requires !KeepsJob(db, cfg, p, name, now) && TestToGive(db, cfg, p, name, now)
    requires forall j | 0 <= j < |db.chunks| && IsTestRow(db.chunks[j], p, db.puzzles[p].test.value) ::
               db.chunks[j].status != Reclaimed && db.chunks[j].status != Assigned
    ensures Work(db, cfg, name, now, issue).1 == Job(|db.chunks|)
    ensures Work(db, cfg, name, now, issue).0.chunks == Begin(db, cfg, name, now).chunks
              + [Chunk(p, db.puzzles[p].test.value, Assigned, Some(name), None, Some(now), Some(now), None, None,
                       true, None, None, TestGen)]
  {
    NoTestRowFound(db, cfg, name, now, p);
    TestChosen(db, cfg, name, now, issue, p, NewTest(db.puzzles[p].test.value));
  }

  lemma NoTestRow(db: Db, cfg: Config, p: int, name: string, now: int)
    requires p in db.puzzles && !TestToGive(db, cfg, p, name, now) && db.puzzles[p].test.Some?
    ensures ClaimTest(Begin(db, cfg, name, now), p, db.puzzles[p].test.value) == None
  {
    var d, span := Begin(db, cfg, name, now), db.puzzles[p].test.value;
    var i :| 0 <= i < |db.chunks| && IsTestRow(db.chunks[i], p, span) && db.chunks[i].status == Assigned
             && !(Returning(db, cfg, name, now) && db.chunks[i].worker == Some(name));
    BeginRow(db, cfg, name, now, LegacyIssue(0, None), i);
    assert TestWith(p, span, Assigned)(d.chunks[i]);
  }

  /** 3. A job that another worker lost: the oldest one, unless this worker is returning itself. */
  lemma LostJobNext(db: Db, cfg: Config, name: string, now: int, issue: Issue, p: int, i: nat)
    requires WorkEnabled(db, cfg, name, now, issue) && db.active == Some(p) && p in db.puzzles
    requires !Returning(db, cfg, name, now) && !HasOwnJob(db, p, name) && !TestToGive(db, cfg, p, name, now)
    requires i < |db.chunks| && IsLost(db.chunks[i], p) && forall j | 0 <= j < i :: !IsLost(db.chunks[j], p)
    ensures Work(db, cfg, name, now, issue) ==
              (db.(workers := db.workers[name := now],
                   chunks := db.chunks[i := db.chunks[i].(
                     status := Assigned, worker := Some(name), assignedAt := Some(now), heartbeat := Some(now))]),
               Job(i))
  {
    BeginIs(db, cfg, name, now);
    NoOwnJob(db, cfg, p, name, now);
    if db.puzzles[p].test.Some? {
      NoTestRow(db, cfg, p, name, now);
    }
    assert ReclaimedOf(p)(db.chunks[i]);
    assert FirstWhere(db.chunks, ReclaimedOf(p)) == Some(i);
  }

  /** 4. A new job, or none: only when there is nothing else to give. */
  lemma NewJobLast(db: Db, cfg: Config, name: string, now: int, issue: Issue, p: int)
    requires WorkEnabled(db, cfg, name, now, issue) && db.active == Some(p) && p in db.puzzles
    requires !KeepsJob(db, cfg, p, name, now) && !TestToGive(db, cfg, p, name, now)
    requires Returning(db, cfg, name, now) || forall j | 0 <= j < |db.chunks| :: !IsLost(db.chunks[j], p)
    ensures IssueFits(Begin(db, cfg, name, now), p, cfg, issue)
    ensures Work(db, cfg, name, now, issue).0 == Issued(Begin(db, cfg, name, now), p, name, now, issue)
    ensures Work(db, cfg, name, now, issue).1 == if IssueFails(issue) then Exhausted else Job(|db.chunks|)
  {
    BeginIs(db, cfg, name, now);
    NoOwnJob(db, cfg, p, name, now);
    if db.puzzles[p].test.Some? {
      NoTestRow(db, cfg, p, name, now);
    }
  }

  /** A worker that is not returning is told that the key space is used up only when no lost job is left. */
  lemma ExhaustedLeavesNone(db: Db, cfg: Config, name: string, now: int, issue: Issue)
    requires WorkEnabled(db, cfg, name, now, issue) && !Returning(db, cfg, name, now)
    requires Work(db, cfg, name, now, issue).1 == Exhausted
    ensures db.active.Some? && db.active.value in db.puzzles
    ensures !HasOwnJob(db, db.active.value, name) && !TestToGive(db, cfg, db.active.value, name, now)
    ensures forall j | 0 <= j < |db.chunks| :: !IsLost(db.chunks[j], db.active.value)
  {
    BeginIs(db, cfg, name, now);
    var p := db.active.value;
    if TestToGive(db, cfg, p, name, now) {
      forall j | 0 <= j < |db.chunks| ensures !TestWith(p, db.puzzles[p].test.value, Assigned)(db.chunks[j]) {
      }
    }
    forall j | 0 <= j < |db.chunks| ensures !IsLost(db.chunks[j], p) {
      assert ReclaimedOf(p)(db.chunks[j]) <==> IsLost(db.chunks[j], p);
    }
    forall j | 0 <= j < |db.chunks| ensures !AssignedIn(name, p)(db.chunks[j]) {
    }
  }

  /** Then, given a probe for every chunk, each chunk is blocked or in a job that is assigned or finished. */
  lemma ChunksInHand(db: Db, cfg: Config, name: string, now: int, issue: Issue, p: int, x: int)
    requires Inv(db) && WorkEnabled(db, cfg, name, now, issue) && !Returning(db, cfg, name, now)
    requires Work(db, cfg, name, now, issue).1 == Exhausted && db.active == Some(p) && p in db.puzzles
    requires issue.VirtualIssue? && db.puzzles[p].count <= cfg.maxProbes && 0 <= x < db.puzzles[p].count
    ensures || (exists i :: 0 <= i < |db.blocked| && db.blocked[i].puzzle == p && Holds(db.blocked[i].span, x))
            || (exists i :: 0 <= i < |db.chunks| && db.chunks[i].puzzle == p && !db.chunks[i].isTest
                            && db.chunks[i].run.Some? && Holds(db.chunks[i].run.value, x) && db.chunks[i].status != Reclaimed)
  {
    BeginIs(db, cfg, name, now);
    ExhaustedIsTrue(db, cfg, name, now, issue);
    ExhaustedLeavesNone(db, cfg, name, now, issue);
    assert !Free(Begin(db, cfg, name, now), p, x);
    if Occupied(db.chunks, p, x) {
      var i :| 0 <= i < |db.chunks| && OccupiesOf(db.chunks[i], p) && Holds(db.chunks[i].run.value, x);
      assert !IsLost(db.chunks[i], p);
    }
  }

  /** And, given a positive chunk size, so is each key of a legacy puzzle. */
  lemma KeysInHand(db: Db, cfg: Config, name: string, now: int, issue: Issue, p: int, key: int)
    requires Inv(db) && WorkEnabled(db, cfg, name, now, issue) && !Returning(db, cfg, name, now)
    requires Work(db, cfg, name, now, issue).1 == Exhausted && db.active == Some(p) && p in db.puzzles
    requires issue.LegacyIssue? && issue.chunkSize > 0 && Holds(db.puzzles[p].keys, key)
    ensures exists i :: 0 <= i < |db.chunks| && db.chunks[i].puzzle == p && !db.chunks[i].isTest
                        && Holds(db.chunks[i].keys, key) && db.chunks[i].status != Reclaimed
  {
    BeginIs(db, cfg, name, now);
    ExhaustedIsTrue(db, cfg, name, now, issue);
    ExhaustedLeavesNone(db, cfg, name, now, issue);
    assert IssuedKey(Begin(db, cfg, name, now).chunks, p, key);
    var i :| 0 <= i < |db.chunks| && IssuedBy(p)(db.chunks[i]) && Holds(db.chunks[i].keys, key);
    assert !IsLost(db.chunks[i], p);
  }

  // ── The row of a new job ────────────────────────────────────────────────

  /** A new virtual-chunk job: the picked run, in the hands of the worker since now. */
  lemma NewVirtualRow(db: Db, p: int, name: string, now: int, o: Order, needed: nat, pick: Pick)
    requires p in db.puzzles && db.puzzles[p].count > 0 && pick != NoPick
    ensures var run := Span(pick.start, pick.start + pick.k);
            Issued(db, p, name, now, VirtualIssue(o, needed, pick)).chunks ==
              db.chunks + [Chunk(p, KeysOf(db.puzzles[p], run), Assigned, Some(name), None, Some(now), Some(now), None,
                                 None, false, None, Some(run), if o.Feistel? then FeistelGen else AffineGen)]
  {}

  /** A new legacy job: the next keys of its sector, no more than the chunk size, which the sector moves past. */
  lemma NewLegacyRow(db: Db, p: int, name: string, now: int, chunkSize: int, s: nat)
    requires p in db.puzzles && s < |db.sectors| && db.sectors[s].current < db.sectors[s].keys.end && chunkSize > 0
    ensures var (after, z) := (Issued(db, p, name, now, LegacyIssue(chunkSize, Some(s))), db.sectors[s]);
            var end := if z.current + chunkSize < z.keys.end then z.current + chunkSize else z.keys.end;
            && after == db.(chunks := after.chunks, sectors := after.sectors)
            && after.chunks ==
                 db.chunks + [Chunk(p, Span(z.current, end), Assigned, Some(name), None, Some(now), Some(now), None, None,
                                    false, Some(s), None, LegacyGen)]
            && after.sectors == db.sectors[s := Sector(z.puzzle, z.keys, end, end < z.keys.end)]
  {}

  lemma {:induction false} SomeJob(chunks: seq<Chunk>, p: int, i: nat)
    requires i < |chunks| && chunks[i].puzzle == p && !chunks[i].isTest
    ensures CountWhere(chunks, IssuedBy(p)) > 0
  {
    if i < |chunks| - 1 {
      SomeJob(chunks[..|chunks| - 1], p, i);
    }
  }

  /** Once a legacy puzzle has a job, the next one may come from any open sector, and from nowhere else. */
  lemma AnyOpenSector(db: Db, p: int, cfg: Config, chunkSize: int, i: nat, s: nat)
    requires p in db.puzzles && db.puzzles[p].strategy == Legacy
    requires i < |db.chunks| && db.chunks[i].puzzle == p && !db.chunks[i].isTest
    ensures IssueFits(db, p, cfg, LegacyIssue(chunkSize, Some(s))) <==>
              chunkSize > 0 && s < |db.sectors| && db.sectors[s].puzzle == p && db.sectors[s].open
    ensures IssueFits(db, p, cfg, LegacyIssue(chunkSize, None)) <==>
              chunkSize <= 0 || forall x | 0 <= x < |db.sectors| :: !(db.sectors[x].puzzle == p && db.sectors[x].open)
  {
    SomeJob(db.chunks, p, i);
    var ids := OpenIds(db.sectors, p);
    if ids != [] {
      assert ids[0] in ids;
    } else {
      assert forall x: nat | x < |db.sectors| :: x !in ids;
    }
  }

  lemma {:induction false} SeededAt(p: int, keys: Span, n: nat, k: nat, i: nat)
    requires n > 0 && keys.start < keys.end && i < k
    ensures |SeededSectors(p, keys, n, k)| == k
    ensures SeededSectors(p, keys, n, k)[i].puzzle == p && SeededSectors(p, keys, n, k)[i].open
    ensures SeededSectors(p, keys, n, k)[i].current == keys.start + i * ((keys.end - keys.start) / n)
  {
    if k > 1 {
      SeededAt(p, keys, n, k - 1, if i < k - 1 then i else 0);
    } else {
      assert SeededSectors(p, keys, n, 0) == [];
    }
  }

  lemma OpenSnoc(sectors: seq<Sector>, s: Sector, p: int)
    requires s.puzzle == p && s.open
    ensures OpenIds(sectors + [s], p) == OpenIds(sectors, p) + [|sectors|]
  {
    assert (sectors + [s])[..|sectors|] == sectors;
  }

  /** Open sectors appended for a puzzle without any are listed in order. */
  lemma {:induction false} AppendedOpen(before: seq<Sector>, v: seq<Sector>, p: int, i: nat)
    requires forall s | 0 <= s < |before| :: before[s].puzzle != p
    requires i < |v| && forall s | 0 <= s < |v| :: v[s].puzzle == p && v[s].open
    ensures |OpenIds(before + v, p)| == |v| && OpenIds(before + v, p)[i] == |before| + i
  {
    var n := |v| - 1;
    assert before + v == (before + v[..n]) + [v[n]];
    OpenSnoc(before + v[..n], v[n], p);
    if n > 0 {
      AppendedOpen(before, v[..n], p, if i < n then i else 0);
    } else {
      NoneOpen(before, p);
      assert before + v[..n] == before;
    }
  }

  lemma {:induction false} NoneOpen(sectors: seq<Sector>, p: int)
    requires forall s | 0 <= s < |sectors| :: sectors[s].puzzle != p
    ensures OpenIds(sectors, p) == []
  {
    if sectors != [] {
      NoneOpen(sectors[..|sectors| - 1], p);
    }
  }

  lemma SeededOpen(before: seq<Sector>, p: int, keys: Span, n: nat, i: nat)
    requires keys.start < keys.end && i < n && forall s | 0 <= s < |before| :: before[s].puzzle != p
    ensures |SeededSectors(p, keys, n, n)| == n
    ensures |OpenIds(before + SeededSectors(p, keys, n, n), p)| == n
    ensures OpenIds(before + SeededSectors(p, keys, n, n), p)[i] == |before| + i
  {
    var v := SeededSectors(p, keys, n, n);
    SeededAt(p, keys, n, n, i);
    forall s | 0 <= s < |v| ensures v[s].puzzle == p && v[s].open {
      SeededAt(p, keys, n, n, s);
    }
    AppendedOpen(before, v, p, i);
  }

  lemma FirstPick(db: Db, p: int, cfg: Config, chunkSize: int, s: nat)
    requires p in db.puzzles && forall i | 0 <= i < |db.chunks| :: db.chunks[i].puzzle != p
    requires IssueFits(db, p, cfg, LegacyIssue(chunkSize, Some(s)))
    requires cfg.targetSectors / 2 < |OpenIds(db.sectors, p)|
    ensures s == OpenIds(db.sectors, p)[cfg.targetSectors / 2]
  {
    NoJobs(db.chunks, p);
  }

  /** The first job of a legacy puzzle with enough sectors starts at the middle one. */
  lemma FirstLegacyJob(before: seq<Sector>, db: Db, cfg: Config, p: int, keys: Span, n: nat, chunkSize: int, s: nat)
    requires keys.start < keys.end && cfg.targetSectors / 2 < n && p in db.puzzles
    requires db.sectors == before + SeededSectors(p, keys, n, n)
    requires forall i | 0 <= i < |before| :: before[i].puzzle != p
    requires forall i | 0 <= i < |db.chunks| :: db.chunks[i].puzzle != p
    requires IssueFits(db, p, cfg, LegacyIssue(chunkSize, Some(s)))
    ensures s < |db.sectors|
    ensures db.sectors[s].current == keys.start + (cfg.targetSectors / 2) * ((keys.end - keys.start) / n)
  {
    var mid := cfg.targetSectors / 2;
    SeededOpen(before, p, keys, n, mid);
    FirstPick(db, p, cfg, chunkSize, s);
    SeededAt(p, keys, n, n, mid);
    assert db.sectors[|before| + mid] == SeededSectors(p, keys, n, n)[mid];
  }

  lemma {:induction false} NoJobs(chunks: seq<Chunk>, p: int)
    requires forall i | 0 <= i < |chunks| :: chunks[i].puzzle != p
    ensures CountWhere(chunks, IssuedBy(p)) == 0
  {
    if chunks != [] {
      NoJobs(chunks[..|chunks| - 1], p);
    }
  }
}

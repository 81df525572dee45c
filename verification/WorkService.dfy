/** The work service as an object over the tables (src/work_service.cpp). */
module WorkService {
  import opened Wrappers
  import opened Intervals
  import opened Permutation
  import opened PoolModel
  import opened VirtualJobs
  import opened Legacy
  import opened Lifecycle
  import opened LifecycleSafety
  import A = Allocator

  class WorkService {
    const db: PoolDb
    const allocator: A.Allocator
    const cfg: Config

    ghost predicate Wired() {
      && allocator.db == db && allocator.maxProbes == cfg.maxProbes
      && allocator.targetSectors == cfg.targetSectors && cfg.targetSectors > 0 && !allocator.autoReseed
    }

    constructor (db: PoolDb, allocator: A.Allocator, cfg: Config)
      requires allocator.db == db && allocator.maxProbes == cfg.maxProbes
      requires allocator.targetSectors == cfg.targetSectors && cfg.targetSectors > 0 && !allocator.autoReseed
      ensures this.db == db && this.allocator == allocator && this.cfg == cfg && Wired()
    {
      this.db, this.allocator, this.cfg := db, allocator, cfg;
    }

    method UpsertWorkerAndDetectReactivation(name: string, now: int) returns (inactive: bool)
      modifies db`workers
      ensures inactive == Stale(old(db.View()), cfg, name, now)
      ensures db.workers == old(db.workers)[name := now]
    {
      inactive := name in db.workers && db.workers[name] < now - cfg.reactivateAfter;
      db.workers := db.workers[name := now];
    }

    method BeginRequest(name: string, now: int) returns (isReactivating: bool)
      modifies db`workers, db`chunks
      ensures isReactivating == Stale(old(db.View()), cfg, name, now)
      ensures db.View() == Begin(old(db.View()), cfg, name, now)
    {
      isReactivating := UpsertWorkerAndDetectReactivation(name, now);
      if isReactivating {
        var _ := db.Update(AssignedTo(name), Reclaim());
      }
    }

    method ClaimTestChunk(name: string, p: int, span: Span, now: int) returns (r: Option<nat>)
      modifies db`chunks
      ensures match ClaimTest(old(db.View()), p, span)
              case None => r == None && db.View() == old(db.View())
              case Some(how) => r.Some? && (db.View(), r.value) == ServedRow(old(db.View()), p, name, now, how)
    {
      var taken := db.First(TestWith(p, span, Assigned));
      if taken.Some? {
        return None;
      }
      var free := db.First(TestWith(p, span, Reclaimed));
      if free.Some? {
        db.chunks := db.chunks[free.value := AssignTo(name, now)(db.chunks[free.value])];
        return free;
      }
      db.chunks := db.chunks + [TestRow(p, name, now, span)];
      r := Some(|db.chunks| - 1);
    }

    method ReclaimChunk(name: string, p: int, now: int) returns (r: Option<nat>)
      modifies db`chunks
      ensures r == FirstWhere(old(db.chunks), ReclaimedOf(p))
      ensures db.chunks == if r.None? then old(db.chunks)
                           else old(db.chunks)[r.value := AssignTo(name, now)(old(db.chunks)[r.value])]
    {
      r := db.First(ReclaimedOf(p));
      if r.Some? {
        db.chunks := db.chunks[r.value := AssignTo(name, now)(db.chunks[r.value])];
      }
    }

    /** On the tables of a run, every puzzle is seeded already: only the blocked list is reloaded. */
    method EnsureAllocator(p: int)
      requires Wired() && Inv(db.View()) && p in db.puzzles
      modifies allocator`blockedRanges, db`puzzles, db`sectors
      ensures db.View() == old(db.View())
      ensures db.puzzles[p].strategy == VChunks ==> allocator.BlockedLoaded(p)
    {
      assert PuzzleOk(db.View(), p);
      ghost var z := db.puzzles[p];
      if z.strategy == Legacy {
        HasSector(db.sectors, p, z.keys.start, z.keys.end);
      }
      var ok := allocator.EnsureAllocator(p);
      assert db.puzzles == old(db.puzzles);
    }

    /** Issues a new job with the strategy of the puzzle. */
    method AssignFresh(name: string, p: int, now: int, requestedKeys: int, chunkSize: int, o: Order)
      returns (r: WorkResult, ghost issue: Issue)
      requires Wired() && Inv(db.View()) && p in db.puzzles
      requires db.puzzles[p].strategy == VChunks ==> ValidOrder(o, db.puzzles[p].count) && allocator.BlockedLoaded(p)
      modifies allocator`occupiedRanges, db`chunks, db`puzzles, db`sectors
      ensures IssueFits(old(db.View()), p, cfg, issue)
      ensures (db.View(), r) == Served(old(db.View()), p, name, now, Fresh, issue)
    {
      ghost var before := db.View();
      assert PuzzleOk(before, p);
      var job: Option<nat>;
      if db.puzzles[p].strategy == VChunks {
        ghost var needed := NeededChunks(requestedKeys, db.puzzles[p].size, db.puzzles[p].count);
        ghost var pick;
        job, pick := allocator.AssignVirtualChunkJob(p, name, now, requestedKeys, o);
        issue := VirtualIssue(o, needed, pick);
      } else {
        ghost var swept, pick;
        job, swept, pick := allocator.AssignLegacyRandomChunk(p, name, now, chunkSize);
        SectorsOkOpen(before);
        NothingSwept(before.sectors, swept, p);
        assert before.(sectors := swept) == before;
        issue := LegacyIssue(chunkSize, pick);
      }
      r := if job.None? then Exhausted else Job(job.value);
    }

    /** An own job, the test chunk, a reclaimed job, or a new one. */
    method Serve(name: string, p: int, now: int, isReactivating: bool, requestedKeys: int, chunkSize: int, o: Order)
      returns (r: WorkResult, ghost issue: Issue)
      requires Wired() && Inv(db.View()) && p in db.puzzles
      requires db.puzzles[p].strategy == VChunks ==> ValidOrder(o, db.puzzles[p].count) && allocator.BlockedLoaded(p)
      modifies allocator`occupiedRanges, db`chunks, db`puzzles, db`sectors
      ensures Choose(old(db.View()), p, name, isReactivating) == Fresh ==> IssueFits(old(db.View()), p, cfg, issue)
      ensures (db.View(), r) ==
                Served(old(db.View()), p, name, now, Choose(old(db.View()), p, name, isReactivating), issue)
    {
      issue := LegacyIssue(0, None);
      var existing := db.First(AssignedIn(name, p));
      if existing.Some? {
        return Job(existing.value), issue;
      }
      if db.puzzles[p].test.Some? {
        var claimed := ClaimTestChunk(name, p, db.puzzles[p].test.value, now);
        if claimed.Some? {
          return Job(claimed.value), issue;
        }
      }
      if !isReactivating {
        var reclaimed := ReclaimChunk(name, p, now);
        if reclaimed.Some? {
          return Job(reclaimed.value), issue;
        }
      }
      r, issue := AssignFresh(name, p, now, requestedKeys, chunkSize, o);
    }

    /**
     * The whole request. The order and the two sizes are what the allocator derives from the puzzle's seed and the
     * worker's figures.
     */
    method AssignWork(name: string, now: int, requestedKeys: int, chunkSize: int, o: Order)
      returns (r: WorkResult, ghost issue: Issue)
      requires Wired() && Inv(db.View())
      requires db.active.Some? && db.active.value in db.puzzles && db.puzzles[db.active.value].strategy == VChunks ==>
                 ValidOrder(o, db.puzzles[db.active.value].count)
      modifies db, allocator`blockedRanges, allocator`occupiedRanges
      ensures WorkEnabled(old(db.View()), cfg, name, now, issue)
      ensures (db.View(), r) == Work(old(db.View()), cfg, name, now, issue)
    {
      ghost var before := db.View();
      var isReactivating := BeginRequest(name, now);
      BeginKeeps(before, cfg, name, now);
      if db.active.None? {
        return NoPuzzle, LegacyIssue(0, None);
      }
      EnsureAllocator(db.active.value);
      r, issue := Serve(name, db.active.value, now, isReactivating, requestedKeys, chunkSize, o);
    }

    method RecordHeartbeat(name: string, job: int, now: int)
      modifies db`workers, db`chunks
      ensures db.View() == Heartbeat(old(db.View()), name, job, now)
    {
      db.workers := db.workers[name := now];
      if 0 <= job < |db.chunks| && AssignedTo(name)(db.chunks[job]) {
        db.chunks := db.chunks[job := db.chunks[job].(heartbeat := Some(now))];
      }
    }

    method ReclaimTimedOutChunks(now: int) returns (reclaimed: nat)
      modifies db`chunks
      ensures (db.View(), reclaimed) == ReclaimTimedOut(old(db.View()), cfg, now)
    {
      reclaimed := db.Update(TimedOut(now - cfg.timeout), Reclaim());
    }
  }

  /** A tiled range has a sector. */
  lemma {:induction false} HasSector(sectors: seq<Sector>, p: int, a: int, b: int)
    requires Tiles(SectorSpans(sectors, p), a, b) && a < b
    ensures HasSectors(sectors, p)
  {
    if sectors != [] {
      var n := |sectors| - 1;
      if sectors[n].puzzle != p {
        assert SectorSpans(sectors, p) == SectorSpans(sectors[..n], p);
        HasSector(sectors[..n], p, a, b);
        var s :| 0 <= s < n && sectors[..n][s].puzzle == p;
        assert sectors[s].puzzle == p;
      }
    }
  }
}

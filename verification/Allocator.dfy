/** The allocator object: in-memory interval lists, run searches and job creation (src/allocator.cpp). */
module Allocator {
  import opened Wrappers
  import opened HexBigint
  import opened Intervals
  import opened Permutation
  import opened PoolModel
  import opened AllocSearch
  import opened VirtualJobs
  import opened Legacy
  import BlockedRanges

  class Allocator {
    const db: PoolDb
    const maxProbes: nat
    const targetSectors: nat
    const defaultSize: int
    const autoReseed: bool
    var blockedRanges: map<int, seq<Span>>
    var occupiedRanges: map<int, seq<Span>>

    constructor (db: PoolDb, maxProbes: nat, targetSectors: nat, defaultSize: int, autoReseed: bool)
      ensures this.db == db && this.maxProbes == maxProbes
      ensures this.targetSectors == targetSectors && this.defaultSize == defaultSize && this.autoReseed == autoReseed
      ensures blockedRanges == map[] && occupiedRanges == map[]
    {
      this.db, this.maxProbes, this.targetSectors := db, maxProbes, targetSectors;
      this.defaultSize, this.autoReseed := defaultSize, autoReseed;
      blockedRanges, occupiedRanges := map[], map[];
    }

    // ── In-memory lists ───────────────────────────────────────────────────

    /** The in-memory blocked list of puzzle p is canonical and covers what the table blocks. */
    ghost predicate BlockedLoaded(p: int)
      reads this, db
    {
      && p in blockedRanges && Canonical(blockedRanges[p])
      && forall x :: Covers(blockedRanges[p], x) <==> Blocked(db.blocked, p, x)
    }

    ghost predicate OccupiedLoaded(p: int)
      reads this, db
    {
      && p in occupiedRanges && Canonical(occupiedRanges[p])
      && forall x :: Covers(occupiedRanges[p], x) <==> Occupied(db.chunks, p, x)
    }

    /** Both lists are loaded; free is what they leave. */
    ghost predicate Loaded(p: int, free: iset<int>)
      reads this
    {
      && p in blockedRanges && Canonical(blockedRanges[p])
      && p in occupiedRanges && Canonical(occupiedRanges[p])
      && forall x :: x in free <==> !Covers(blockedRanges[p], x) && !Covers(occupiedRanges[p], x)
    }

    method LoadBlockedRanges(p: int)
      modifies this`blockedRanges
      ensures BlockedLoaded(p)
      ensures blockedRanges == old(blockedRanges)[p := blockedRanges[p]]
    {
      var rows: seq<Span> := [];
      for i := 0 to |db.blocked|
        invariant forall x :: Covers(rows, x) <==> Blocked(db.blocked[..i], p, x)
      {
        var r := db.blocked[i];
        ghost var before := rows;
        if r.puzzle == p {
          rows := rows + [r.span];
        }
        assert db.blocked[..i + 1] == db.blocked[..i] + [r];
        forall x ensures Covers(rows, x) <==> Blocked(db.blocked[..i + 1], p, x) {
          BlockedSnoc(db.blocked[..i], r, p, x);
          CoversSnoc(before, r.span, x);
        }
      }
      assert db.blocked[..|db.blocked|] == db.blocked;
      var merged := Load(rows);
      blockedRanges := blockedRanges[p := merged];
    }

    method LoadOccupiedRanges(p: int)
      modifies this`occupiedRanges
      ensures OccupiedLoaded(p)
      ensures occupiedRanges == old(occupiedRanges)[p := occupiedRanges[p]]
    {
      var rows: seq<Span> := [];
      for i := 0 to |db.chunks|
        invariant forall x :: Covers(rows, x) <==> Occupied(db.chunks[..i], p, x)
      {
        var c := db.chunks[i];
        ghost var before := rows;
        if OccupiesOf(c, p) {
          rows := rows + [c.run.value];
        }
        assert db.chunks[..i + 1] == db.chunks[..i] + [c];
        forall x ensures Covers(rows, x) <==> Occupied(db.chunks[..i + 1], p, x) {
          OccupiedSnoc(db.chunks[..i], c, p, x);
          if OccupiesOf(c, p) {
            CoversSnoc(before, c.run.value, x);
          }
        }
      }
      assert db.chunks[..|db.chunks|] == db.chunks;
      var merged := Load(rows);
      occupiedRanges := occupiedRanges[p := merged];
    }

    /** A puzzle without a list has nothing to overlap. */
    static method OverlapsInMemory(lists: map<int, seq<Span>>, p: int, start: int, endExclusive: int) returns (hit: bool)
      requires p in lists ==> Canonical(lists[p])
      requires start < endExclusive
      ensures hit <==> p in lists && Meets(lists[p], start, endExclusive)
    {
      if p !in lists {
        return false;
      }
      hit := Overlaps(lists[p], start, endExclusive);
    }

    method RangeIsFree(p: int, start: int, endExclusive: int, ghost free: iset<int>) returns (ok: bool)
      requires Loaded(p, free)
      ensures ok <==> 0 <= start < endExclusive && FreeRun(free, start, endExclusive - start)
    {
      if start < 0 || endExclusive <= start {
        return false;
      }
      var hit := OverlapsInMemory(occupiedRanges, p, start, endExclusive);
      if !hit {
        hit := OverlapsInMemory(blockedRanges, p, start, endExclusive);
      }
      ok := !hit;
      if hit {
        ghost var x :| start <= x < endExclusive && (Covers(occupiedRanges[p], x) || Covers(blockedRanges[p], x));
        assert x !in free;
      }
    }

    // ── Bootstrap searches ────────────────────────────────────────────────

    method FindBeginBootstrapRun(p: int, n: nat, k: nat, ghost free: iset<int>) returns (r: Option<nat>)
      requires Loaded(p, free) && k >= 1
      ensures r.Some? ==> EdgePicks(false, n, k, maxProbes, free, r.value)
      ensures r.None? ==> EdgeFails(false, n, k, maxProbes, free)
    {
      if k > n {
        return None;
      }
      var probes := Min(n - k + 1, maxProbes);
      for i := 0 to probes
        invariant forall j: nat | j < i :: !FreeRun(free, EdgeStart(false, n, k, j), k)
      {
        var ok := RangeIsFree(p, i, i + k, free);
        if ok {
          assert EdgeStart(false, n, k, i) == i;
          return Some(i);
        }
      }
      r := None;
    }

    method FindEndBootstrapRun(p: int, n: nat, k: nat, ghost free: iset<int>) returns (r: Option<nat>)
      requires Loaded(p, free) && k >= 1
      ensures r.Some? ==> EdgePicks(true, n, k, maxProbes, free, r.value)
      ensures r.None? ==> EdgeFails(true, n, k, maxProbes, free)
    {
      if k > n {
        return None;
      }
      var probes := Min(n - k + 1, maxProbes);
      for i := 0 to probes
        invariant forall j: nat | j < i :: !FreeRun(free, EdgeStart(true, n, k, j), k)
      {
        var start := n - k - i;
        var ok := RangeIsFree(p, start, start + k, free);
        if ok {
          assert EdgeStart(true, n, k, i) == start;
          return Some(start);
        }
      }
      r := None;
    }

    /** One candidate of the outward walk; tried holds starts already found unusable. */
    method TryStart(p: int, start: nat, k: nat, tried: set<nat>, ghost free: iset<int>) returns (ok: bool)
      requires Loaded(p, free) && k >= 1
      requires AllTaken(tried, free, k)
      ensures ok <==> FreeRun(free, start, k)
    {
      if start in tried {
        return false;
      }
      ok := RangeIsFree(p, start, start + k, free);
    }

    method FindMidBootstrapRun(p: int, n: nat, k: nat, ghost free: iset<int>) returns (r: Option<nat>)
      requires Loaded(p, free) && k >= 1
      ensures r.Some? ==> MidPicks(n, k, maxProbes, free, r.value)
      ensures r.None? ==> MidFails(n, k, maxProbes, free)
    {
      if n == 0 || k > n {
        return None;
      }
      var anchor := n / 2;
      var tried: set<nat> := {};
      for dist := 0 to Min(n, maxProbes)
        invariant AllTaken(tried, free, k)
        invariant forall d: nat | d < dist :: MidFailsAt(n, k, d, free)
      {
        if anchor >= dist {
          var start := StartFor(anchor - dist, k, n);
          var ok := TryStart(p, start, k, tried, free);
          tried := tried + {start};
          if ok {
            assert MidPicksAt(n, k, dist, free, start);
            return Some(start);
          }
        }
        if dist > 0 {
          var right := anchor + dist;
          if right < n {
            var start := StartFor(right, k, n);
            var ok := TryStart(p, start, k, tried, free);
            tried := tried + {start};
            if ok {
              assert MidPicksAt(n, k, dist, free, start);
              return Some(start);
            }
          }
        }
        assert MidFailsAt(n, k, dist, free);
      }
      r := None;
    }

    method FindStageRun(stage: nat, p: int, n: nat, k: nat, ghost free: iset<int>) returns (r: Option<nat>)
      requires Loaded(p, free) && k >= 1
      ensures r.Some? ==> StagePicks(stage, n, k, maxProbes, free, r.value)
      ensures r.None? ==> StageFails(stage, n, k, maxProbes, free)
    {
      r := None;
      if stage == 0 {
        r := FindMidBootstrapRun(p, n, k, free);
      } else if stage == 1 {
        r := FindBeginBootstrapRun(p, n, k, free);
      } else if stage == 2 {
        r := FindEndBootstrapRun(p, n, k, free);
      }
    }

    /** The needed size first, then every smaller one. */
    method FindBootstrap(stage: nat, p: int, n: nat, needed: nat, ghost free: iset<int>) returns (pick: Pick)
      requires Loaded(p, free) && needed >= 1
      ensures !pick.Walk?
      ensures pick.Boot? ==> BootPicks(stage, n, needed, maxProbes, free, pick.start, pick.k)
      ensures pick.NoPick? ==> BootFails(stage, n, needed, maxProbes, free)
    {
      var r := FindStageRun(stage, p, n, needed, free);
      if r.Some? {
        return Boot(r.value, needed);
      }
      var fallback := needed - 1;
      while fallback >= 1
        invariant 0 <= fallback < needed
        invariant forall j: nat | fallback < j <= needed :: StageFails(stage, n, j, maxProbes, free)
      {
        r := FindStageRun(stage, p, n, fallback, free);
        if r.Some? {
          return Boot(r.value, fallback);
        }
        fallback := fallback - 1;
      }
      pick := NoPick;
    }

    // ── The walk in permutation order ─────────────────────────────────────

    method Candidate(o: Order, n: nat, cursor: nat, k: nat, offset: nat) returns (runStart: nat)
      requires ValidOrder(o, n)
      ensures runStart == RunAt(o, n, cursor, k, offset)
    {
      WalkIndexIs(cursor, offset, n);
      var orderIndex := (cursor + offset) % n;
      var candidate := PermuteIndex(o, n, orderIndex);
      runStart := StartFor(candidate, k, n);
    }

    /** Probes for one size; a start already tried is skipped. */
    method ProbeOrder(p: int, o: Order, n: nat, cursor: nat, k: nat, limit: nat, ghost free: iset<int>)
      returns (r: Option<(nat, nat)>)
      requires Loaded(p, free) && ValidOrder(o, n) && k >= 1
      ensures r.None? ==> ProbeFails(o, n, cursor, k, limit, free)
      ensures r.Some? ==>
                && r.value.0 < limit && r.value.1 == RunAt(o, n, cursor, k, r.value.0)
                && FreeRun(free, r.value.1, k) && ProbeFails(o, n, cursor, k, r.value.0, free)
    {
      var triedStarts: set<nat> := {};
      for offset := 0 to limit
        invariant AllTaken(triedStarts, free, k)
        invariant ProbeFails(o, n, cursor, k, offset, free)
      {
        var runStart := Candidate(o, n, cursor, k, offset);
        var ok := TryStart(p, runStart, k, triedStarts, free);
        if ok {
          return Some((offset, runStart));
        }
        OneMoreTaken(triedStarts, runStart, free, k);
        ProbeStep(o, n, cursor, k, offset, free);
        triedStarts := triedStarts + {runStart};
      }
      r := None;
    }

    method FindWalk(p: int, o: Order, n: nat, cursor: nat, needed: nat, limit: nat, ghost free: iset<int>)
      returns (pick: Pick)
      requires Loaded(p, free) && ValidOrder(o, n) && needed >= 1
      ensures !pick.Boot?
      ensures pick.Walk? ==> WalkPicks(o, n, cursor, needed, limit, free, pick.offset, pick.k)
      ensures pick.Walk? ==> pick.start == RunAt(o, n, cursor, pick.k, pick.offset)
      ensures pick.NoPick? ==> SearchFails(o, n, cursor, needed, limit, free)
    {
      var r := ProbeOrder(p, o, n, cursor, needed, limit, free);
      if r.Some? {
        return Walk(r.value.0, r.value.1, needed);
      }
      var fallback := needed - 1;
      while fallback >= 1
        invariant 0 <= fallback < needed
        invariant forall j: nat | fallback < j <= needed :: ProbeFails(o, n, cursor, j, limit, free)
      {
        r := ProbeOrder(p, o, n, cursor, fallback, limit, free);
        if r.Some? {
          return Walk(r.value.0, r.value.1, fallback);
        }
        fallback := fallback - 1;
      }
      pick := NoPick;
    }

    // ── Jobs ──────────────────────────────────────────────────────────────

    method AssignVirtualChunkRun(p: int, worker: string, now: int, start: nat, k: nat, gen: Generation) returns (id: nat)
      requires p in db.puzzles
      modifies db`chunks
      ensures id == |old(db.chunks)|
      ensures db.chunks == old(db.chunks) + [JobRow(db.puzzles[p], p, worker, now, Span(start, start + k), gen)]
    {
      id := |db.chunks|;
      var run := Span(start, start + k);
      db.chunks := db.chunks + [JobRow(db.puzzles[p], p, worker, now, run, gen)];
    }

    method AdvanceBootstrapStage(p: int, stage: nat)
      requires p in db.puzzles
      modifies db`puzzles
      ensures db.puzzles == old(db.puzzles)[p := old(db.puzzles)[p].(stage := stage)]
    {
      db.puzzles := db.puzzles[p := db.puzzles[p].(stage := stage)];
    }

    method SetAllocCursor(p: int, cursor: nat)
      requires p in db.puzzles
      modifies db`puzzles
      ensures db.puzzles == old(db.puzzles)[p := old(db.puzzles)[p].(cursor := cursor)]
    {
      db.puzzles := db.puzzles[p := db.puzzles[p].(cursor := cursor)];
    }

    /** assignBootstrap: the stage moves on with the job. */
    method AssignBootstrap(p: int, worker: string, now: int, needed: nat, gen: Generation, ghost free: iset<int>)
      returns (job: Option<nat>, ghost pick: Pick)
      requires p in db.puzzles && Loaded(p, free) && needed >= 1
      modifies db`chunks, db`puzzles
      ensures job == if pick == NoPick then None else Some(|old(db.chunks)|)
      ensures pick == NoPick ==>
                BootFails(old(db.puzzles[p]).stage, old(db.puzzles[p]).count, needed, maxProbes, free) &&
                db.chunks == old(db.chunks) && db.puzzles == old(db.puzzles)
      ensures pick != NoPick ==>
                var z := old(db.puzzles[p]);
                && pick.Boot? && BootPicks(z.stage, z.count, needed, maxProbes, free, pick.start, pick.k)
                && db.chunks == old(db.chunks) + [JobRow(z, p, worker, now, Span(pick.start, pick.start + pick.k), gen)]
                && db.puzzles == old(db.puzzles)[p := z.(stage := z.stage + 1)]
    {
      var z := db.puzzles[p];
      var found := FindBootstrap(z.stage, p, z.count, needed, free);
      pick := found;
      job := None;
      if found.Boot? {
        var id := AssignVirtualChunkRun(p, worker, now, found.start, found.k, gen);
        AdvanceBootstrapStage(p, z.stage + 1);
        job := Some(id);
      }
    }

    /** What a successful walk writes; z is the row read before the transaction, its stage may have moved on since. */
    method RecordWalk(z: Puzzle, p: int, worker: string, now: int, found: Pick, o: Order) returns (id: nat)
      requires p in db.puzzles && z.count > 0 && found.Walk?
      requires db.puzzles[p] == z.(stage := db.puzzles[p].stage)
      requires z.stage >= 3 ==> db.puzzles[p] == z
      modifies db`chunks, db`puzzles
      ensures id == |old(db.chunks)|
      ensures db.chunks == old(db.chunks)
                + [JobRow(z, p, worker, now, Span(found.start, found.start + found.k), GenerationOf(o))]
      ensures db.puzzles == old(db.puzzles)[p := Advanced(z, found)]
    {
      var nextCursor := ((z.cursor + found.offset) % z.count + 1) % z.count;
      SetAllocCursor(p, nextCursor);
      id := AssignVirtualChunkRun(p, worker, now, found.start, found.k, GenerationOf(o));
      if z.stage < 3 {
        AdvanceBootstrapStage(p, 3);
      }
    }

    method AssignWalk(z: Puzzle, p: int, worker: string, now: int, needed: nat, o: Order, ghost free: iset<int>)
      returns (job: Option<nat>, ghost pick: Pick)
      requires p in db.puzzles && Loaded(p, free) && needed >= 1 && ValidOrder(o, z.count)
      requires db.puzzles[p] == z.(stage := db.puzzles[p].stage)
      requires z.stage >= 3 ==> db.puzzles[p] == z
      modifies db`chunks, db`puzzles
      ensures !pick.Boot? && job == if pick == NoPick then None else Some(|old(db.chunks)|)
      ensures pick == NoPick ==>
                SearchFails(o, z.count, z.cursor, needed, Min(z.count, maxProbes), free) &&
                db.chunks == old(db.chunks) && db.puzzles == old(db.puzzles)
      ensures pick != NoPick ==>
                && WalkPicks(o, z.count, z.cursor, needed, Min(z.count, maxProbes), free, pick.offset, pick.k)
                && pick.start == RunAt(o, z.count, z.cursor, pick.k, pick.offset)
                && db.chunks == old(db.chunks)
                     + [JobRow(z, p, worker, now, Span(pick.start, pick.start + pick.k), GenerationOf(o))]
                && db.puzzles == old(db.puzzles)[p := Advanced(z, pick)]
    {
      var found := FindWalk(p, o, z.count, z.cursor, needed, Min(z.count, maxProbes), free);
      pick := found;
      job := None;
      if found.Walk? {
        var id := RecordWalk(z, p, worker, now, found, o);
        job := Some(id);
      }
    }

    /** Bootstrap, then the walk. A failed search may leave the stage bump behind. */
    method SearchAndRecord(z: Puzzle, booting: bool, p: int, worker: string, now: int, needed: nat, o: Order,
                           ghost free: iset<int>)
      returns (job: Option<nat>, ghost pick: Pick)
      requires p in db.puzzles && db.puzzles[p] == z && Loaded(p, free) && needed >= 1 && ValidOrder(o, z.count)
      requires booting ==> z.stage < 3
      modifies db`chunks, db`puzzles
      ensures PicksIn(z, booting, free, o, needed, maxProbes, pick)
      ensures job == if pick == NoPick then None else Some(|old(db.chunks)|)
      ensures pick == NoPick ==> db.chunks == old(db.chunks)
      ensures pick != NoPick ==>
                && db.puzzles == old(db.puzzles)[p := Advanced(z, pick)]
                && db.chunks == old(db.chunks)
                     + [JobRow(z, p, worker, now, Span(pick.start, pick.start + pick.k), GenerationOf(o))]
    {
      ghost var before := db.puzzles;
      if booting {
        job, pick := AssignBootstrap(p, worker, now, needed, GenerationOf(o), free);
        if job.Some? {
          assert PicksIn(z, booting, free, o, needed, maxProbes, pick);
          return;
        }
        AdvanceBootstrapStage(p, z.stage + 1);
      }
      job, pick := AssignWalk(z, p, worker, now, needed, o, free);
      if job.Some? {
        assert db.puzzles == before[p := Advanced(z, pick)];
      }
    }

    /** The tables change by one job, or, when the search fails, not at all: the stage bump is rolled back. */
    method AssignVirtualChunkJob(p: int, worker: string, now: int, requestedKeys: int, o: Order)
      returns (job: Option<nat>, ghost pick: Pick)
      requires p in db.puzzles && BlockedLoaded(p)
      requires db.puzzles[p].count > 0 ==> ValidOrder(o, db.puzzles[p].count)
      modifies this`occupiedRanges, db`chunks, db`puzzles
      ensures var z := old(db.puzzles[p]);
              if z.size == 0 || z.count == 0 then pick == NoPick && db.View() == old(db.View())
              else
                && Picks(old(db.View()), p, o, NeededChunks(requestedKeys, z.size, z.count), maxProbes, pick)
                && db.View() == AfterJob(old(db.View()), p, worker, now, o, pick)
      ensures job == if pick == NoPick then None else Some(|old(db.chunks)|)
    {
      var z := db.puzzles[p];
      pick := NoPick;
      if z.size == 0 || z.count == 0 {
        return None, pick;
      }
      var needed := NeededChunks(requestedKeys, z.size, z.count);
      var issued := db.Count(IssuedBy(p));
      var saved := db.puzzles;
      LoadOccupiedRanges(p);
      ghost var free := FreeSet(db.View(), p);
      job, pick := SearchAndRecord(z, issued < 3 && z.stage < 3, p, worker, now, needed, o, free);
      if job.None? {
        db.puzzles := saved;
      }
    }

    // ── Blocked ranges ────────────────────────────────────────────────────

    /** One pass over the table: the hull of v and what it touches, the hull of what it touches, and the rows to keep. */
    method ScanTouching(rows: seq<BlockedRow>, p: int, source: string, v: Span)
      returns (found: nat, merged: Span, exist: Span, kept: seq<BlockedRow>)
      ensures var t := BlockedRanges.Touching(rows, p, source, v);
              && found == |t| && merged == BlockedRanges.Hull(t, v)
              && (found == 1 ==> exist == t[0].span)
      ensures kept == BlockedRanges.Others(rows, p, source, v)
    {
      found, merged, exist, kept := 0, v, v, [];
      ghost var read: seq<BlockedRow>, t: seq<BlockedRow> := [], [];
      for i := 0 to |rows|
        invariant read == rows[..i]
        invariant t == BlockedRanges.Touching(read, p, source, v) && found == |t|
        invariant merged == BlockedRanges.Hull(t, v)
        invariant found == 1 ==> exist == t[0].span
        invariant kept == BlockedRanges.Others(read, p, source, v)
      {
        var r := rows[i];
        BlockedRanges.ScanStep(read, r, p, source, v);
        TakeSnoc(rows, i);
        read := read + [r];
        t := BlockedRanges.Touching(read, p, source, v);
        if BlockedRanges.Touches(r, p, source, v) {
          exist := if found == 0 then r.span else BlockedRanges.Join(exist, r.span);
          merged := BlockedRanges.Join(merged, r.span);
          found := found + 1;
        } else {
          kept := kept + [r];
        }
      }
      assert rows[..|rows|] == rows;
    }

    /** Rows of the same source that touch the range are replaced by one row around them all. */
    method InsertOrMergeBlockedRange(p: int, vStart: int, vEnd: int, source: string) returns (changed: int)
      requires vStart < vEnd
      modifies db`blocked
      ensures (db.blocked, changed) == BlockedRanges.InsertOrMerge(old(db.blocked), p, source, Span(vStart, vEnd))
    {
      var v := Span(vStart, vEnd);
      var found, merged, exist, kept := ScanTouching(db.blocked, p, source, v);
      if found == 0 {
        db.blocked := db.blocked + [BlockedRow(p, v, source)];
        return 1;
      }
      if found == 1 && merged == exist {
        return 0;
      }
      db.blocked := kept + [BlockedRow(p, merged, source)];
      changed := 1;
    }

    // ── Legacy mode ───────────────────────────────────────────────────────

    method SeedSectors(p: int, keys: Span)
      requires keys.start < keys.end && targetSectors > 0
      modifies db`sectors
      ensures var n := SectorCount(keys.end - keys.start, targetSectors);
              db.sectors == old(db.sectors) + SeededSectors(p, keys, n, n)
    {
      var n := SectorCount(keys.end - keys.start, targetSectors);
      var size := (keys.end - keys.start) / n;
      for i := 0 to n
        invariant db.sectors == old(db.sectors) + SeededSectors(p, keys, n, i)
      {
        var s := keys.start + i * size;
        var e := if i == n - 1 then keys.end else s + size;
        db.sectors := db.sectors + [Sector(p, Span(s, e), s, true)];
      }
    }

    method ListOpen(p: int) returns (ids: seq<nat>)
      ensures ids == OpenIds(db.sectors, p)
    {
      ids := [];
      for i := 0 to |db.sectors|
        invariant ids == OpenIds(db.sectors[..i], p)
      {
        assert db.sectors[..i + 1][..i] == db.sectors[..i];
        if db.sectors[i].puzzle == p && db.sectors[i].open {
          ids := ids + [i];
        }
      }
      assert db.sectors[..|db.sectors|] == db.sectors;
    }

    /** The sector the next chunk comes from: ORDER BY RANDOM() may return any open one. */
    method ChooseSector(p: int, isFirst: bool) returns (s: Option<nat>)
      ensures s.None? <==> OpenIds(db.sectors, p) == []
      ensures s.Some? ==> s.value in OpenIds(db.sectors, p)
      ensures s.Some? && isFirst && targetSectors / 2 < |OpenIds(db.sectors, p)| ==>
                s.value == OpenIds(db.sectors, p)[targetSectors / 2]
    {
      var ids := ListOpen(p);
      if isFirst && targetSectors / 2 < |ids| {
        return Some(ids[targetSectors / 2]);
      }
      if ids == [] {
        return None;
      }
      var j :| 0 <= j < |ids|;
      s := Some(ids[j]);
    }

    /** Cuts the next keys from a sector; one that is used up is closed. */
    method TakeKeys(p: int, worker: string, now: int, s: nat, effective: int) returns (id: nat)
      requires s < |db.sectors| && db.sectors[s].open
      requires 0 < effective <= db.sectors[s].keys.end - db.sectors[s].current
      modifies db`chunks, db`sectors
      ensures id == |old(db.chunks)|
      ensures db.View() == AfterLegacy(old(db.View()), p, worker, now, effective, Some(s))
    {
      var sector := db.sectors[s];
      var keys := Span(sector.current, sector.current + effective);
      if sector.current + effective >= sector.keys.end {
        db.sectors := db.sectors[s := Closed(sector)];
      } else {
        db.sectors := db.sectors[s := sector.(current := keys.end)];
      }
      id := |db.chunks|;
      db.chunks := db.chunks + [LegacyRow(p, worker, now, keys, s)];
    }

    /** Closes open sectors that yield no key until one does. */
    method FindKeys(p: int, chunkSize: int, isFirst: bool) returns (s: Option<nat>)
      modifies db`sectors
      ensures chunkSize > 0 ==> Swept(old(db.sectors), db.sectors, p)
      ensures s.None? ==> OpenIds(db.sectors, p) == []
      ensures s.Some? ==>
                && chunkSize > 0 && s.value in OpenIds(db.sectors, p)
                && db.sectors[s.value].current < db.sectors[s.value].keys.end
                && (isFirst && targetSectors / 2 < |OpenIds(db.sectors, p)| ==>
                      s.value == OpenIds(db.sectors, p)[targetSectors / 2])
    {
      while true
        invariant chunkSize > 0 ==> Swept(old(db.sectors), db.sectors, p)
        decreases |OpenIds(db.sectors, p)|
      {
        s := ChooseSector(p, isFirst);
        if s.None? {
          return;
        }
        var sector := db.sectors[s.value];
        if Min(chunkSize, sector.keys.end - sector.current) > 0 {
          return;
        }
        CloseSector(db.sectors, p, s.value);
        db.sectors := db.sectors[s.value := Closed(sector)];
      }
    }

    /**
     * Open sectors without keys are closed on the way; swept is the table after that. The next keys come from an open
     * sector, or the closing is rolled back.
     */
    method AssignLegacyRandomChunk(p: int, worker: string, now: int, chunkSize: int)
      returns (job: Option<nat>, ghost swept: seq<Sector>, ghost pick: Option<nat>)
      modifies db`chunks, db`sectors
      ensures Swept(old(db.sectors), swept, p)
      ensures LegacyPicks(old(db.View()).(sectors := swept), p, chunkSize, targetSectors / 2, pick)
      ensures pick.None? ==> db.View() == old(db.View())
      ensures pick.Some? ==>
                && swept[pick.value].current < swept[pick.value].keys.end
                && db.View() == AfterLegacy(old(db.View()).(sectors := swept), p, worker, now, chunkSize, pick)
      ensures job == if pick.None? then None else Some(|old(db.chunks)|)
    {
      var issued := db.Count(IssuedBy(p));
      var saved := db.sectors;
      var s := FindKeys(p, chunkSize, issued == 0);
      swept, pick := if chunkSize > 0 then db.sectors else saved, s;
      if s.None? {
        db.sectors := saved;
        return None, swept, pick;
      }
      var sector := db.sectors[s.value];
      var id := TakeKeys(p, worker, now, s.value, Min(chunkSize, sector.keys.end - sector.current));
      job := Some(id);
    }

    // ── Seeding ───────────────────────────────────────────────────────────

    method SeedVirtualChunks(p: int, wanted: nat)
      requires p in db.puzzles && db.puzzles[p].keys.start < db.puzzles[p].keys.end && wanted > 0
      modifies db`puzzles
      ensures var z := old(db.puzzles[p]);
              db.puzzles == old(db.puzzles)[p := Reseeded(z, Min(wanted, z.keys.end - z.keys.start))]
    {
      var z := db.puzzles[p];
      var range := z.keys.end - z.keys.start;
      var size := Min(wanted, range);
      db.puzzles := db.puzzles[p := z.(size := size, count := CeilDiv(range, size), cursor := 0, stage := 0)];
    }

    method EnsureVirtualChunks(p: int)
      requires p in db.puzzles && db.puzzles[p].keys.start < db.puzzles[p].keys.end
      modifies db`puzzles
      ensures db.puzzles == old(db.puzzles)
                [p := Ensured(old(db.puzzles[p]), defaultSize, autoReseed, CountWhere(db.chunks, IssuedBy(p)))]
    {
      var z := db.puzzles[p];
      var issued := db.Count(IssuedBy(p));
      var range := z.keys.end - z.keys.start;
      var desiredDefault := DefaultSize(defaultSize, range);
      var size := desiredDefault;
      if z.size > 0 {
        size := Min(z.size, range);
      }
      if z.count != CeilDiv(range, size) {
        SeedVirtualChunks(p, size);
      } else if autoReseed && issued == 0 && size != desiredDefault {
        SeedVirtualChunks(p, desiredDefault);
      }
    }

    /** No exception is thrown: the puzzle exists, and a range that has to be cut is not empty. */
    ghost predicate CanEnsure(p: int)
      reads db
    {
      && p in db.puzzles
      && (db.puzzles[p].strategy == VChunks || !HasSectors(db.sectors, p) ==>
            db.puzzles[p].keys.start < db.puzzles[p].keys.end)
    }

    /** The puzzle is then seeded and, for virtual chunks, its blocked list is loaded; an exception changes nothing. */
    method EnsureAllocator(p: int) returns (ok: bool)
      requires targetSectors > 0
      modifies this`blockedRanges, db`puzzles, db`sectors
      ensures ok == old(CanEnsure(p))
      ensures !ok ==> db.puzzles == old(db.puzzles) && db.sectors == old(db.sectors)
      ensures !ok ==> blockedRanges == old(blockedRanges)
      ensures ok ==>
                var z := old(db.puzzles[p]);
                if z.strategy == VChunks then
                  && db.puzzles == old(db.puzzles)
                       [p := Ensured(z, defaultSize, autoReseed, CountWhere(db.chunks, IssuedBy(p)))]
                  && db.sectors == old(db.sectors) && BlockedLoaded(p)
                else
                  db.puzzles == old(db.puzzles) &&
                  db.sectors == EnsuredSectors(old(db.sectors), p, z.keys, targetSectors)
    {
      if p !in db.puzzles {
        return false;
      }
      var z := db.puzzles[p];
      if z.strategy == VChunks {
        if z.keys.end <= z.keys.start {
          return false;
        }
        EnsureVirtualChunks(p);
        LoadBlockedRanges(p);
      } else {
        var seeded := false;
        for s := 0 to |db.sectors|
          invariant seeded <==> exists t :: 0 <= t < s && db.sectors[t].puzzle == p
        {
          seeded := seeded || db.sectors[s].puzzle == p;
        }
        if !seeded {
          if z.keys.end <= z.keys.start {
            return false;
          }
          SeedSectors(p, z.keys);
        }
      }
      ok := true;
    }
  }
}

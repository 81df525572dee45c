/** What one call of assignVirtualChunkJob does to the tables, and what it means for the key space (src/allocator.cpp). */
module VirtualJobs {
  import Digits
  import opened Wrappers
  import opened HexBigint
  import opened Intervals
  import opened Permutation
  import opened Sets
  import opened PoolModel
  import opened AllocSearch

  // ── How many chunks a worker gets ───────────────────────────────────────

  /** ceilDiv on big integers, which divide towards zero. */
  function CeilDivBig(a: int, b: nat): (r: int)
    requires b > 0
    ensures a >= 0 ==> r == CeilDiv(a, b)
    ensures a <= 0 ==> r <= 0
  {
    if a + b - 1 >= 0 then (a + b - 1) / b else -(-(a + b - 1) / b)
  }

  /** Between 1 and count, and the least number of chunks holding the requested keys when that lies in between. */
  function NeededChunks(requested: int, size: nat, count: nat): (k: nat)
    requires size > 0 && count > 0
    ensures 1 <= k <= count
    ensures k < count ==> requested <= k * size
    ensures k > 1 ==> (k - 1) * size < requested
  {
    var c := CeilDivBig(requested, size);
    if c > 1 then
      Digits.MulMono(Min(c, count), c, size);
      assert (c - 1) * size == c * size - size;
      assert (Min(c, count) - 1) * size == Min(c, count) * size - size;
      Min(c, count)
    else 1
  }

  /** computeWorkerRequestedKeys: the target or the worker's minimum, rounded up to the worker's quantum. */
  function RequestedKeys(target: int, minKeys: int, quantum: int): (r: int)
    ensures target >= 0 ==> r >= Max(target, minKeys) && r < Max(target, minKeys) + Max(1, quantum)
    ensures quantum > 1 ==> exists m: int :: r == m * quantum
  {
    var raw := Max(target, if minKeys > 0 then minKeys else target);
    if quantum <= 1 then raw else CeilDivBig(raw, quantum) * quantum
  }

  /** The size and count columns as seedVirtualChunks writes them. */
  predicate WellSized(z: Puzzle) {
    && z.keys.start < z.keys.end
    && 0 < z.size
    && z.count == CeilDiv(z.keys.end - z.keys.start, z.size)
  }

  /** chooseDefaultVirtualChunkSize */
  function DefaultSize(configured: int, range: nat): (size: nat)
    requires range > 0
    ensures 1 <= size <= range
    ensures 1 <= configured <= range ==> size == configured
    ensures configured > range ==> size == range
    ensures configured <= 0 ==> size == 1
  {
    Min(if configured > 0 then configured else 1, range)
  }

  /**
   * ensureAllocatorForPuzzle on a virtual-chunk puzzle: seeds it when the stored count is not the expected one, and, if
   * configured so, gives a puzzle without jobs the default size.
   */
  function Ensured(z: Puzzle, configured: int, autoReseed: bool, issued: nat): (r: Puzzle)
    requires z.keys.start < z.keys.end
    ensures WellSized(z) && !(autoReseed && issued == 0) ==> r == z
    ensures WellSized(z) && autoReseed && issued == 0 ==>
              Min(r.size, z.keys.end - z.keys.start) == DefaultSize(configured, z.keys.end - z.keys.start)
    ensures z.size > 0 || z.count == 0 ==> WellSized(r)
    ensures r == z || (r.cursor == 0 && r.stage == 0)
    ensures r.keys == z.keys && r.test == z.test && r.strategy == z.strategy
  {
    var range := z.keys.end - z.keys.start;
    var default := DefaultSize(configured, range);
    var size := if z.size > 0 then Min(z.size, range) else default;
    CountAtLeastOne(range, size);
    OneChunk(range, z.size);
    if z.count != CeilDiv(range, size) then Reseeded(z, size)
    else if autoReseed && issued == 0 && size != default then Reseeded(z, default)
    else z
  }

  function Reseeded(z: Puzzle, size: nat): Puzzle
    requires z.keys.start < z.keys.end && size > 0
  {
    z.(size := size, count := CeilDiv(z.keys.end - z.keys.start, size), cursor := 0, stage := 0)
  }

  lemma CountAtLeastOne(range: nat, size: nat)
    requires 0 < size <= range
    ensures CeilDiv(range, size) >= 1
  {
    CeilDivIsLeast(range, size, 0);
  }

  /** A size beyond the range makes one chunk, as the range itself does. */
  lemma OneChunk(range: nat, size: nat)
    requires range > 0
    ensures size >= range ==> CeilDiv(range, size) == 1 == CeilDiv(range, range)
  {
    if size >= range {
      CeilDivIsLeast(range, size, 1);
      CeilDivIsLeast(range, size, 0);
      CeilDivIsLeast(range, range, 1);
      CeilDivIsLeast(range, range, 0);
    }
  }

  // ── One call ────────────────────────────────────────────────────────────

  /** Outcome of the search; Boot and Walk carry the run [start, start + k). */
  datatype Pick = NoPick | Boot(start: nat, k: nat) | Walk(offset: nat, start: nat, k: nat)

  predicate Booting(db: Db, p: int)
    requires p in db.puzzles
  {
    CountWhere(db.chunks, IssuedBy(p)) < 3 && db.puzzles[p].stage < 3
  }

  /** What the search finds for a puzzle row, given the free chunks. */
  ghost predicate PicksIn(z: Puzzle, booting: bool, free: iset<int>, o: Order, needed: nat, maxProbes: nat, pick: Pick)
    requires ValidOrder(o, z.count)
  {
    var limit := Min(z.count, maxProbes);
    match pick
    case Boot(start, k) => booting && BootPicks(z.stage, z.count, needed, maxProbes, free, start, k)
    case Walk(offset, start, k) =>
      && (booting ==> BootFails(z.stage, z.count, needed, maxProbes, free))
      && WalkPicks(o, z.count, z.cursor, needed, limit, free, offset, k)
      && start == RunAt(o, z.count, z.cursor, k, offset)
    case NoPick =>
      && (booting ==> BootFails(z.stage, z.count, needed, maxProbes, free))
      && SearchFails(o, z.count, z.cursor, needed, limit, free)
  }

  ghost predicate Picks(db: Db, p: int, o: Order, needed: nat, maxProbes: nat, pick: Pick)
    requires p in db.puzzles && ValidOrder(o, db.puzzles[p].count)
  {
    PicksIn(db.puzzles[p], Booting(db, p), FreeSet(db, p), o, needed, maxProbes, pick)
  }

  function GenerationOf(o: Order): Generation {
    if o.Feistel? then FeistelGen else AffineGen
  }

  function JobRow(z: Puzzle, p: int, worker: string, now: int, run: Span, gen: Generation): Chunk {
    Chunk(p, KeysOf(z, run), Assigned, Some(worker), None, Some(now), Some(now), None, None, false, None, Some(run), gen)
  }

  /** The puzzle row after a successful search. */
  function Advanced(z: Puzzle, pick: Pick): Puzzle
    requires z.count > 0
  {
    match pick
    case Boot(_, _) => z.(stage := z.stage + 1)
    case Walk(offset, _, _) =>
      z.(cursor := ((z.cursor + offset) % z.count + 1) % z.count, stage := if z.stage < 3 then 3 else z.stage)
    case NoPick => z
  }

  function AfterJob(db: Db, p: int, worker: string, now: int, o: Order, pick: Pick): Db
    requires p in db.puzzles && db.puzzles[p].count > 0
  {
    if pick == NoPick then db
    else
      var z := db.puzzles[p];
      db.(chunks := db.chunks + [JobRow(z, p, worker, now, Span(pick.start, pick.start + pick.k), GenerationOf(o))],
          puzzles := db.puzzles[p := Advanced(z, pick)])
  }

  // ── What a call achieves ────────────────────────────────────────────────

  /** Whatever the probe limit: the run lies in the puzzle, is no longer than asked for, and was free. */
  lemma JobSound(db: Db, p: int, o: Order, needed: nat, maxProbes: nat, pick: Pick)
    requires p in db.puzzles && ValidOrder(o, db.puzzles[p].count) && needed <= db.puzzles[p].count
    requires Picks(db, p, o, needed, maxProbes, pick) && pick != NoPick
    ensures 1 <= pick.k <= needed
    ensures RunFrom(FreeSet(db, p), db.puzzles[p].count, pick.k, pick.start)
  {
    var z, free := db.puzzles[p], FreeSet(db, p);
    if pick.Boot? {
      StageSound(z.stage, z.count, pick.k, maxProbes, free, pick.start);
    }
  }

  /** With a probe for every chunk: the longest run possible, and failure only when nothing is free. */
  lemma JobExact(db: Db, p: int, o: Order, needed: nat, maxProbes: nat, pick: Pick)
    requires p in db.puzzles && ValidOrder(o, db.puzzles[p].count) && 1 <= needed <= db.puzzles[p].count <= maxProbes
    requires Picks(db, p, o, needed, maxProbes, pick)
    ensures pick == NoPick <==> !AnyFree(FreeSet(db, p), db.puzzles[p].count)
    ensures pick != NoPick ==>
              pick.k == Min(needed, Longest(FreeSet(db, p), db.puzzles[p].count, db.puzzles[p].count))
  {
    var z, free := db.puzzles[p], FreeSet(db, p);
    LongestCapped(free, z.count, needed);
    match pick
    case Boot(start, k) =>
      BootExact(z.stage, z.count, needed, maxProbes, free, start, k);
      JobSound(db, p, o, needed, maxProbes, pick);
      assert start in free;
    case Walk(offset, start, k) =>
      WalkExact(o, z.count, z.cursor, needed, z.count, free, offset, k);
      JobSound(db, p, o, needed, maxProbes, pick);
      assert start in free;
    case NoPick =>
      FullSearch(o, z.count, z.cursor, needed, z.count, free);
  }

  // ── When a call overlooks free chunks ───────────────────────────────────

  /** A call for this puzzle row tries the run of one chunk at c. */
  ghost predicate Looks(z: Puzzle, booting: bool, o: Order, maxProbes: nat, c: nat)
    requires ValidOrder(o, z.count)
  {
    || WalkLooks(o, z.count, z.cursor, Min(z.count, maxProbes), c)
    || (booting && StageLooks(z.stage, z.count, maxProbes, c))
  }

  predicate HasRowFor(db: Db, p: int, z: Puzzle, booting: bool) {
    p in db.puzzles && db.puzzles[p] == z && Booting(db, p) == booting
  }

  /** Whatever else the tables hold, a call that fails for this puzzle row leaves no chunk free. */
  ghost predicate NeverOverlooks(z: Puzzle, p: int, booting: bool, o: Order, needed: nat, maxProbes: nat)
    requires ValidOrder(o, z.count)
  {
    forall db: Db | HasRowFor(db, p, z, booting) && Picks(db, p, o, needed, maxProbes, NoPick) ::
      !AnyFree(FreeSet(db, p), z.count)
  }

  /** A job without a run: it counts as issued and occupies nothing. */
  function PlainJob(p: int): Chunk {
    Chunk(p, Span(0, 0), Completed, Some(""), None, None, None, None, None, false, None, None, LegacyGen)
  }

  function ThreeJobs(p: int): (jobs: seq<Chunk>)
    ensures CountWhere(jobs, IssuedBy(p)) == 3
  {
    var j := PlainJob(p);
    assert [j, j, j][..2] == [j, j] && [j, j][..1] == [j] && [j][..0] == [];
    assert CountWhere([j], IssuedBy(p)) == 1;
    assert CountWhere([j, j], IssuedBy(p)) == 2;
    [j, j, j]
  }

  /** Tables in which every chunk but c is blocked. */
  function AllBlockedBut(z: Puzzle, p: int, booting: bool, c: nat): Db {
    var before := if c > 0 then [BlockedRow(p, Span(0, c), "import")] else [];
    var after := if c + 1 < z.count then [BlockedRow(p, Span(c + 1, z.count), "import")] else [];
    Db(map[p := z], Some(p), map[], if booting then [] else ThreeJobs(p), [], [], before + after)
  }

  lemma OneChunkFree(z: Puzzle, p: int, booting: bool, c: nat)
    requires c < z.count && (booting ==> z.stage < 3)
    ensures HasRowFor(AllBlockedBut(z, p, booting, c), p, z, booting)
    ensures OnlyFree(FreeSet(AllBlockedBut(z, p, booting, c), p), z.count, c)
  {
    var db := AllBlockedBut(z, p, booting, c);
    forall x | 0 <= x < z.count ensures x in FreeSet(db, p) <==> x == c {
      if x < c {
        assert db.blocked[0].puzzle == p && Holds(db.blocked[0].span, x);
      } else if c < x {
        assert db.blocked[|db.blocked| - 1].puzzle == p && Holds(db.blocked[|db.blocked| - 1].span, x);
      }
      assert x in FreeSet(db, p) <==> Free(db, p, x);
    }
  }

  /** A call that does not look at the one free chunk fails. */
  lemma MissesUnseen(db: Db, p: int, o: Order, needed: nat, maxProbes: nat, c: nat)
    requires p in db.puzzles && ValidOrder(o, db.puzzles[p].count) && needed <= db.puzzles[p].count
    requires OnlyFree(FreeSet(db, p), db.puzzles[p].count, c) && !Looks(db.puzzles[p], Booting(db, p), o, maxProbes, c)
    ensures Picks(db, p, o, needed, maxProbes, NoPick)
    ensures AnyFree(FreeSet(db, p), db.puzzles[p].count)
  {
    var z, free := db.puzzles[p], FreeSet(db, p);
    WalkMisses(o, z.count, z.cursor, needed, Min(z.count, maxProbes), free, c);
    if Booting(db, p) {
      forall k: nat | 1 <= k <= needed ensures StageFails(z.stage, z.count, k, maxProbes, free) {
        StageMisses(z.stage, z.count, k, maxProbes, free, c);
      }
    }
    assert c in free;
  }

  lemma LooksAtFree(db: Db, p: int, o: Order, needed: nat, maxProbes: nat, c: nat)
    requires p in db.puzzles && ValidOrder(o, db.puzzles[p].count) && 1 <= needed && c < db.puzzles[p].count
    requires Looks(db.puzzles[p], Booting(db, p), o, maxProbes, c)
    requires Picks(db, p, o, needed, maxProbes, NoPick)
    ensures c !in FreeSet(db, p)
  {
    var z, free := db.puzzles[p], FreeSet(db, p);
    if c in free {
      if WalkLooks(o, z.count, z.cursor, Min(z.count, maxProbes), c) {
        WalkMissesNone(o, z.count, z.cursor, needed, Min(z.count, maxProbes), free, c);
      } else {
        StageMissesNone(z.stage, z.count, maxProbes, free, c);
      }
      assert false;
    }
  }

  /** A call never overlooks a free chunk if and only if it looks at every chunk. */
  lemma NeverOverlooksIff(z: Puzzle, p: int, booting: bool, o: Order, needed: nat, maxProbes: nat)
    requires ValidOrder(o, z.count) && 1 <= needed <= z.count && (booting ==> z.stage < 3)
    ensures NeverOverlooks(z, p, booting, o, needed, maxProbes)
       <==> forall c: nat | c < z.count :: Looks(z, booting, o, maxProbes, c)
  {
    if forall c: nat | c < z.count :: Looks(z, booting, o, maxProbes, c) {
      forall db: Db | HasRowFor(db, p, z, booting) && Picks(db, p, o, needed, maxProbes, NoPick)
        ensures !AnyFree(FreeSet(db, p), z.count)
      {
        forall c: nat | c < z.count ensures c !in FreeSet(db, p) {
          LooksAtFree(db, p, o, needed, maxProbes, c);
        }
      }
    } else {
      var c: nat :| c < z.count && !Looks(z, booting, o, maxProbes, c);
      OneChunkFree(z, p, booting, c);
      MissesUnseen(AllBlockedBut(z, p, booting, c), p, o, needed, maxProbes, c);
    }
  }

  /** After the bootstrap a call never overlooks a free chunk if and only if there is a probe for every chunk. */
  lemma CompleteIff(z: Puzzle, p: int, o: Order, needed: nat, maxProbes: nat)
    requires ValidOrder(o, z.count) && 1 <= needed <= z.count
    ensures NeverOverlooks(z, p, false, o, needed, maxProbes) <==> z.count <= maxProbes
  {
    var limit := Min(z.count, maxProbes);
    NeverOverlooksIff(z, p, false, o, needed, maxProbes);
    WalkLooksAtAll(o, z.count, z.cursor, limit);
    if z.count <= maxProbes {
      forall c: nat | c < z.count ensures Looks(z, false, o, maxProbes, c) {
        assert WalkLooks(o, z.count, z.cursor, limit, c);
      }
    } else {
      var c: nat :| c < z.count && !WalkLooks(o, z.count, z.cursor, limit, c);
      assert !Looks(z, false, o, maxProbes, c);
    }
  }

  /** The middle stage looks both ways, so half as many probes are enough for it. */
  lemma MiddleStageComplete(z: Puzzle, p: int, o: Order, needed: nat, maxProbes: nat)
    requires ValidOrder(o, z.count) && 1 <= needed <= z.count && z.stage == 0 && z.count / 2 < maxProbes
    ensures NeverOverlooks(z, p, true, o, needed, maxProbes)
  {
    NeverOverlooksIff(z, p, true, o, needed, maxProbes);
    forall c: nat | c < z.count ensures Looks(z, true, o, maxProbes, c) {
      assert StageLooks(0, z.count, maxProbes, c);
    }
  }

  // ── Free chunks after a job ─────────────────────────────────────────────

  /** A job takes exactly its run out of the free chunks, and leaves other puzzles alone. */
  lemma FreeAfterJob(db: Db, p: int, worker: string, now: int, o: Order, pick: Pick, q: int, x: int)
    requires p in db.puzzles && db.puzzles[p].count > 0
    ensures Free(AfterJob(db, p, worker, now, o, pick), q, x) <==>
              Free(db, q, x) && !(q == p && pick != NoPick && pick.start <= x < pick.start + pick.k)
  {
    if pick != NoPick {
      var run := Span(pick.start, pick.start + pick.k);
      OccupiedSnoc(db.chunks, JobRow(db.puzzles[p], p, worker, now, run, GenerationOf(o)), q, x);
    }
  }

  // ── Repeated calls ──────────────────────────────────────────────────────

  datatype Call = Call(worker: string, now: int, needed: nat, pick: Pick)

  ghost predicate CallFits(db: Db, p: int, o: Order, maxProbes: nat, c: Call) {
    && p in db.puzzles && ValidOrder(o, db.puzzles[p].count)
    && 1 <= c.needed <= db.puzzles[p].count
    && Picks(db, p, o, c.needed, maxProbes, c.pick)
  }

  /** The tables after a series of calls for one puzzle. */
  ghost function AfterCalls(db: Db, p: int, o: Order, calls: seq<Call>): Db
    requires p in db.puzzles && db.puzzles[p].count > 0
    ensures p in AfterCalls(db, p, o, calls).puzzles
    ensures AfterCalls(db, p, o, calls).puzzles[p].count == db.puzzles[p].count
  {
    if calls == [] then db
    else
      var c := calls[|calls| - 1];
      AfterJob(AfterCalls(db, p, o, calls[..|calls| - 1]), p, c.worker, c.now, o, c.pick)
  }

  ghost predicate CallsFit(db: Db, p: int, o: Order, maxProbes: nat, calls: seq<Call>)
    requires p in db.puzzles && db.puzzles[p].count > 0
  {
    forall i | 0 <= i < |calls| :: CallFits(AfterCalls(db, p, o, calls[..i]), p, o, maxProbes, calls[i])
  }

  function Successes(calls: seq<Call>): nat {
    if calls == [] then 0
    else Successes(calls[..|calls| - 1]) + if calls[|calls| - 1].pick == NoPick then 0 else 1
  }

  ghost function FreeChunks(db: Db, p: int, n: nat): set<int> {
    set x | 0 <= x < n && Free(db, p, x)
  }

  /** Every successful call uses up a free chunk. */
  lemma {:induction false} CallsUseUp(db: Db, p: int, o: Order, maxProbes: nat, calls: seq<Call>)
    requires p in db.puzzles && db.puzzles[p].count > 0 && CallsFit(db, p, o, maxProbes, calls)
    ensures var n := db.puzzles[p].count;
            |FreeChunks(AfterCalls(db, p, o, calls), p, n)| + Successes(calls) <= |FreeChunks(db, p, n)|
  {
    if calls != [] {
      var n, init, c := db.puzzles[p].count, calls[..|calls| - 1], calls[|calls| - 1];
      assert forall i | 0 <= i < |init| :: init[..i] == calls[..i];
      CallsUseUp(db, p, o, maxProbes, init);
      var mid := AfterCalls(db, p, o, init);
      if c.pick != NoPick {
        JobSound(mid, p, o, c.needed, maxProbes, c.pick);
        TakesOne(mid, p, c.worker, c.now, o, c.pick, n);
      }
    }
  }

  lemma TakesOne(db: Db, p: int, worker: string, now: int, o: Order, pick: Pick, n: nat)
    requires p in db.puzzles && db.puzzles[p].count == n > 0 && pick != NoPick && pick.k >= 1
    requires RunFrom(FreeSet(db, p), n, pick.k, pick.start)
    ensures |FreeChunks(AfterJob(db, p, worker, now, o, pick), p, n)| + 1 <= |FreeChunks(db, p, n)|
  {
    var a, b := FreeChunks(db, p, n), FreeChunks(AfterJob(db, p, worker, now, o, pick), p, n);
    forall x | x in b ensures x in a && x != pick.start {
      FreeAfterJob(db, p, worker, now, o, pick, p, x);
    }
    assert pick.start in FreeSet(db, p);
    assert b <= a - {pick.start as int};
    SubsetSize(b, a - {pick.start as int});
  }

  /**
   * Calls succeed at most count times in all. When every chunk gets a probe, a call fails only once issued and
   * blocked chunks cover the puzzle.
   */
  lemma CallsExhaust(db: Db, p: int, o: Order, maxProbes: nat, calls: seq<Call>)
    requires p in db.puzzles && db.puzzles[p].count > 0 && CallsFit(db, p, o, maxProbes, calls)
    ensures Successes(calls) <= db.puzzles[p].count
    ensures db.puzzles[p].count <= maxProbes ==>
              forall i, x | 0 <= i < |calls| && calls[i].pick == NoPick && 0 <= x < db.puzzles[p].count ::
                !Free(AfterCalls(db, p, o, calls[..i]), p, x)
  {
    var n := db.puzzles[p].count;
    CallsUseUp(db, p, o, maxProbes, calls);
    var all := Interval(0, n);
    SubsetSize(FreeChunks(db, p, n), all);
    if n <= maxProbes {
      forall i, x | 0 <= i < |calls| && calls[i].pick == NoPick && 0 <= x < n
        ensures !Free(AfterCalls(db, p, o, calls[..i]), p, x)
      {
        var mid := AfterCalls(db, p, o, calls[..i]);
        assert CallFits(mid, p, o, maxProbes, calls[i]);
        JobExact(mid, p, o, calls[i].needed, maxProbes, NoPick);
        assert x in FreeSet(mid, p) <==> Free(mid, p, x);
      }
    }
  }

  // ── Keys of a run ───────────────────────────────────────────────────────

  function VirtualChunkOf(z: Puzzle, key: int): int
    requires z.size > 0
  {
    (key - z.keys.start) / z.size
  }

  lemma ChunkBounds(z: Puzzle, key: int, x: int)
    requires z.size > 0
    ensures x <= VirtualChunkOf(z, key) <==> z.keys.start + x * z.size <= key
  {
    var d, s := key - z.keys.start, z.size;
    var q := d / s;
    assert d == q * s + d % s;
    if x <= q {
      Digits.MulMono(x, q, s);
    } else {
      Digits.MulMono(q + 1, x, s);
      assert (q + 1) * s == q * s + s;
    }
  }

  /** A run stands for exactly the keys of its virtual chunks, the last chunk being cut off at the puzzle's end. */
  lemma KeysOfRun(z: Puzzle, run: Span)
    requires WellSized(z) && 0 <= run.start < run.end <= z.count
    ensures z.keys.start <= KeysOf(z, run).start < KeysOf(z, run).end <= z.keys.end
    ensures forall key | Holds(z.keys, key) :: Holds(KeysOf(z, run), key) <==> Holds(run, VirtualChunkOf(z, key))
  {
    var s := z.size;
    assert 0 * s == 0;
    Digits.MulMono(0, run.start, s);
    Digits.MulMono(run.start + 1, run.end, s);
    assert (run.start + 1) * s == run.start * s + s;
    Digits.MulMono(run.start, z.count - 1, s);
    assert (z.count - 1) * s == z.count * s - s;
    forall key | Holds(z.keys, key) ensures Holds(KeysOf(z, run), key) <==> Holds(run, VirtualChunkOf(z, key)) {
      ChunkBounds(z, key, run.start);
      ChunkBounds(z, key, run.end);
    }
  }

  /** Runs without a common chunk have no common key. */
  lemma DisjointRuns(z: Puzzle, a: Span, b: Span)
    requires z.size > 0 && a.end <= b.start
    ensures KeysOf(z, a).end <= KeysOf(z, b).start
  {
    Digits.MulMono(a.end, b.start, z.size);
  }
}

/** In which order virtual chunks are issued: where the bootstrap places its runs and how the walk moves on. */
module JobOrder {
  import Digits
  import opened HexBigint
  import opened Permutation
  import opened PoolModel
  import opened AllocSearch
  import opened VirtualJobs

  // ── Bootstrap ───────────────────────────────────────────────────────────

  function Apart(a: int, b: int): nat {
    if a < b then b - a else a - b
  }

  lemma ProbedAt(n: nat, k: nat, free: iset<int>, start: int)
    requires 1 <= k <= n && RunFrom(free, n, k, start)
    ensures !MidFailsAt(n, k, Apart(start, n / 2), free)
  {}

  /** No free run of the size is nearer to the middle, and none as near to its left. */
  lemma MiddleNearest(n: nat, k: nat, maxProbes: nat, free: iset<int>, start: int, other: int)
    requires 1 <= k <= n && MidPicks(n, k, maxProbes, free, start) && RunFrom(free, n, k, other)
    ensures Apart(start, n / 2) <= Apart(other, n / 2)
    ensures Apart(start, n / 2) == Apart(other, n / 2) ==> start <= other
  {
    var dist: nat :| dist < Min(n, maxProbes) && MidPicksAt(n, k, dist, free, start)
                     && forall d: nat | d < dist :: MidFailsAt(n, k, d, free);
    ProbedAt(n, k, free, other);
    ProbedAt(n, k, free, start);
    MiddleOf(n, k, dist, free, start, other);
  }

  lemma MiddleOf(n: nat, k: nat, dist: nat, free: iset<int>, start: int, other: int)
    requires 1 <= k <= n && MidPicksAt(n, k, dist, free, start) && RunFrom(free, n, k, other)
    requires dist <= Apart(other, n / 2) && dist <= Apart(start, n / 2)
    ensures Apart(start, n / 2) <= Apart(other, n / 2)
    ensures Apart(start, n / 2) == Apart(other, n / 2) ==> start <= other
  {}

  /** The three stages place the run at the middle, at the left and at the right end. */
  lemma BootPlaces(stage: nat, n: nat, k: nat, maxProbes: nat, free: iset<int>, start: int, other: int)
    requires 1 <= k <= n && StagePicks(stage, n, k, maxProbes, free, start) && RunFrom(free, n, k, other)
    ensures stage == 0 ==> Apart(start, n / 2) <= Apart(other, n / 2)
    ensures stage == 0 && Apart(start, n / 2) == Apart(other, n / 2) ==> start <= other
    ensures stage == 1 ==> start <= other
    ensures stage == 2 ==> other <= start
    ensures stage < 3
  {
    if stage == 0 {
      MiddleNearest(n, k, maxProbes, free, start, other);
    } else {
      EdgeOutermost(stage == 2, n, k, maxProbes, free, start, other);
    }
  }

  lemma EdgeOutermost(fromEnd: bool, n: nat, k: nat, maxProbes: nat, free: iset<int>, start: int, other: int)
    requires 1 <= k <= n && EdgePicks(fromEnd, n, k, maxProbes, free, start) && RunFrom(free, n, k, other)
    ensures if fromEnd then other <= start else start <= other
  {
    var i: nat :| i < Min(n - k + 1, maxProbes) && start == EdgeStart(fromEnd, n, k, i)
                  && forall j: nat {:trigger EdgeStart(fromEnd, n, k, j)} | j < i ::
                       !FreeRun(free, EdgeStart(fromEnd, n, k, j), k);
    var j: nat := if fromEnd then n - k - other else other;
    assert EdgeStart(fromEnd, n, k, j) == other;
  }

  /** The rows of the jobs of a puzzle. */
  function JobsOf(db: Db, p: int): set<nat> {
    set i: nat | i < |db.chunks| && db.chunks[i].puzzle == p && !db.chunks[i].isTest
  }

  function Matching(chunks: seq<Chunk>, p: Chunk -> bool): set<nat> {
    set i: nat | i < |chunks| && p(chunks[i])
  }

  lemma {:induction false} CountsRows(chunks: seq<Chunk>, p: Chunk -> bool)
    ensures CountWhere(chunks, p) == |Matching(chunks, p)|
  {
    if chunks == [] {
      assert Matching(chunks, p) == {};
    } else {
      var n := |chunks| - 1;
      CountsRows(chunks[..n], p);
      if p(chunks[n]) {
        assert Matching(chunks, p) == Matching(chunks[..n], p) + {n};
      } else {
        assert Matching(chunks, p) == Matching(chunks[..n], p);
      }
    }
  }

  /** The bootstrap comes first: for three jobs, while the stage is below three, and one size after another. */
  lemma BootstrapFirst(db: Db, p: int, o: Order, needed: nat, maxProbes: nat, pick: Pick)
    requires p in db.puzzles && ValidOrder(o, db.puzzles[p].count)
    requires Picks(db, p, o, needed, maxProbes, pick)
    ensures pick.Boot? ==>
              && |JobsOf(db, p)| < 3 && db.puzzles[p].stage < 3 && 1 <= pick.k <= needed
              && StagePicks(db.puzzles[p].stage, db.puzzles[p].count, pick.k, maxProbes, FreeSet(db, p), pick.start)
              && forall k | pick.k < k <= needed ::
                   StageFails(db.puzzles[p].stage, db.puzzles[p].count, k, maxProbes, FreeSet(db, p))
    ensures !pick.Boot? && |JobsOf(db, p)| < 3 && db.puzzles[p].stage < 3 ==>
              forall k | 1 <= k <= needed ::
                StageFails(db.puzzles[p].stage, db.puzzles[p].count, k, maxProbes, FreeSet(db, p))
  {
    CountsRows(db.chunks, IssuedBy(p));
    assert JobsOf(db, p) == Matching(db.chunks, IssuedBy(p));
  }

  // ── The walk ────────────────────────────────────────────────────────────

  /**
   * The start that the probe at this offset from the cursor tries for k chunks: the chunk that the order has there, moved
   * left where the run would not fit.
   */
  ghost function Tried(o: Order, n: nat, cursor: nat, k: nat, offset: nat): int
    requires ValidOrder(o, n)
  {
    var c := ChunkAt(o, n, (cursor + offset) % n);
    if c + k <= n then c else n - k
  }

  lemma TriedIs(o: Order, n: nat, cursor: nat, k: nat, offset: nat)
    requires ValidOrder(o, n) && k <= n
    ensures RunAt(o, n, cursor, k, offset) == Tried(o, n, cursor, k, offset)
  {
    WalkIndexIs(cursor, offset, n);
  }

  /** The start of a walk's run is the first one from the cursor on at which a run of this size is free. */
  lemma FirstInOrder(z: Puzzle, booting: bool, free: iset<int>, o: Order, needed: nat, maxProbes: nat, pick: Pick)
    requires ValidOrder(o, z.count) && needed <= z.count
    requires PicksIn(z, booting, free, o, needed, maxProbes, pick) && pick.Walk?
    ensures 1 <= pick.k <= needed && pick.offset < z.count && pick.offset < maxProbes
    ensures pick.start == Tried(o, z.count, z.cursor, pick.k, pick.offset) && FreeRun(free, pick.start, pick.k)
    ensures forall e: nat | e < pick.offset :: !FreeRun(free, Tried(o, z.count, z.cursor, pick.k, e), pick.k)
  {
    TriedIs(o, z.count, z.cursor, pick.k, pick.offset);
    forall e: nat | e < pick.offset ensures !FreeRun(free, Tried(o, z.count, z.cursor, pick.k, e), pick.k) {
      TriedIs(o, z.count, z.cursor, pick.k, e);
    }
  }

  /** No larger run, up to the needed one, is free at any probe. */
  lemma LargestFirst(z: Puzzle, booting: bool, free: iset<int>, o: Order, needed: nat, maxProbes: nat, pick: Pick,
                     k: nat, e: nat)
    requires ValidOrder(o, z.count) && needed <= z.count
    requires PicksIn(z, booting, free, o, needed, maxProbes, pick) && pick.Walk?
    requires pick.k < k <= needed && e < z.count && e < maxProbes
    ensures !FreeRun(free, Tried(o, z.count, z.cursor, k, e), k)
  {
    assert ProbeFails(o, z.count, z.cursor, k, Min(z.count, maxProbes), free);
    TriedIs(o, z.count, z.cursor, k, e);
  }

  /** The cursor column that a walk writes is the position behind its last probe. */
  lemma CursorColumn(cursor: nat, offset: nat, n: nat)
    requires n > 0
    ensures ((cursor + offset) % n + 1) % n == WalkIndex(cursor, offset + 1, n)
  {
    WalkIndexIs(cursor, offset, n);
    var i := WalkIndex(cursor, offset, n);
    if i + 1 == n {
      Digits.DivModOf(n, 1, 0, n);
    } else {
      SmallMod(i + 1, n);
    }
  }

  lemma {:induction false} NextIndex(cursor: nat, offset: nat, next: nat, d: nat, n: nat)
    requires next < n && next == WalkIndex(cursor, offset, n)
    ensures WalkIndex(next, d, n) == WalkIndex(cursor, offset + d, n)
  {
    if d == 0 {
      SmallMod(next, n);
    } else {
      NextIndex(cursor, offset, next, d - 1, n);
    }
  }

  /** What a job leaves in the puzzle row: only cursor and stage move, as a bootstrap job or a walk moves them. */
  lemma RowAfterJob(db: Db, p: int, worker: string, now: int, o: Order, pick: Pick)
    requires p in db.puzzles && db.puzzles[p].count > 0 && pick != NoPick
    ensures var (z, after) := (db.puzzles[p], AfterJob(db, p, worker, now, o, pick));
            && p in after.puzzles
            && after.puzzles == db.puzzles[p := z.(cursor := after.puzzles[p].cursor, stage := after.puzzles[p].stage)]
            && (pick.Boot? ==> after.puzzles[p].cursor == z.cursor && after.puzzles[p].stage == z.stage + 1)
            && (pick.Walk? ==> after.puzzles[p].cursor < z.count && after.puzzles[p].stage == Max(z.stage, 3))
  {}

  /** After a walk, the run tried at offset d from the new cursor is the one at offset + 1 + d from the old one. */
  lemma NextProbe(db: Db, p: int, worker: string, now: int, o: Order, pick: Pick, k: nat, d: nat)
    requires p in db.puzzles && ValidOrder(o, db.puzzles[p].count) && pick.Walk?
    ensures var (n, after) := (db.puzzles[p].count, AfterJob(db, p, worker, now, o, pick).puzzles[p]);
            RunAt(o, n, after.cursor, k, d) == RunAt(o, n, db.puzzles[p].cursor, k, pick.offset + 1 + d)
  {
    var z := db.puzzles[p];
    CursorColumn(z.cursor, pick.offset, z.count);
    NextIndex(z.cursor, pick.offset + 1, Advanced(z, pick).cursor, d, z.count);
  }

  // ── A series of walks ───────────────────────────────────────────────────

  predicate AllWalks(calls: seq<Call>) {
    forall i | 0 <= i < |calls| :: calls[i].pick.Walk?
  }

  /** Probes that a series of walks has made, up to and including the ones that succeeded. */
  function Passed(calls: seq<Call>): nat
    requires AllWalks(calls)
  {
    if calls == [] then 0 else Passed(calls[..|calls| - 1]) + calls[|calls| - 1].pick.offset + 1
  }

  /** Number of the position, counted from the first cursor, at which call i finds its run. */
  function TurnOf(calls: seq<Call>, i: nat): nat
    requires AllWalks(calls) && i < |calls|
  {
    Passed(calls[..i]) + calls[i].pick.offset
  }

  /** cursors lists the cursor column before each call and after the last one. */
  ghost predicate Moves(cursors: seq<nat>, calls: seq<Call>, n: nat)
    requires n > 0 && AllWalks(calls)
  {
    && |cursors| == |calls| + 1
    && forall i | 0 <= i < |calls| ::
         cursors[i + 1] == WalkIndex(cursors[i], calls[i].pick.offset + 1, n)
  }

  lemma {:induction false} IndexAfter(cursors: seq<nat>, calls: seq<Call>, n: nat, i: nat, d: nat)
    requires n > 0 && AllWalks(calls) && Moves(cursors, calls, n) && i <= |calls|
    ensures WalkIndex(cursors[i], d, n) == WalkIndex(cursors[0], Passed(calls[..i]) + d, n)
  {
    if i > 0 {
      var offset := calls[i - 1].pick.offset;
      assert calls[..i][..i - 1] == calls[..i - 1];
      assert cursors[i - 1 + 1] == WalkIndex(cursors[i - 1], offset + 1, n);
      NextIndex(cursors[i - 1], offset + 1, cursors[i], d, n);
      IndexAfter(cursors, calls, n, i - 1, offset + 1 + d);
    }
  }

  ghost function CursorOf(db: Db, p: int, o: Order, calls: seq<Call>): nat
    requires p in db.puzzles && db.puzzles[p].count > 0
  {
    AfterCalls(db, p, o, calls).puzzles[p].cursor
  }

  lemma CursorMoves(db: Db, p: int, o: Order, calls: seq<Call>, i: nat)
    requires p in db.puzzles && db.puzzles[p].count > 0 && i < |calls| && calls[i].pick.Walk?
    ensures CursorOf(db, p, o, calls[..i + 1])
         == WalkIndex(CursorOf(db, p, o, calls[..i]), calls[i].pick.offset + 1, db.puzzles[p].count)
  {
    assert calls[..i + 1][..i] == calls[..i];
    CursorColumn(CursorOf(db, p, o, calls[..i]), calls[i].pick.offset, db.puzzles[p].count);
  }

  /** The cursor column before and after each call. */
  lemma CursorsMove(db: Db, p: int, o: Order, calls: seq<Call>) returns (cursors: seq<nat>)
    requires p in db.puzzles && db.puzzles[p].count > 0 && AllWalks(calls)
    ensures Moves(cursors, calls, db.puzzles[p].count) && cursors[0] == db.puzzles[p].cursor
    ensures forall i | 0 <= i <= |calls| :: cursors[i] == CursorOf(db, p, o, calls[..i])
  {
    cursors := seq(|calls| + 1, i requires 0 <= i <= |calls| => CursorOf(db, p, o, calls[..i]));
    forall i | 0 <= i < |calls|
      ensures cursors[i + 1] == WalkIndex(cursors[i], calls[i].pick.offset + 1, db.puzzles[p].count)
    {
      CursorMoves(db, p, o, calls, i);
    }
    assert calls[..0] == [];
  }

  lemma WalkStart(before: Db, p: int, o: Order, maxProbes: nat, c: Call)
    requires CallFits(before, p, o, maxProbes, c) && c.pick.Walk?
    ensures c.pick.start == RunAt(o, before.puzzles[p].count, before.puzzles[p].cursor, c.pick.k, c.pick.offset)
  {}

  lemma TurnIndex(db: Db, p: int, o: Order, calls: seq<Call>, i: nat)
    requires p in db.puzzles && db.puzzles[p].count > 0 && AllWalks(calls) && i < |calls|
    ensures WalkIndex(CursorOf(db, p, o, calls[..i]), calls[i].pick.offset, db.puzzles[p].count)
         == WalkIndex(db.puzzles[p].cursor, TurnOf(calls, i), db.puzzles[p].count)
  {
    var cursors := CursorsMove(db, p, o, calls);
    IndexAfter(cursors, calls, db.puzzles[p].count, i, calls[i].pick.offset);
  }

  /** While walks succeed, call i takes the run at its turn: they go through the order from the first cursor on. */
  lemma WalksTakeTurns(db: Db, p: int, o: Order, maxProbes: nat, calls: seq<Call>, i: nat)
    requires p in db.puzzles && ValidOrder(o, db.puzzles[p].count) && i < |calls|
    requires CallsFit(db, p, o, maxProbes, calls) && AllWalks(calls)
    ensures calls[i].pick.start == RunAt(o, db.puzzles[p].count, db.puzzles[p].cursor, calls[i].pick.k, TurnOf(calls, i))
  {
    TurnIndex(db, p, o, calls, i);
    WalkStart(AfterCalls(db, p, o, calls[..i]), p, o, maxProbes, calls[i]);
  }

  lemma {:induction false} TurnsAdvance(calls: seq<Call>, i: nat, j: nat)
    requires AllWalks(calls) && i < j < |calls|
    ensures TurnOf(calls, i) < Passed(calls[..j]) <= TurnOf(calls, j)
  {
    assert calls[..j][..j - 1] == calls[..j - 1];
    if i < j - 1 {
      TurnsAdvance(calls, i, j - 1);
    }
  }

  /** Before a full round is over, no position comes up twice. */
  lemma NoTurnTwice(db: Db, p: int, calls: seq<Call>, i: nat, j: nat)
    requires p in db.puzzles && AllWalks(calls) && i < j < |calls| && TurnOf(calls, j) < db.puzzles[p].count
    ensures var (n, cursor) := (db.puzzles[p].count, db.puzzles[p].cursor);
            (cursor + TurnOf(calls, i)) % n != (cursor + TurnOf(calls, j)) % n
  {
    TurnsAdvance(calls, i, j);
    if (db.puzzles[p].cursor + TurnOf(calls, i)) % db.puzzles[p].count
       == (db.puzzles[p].cursor + TurnOf(calls, j)) % db.puzzles[p].count {
      OffsetUnique(db.puzzles[p].cursor, TurnOf(calls, i), TurnOf(calls, j), db.puzzles[p].count);
    }
  }
}

/** The searches for a free run of virtual chunks, as relations over the set of free chunks (src/allocator.cpp). */
module AllocSearch {
  import Digits
  import opened HexBigint
  import opened Permutation

  ghost predicate FreeRun(free: iset<int>, start: int, k: int) {
    forall x | start <= x < start + k :: x in free
  }

  ghost predicate RunFrom(free: iset<int>, n: nat, k: nat, start: int) {
    0 <= start && start + k <= n && FreeRun(free, start, k)
  }

  /** Some run of k consecutive chunks of [0, n) is free. */
  ghost predicate HasRun(free: iset<int>, n: nat, k: nat) {
    exists start :: RunFrom(free, n, k, start)
  }

  /** Length of the longest free run, counting no further than k. */
  ghost function Longest(free: iset<int>, n: nat, k: nat): nat {
    if k == 0 || HasRun(free, n, k) then k else Longest(free, n, k - 1)
  }

  lemma ShorterRun(free: iset<int>, n: nat, j: nat, k: nat)
    requires j <= k && HasRun(free, n, k)
    ensures HasRun(free, n, j)
  {
    var start :| RunFrom(free, n, k, start);
    assert RunFrom(free, n, j, start);
  }

  lemma {:induction false} LongestIs(free: iset<int>, n: nat, k: nat, j: nat)
    requires j <= k && HasRun(free, n, j)
    requires j < k ==> !HasRun(free, n, j + 1)
    ensures Longest(free, n, k) == j
  {
    if j < k {
      if HasRun(free, n, k) {
        ShorterRun(free, n, j + 1, k);
      }
      LongestIs(free, n, k - 1, j);
    }
  }

  lemma {:induction false} LongestRun(free: iset<int>, n: nat, k: nat)
    ensures Longest(free, n, k) <= k
    ensures HasRun(free, n, Longest(free, n, k))
    ensures Longest(free, n, k) < k ==> !HasRun(free, n, Longest(free, n, k) + 1)
  {
    if k == 0 {
      assert RunFrom(free, n, 0, 0);
    } else if !HasRun(free, n, k) {
      LongestRun(free, n, k - 1);
    }
  }

  /** Asking for k chunks can yield min(k, longest run). */
  lemma LongestCapped(free: iset<int>, n: nat, k: nat)
    requires k <= n
    ensures Longest(free, n, k) == Min(k, Longest(free, n, n))
  {
    var m := Longest(free, n, n);
    LongestRun(free, n, n);
    if m < k {
      LongestIs(free, n, k, m);
    } else {
      ShorterRun(free, n, k, m);
    }
  }

  /** normalizeRunStartForCandidate */
  function StartFor(candidate: nat, k: nat, n: nat): nat {
    if k >= n then 0 else if candidate + k > n then n - k else candidate
  }

  // ── Probing in permutation order ────────────────────────────────────────

  /** Position in the order that the walk from the cursor has reached after offset steps, wrapping at n. */
  ghost function WalkIndex(cursor: nat, offset: nat, n: nat): (i: nat)
    requires n > 0
    ensures i < n
  {
    if offset == 0 then cursor % n
    else
      var i := WalkIndex(cursor, offset - 1, n);
      if i + 1 == n then 0 else i + 1
  }

  lemma {:induction false} WalkIndexIs(cursor: nat, offset: nat, n: nat)
    requires n > 0
    ensures WalkIndex(cursor, offset, n) == (cursor + offset) % n
  {
    if offset > 0 {
      WalkIndexIs(cursor, offset - 1, n);
      NextMod(cursor + offset - 1, n);
    }
  }

  lemma NextMod(x: nat, n: nat)
    requires n > 0
    ensures (x + 1) % n == if x % n + 1 == n then 0 else x % n + 1
  {
    var q, r := x / n, x % n;
    Digits.DivMod(x, n);
    if r + 1 == n {
      Digits.Distribute(q, 1, 1, n);
      Digits.DivModOf(x + 1, q + 1, 0, n);
    } else {
      Digits.DivModOf(x + 1, q, r + 1, n);
    }
  }

  ghost function RunAt(o: Order, n: nat, cursor: nat, k: nat, offset: nat): nat
    requires ValidOrder(o, n)
  {
    StartFor(ChunkAt(o, n, WalkIndex(cursor, offset, n)), k, n)
  }

  ghost predicate ProbeFails(o: Order, n: nat, cursor: nat, k: nat, limit: nat, free: iset<int>)
    requires ValidOrder(o, n)
  {
    forall offset: nat | offset < limit :: !FreeRun(free, RunAt(o, n, cursor, k, offset), k)
  }

  lemma ProbeStep(o: Order, n: nat, cursor: nat, k: nat, offset: nat, free: iset<int>)
    requires ValidOrder(o, n) && ProbeFails(o, n, cursor, k, offset, free)
    requires !FreeRun(free, RunAt(o, n, cursor, k, offset), k)
    ensures ProbeFails(o, n, cursor, k, offset + 1, free)
  {}

  /** The starts already tried, none of them usable. */
  ghost predicate AllTaken(tried: set<nat>, free: iset<int>, k: nat) {
    forall s | s in tried :: !FreeRun(free, s, k)
  }

  lemma OneMoreTaken(tried: set<nat>, start: nat, free: iset<int>, k: nat)
    requires AllTaken(tried, free, k) && !FreeRun(free, start, k)
    ensures AllTaken(tried + {start}, free, k)
  {}

  /** The whole search: every size from needed down to 1 fails at every probe. */
  ghost predicate SearchFails(o: Order, n: nat, cursor: nat, needed: nat, limit: nat, free: iset<int>)
    requires ValidOrder(o, n)
  {
    forall k: nat | 1 <= k <= needed :: ProbeFails(o, n, cursor, k, limit, free)
  }

  /** Offset at which the walk from the cursor reaches position i. */
  function OffsetOf(cursor: nat, i: nat, n: nat): (d: nat)
    requires i < n
    ensures d < n && (cursor + d) % n == i
  {
    var c := cursor % n;
    var d := if c <= i then i - c else i + n - c;
    assert cursor + d == (cursor / n) * n + (c + d);
    Digits.DivModOf(cursor + d, cursor / n + (if c <= i then 0 else 1), i, n);
    d
  }

  lemma OffsetUnique(cursor: nat, d: nat, e: nat, n: nat)
    requires d < n && e < n && (cursor + d) % n == (cursor + e) % n
    ensures d == e
  {
    var c := cursor % n;
    ReducedOffset(cursor, d, n);
    ReducedOffset(cursor, e, n);
  }

  lemma ReducedOffset(cursor: nat, d: nat, n: nat)
    requires d < n
    ensures (cursor + d) % n == if cursor % n + d < n then cursor % n + d else cursor % n + d - n
  {
    var q, c := cursor / n, cursor % n;
    Digits.DivMod(cursor, n);
    if c + d < n {
      Digits.DivModOf(cursor + d, q, c + d, n);
    } else {
      Digits.Distribute(q, 1, 1, n);
      Digits.DivModOf(cursor + d, q + 1, c + d - n, n);
    }
  }

  /** With a probe for every chunk, one size fails exactly when no run of that size is free. */
  lemma FullProbe(o: Order, n: nat, cursor: nat, k: nat, limit: nat, free: iset<int>)
    requires ValidOrder(o, n) && 1 <= k <= n <= limit
    ensures ProbeFails(o, n, cursor, k, limit, free) <==> !HasRun(free, n, k)
  {
    if HasRun(free, n, k) {
      var start: nat :| RunFrom(free, n, k, start);
      var offset := OffsetOf(cursor, PositionOf(o, n, start), n);
      WalkIndexIs(cursor, offset, n);
      assert RunAt(o, n, cursor, k, offset) == start;
    }
    if offset: nat :| offset < limit && FreeRun(free, RunAt(o, n, cursor, k, offset), k) {
      assert RunFrom(free, n, k, RunAt(o, n, cursor, k, offset));
    }
  }

  ghost predicate AnyFree(free: iset<int>, n: nat) {
    exists x :: 0 <= x < n && x in free
  }

  lemma AnyFreeIsRun(free: iset<int>, n: nat)
    ensures AnyFree(free, n) <==> HasRun(free, n, 1)
  {
    if x :| 0 <= x < n && x in free {
      assert RunFrom(free, n, 1, x);
    }
    if HasRun(free, n, 1) {
      var start :| RunFrom(free, n, 1, start);
      assert start in free;
    }
  }

  lemma FullSearch(o: Order, n: nat, cursor: nat, needed: nat, limit: nat, free: iset<int>)
    requires ValidOrder(o, n) && 1 <= needed <= n <= limit
    ensures SearchFails(o, n, cursor, needed, limit, free) <==> !AnyFree(free, n)
  {
    AnyFreeIsRun(free, n);
    if SearchFails(o, n, cursor, needed, limit, free) {
      assert ProbeFails(o, n, cursor, 1, limit, free);
      FullProbe(o, n, cursor, 1, limit, free);
    } else {
      var k: nat :| 1 <= k <= needed && !ProbeFails(o, n, cursor, k, limit, free);
      FullProbe(o, n, cursor, k, limit, free);
      ShorterRun(free, n, 1, k);
    }
  }

  // ── Which chunks are looked at ──────────────────────────────────────────

  /** c is the only free chunk of the puzzle. */
  ghost predicate OnlyFree(free: iset<int>, n: nat, c: nat) {
    c < n && forall x | 0 <= x < n :: x in free <==> x == c
  }

  /** Then the only non-empty free run is that chunk. */
  lemma OneRun(free: iset<int>, n: nat, c: nat, start: int, k: nat)
    requires OnlyFree(free, n, c) && 1 <= k && 0 <= start && start + k <= n
    ensures FreeRun(free, start, k) <==> k == 1 && start == c
  {
    if k >= 2 {
      assert !(start in free && start + 1 in free);
    } else {
      assert start in free <==> start == c;
    }
  }

  /** The walk tries the run of one chunk at c. */
  ghost predicate WalkLooks(o: Order, n: nat, cursor: nat, limit: nat, c: nat)
    requires ValidOrder(o, n)
  {
    exists offset: nat :: offset < limit && RunAt(o, n, cursor, 1, offset) == c
  }

  lemma WalkMissesNone(o: Order, n: nat, cursor: nat, needed: nat, limit: nat, free: iset<int>, c: nat)
    requires ValidOrder(o, n) && 1 <= needed && c in free && WalkLooks(o, n, cursor, limit, c)
    ensures !SearchFails(o, n, cursor, needed, limit, free)
  {
    var offset: nat :| offset < limit && RunAt(o, n, cursor, 1, offset) == c;
    assert FreeRun(free, RunAt(o, n, cursor, 1, offset), 1);
    assert !ProbeFails(o, n, cursor, 1, limit, free);
  }

  lemma WalkMisses(o: Order, n: nat, cursor: nat, needed: nat, limit: nat, free: iset<int>, c: nat)
    requires ValidOrder(o, n) && needed <= n && OnlyFree(free, n, c) && !WalkLooks(o, n, cursor, limit, c)
    ensures SearchFails(o, n, cursor, needed, limit, free)
  {
    forall k: nat | 1 <= k <= needed ensures ProbeFails(o, n, cursor, k, limit, free) {
      forall offset: nat | offset < limit ensures !FreeRun(free, RunAt(o, n, cursor, k, offset), k) {
        OneRun(free, n, c, RunAt(o, n, cursor, k, offset), k);
      }
    }
  }

  lemma SameChunkSameOffset(o: Order, n: nat, cursor: nat, d: nat, e: nat)
    requires ValidOrder(o, n) && d < n && e < n && RunAt(o, n, cursor, 1, d) == RunAt(o, n, cursor, 1, e)
    ensures d == e
  {
    var i, j := WalkIndex(cursor, d, n), WalkIndex(cursor, e, n);
    if n > 1 {
      OrderBijective(o, n, i, j);
      WalkIndexIs(cursor, d, n);
      WalkIndexIs(cursor, e, n);
      OffsetUnique(cursor, d, e, n);
    }
  }

  /** The walk looks at every chunk exactly when it makes a probe for every chunk. */
  lemma WalkLooksAtAll(o: Order, n: nat, cursor: nat, limit: nat)
    requires ValidOrder(o, n)
    ensures n <= limit <==> forall c: nat | c < n :: WalkLooks(o, n, cursor, limit, c)
  {
    if n <= limit {
      forall c: nat | c < n ensures WalkLooks(o, n, cursor, limit, c) {
        var offset := OffsetOf(cursor, PositionOf(o, n, c), n);
        WalkIndexIs(cursor, offset, n);
        assert RunAt(o, n, cursor, 1, offset) == c;
      }
    } else {
      var c := RunAt(o, n, cursor, 1, limit);
      if WalkLooks(o, n, cursor, limit, c) {
        var offset: nat :| offset < limit && RunAt(o, n, cursor, 1, offset) == c;
        SameChunkSameOffset(o, n, cursor, offset, limit);
        assert false;
      }
    }
  }

  // ── Bootstrap: middle, begin, end ───────────────────────────────────────

  /** Start of the i-th probe from the left or right end. */
  function EdgeStart(fromEnd: bool, n: nat, k: nat, i: nat): int {
    if fromEnd then n - k - i else i
  }

  ghost predicate EdgeFails(fromEnd: bool, n: nat, k: nat, maxProbes: nat, free: iset<int>) {
    k <= n ==> forall i: nat | i < Min(n - k + 1, maxProbes) :: !FreeRun(free, EdgeStart(fromEnd, n, k, i), k)
  }

  /** Both candidates at one distance from the middle are unusable. */
  ghost predicate MidFailsAt(n: nat, k: nat, dist: nat, free: iset<int>) {
    && (n / 2 >= dist ==> !FreeRun(free, StartFor(n / 2 - dist, k, n), k))
    && (dist > 0 && n / 2 + dist < n ==> !FreeRun(free, StartFor(n / 2 + dist, k, n), k))
  }

  ghost predicate MidFails(n: nat, k: nat, maxProbes: nat, free: iset<int>) {
    0 < n && k <= n ==> forall dist: nat | dist < Min(n, maxProbes) :: MidFailsAt(n, k, dist, free)
  }

  ghost predicate StageFails(stage: nat, n: nat, k: nat, maxProbes: nat, free: iset<int>) {
    match stage
    case 0 => MidFails(n, k, maxProbes, free)
    case 1 => EdgeFails(false, n, k, maxProbes, free)
    case 2 => EdgeFails(true, n, k, maxProbes, free)
    case _ => true
  }

  /** The bootstrap stage tries the run of one chunk at c. */
  predicate StageLooks(stage: nat, n: nat, maxProbes: nat, c: nat) {
    match stage
    case 0 => (if c < n / 2 then n / 2 - c else c - n / 2) < maxProbes
    case 1 => c < maxProbes
    case 2 => n - 1 - c < maxProbes
    case _ => false
  }

  lemma StageMissesNone(stage: nat, n: nat, maxProbes: nat, free: iset<int>, c: nat)
    requires c < n && c in free && StageLooks(stage, n, maxProbes, c)
    ensures !StageFails(stage, n, 1, maxProbes, free)
  {
    if stage == 0 {
      var dist: nat := if c < n / 2 then n / 2 - c else c - n / 2;
      assert FreeRun(free, c, 1);
      assert !MidFailsAt(n, 1, dist, free);
    } else {
      var i: nat := if stage == 2 then n - 1 - c else c;
      assert FreeRun(free, EdgeStart(stage == 2, n, 1, i), 1);
    }
  }

  lemma StageMisses(stage: nat, n: nat, k: nat, maxProbes: nat, free: iset<int>, c: nat)
    requires 1 <= k <= n && OnlyFree(free, n, c) && !StageLooks(stage, n, maxProbes, c)
    ensures StageFails(stage, n, k, maxProbes, free)
  {
    match stage
    case 0 =>
      forall dist: nat | dist < Min(n, maxProbes) ensures MidFailsAt(n, k, dist, free) {
        if n / 2 >= dist {
          OneRun(free, n, c, StartFor(n / 2 - dist, k, n), k);
        }
        if dist > 0 && n / 2 + dist < n {
          OneRun(free, n, c, StartFor(n / 2 + dist, k, n), k);
        }
      }
    case 1 => EdgeMisses(false, n, k, maxProbes, free, c);
    case 2 => EdgeMisses(true, n, k, maxProbes, free, c);
    case _ =>
  }

  lemma EdgeMisses(fromEnd: bool, n: nat, k: nat, maxProbes: nat, free: iset<int>, c: nat)
    requires 1 <= k <= n && OnlyFree(free, n, c) && maxProbes <= if fromEnd then n - 1 - c else c
    ensures EdgeFails(fromEnd, n, k, maxProbes, free)
  {
    forall i: nat | i < Min(n - k + 1, maxProbes) ensures !FreeRun(free, EdgeStart(fromEnd, n, k, i), k) {
      OneRun(free, n, c, EdgeStart(fromEnd, n, k, i), k);
    }
  }

  lemma EdgeComplete(fromEnd: bool, n: nat, k: nat, maxProbes: nat, free: iset<int>)
    requires 1 <= k <= n <= maxProbes
    ensures EdgeFails(fromEnd, n, k, maxProbes, free) <==> !HasRun(free, n, k)
  {
    if HasRun(free, n, k) {
      var start: nat :| RunFrom(free, n, k, start);
      var i: nat := if fromEnd then n - k - start else start;
      assert EdgeStart(fromEnd, n, k, i) == start;
    }
    if !EdgeFails(fromEnd, n, k, maxProbes, free) {
      var i: nat :| i < Min(n - k + 1, maxProbes) && FreeRun(free, EdgeStart(fromEnd, n, k, i), k);
      assert RunFrom(free, n, k, EdgeStart(fromEnd, n, k, i));
    }
  }

  lemma MidComplete(n: nat, k: nat, maxProbes: nat, free: iset<int>)
    requires 1 <= k <= n <= maxProbes
    ensures MidFails(n, k, maxProbes, free) <==> !HasRun(free, n, k)
  {
    if HasRun(free, n, k) {
      var start: nat :| RunFrom(free, n, k, start);
      var dist: nat := if start <= n / 2 then n / 2 - start else start - n / 2;
      assert !MidFailsAt(n, k, dist, free);
    }
    if !MidFails(n, k, maxProbes, free) {
      var dist: nat :| dist < Min(n, maxProbes) && !MidFailsAt(n, k, dist, free);
      if n / 2 >= dist && FreeRun(free, StartFor(n / 2 - dist, k, n), k) {
        assert RunFrom(free, n, k, StartFor(n / 2 - dist, k, n));
      } else {
        assert RunFrom(free, n, k, StartFor(n / 2 + dist, k, n));
      }
    }
  }

  /** With enough probes each bootstrap stage fails on a size exactly when no run of that size is free. */
  lemma StageComplete(stage: nat, n: nat, k: nat, maxProbes: nat, free: iset<int>)
    requires stage < 3 && 1 <= k <= n <= maxProbes
    ensures StageFails(stage, n, k, maxProbes, free) <==> !HasRun(free, n, k)
  {
    if stage == 0 {
      MidComplete(n, k, maxProbes, free);
    } else {
      EdgeComplete(stage == 2, n, k, maxProbes, free);
    }
  }

  // ── Which run each search picks ─────────────────────────────────────────

  ghost predicate EdgePicks(fromEnd: bool, n: nat, k: nat, maxProbes: nat, free: iset<int>, start: int) {
    && k <= n
    && FreeRun(free, start, k)
    && exists i: nat ::
         i < Min(n - k + 1, maxProbes) && start == EdgeStart(fromEnd, n, k, i) &&
         forall j: nat | j < i :: !FreeRun(free, EdgeStart(fromEnd, n, k, j), k)
  }

  /** At each distance the left candidate comes before the right one. */
  ghost predicate MidPicksAt(n: nat, k: nat, dist: nat, free: iset<int>, start: int) {
    && FreeRun(free, start, k)
    && ((n / 2 >= dist && start == StartFor(n / 2 - dist, k, n))
        || (dist > 0 && n / 2 + dist < n && start == StartFor(n / 2 + dist, k, n)
            && (n / 2 >= dist ==> !FreeRun(free, StartFor(n / 2 - dist, k, n), k))))
  }

  ghost predicate MidPicks(n: nat, k: nat, maxProbes: nat, free: iset<int>, start: int) {
    && k <= n
    && exists dist: nat ::
         dist < Min(n, maxProbes) && MidPicksAt(n, k, dist, free, start) &&
         forall d: nat | d < dist :: MidFailsAt(n, k, d, free)
  }

  ghost predicate StagePicks(stage: nat, n: nat, k: nat, maxProbes: nat, free: iset<int>, start: int) {
    match stage
    case 0 => MidPicks(n, k, maxProbes, free, start)
    case 1 => EdgePicks(false, n, k, maxProbes, free, start)
    case 2 => EdgePicks(true, n, k, maxProbes, free, start)
    case _ => false
  }

  lemma StageSound(stage: nat, n: nat, k: nat, maxProbes: nat, free: iset<int>, start: int)
    requires 1 <= k <= n && StagePicks(stage, n, k, maxProbes, free, start)
    ensures RunFrom(free, n, k, start)
    ensures !StageFails(stage, n, k, maxProbes, free)
  {
    if stage == 0 {
      var dist: nat :| dist < Min(n, maxProbes) && MidPicksAt(n, k, dist, free, start);
      assert !MidFailsAt(n, k, dist, free);
    } else {
      var i: nat :| i < Min(n - k + 1, maxProbes) && start == EdgeStart(stage == 2, n, k, i);
    }
  }

  /** The bootstrap tries sizes from needed down to 1. */
  ghost predicate BootPicks(stage: nat, n: nat, needed: nat, maxProbes: nat, free: iset<int>, start: int, k: nat) {
    && 1 <= k <= needed
    && StagePicks(stage, n, k, maxProbes, free, start)
    && forall j: nat | k < j <= needed :: StageFails(stage, n, j, maxProbes, free)
  }

  ghost predicate BootFails(stage: nat, n: nat, needed: nat, maxProbes: nat, free: iset<int>) {
    forall j: nat | 1 <= j <= needed :: StageFails(stage, n, j, maxProbes, free)
  }

  ghost predicate WalkPicks(o: Order, n: nat, cursor: nat, needed: nat, limit: nat, free: iset<int>, offset: nat, k: nat)
    requires ValidOrder(o, n)
  {
    && 1 <= k <= needed
    && offset < limit
    && FreeRun(free, RunAt(o, n, cursor, k, offset), k)
    && ProbeFails(o, n, cursor, k, offset, free)
    && forall j: nat | k < j <= needed :: ProbeFails(o, n, cursor, j, limit, free)
  }

  lemma BootExact(stage: nat, n: nat, needed: nat, maxProbes: nat, free: iset<int>, start: int, k: nat)
    requires stage < 3 && needed <= n <= maxProbes && BootPicks(stage, n, needed, maxProbes, free, start, k)
    ensures k == Longest(free, n, needed)
  {
    StageSound(stage, n, k, maxProbes, free, start);
    if k < needed {
      StageComplete(stage, n, k + 1, maxProbes, free);
    }
    LongestIs(free, n, needed, k);
  }

  lemma WalkExact(o: Order, n: nat, cursor: nat, needed: nat, limit: nat, free: iset<int>, offset: nat, k: nat)
    requires ValidOrder(o, n) && needed <= n <= limit && WalkPicks(o, n, cursor, needed, limit, free, offset, k)
    ensures k == Longest(free, n, needed)
  {
    assert RunFrom(free, n, k, RunAt(o, n, cursor, k, offset));
    if k < needed {
      assert ProbeFails(o, n, cursor, k + 1, limit, free);
      FullProbe(o, n, cursor, k + 1, limit, free);
    }
    LongestIs(free, n, needed, k);
  }
}

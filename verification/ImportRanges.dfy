/** Importing scanned key ranges as blocked virtual chunks (handleImportRanges of src/service_admin.cpp). */
module ImportRanges {
  import opened Wrappers
  import opened HexBigint
  import opened Intervals
  import opened PoolModel
  import opened VirtualJobs
  import opened BlockedRanges
  import A = Allocator

  // ── One range ───────────────────────────────────────────────────────────

  /** The virtual chunks of a key range; none when the range misses the puzzle. */
  function Convert(z: Puzzle, keyStart: int, keyEnd: int): Option<Span>
    requires z.size > 0 && z.keys.start < z.keys.end
  {
    if keyEnd <= z.keys.start || keyStart >= z.keys.end then None
    else
      var vStart := Max(VirtualChunkOf(z, Max(keyStart, z.keys.start)), 0);
      var vEnd := Min(CeilDiv(Min(keyEnd, z.keys.end) - z.keys.start, z.size), z.count);
      if vEnd <= vStart then None else Some(Span(vStart, vEnd))
  }

  ghost predicate InRange(z: Puzzle, keyStart: int, keyEnd: int, c: int, key: int)
    requires z.size > 0
  {
    Holds(z.keys, key) && keyStart <= key < keyEnd && VirtualChunkOf(z, key) == c
  }

  /** Some key of the puzzle lies in the range and in virtual chunk c. */
  ghost predicate Touched(z: Puzzle, keyStart: int, keyEnd: int, c: int)
    requires z.size > 0
  {
    exists key :: InRange(z, keyStart, keyEnd, c, key)
  }

  predicate InSome(v: Option<Span>, c: int) {
    v.Some? && Holds(v.value, c)
  }

  lemma ChunkIs(z: Puzzle, key: int, c: int)
    requires z.size > 0 && z.keys.start + c * z.size <= key < z.keys.start + c * z.size + z.size
    ensures VirtualChunkOf(z, key) == c
  {
    ChunkBounds(z, key, c);
    ChunkBounds(z, key, c + 1);
    assert (c + 1) * z.size == c * z.size + z.size;
  }

  lemma ConvertIsNeeded(z: Puzzle, keyStart: int, keyEnd: int, c: int)
    requires WellSized(z) && keyStart < keyEnd && InSome(Convert(z, keyStart, keyEnd), c)
    ensures Touched(z, keyStart, keyEnd, c)
  {
    var lo, hi := Max(keyStart, z.keys.start), Min(keyEnd, z.keys.end);
    CeilDivIsLeast(hi - z.keys.start, z.size, c);
    var first := z.keys.start + c * z.size;
    assert first < hi;
    if lo <= first {
      ChunkIs(z, first, c);
      assert InRange(z, keyStart, keyEnd, c, first);
    } else {
      var at := VirtualChunkOf(z, lo);
      ChunkBounds(z, lo, c);
      assert Convert(z, keyStart, keyEnd).value.start == Max(at, 0);
      assert at == c;
      assert InRange(z, keyStart, keyEnd, c, lo);
    }
  }

  lemma ConvertIsEnough(z: Puzzle, keyStart: int, keyEnd: int, c: int, key: int)
    requires WellSized(z) && InRange(z, keyStart, keyEnd, c, key)
    ensures InSome(Convert(z, keyStart, keyEnd), c)
  {
    var lo, hi := Max(keyStart, z.keys.start), Min(keyEnd, z.keys.end);
    ChunkBounds(z, key, c);
    ChunkBounds(z, lo, c + 1);
    ChunkBounds(z, key, c + 1);
    ChunkBounds(z, key, 0);
    assert 0 * z.size == 0;
    CeilDivIsLeast(hi - z.keys.start, z.size, c);
    CeilDivIsLeast(z.keys.end - z.keys.start, z.size, c);
  }

  /** A range blocks exactly the chunks that contain one of its keys, and is invalid exactly when it has no key here. */
  lemma ConvertExact(z: Puzzle, keyStart: int, keyEnd: int)
    requires WellSized(z) && keyStart < keyEnd
    ensures forall c :: InSome(Convert(z, keyStart, keyEnd), c) <==> Touched(z, keyStart, keyEnd, c)
    ensures Convert(z, keyStart, keyEnd).None? <==> forall key | Holds(z.keys, key) :: !(keyStart <= key < keyEnd)
  {
    forall c ensures InSome(Convert(z, keyStart, keyEnd), c) <==> Touched(z, keyStart, keyEnd, c) {
      if InSome(Convert(z, keyStart, keyEnd), c) {
        ConvertIsNeeded(z, keyStart, keyEnd, c);
      }
      if Touched(z, keyStart, keyEnd, c) {
        var key :| InRange(z, keyStart, keyEnd, c, key);
        ConvertIsEnough(z, keyStart, keyEnd, c, key);
      }
    }
    var lo := Max(keyStart, z.keys.start);
    if lo < keyEnd && lo < z.keys.end {
      ConvertIsEnough(z, keyStart, keyEnd, VirtualChunkOf(z, lo), lo);
      assert Holds(z.keys, lo);
    }
  }

  // ── A list of range ids ─────────────────────────────────────────────────

  /** None stands for an id that is not an integer. */
  function RangeOf(z: Puzzle, base: int, step: int, id: Option<int>): Option<Span>
    requires z.size > 0 && z.keys.start < z.keys.end
  {
    if id.None? then None
    else
      var keyStart := base + id.value * step;
      Convert(z, keyStart, keyStart + step)
  }

  function Spans(z: Puzzle, base: int, step: int, ids: seq<Option<int>>): (v: seq<Span>)
    requires z.size > 0 && z.keys.start < z.keys.end
    ensures NonEmpty(v) && |v| <= |ids|
  {
    if ids == [] then []
    else
      var last := RangeOf(z, base, step, ids[|ids| - 1]);
      Spans(z, base, step, ids[..|ids| - 1]) + if last.Some? then [last.value] else []
  }

  ghost predicate RangeTouched(z: Puzzle, base: int, step: int, id: Option<int>, c: int)
    requires z.size > 0
  {
    id.Some? && Touched(z, base + id.value * step, base + id.value * step + step, c)
  }

  /** Virtual chunk c contains a key of one of the ranges. */
  ghost predicate Imported(z: Puzzle, base: int, step: int, ids: seq<Option<int>>, c: int)
    requires z.size > 0
  {
    exists i :: 0 <= i < |ids| && RangeTouched(z, base, step, ids[i], c)
  }

  lemma RangeExact(z: Puzzle, base: int, step: int, id: Option<int>, c: int)
    requires WellSized(z) && step > 0
    ensures InSome(RangeOf(z, base, step, id), c) <==> RangeTouched(z, base, step, id, c)
  {
    if id.Some? {
      ConvertExact(z, base + id.value * step, base + id.value * step + step);
    }
  }

  lemma ImportedSnoc(z: Puzzle, base: int, step: int, ids: seq<Option<int>>, id: Option<int>, c: int)
    requires z.size > 0
    ensures Imported(z, base, step, ids + [id], c) <==>
              Imported(z, base, step, ids, c) || RangeTouched(z, base, step, id, c)
  {
    var all := ids + [id];
    if Imported(z, base, step, ids, c) {
      var i :| 0 <= i < |ids| && RangeTouched(z, base, step, ids[i], c);
      assert RangeTouched(z, base, step, all[i], c);
    }
    if RangeTouched(z, base, step, id, c) {
      assert RangeTouched(z, base, step, all[|ids|], c);
    }
  }

  lemma {:induction false} SpansCover(z: Puzzle, base: int, step: int, ids: seq<Option<int>>, c: int)
    requires WellSized(z) && step > 0
    ensures Covers(Spans(z, base, step, ids), c) <==> Imported(z, base, step, ids, c)
  {
    if ids != [] {
      var init, id := ids[..|ids| - 1], ids[|ids| - 1];
      assert ids == init + [id];
      SpansCover(z, base, step, init, c);
      RangeExact(z, base, step, id, c);
      ImportedSnoc(z, base, step, init, id, c);
      var last := RangeOf(z, base, step, id);
      if last.Some? {
        CoversSnoc(Spans(z, base, step, init), last.value, c);
      } else {
        assert Spans(z, base, step, init) + [] == Spans(z, base, step, init);
      }
    }
  }

  /** Some chunk of the puzzle contains a key of the range. */
  ghost predicate HasKeys(z: Puzzle, base: int, step: int, id: Option<int>)
    requires z.size > 0
  {
    exists c :: RangeTouched(z, base, step, id, c)
  }

  ghost function ValidIds(z: Puzzle, base: int, step: int, ids: seq<Option<int>>): set<nat>
    requires z.size > 0
  {
    set i: nat | i < |ids| && HasKeys(z, base, step, ids[i])
  }

  /** The ids that are not counted as invalid are those whose range has a key in the puzzle. */
  lemma {:induction false} SpansCount(z: Puzzle, base: int, step: int, ids: seq<Option<int>>)
    requires WellSized(z) && step > 0
    ensures |Spans(z, base, step, ids)| == |ValidIds(z, base, step, ids)|
  {
    if ids == [] {
      assert ValidIds(z, base, step, ids) == {};
    } else {
      var n := |ids| - 1;
      SpansCount(z, base, step, ids[..n]);
      var last := RangeOf(z, base, step, ids[n]);
      if last.Some? {
        RangeExact(z, base, step, ids[n], last.value.start);
        assert RangeTouched(z, base, step, ids[n], last.value.start);
        assert ValidIds(z, base, step, ids) == ValidIds(z, base, step, ids[..n]) + {n};
      } else {
        forall c ensures !RangeTouched(z, base, step, ids[n], c) {
          RangeExact(z, base, step, ids[n], c);
        }
        assert ValidIds(z, base, step, ids) == ValidIds(z, base, step, ids[..n]);
      }
    }
  }

  // ── The request ─────────────────────────────────────────────────────────

  ghost predicate AllBlocked(rows: seq<BlockedRow>, p: int, source: string, v: Span) {
    forall x | Holds(v, x) :: SourceCovers(rows, p, source, x)
  }

  ghost function NewOnes(rows: seq<BlockedRow>, p: int, source: string, vs: seq<Span>): nat {
    if vs == [] then 0
    else NewOnes(rows, p, source, vs[..|vs| - 1]) + if AllBlocked(rows, p, source, vs[|vs| - 1]) then 0 else 1
  }

  /** The source covered the interval only in part, or not at all. */
  ghost predicate IsNews(rows: seq<BlockedRow>, p: int, source: string, v: Span) {
    exists x :: Holds(v, x) && !SourceCovers(rows, p, source, x)
  }

  ghost function NewsIn(rows: seq<BlockedRow>, p: int, source: string, vs: seq<Span>): set<nat> {
    set i: nat | i < |vs| && IsNews(rows, p, source, vs[i])
  }

  /** The first counter is the number of intervals that block a chunk which this source did not block before. */
  lemma {:induction false} NewOnesCount(rows: seq<BlockedRow>, p: int, source: string, vs: seq<Span>)
    ensures NewOnes(rows, p, source, vs) == |NewsIn(rows, p, source, vs)|
  {
    if vs == [] {
      assert NewsIn(rows, p, source, vs) == {};
    } else {
      var n := |vs| - 1;
      NewOnesCount(rows, p, source, vs[..n]);
      if IsNews(rows, p, source, vs[n]) {
        assert NewsIn(rows, p, source, vs) == NewsIn(rows, p, source, vs[..n]) + {n};
      } else {
        assert NewsIn(rows, p, source, vs) == NewsIn(rows, p, source, vs[..n]);
      }
    }
  }

  method ParseRanges(z: Puzzle, base: int, step: int, ids: seq<Option<int>>) returns (raw: seq<Span>, invalid: nat)
    requires z.size > 0 && z.keys.start < z.keys.end
    ensures raw == Spans(z, base, step, ids) && invalid == |ids| - |raw|
  {
    raw, invalid := [], 0;
    for i := 0 to |ids|
      invariant raw == Spans(z, base, step, ids[..i]) && invalid == i - |raw|
    {
      TakeSnoc(ids, i);
      assert ids[..i + 1][..i] == ids[..i];
      var v := RangeOf(z, base, step, ids[i]);
      if v.Some? {
        raw := raw + [v.value];
      } else {
        invalid := invalid + 1;
      }
    }
    assert ids[..|ids|] == ids;
  }

  /** Inserting earlier, separated intervals does not change whether a later one was blocked before. */
  lemma StillSameQuestion(rows: seq<BlockedRow>, p: int, source: string, vs: seq<Span>, i: nat)
    requires Normal(rows) && Canonical(vs) && i < |vs|
    ensures AllBlocked(InsertAll(rows, p, source, vs[..i]), p, source, vs[i]) <==> AllBlocked(rows, p, source, vs[i])
  {
    InsertAllCorrect(rows, p, source, vs[..i]);
    assert forall x | Holds(vs[i], x) :: !Covers(vs[..i], x);
  }

  method Persist(allocator: A.Allocator, p: int, source: string, vs: seq<Span>) returns (inserted: nat, already: nat)
    requires Normal(allocator.db.blocked) && Canonical(vs)
    modifies allocator.db`blocked
    ensures allocator.db.blocked == InsertAll(old(allocator.db.blocked), p, source, vs)
    ensures inserted == NewOnes(old(allocator.db.blocked), p, source, vs) && inserted + already == |vs|
  {
    ghost var before := allocator.db.blocked;
    inserted, already := 0, 0;
    for i := 0 to |vs|
      invariant allocator.db.blocked == InsertAll(before, p, source, vs[..i])
      invariant inserted == NewOnes(before, p, source, vs[..i]) && inserted + already == i
    {
      assert vs[..i + 1][..i] == vs[..i];
      StillSameQuestion(before, p, source, vs, i);
      InsertAllCorrect(before, p, source, vs[..i]);
      InsertReturns(InsertAll(before, p, source, vs[..i]), p, source, vs[i]);
      var r := allocator.InsertOrMergeBlockedRange(p, vs[i].start, vs[i].end, source);
      if r > 0 {
        inserted := inserted + 1;
      } else {
        already := already + 1;
      }
    }
    assert vs[..|vs|] == vs;
  }

  /**
   * The source gains exactly the virtual chunks that contain a key of an imported range, the table stays in normal form
   * and the allocator sees the result. The two counts are about merged intervals, not about range ids.
   */
  method Import(allocator: A.Allocator, p: int, source: string, base: int, step: int, ids: seq<Option<int>>)
    returns (inserted: nat, already: nat, invalid: nat, ghost merged: seq<Span>)
    requires p in allocator.db.puzzles && WellSized(allocator.db.puzzles[p]) && step > 0
    requires Normal(allocator.db.blocked)
    modifies allocator.db`blocked, allocator`blockedRanges
    ensures Canonical(merged)
    ensures forall c :: Covers(merged, c) <==> Imported(allocator.db.puzzles[p], base, step, ids, c)
    ensures allocator.db.blocked == InsertAll(old(allocator.db.blocked), p, source, merged)
    ensures inserted == NewOnes(old(allocator.db.blocked), p, source, merged) && inserted + already == |merged|
    ensures invalid == |ids| - |Spans(allocator.db.puzzles[p], base, step, ids)|
    ensures allocator.BlockedLoaded(p)
  {
    var z := allocator.db.puzzles[p];
    var raw, bad := ParseRanges(z, base, step, ids);
    invalid := bad;
    var joined := Load(raw);
    merged := joined;
    forall c ensures Covers(merged, c) <==> Imported(z, base, step, ids, c) {
      SpansCover(z, base, step, ids, c);
    }
    inserted, already := Persist(allocator, p, source, joined);
    allocator.LoadBlockedRanges(p);
  }

  /** Imports of the same keys leave the same rows, however the ranges are cut, ordered and repeated. */
  lemma SameKeysSameRows(rows: seq<BlockedRow>, p: int, source: string, z: Puzzle,
                         base: int, step: int, ids: seq<Option<int>>,
                         base': int, step': int, ids': seq<Option<int>>, v: seq<Span>, w: seq<Span>)
    requires Normal(rows) && WellSized(z) && Canonical(v) && Canonical(w)
    requires forall c :: Covers(v, c) <==> Imported(z, base, step, ids, c)
    requires forall c :: Covers(w, c) <==> Imported(z, base', step', ids', c)
    requires forall c :: Imported(z, base, step, ids, c) <==> Imported(z, base', step', ids', c)
    ensures v == w && InsertAll(rows, p, source, v) == InsertAll(rows, p, source, w)
  {
    CanonicalUnique(v, w);
  }

  /** What an import adds to a source. */
  lemma ImportAdds(rows: seq<BlockedRow>, p: int, source: string, z: Puzzle, base: int, step: int, ids: seq<Option<int>>,
                   merged: seq<Span>, q: int, s: string, c: int)
    requires Normal(rows) && WellSized(z) && Canonical(merged)
    requires forall x :: Covers(merged, x) <==> Imported(z, base, step, ids, x)
    ensures Normal(InsertAll(rows, p, source, merged))
    ensures SourceCovers(InsertAll(rows, p, source, merged), q, s, c) <==>
              SourceCovers(rows, q, s, c) || (q == p && s == source && Imported(z, base, step, ids, c))
  {
    InsertAllCorrect(rows, p, source, merged);
  }
}

/** Legacy allocation: sectors of the key range, consumed from the left (src/allocator.cpp). */
module Legacy {
  import Digits
  import opened Wrappers
  import opened HexBigint
  import opened Intervals
  import opened PoolModel

  const MIN_SECTOR_SIZE: nat := 1000000000

  // ── Tilings ─────────────────────────────────────────────────────────────

  /** v cuts [a, b) into consecutive non-empty pieces, in order. */
  predicate Tiles(v: seq<Span>, a: int, b: int) {
    if v == [] then a == b
    else
      var last := v[|v| - 1];
      last.start < last.end == b && Tiles(v[..|v| - 1], a, last.start)
  }

  lemma {:induction false} TilesMeans(v: seq<Span>, a: int, b: int)
    requires Tiles(v, a, b)
    ensures a <= b
    ensures forall i | 0 <= i < |v| :: a <= v[i].start < v[i].end <= b
    ensures forall i, j | 0 <= i < j < |v| :: v[i].end <= v[j].start
    ensures forall x :: Covers(v, x) <==> a <= x < b
  {
    if v != [] {
      var init, last := v[..|v| - 1], v[|v| - 1];
      TilesMeans(init, a, last.start);
      assert v == init + [last];
      forall x ensures Covers(v, x) <==> a <= x < b {
        CoversSnoc(init, last, x);
      }
      assert forall i | 0 <= i < |v| - 1 :: v[i] == init[i];
    } else {
      assert forall x :: !Covers(v, x);
    }
  }

  // ── Seeding ─────────────────────────────────────────────────────────────

  function SectorCount(range: nat, target: nat): (n: nat)
    requires range > 0 && target > 0
    ensures 1 <= n <= target && (n == 1 || n * MIN_SECTOR_SIZE <= range)
    ensures n < target ==> (n + 1) * MIN_SECTOR_SIZE > range
  {
    var q := range / MIN_SECTOR_SIZE;
    if q < 1 then 1
    else if q > target then target
    else q
  }

  /** Keys of sector i; the last sector takes the remainder. */
  function SectorKeys(keys: Span, n: nat, i: nat): Span
    requires n > 0 && keys.start < keys.end
  {
    var size := (keys.end - keys.start) / n;
    var s := keys.start + i * size;
    Span(s, if i == n - 1 then keys.end else s + size)
  }

  function SeededSectors(p: int, keys: Span, n: nat, k: nat): (s: seq<Sector>)
    requires n > 0 && keys.start < keys.end
  {
    if k == 0 then []
    else
      var span := SectorKeys(keys, n, k - 1);
      SeededSectors(p, keys, n, k - 1) + [Sector(p, span, span.start, true)]
  }

  predicate HasSectors(sectors: seq<Sector>, p: int) {
    exists s :: 0 <= s < |sectors| && sectors[s].puzzle == p
  }

  /** ensureAllocatorForPuzzle on a legacy puzzle: seeds the sectors when there are none. */
  function EnsuredSectors(sectors: seq<Sector>, p: int, keys: Span, target: nat): seq<Sector>
    requires target > 0
  {
    if HasSectors(sectors, p) || keys.start >= keys.end then sectors
    else
      var n := SectorCount(keys.end - keys.start, target);
      sectors + SeededSectors(p, keys, n, n)
  }

  function SectorSpans(sectors: seq<Sector>, p: int): seq<Span> {
    if sectors == [] then []
    else
      var last := sectors[|sectors| - 1];
      SectorSpans(sectors[..|sectors| - 1], p) + if last.puzzle == p then [last.keys] else []
  }

  lemma AtLeastOne(x: nat, b: nat)
    requires 0 < b <= x
    ensures x / b >= 1
  {}

  lemma SectorStep(keys: Span, n: nat, k: nat)
    requires 0 < n <= keys.end - keys.start && 0 < k <= n
    ensures SectorKeys(keys, n, k - 1).start < SectorKeys(keys, n, k - 1).end
    ensures SectorKeys(keys, n, k - 1).end == if k == n then keys.end else SectorKeys(keys, n, k).start
  {
    var range := keys.end - keys.start;
    var size := range / n;
    Digits.DivMod(range, n);
    AtLeastOne(range, n);
    Digits.MulStep(k - 1, k, size);
    if k == n {
      assert n * size == size * n;
    }
  }

  lemma {:induction false} SeededTiles(p: int, keys: Span, n: nat, k: nat)
    requires 0 < n <= keys.end - keys.start && k <= n
    ensures Tiles(SectorSpans(SeededSectors(p, keys, n, k), p), keys.start,
                  if k == n then keys.end else SectorKeys(keys, n, k).start)
  {
    if k > 0 {
      SeededTiles(p, keys, n, k - 1);
      SectorStep(keys, n, k);
      var span := SectorKeys(keys, n, k - 1);
      SpansSnoc(SeededSectors(p, keys, n, k - 1), Sector(p, span, span.start, true), p);
      TilesSnoc(SectorSpans(SeededSectors(p, keys, n, k - 1), p), keys.start, span);
    } else {
      assert 0 * ((keys.end - keys.start) / n) == 0;
    }
  }

  lemma SpansSnoc(sectors: seq<Sector>, s: Sector, p: int)
    ensures SectorSpans(sectors + [s], p) == SectorSpans(sectors, p) + if s.puzzle == p then [s.keys] else []
  {
    assert (sectors + [s])[..|sectors|] == sectors;
  }

  lemma TilesSnoc(v: seq<Span>, a: int, s: Span)
    requires Tiles(v, a, s.start) && s.start < s.end
    ensures Tiles(v + [s], a, s.end)
  {
    assert (v + [s])[..|v|] == v;
  }

  lemma SectorCountFits(range: nat, target: nat)
    requires range > 0 && target > 0
    ensures SectorCount(range, target) <= range
  {
    var n := SectorCount(range, target);
    if n > 1 {
      assert n <= n * MIN_SECTOR_SIZE;
    }
  }

  lemma {:induction false} SpansConcat(a: seq<Sector>, b: seq<Sector>, p: int)
    ensures SectorSpans(a + b, p) == SectorSpans(a, p) + SectorSpans(b, p)
  {
    if b == [] {
      assert a + b == a;
    } else {
      SpansConcat(a, b[..|b| - 1], p);
      assert (a + b)[..|a + b| - 1] == a + b[..|b| - 1];
    }
  }

  // ── Assignment ──────────────────────────────────────────────────────────

  function OpenIds(sectors: seq<Sector>, p: int): (ids: seq<nat>)
    ensures forall s: nat :: s in ids <==> s < |sectors| && sectors[s].puzzle == p && sectors[s].open
  {
    if sectors == [] then []
    else
      var n := |sectors| - 1;
      var ids := OpenIds(sectors[..n], p);
      if sectors[n].puzzle == p && sectors[n].open then
        assert (ids + [n])[|ids|] == n;
        ids + [n]
      else ids
  }

  /** No sector, or an open one: the one at offset mid for the puzzle's first chunk, any one after that. */
  ghost predicate LegacyPicks(db: Db, p: int, chunkSize: int, mid: nat, pick: Option<nat>) {
    var ids := OpenIds(db.sectors, p);
    match pick
    case None => chunkSize <= 0 || ids == []
    case Some(s) =>
      && chunkSize > 0 && s in ids
      && (CountWhere(db.chunks, IssuedBy(p)) == 0 && mid < |ids| ==> s == ids[mid])
  }

  /** The next chunkSize keys of a sector, or what is left of it. */
  function NextKeys(s: Sector, chunkSize: int): Span {
    Span(s.current, s.current + Min(chunkSize, s.keys.end - s.current))
  }

  function LegacyRow(p: int, worker: string, now: int, keys: Span, sector: nat): Chunk {
    Chunk(p, keys, Assigned, Some(worker), None, Some(now), Some(now), None, None, false, Some(sector), None, LegacyGen)
  }

  function AfterLegacy(db: Db, p: int, worker: string, now: int, chunkSize: int, pick: Option<nat>): Db
    requires pick.Some? ==> pick.value < |db.sectors|
  {
    match pick
    case None => db
    case Some(s) =>
      var sector := db.sectors[s];
      var keys := NextKeys(sector, chunkSize);
      db.(sectors := db.sectors[s := sector.(current := keys.end, open := keys.end < sector.keys.end)],
          chunks := db.chunks + [LegacyRow(p, worker, now, keys, s)])
  }

  predicate OpenHaveKeys(sectors: seq<Sector>) {
    forall s | 0 <= s < |sectors| && sectors[s].open :: sectors[s].current < sectors[s].keys.end
  }

  function Closed(s: Sector): Sector {
    s.(current := s.keys.end, open := false)
  }

  /** Some open sectors of the puzzle that had no keys left have been closed. */
  predicate Swept(a: seq<Sector>, b: seq<Sector>, p: int) {
    && |a| == |b|
    && forall s | 0 <= s < |a| ::
         b[s] == a[s] ||
         (a[s].puzzle == p && a[s].open && a[s].current >= a[s].keys.end && b[s] == Closed(a[s]))
  }

  lemma NothingSwept(a: seq<Sector>, b: seq<Sector>, p: int)
    requires OpenHaveKeys(a) && Swept(a, b, p)
    ensures a == b
  {}

  lemma {:induction false} CloseSector(sectors: seq<Sector>, p: int, s: nat)
    requires s in OpenIds(sectors, p)
    ensures |OpenIds(sectors[s := Closed(sectors[s])], p)| < |OpenIds(sectors, p)|
  {
    var n := |sectors| - 1;
    var closed := Closed(sectors[s]);
    var after := sectors[s := closed];
    if s == n {
      assert after[..n] == sectors[..n];
    } else {
      assert after[..n] == sectors[..n][s := closed];
      CloseSector(sectors[..n], p, s);
    }
  }

  // ── What every assignment keeps ─────────────────────────────────────────

  predicate InSector(c: Chunk, s: nat) {
    !c.isTest && c.sector == Some(s)
  }

  /** Key ranges of the chunks cut from sector s, in id order. */
  function ChunksOf(chunks: seq<Chunk>, s: nat): seq<Span> {
    if chunks == [] then []
    else
      var last := chunks[|chunks| - 1];
      ChunksOf(chunks[..|chunks| - 1], s) + if InSector(last, s) then [last.keys] else []
  }

  ghost predicate SectorOk(chunks: seq<Chunk>, s: nat, sector: Sector) {
    && sector.current <= sector.keys.end
    && (sector.open <==> sector.current < sector.keys.end)
    && Tiles(ChunksOf(chunks, s), sector.keys.start, sector.current)
  }

  /** Every sector's chunks tile it up to its current key, and a sector is open exactly while keys are left. */
  ghost predicate SectorsOk(db: Db) {
    && (forall s | 0 <= s < |db.sectors| :: SectorOk(db.chunks, s, db.sectors[s]))
    && forall i | 0 <= i < |db.chunks| && db.chunks[i].sector.Some? ::
         && !db.chunks[i].isTest
         && db.chunks[i].sector.value < |db.sectors|
         && db.sectors[db.chunks[i].sector.value].puzzle == db.chunks[i].puzzle
  }

  lemma SectorsOkOpen(db: Db)
    requires SectorsOk(db)
    ensures OpenHaveKeys(db.sectors)
  {
    forall s | 0 <= s < |db.sectors| && db.sectors[s].open ensures db.sectors[s].current < db.sectors[s].keys.end {
      assert SectorOk(db.chunks, s, db.sectors[s]);
    }
  }

  lemma {:induction false} ChunksOfSame(a: seq<Chunk>, b: seq<Chunk>, s: nat)
    requires SameLayout(a, b)
    ensures ChunksOf(a, s) == ChunksOf(b, s)
  {
    if a != [] {
      ChunksOfSame(a[..|a| - 1], b[..|b| - 1], s);
      assert SameWork(a[|a| - 1], b[|b| - 1]);
    }
  }

  lemma ChunksOfSnoc(chunks: seq<Chunk>, c: Chunk, s: nat)
    ensures ChunksOf(chunks + [c], s) == ChunksOf(chunks, s) + if InSector(c, s) then [c.keys] else []
  {
    assert (chunks + [c])[..|chunks|] == chunks;
  }

  /** Sector ids beyond the table have no chunks. */
  lemma {:induction false} NoChunksYet(chunks: seq<Chunk>, s: nat)
    requires forall i | 0 <= i < |chunks| && chunks[i].sector.Some? :: chunks[i].sector.value < s
    ensures ChunksOf(chunks, s) == []
  {
    if chunks != [] {
      NoChunksYet(chunks[..|chunks| - 1], s);
    }
  }

  lemma LegacyKeepsSectors(db: Db, p: int, worker: string, now: int, chunkSize: int, mid: nat, pick: Option<nat>)
    requires SectorsOk(db) && LegacyPicks(db, p, chunkSize, mid, pick)
    ensures SectorsOk(AfterLegacy(db, p, worker, now, chunkSize, pick))
  {
    if pick.Some? {
      var s := pick.value;
      var sector := db.sectors[s];
      var keys := NextKeys(sector, chunkSize);
      var row := LegacyRow(p, worker, now, keys, s);
      var after := AfterLegacy(db, p, worker, now, chunkSize, pick);
      assert SectorOk(db.chunks, s, sector);
      forall t | 0 <= t < |after.sectors| ensures SectorOk(after.chunks, t, after.sectors[t]) {
        ChunksOfSnoc(db.chunks, row, t);
        assert SectorOk(db.chunks, t, db.sectors[t]);
        if t == s {
          TilesSnoc(ChunksOf(db.chunks, s), sector.keys.start, keys);
          assert ChunksOf(after.chunks, t) == ChunksOf(db.chunks, s) + [keys];
        } else {
          assert ChunksOf(after.chunks, t) == ChunksOf(db.chunks, t);
        }
      }
    }
  }

  /** Rows in a table whose chunks carry the keys of the puzzle, one for each key. */
  ghost predicate IssuedKey(chunks: seq<Chunk>, p: int, x: int) {
    exists i :: 0 <= i < |chunks| && IssuedBy(p)(chunks[i]) && Holds(chunks[i].keys, x)
  }

  ghost predicate CutHolds(chunks: seq<Chunk>, s: nat, x: int) {
    exists i :: 0 <= i < |chunks| && InSector(chunks[i], s) && Holds(chunks[i].keys, x)
  }

  lemma CutHoldsSnoc(chunks: seq<Chunk>, c: Chunk, s: nat, x: int)
    ensures CutHolds(chunks + [c], s, x) <==> CutHolds(chunks, s, x) || (InSector(c, s) && Holds(c.keys, x))
  {
    var all := chunks + [c];
    if CutHolds(chunks, s, x) {
      var i :| 0 <= i < |chunks| && InSector(chunks[i], s) && Holds(chunks[i].keys, x);
      assert InSector(all[i], s);
    }
    if InSector(c, s) && Holds(c.keys, x) {
      assert InSector(all[|chunks|], s);
    }
  }

  lemma {:induction false} ChunksOfCovers(chunks: seq<Chunk>, s: nat, x: int)
    ensures Covers(ChunksOf(chunks, s), x) <==> CutHolds(chunks, s, x)
  {
    if chunks != [] {
      var init, last := chunks[..|chunks| - 1], chunks[|chunks| - 1];
      assert chunks == init + [last];
      ChunksOfCovers(init, s, x);
      CutHoldsSnoc(init, last, s, x);
      if InSector(last, s) {
        CoversSnoc(ChunksOf(init, s), last.keys, x);
      } else {
        assert ChunksOf(chunks, s) == ChunksOf(init, s);
      }
    }
  }

  lemma {:induction false} SomeSectorHolds(sectors: seq<Sector>, p: int, x: int) returns (s: nat)
    requires Covers(SectorSpans(sectors, p), x)
    ensures s < |sectors| && sectors[s].puzzle == p && Holds(sectors[s].keys, x)
  {
    var n := |sectors| - 1;
    var last := sectors[n];
    if last.puzzle == p {
      CoversSnoc(SectorSpans(sectors[..n], p), last.keys, x);
    }
    if last.puzzle == p && Holds(last.keys, x) {
      s := n;
    } else {
      s := SomeSectorHolds(sectors[..n], p, x);
    }
  }

  /** Once no sector is open, every key of the puzzle has been issued. */
  lemma ExhaustedMeansAllIssued(db: Db, p: int, keys: Span)
    requires SectorsOk(db) && Tiles(SectorSpans(db.sectors, p), keys.start, keys.end)
    requires OpenIds(db.sectors, p) == []
    ensures forall x | Holds(keys, x) :: IssuedKey(db.chunks, p, x)
  {
    TilesMeans(SectorSpans(db.sectors, p), keys.start, keys.end);
    forall x | Holds(keys, x) ensures IssuedKey(db.chunks, p, x) {
      var s := SomeSectorHolds(db.sectors, p, x);
      assert SectorOk(db.chunks, s, db.sectors[s]) && s !in OpenIds(db.sectors, p);
      TilesMeans(ChunksOf(db.chunks, s), db.sectors[s].keys.start, db.sectors[s].current);
      ChunksOfCovers(db.chunks, s, x);
      var i :| 0 <= i < |db.chunks| && InSector(db.chunks[i], s) && Holds(db.chunks[i].keys, x);
      assert IssuedBy(p)(db.chunks[i]);
    }
  }
}

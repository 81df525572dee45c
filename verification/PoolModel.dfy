/**
 * The pool's tables. Ids of chunk, finding and sector rows are positions in their tables: rows are only ever appended.
 * Key and virtual-chunk columns hold the numbers that the fixed-width hexadecimal text denotes (see HexBigint).
 */
module PoolModel {
  import opened Wrappers
  import opened Intervals

  datatype Status = Assigned | Reclaimed | Completed | Found

  datatype Strategy = Legacy | VChunks

  datatype Generation = LegacyGen | FeistelGen | AffineGen | TestGen

  /** size is virtual_chunk_size_keys, 0 when the column is empty. */
  datatype Puzzle = Puzzle(
    keys: Span, test: Option<Span>, strategy: Strategy, size: nat, count: nat, cursor: nat, stage: nat)

  datatype Chunk = Chunk(
    puzzle: int, keys: Span, status: Status, worker: Option<string>, prevWorker: Option<string>,
    assignedAt: Option<int>, heartbeat: Option<int>, foundKey: Option<nat>, foundAddress: Option<string>,
    isTest: bool, sector: Option<nat>, run: Option<Span>, generation: Generation)

  datatype Finding = Finding(chunk: nat, worker: string, key: nat, address: Option<string>)

  datatype Sector = Sector(puzzle: int, keys: Span, current: int, open: bool)

  /** Identified by its contents: (puzzle, span, source) is a unique index. */
  datatype BlockedRow = BlockedRow(puzzle: int, span: Span, source: string)

  /** workers maps a name to last_seen; active is the one puzzle flagged active. */
  datatype Db = Db(
    puzzles: map<int, Puzzle>, active: Option<int>, workers: map<string, int>, chunks: seq<Chunk>,
    findings: seq<Finding>, sectors: seq<Sector>, blocked: seq<BlockedRow>)

  lemma TakeSnoc<T>(s: seq<T>, i: nat)
    requires i < |s|
    ensures s[..i + 1] == s[..i] + [s[i]]
  {}

  // ── Row operations ──────────────────────────────────────────────────────

  function UpdateWhere(chunks: seq<Chunk>, p: Chunk -> bool, f: Chunk -> Chunk): (out: seq<Chunk>)
    ensures |out| == |chunks|
    ensures forall i | 0 <= i < |chunks| :: out[i] == if p(chunks[i]) then f(chunks[i]) else chunks[i]
  {
    seq(|chunks|, i requires 0 <= i < |chunks| => if p(chunks[i]) then f(chunks[i]) else chunks[i])
  }

  function CountWhere(chunks: seq<Chunk>, p: Chunk -> bool): nat {
    if chunks == [] then 0
    else CountWhere(chunks[..|chunks| - 1], p) + if p(chunks[|chunks| - 1]) then 1 else 0
  }

  /** The matching row with the smallest id. */
  function FirstWhere(chunks: seq<Chunk>, p: Chunk -> bool): (r: Option<nat>)
    ensures r.Some? ==> r.value < |chunks| && p(chunks[r.value]) && forall i | 0 <= i < r.value :: !p(chunks[i])
    ensures r.None? ==> forall i | 0 <= i < |chunks| :: !p(chunks[i])
  {
    if chunks == [] then None
    else
      match FirstWhere(chunks[..|chunks| - 1], p)
      case Some(i) => Some(i)
      case None => if p(chunks[|chunks| - 1]) then Some(|chunks| - 1) else None
  }

  function IssuedBy(p: int): Chunk -> bool {
    (c: Chunk) => c.puzzle == p && !c.isTest
  }

  /** The columns that no statement changes once the row exists. */
  predicate SameWork(a: Chunk, b: Chunk) {
    && a.puzzle == b.puzzle && a.keys == b.keys && a.isTest == b.isTest
    && a.sector == b.sector && a.run == b.run && a.generation == b.generation
  }

  predicate SameLayout(a: seq<Chunk>, b: seq<Chunk>) {
    |a| == |b| && forall i | 0 <= i < |a| :: SameWork(a[i], b[i])
  }

  // ── Virtual chunks ──────────────────────────────────────────────────────

  predicate OccupiesOf(c: Chunk, p: int) {
    c.puzzle == p && !c.isTest && c.run.Some?
  }

  /** Virtual chunk x of puzzle p belongs to an issued job, whatever became of the job. */
  ghost predicate Occupied(chunks: seq<Chunk>, p: int, x: int) {
    exists i :: 0 <= i < |chunks| && OccupiesOf(chunks[i], p) && Holds(chunks[i].run.value, x)
  }

  ghost predicate Blocked(rows: seq<BlockedRow>, p: int, x: int) {
    exists i :: 0 <= i < |rows| && rows[i].puzzle == p && Holds(rows[i].span, x)
  }

  ghost predicate Free(db: Db, p: int, x: int) {
    !Occupied(db.chunks, p, x) && !Blocked(db.blocked, p, x)
  }

  ghost function FreeSet(db: Db, p: int): iset<int> {
    iset x: int | Free(db, p, x)
  }

  lemma OccupiedSnoc(chunks: seq<Chunk>, c: Chunk, p: int, x: int)
    ensures Occupied(chunks + [c], p, x) <==> Occupied(chunks, p, x) || (OccupiesOf(c, p) && Holds(c.run.value, x))
  {
    var all := chunks + [c];
    if Occupied(chunks, p, x) {
      var i :| 0 <= i < |chunks| && OccupiesOf(chunks[i], p) && Holds(chunks[i].run.value, x);
      assert OccupiesOf(all[i], p);
    }
    if OccupiesOf(c, p) && Holds(c.run.value, x) {
      assert OccupiesOf(all[|chunks|], p);
    }
  }

  lemma BlockedSnoc(rows: seq<BlockedRow>, r: BlockedRow, p: int, x: int)
    ensures Blocked(rows + [r], p, x) <==> Blocked(rows, p, x) || (r.puzzle == p && Holds(r.span, x))
  {
    var all := rows + [r];
    if Blocked(rows, p, x) {
      var i :| 0 <= i < |rows| && rows[i].puzzle == p && Holds(rows[i].span, x);
      assert all[i].puzzle == p;
    }
    if r.puzzle == p && Holds(r.span, x) {
      assert all[|rows|].puzzle == p;
    }
  }

  function KeysOf(z: Puzzle, run: Span): Span {
    var end := z.keys.start + run.end * z.size;
    Span(z.keys.start + run.start * z.size, if end < z.keys.end then end else z.keys.end)
  }

  // ── The tables as an object ─────────────────────────────────────────────

  class PoolDb {
    var puzzles: map<int, Puzzle>
    var active: Option<int>
    var workers: map<string, int>
    var chunks: seq<Chunk>
    var findings: seq<Finding>
    var sectors: seq<Sector>
    var blocked: seq<BlockedRow>

    constructor ()
      ensures View() == Db(map[], None, map[], [], [], [], [])
    {
      puzzles, active, workers := map[], None, map[];
      chunks, findings, sectors, blocked := [], [], [], [];
    }

    ghost function View(): Db
      reads this
    {
      Db(puzzles, active, workers, chunks, findings, sectors, blocked)
    }

    /** UPDATE chunks SET f WHERE p */
    method Update(p: Chunk -> bool, f: Chunk -> Chunk) returns (changes: nat)
      modifies this`chunks
      ensures chunks == UpdateWhere(old(chunks), p, f)
      ensures changes == CountWhere(old(chunks), p)
    {
      ghost var before := chunks;
      changes := 0;
      for i := 0 to |chunks|
        invariant |chunks| == |before|
        invariant forall j | 0 <= j < i :: chunks[j] == UpdateWhere(before, p, f)[j]
        invariant forall j | i <= j < |before| :: chunks[j] == before[j]
        invariant changes == CountWhere(before[..i], p)
      {
        assert before[..i + 1][..i] == before[..i];
        if p(chunks[i]) {
          chunks := chunks[i := f(chunks[i])];
          changes := changes + 1;
        }
      }
      assert before[..|before|] == before;
    }

    /** SELECT COUNT(*) FROM chunks WHERE p */
    method Count(p: Chunk -> bool) returns (n: nat)
      ensures n == CountWhere(chunks, p)
    {
      n := 0;
      for i := 0 to |chunks|
        invariant n == CountWhere(chunks[..i], p)
      {
        assert chunks[..i + 1][..i] == chunks[..i];
        if p(chunks[i]) {
          n := n + 1;
        }
      }
      assert chunks[..|chunks|] == chunks;
    }

    /** SELECT id FROM chunks WHERE p ORDER BY id LIMIT 1 */
    method First(p: Chunk -> bool) returns (r: Option<nat>)
      ensures r == FirstWhere(chunks, p)
    {
      for i := 0 to |chunks|
        invariant FirstWhere(chunks[..i], p) == None
      {
        if p(chunks[i]) {
          FirstIs(chunks, p, i);
          return Some(i);
        }
        assert chunks[..i + 1][..i] == chunks[..i];
      }
      assert chunks[..|chunks|] == chunks;
      r := None;
    }
  }

  lemma FirstIs(chunks: seq<Chunk>, p: Chunk -> bool, i: nat)
    requires i < |chunks| && p(chunks[i]) && FirstWhere(chunks[..i], p) == None
    ensures FirstWhere(chunks, p) == Some(i)
  {
    assert forall j | 0 <= j < i :: !p(chunks[j]) by {
      assert forall j | 0 <= j < i :: chunks[..i][j] == chunks[j];
    }
  }
}

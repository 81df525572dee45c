/** Handlers reading, building and storing panels while other requests write (src/service_visualization.cpp). */
module VisProtocol {
  import opened Wrappers
  import opened Intervals
  import opened PoolModel
  import opened VisCache

  // ── Panels ──────────────────────────────────────────────────────────────

  datatype Row = Row(id: nat, status: Status, keys: Span, generation: Generation)

  /** The non-test rows of a puzzle, in id order. */
  function RowsPart(chunks: seq<Chunk>, p: int): seq<Row> {
    if chunks == [] then []
    else
      var n := |chunks| - 1;
      var c := chunks[n];
      RowsPart(chunks[..n], p) + if c.puzzle == p && !c.isTest then [Row(n, c.status, c.keys, c.generation)] else []
  }

  /** The merged blocked intervals; a canonical list is determined by the set it covers. */
  ghost function BlockedPart(rows: seq<BlockedRow>, p: int): iset<int> {
    iset x: int | Blocked(rows, p, x)
  }

  /** A panel is whatever the builder makes of these; only the scatter panel leaves blocked ranges out. */
  datatype Panel = Panel(kind: Kind, p: int, keys: Span, size: nat, rows: seq<Row>, blocked: Option<iset<int>>)

  ghost function PanelOf(db: Db, kind: Kind, p: int): Panel
    requires p in db.puzzles
  {
    Panel(kind, p, db.puzzles[p].keys, db.puzzles[p].size, RowsPart(db.chunks, p),
          if kind == Scatter then None else Some(BlockedPart(db.blocked, p)))
  }

  ghost predicate SameInputs(a: Db, b: Db, p: int)
    requires p in a.puzzles && p in b.puzzles
  {
    PanelOf(a, Heatmap, p) == PanelOf(b, Heatmap, p)
  }

  // ── The machine ─────────────────────────────────────────────────────────

  /** A handler call between its sections. The two statements of a build may run at different instants. */
  datatype Reader =
    | Again(kind: Kind, retries: nat)
    | Building(kind: Kind, p: int, revision: nat, keys: Span, size: nat, rows: Option<seq<Row>>,
               blocked: Option<iset<int>>, retries: nat)

  datatype Sys = Sys(db: Db, store: Store<Panel>, readers: map<int, Reader>)

  /** What a writing request does to the revisions before it releases the lock. */
  datatype Bump = NoBump | BumpOne(p: int) | BumpAll

  datatype Event =
    | Open(r: int, kind: Kind, p: int)
    | ReadRows(r: int)
    | ReadBlocked(r: int)
    | Finish(r: int)
    | Write(bump: Bump, after: Db)

  /** Puzzles are never deleted, and a bumped one exists. */
  ghost predicate WriteOk(before: Db, bump: Bump, after: Db) {
    before.puzzles.Keys <= after.puzzles.Keys && (bump.BumpOne? ==> bump.p in after.puzzles)
  }

  ghost predicate Enabled(s: Sys, e: Event) {
    match e
    case Open(r, kind, p) =>
      p in s.db.puzzles && (r in s.readers ==> s.readers[r].Again? && s.readers[r].kind == kind)
    case ReadRows(r) => r in s.readers && s.readers[r].Building?
    case ReadBlocked(r) => r in s.readers && s.readers[r].Building? && s.readers[r].kind != Scatter
    case Finish(r) =>
      && r in s.readers && s.readers[r].Building? && s.readers[r].rows.Some?
      && (s.readers[r].kind != Scatter ==> s.readers[r].blocked.Some?)
    case Write(bump, after) => WriteOk(s.db, bump, after)
  }

  ghost function Built(r: Reader): Panel
    requires r.Building? && r.rows.Some?
  {
    Panel(r.kind, r.p, r.keys, r.size, r.rows.value, r.blocked)
  }

  ghost function AfterBump(store: Store<Panel>, db: Db, bump: Bump): Store<Panel> {
    match bump
    case NoBump => store
    case BumpOne(p) => Invalidate(store, p)
    case BumpAll => InvalidateAll(store, db.puzzles.Keys)
  }

  /** The state after an event, and the panel a handler returns in it, if any. */
  ghost function Next(s: Sys, e: Event): (Sys, Option<Panel>)
    requires Enabled(s, e)
  {
    match e
    case Open(r, kind, p) =>
      var revision := RevisionOf(s.store.revisions, p);
      var store := Seen(s.store, p);
      var retries := if r in s.readers then s.readers[r].retries else 0;
      (match Lookup(store, p, kind, revision)
      case Some(panel) => (s.(store := store, readers := s.readers - {r}), Some(panel))
      case None =>
        var z := s.db.puzzles[p];
        var reader := Building(kind, p, revision, z.keys, z.size, None, None, retries);
        (s.(store := store, readers := s.readers[r := reader]), None))
    case ReadRows(r) =>
      var b := s.readers[r];
      (s.(readers := s.readers[r := b.(rows := Some(RowsPart(s.db.chunks, b.p)))]), None)
    case ReadBlocked(r) =>
      var b := s.readers[r];
      (s.(readers := s.readers[r := b.(blocked := Some(BlockedPart(s.db.blocked, b.p)))]), None)
    case Finish(r) =>
      var b := s.readers[r];
      var (store, outcome) := Commit(s.store, b.p, b.kind, b.revision, Built(b));
      (match outcome
      case Retry => (s.(store := store, readers := s.readers[r := Again(b.kind, b.retries + 1)]), None)
      case Return(panel) => (s.(store := store, readers := s.readers - {r}), Some(panel)))
    case Write(bump, after) =>
      (s.(db := after, store := AfterBump(s.store, after, bump)), None)
  }

  /** The panel that the current tables give for the request that returns in this event. */
  ghost function Wanted(s: Sys, e: Event): Option<Panel>
    requires Enabled(s, e)
  {
    match e
    case Open(_, kind, p) => Some(PanelOf(s.db, kind, p))
    case Finish(r) =>
      if s.readers[r].p in s.db.puzzles then Some(PanelOf(s.db, s.readers[r].kind, s.readers[r].p)) else None
    case _ => None
  }

  // ── Freshness ───────────────────────────────────────────────────────────

  /** The write bumps the revision of every puzzle whose panels it changes. */
  ghost predicate Covered(before: Db, bump: Bump, after: Db) {
    forall p | p in before.puzzles && p in after.puzzles && !SameInputs(before, after, p) ::
      bump == BumpOne(p) || bump == BumpAll
  }

  ghost predicate PanelsFresh(db: Db, p: int, panels: map<Kind, Panel>) {
    p in db.puzzles && forall kind | kind in panels :: panels[kind] == PanelOf(db, kind, p)
  }

  /** The entry carries the current revision and only current panels, so storing one never relabels a stale other. */
  ghost predicate EntryOk(s: Sys, p: int) {
    p in s.store.cache ==>
      && p in s.store.revisions && s.store.cache[p].revision == s.store.revisions[p]
      && PanelsFresh(s.db, p, s.store.cache[p].panels)
  }

  ghost predicate PartsFresh(db: Db, b: Reader)
    requires b.Building?
  {
    && b.p in db.puzzles
    && b.keys == db.puzzles[b.p].keys && b.size == db.puzzles[b.p].size
    && (b.rows.Some? ==> b.rows.value == RowsPart(db.chunks, b.p))
    && (b.blocked.Some? ==> b.kind != Scatter && b.blocked.value == BlockedPart(db.blocked, b.p))
  }

  ghost predicate ReaderOk(s: Sys, b: Reader) {
    match b
    case Again(_, _) => true
    case Building(_, p, revision, _, _, _, _, _) =>
      && p in s.db.puzzles && p in s.store.revisions
      && revision <= s.store.revisions[p]
      && (revision == s.store.revisions[p] ==> PartsFresh(s.db, b))
  }

  ghost predicate Inv(s: Sys) {
    && (forall p :: EntryOk(s, p))
    && (forall r | r in s.readers :: ReaderOk(s, s.readers[r]))
    && (forall p | p in s.store.revisions :: p in s.db.puzzles && s.store.revisions[p] >= 1)
  }

  ghost function Initial(db: Db): Sys {
    Sys(db, Store(map[], map[]), map[])
  }

  lemma OpenKeeps(s: Sys, r: int, kind: Kind, p: int)
    requires Inv(s) && Enabled(s, Open(r, kind, p))
    ensures Inv(Next(s, Open(r, kind, p)).0)
    ensures Next(s, Open(r, kind, p)).1.Some? ==> Next(s, Open(r, kind, p)).1 == Wanted(s, Open(r, kind, p))
  {
    var n := Next(s, Open(r, kind, p)).0;
    forall q ensures EntryOk(n, q) {
      assert EntryOk(s, q);
    }
    forall x | x in n.readers ensures ReaderOk(n, n.readers[x]) {
      if x in s.readers {
        assert ReaderOk(s, s.readers[x]);
      }
    }
    assert EntryOk(s, p);
  }

  lemma ReadKeeps(s: Sys, e: Event)
    requires Inv(s) && (e.ReadRows? || e.ReadBlocked?) && Enabled(s, e)
    ensures Inv(Next(s, e).0)
  {
    var n := Next(s, e).0;
    forall q ensures EntryOk(n, q) {
      assert EntryOk(s, q);
    }
    forall x | x in n.readers ensures ReaderOk(n, n.readers[x]) {
      assert ReaderOk(s, s.readers[x]);
    }
  }

  lemma FinishKeeps(s: Sys, r: int)
    requires Inv(s) && Enabled(s, Finish(r))
    ensures Inv(Next(s, Finish(r)).0)
    ensures Next(s, Finish(r)).1.Some? ==> Next(s, Finish(r)).1 == Wanted(s, Finish(r))
  {
    var n := Next(s, Finish(r)).0;
    var b := s.readers[r];
    assert ReaderOk(s, b) && EntryOk(s, b.p);
    if b.revision == s.store.revisions[b.p] {
      assert Built(b) == PanelOf(s.db, b.kind, b.p);
    }
    forall q ensures EntryOk(n, q) {
      assert EntryOk(s, q);
    }
    forall x | x in n.readers ensures ReaderOk(n, n.readers[x]) {
      assert ReaderOk(s, s.readers[x]);
    }
  }

  lemma SamePanels(a: Db, b: Db, kind: Kind, p: int)
    requires p in a.puzzles && p in b.puzzles && SameInputs(a, b, p)
    ensures PanelOf(a, kind, p) == PanelOf(b, kind, p)
  {}

  /** A puzzle whose revision a write leaves alone keeps its panels. */
  lemma UnbumpedIsUnchanged(s: Sys, bump: Bump, after: Db, p: int)
    requires Inv(s) && Enabled(s, Write(bump, after)) && Covered(s.db, bump, after)
    requires p in s.store.revisions
    ensures var revisions := Next(s, Write(bump, after)).0.store.revisions;
            && p in revisions && s.store.revisions[p] <= revisions[p]
            && (revisions[p] == s.store.revisions[p] ==> p in after.puzzles && SameInputs(s.db, after, p))
  {
    if bump == BumpAll {
      assert p in s.store.revisions.Keys + after.puzzles.Keys;
    }
  }

  lemma WriteKeeps(s: Sys, bump: Bump, after: Db)
    requires Inv(s) && Enabled(s, Write(bump, after)) && Covered(s.db, bump, after)
    ensures Inv(Next(s, Write(bump, after)).0)
  {
    var n := Next(s, Write(bump, after)).0;
    forall q ensures EntryOk(n, q) {
      if q in n.store.cache {
        assert EntryOk(s, q) && q in s.store.cache;
        UnbumpedIsUnchanged(s, bump, after, q);
        forall kind | kind in n.store.cache[q].panels ensures n.store.cache[q].panels[kind] == PanelOf(after, kind, q) {
          SamePanels(s.db, after, kind, q);
        }
      }
    }
    forall x | x in n.readers ensures ReaderOk(n, n.readers[x]) {
      var b := s.readers[x];
      assert ReaderOk(s, b);
      if b.Building? {
        UnbumpedIsUnchanged(s, bump, after, b.p);
        if b.revision == n.store.revisions[b.p] {
          SamePanels(s.db, after, Heatmap, b.p);
        }
      }
    }
    forall p | p in n.store.revisions ensures p in after.puzzles && n.store.revisions[p] >= 1 {
      if bump == BumpAll {
        assert p in s.store.revisions.Keys + after.puzzles.Keys;
      }
    }
  }

  lemma StepFresh(s: Sys, e: Event)
    requires Inv(s) && Enabled(s, e) && (e.Write? ==> Covered(s.db, e.bump, e.after))
    ensures Inv(Next(s, e).0)
    ensures Next(s, e).1.Some? ==> Next(s, e).1 == Wanted(s, e)
  {
    match e
    case Open(r, kind, p) => OpenKeeps(s, r, kind, p);
    case ReadRows(_) => ReadKeeps(s, e);
    case ReadBlocked(_) => ReadKeeps(s, e);
    case Finish(r) => FinishKeeps(s, r);
    case Write(bump, after) => WriteKeeps(s, bump, after);
  }

  // ── Every interleaving ──────────────────────────────────────────────────

  /** ss lists the states of an interleaving from empty caches whose writes all belong to w. */
  ghost predicate IsTrace(w: (Db, Bump, Db) -> bool, es: seq<Event>, ss: seq<Sys>) {
    Follows(w, es, ss) && ss[0] == Initial(ss[0].db)
  }

  ghost predicate Follows(w: (Db, Bump, Db) -> bool, es: seq<Event>, ss: seq<Sys>) {
    && |ss| == |es| + 1
    && forall i | 0 <= i < |es| :: IsStep(w, ss[i], es[i], ss[i + 1])
  }

  ghost predicate IsStep(w: (Db, Bump, Db) -> bool, s: Sys, e: Event, n: Sys) {
    && Enabled(s, e) && n == Next(s, e).0
    && (e.Write? ==> w(s.db, e.bump, e.after))
  }

  ghost predicate ReturnsFresh(s: Sys, e: Event) {
    Enabled(s, e) && Next(s, e).1.Some? ==> Next(s, e).1 == Wanted(s, e)
  }

  /** Every panel returned is the one the tables give at that instant. */
  ghost predicate FreshTrace(es: seq<Event>, ss: seq<Sys>)
    requires |ss| == |es| + 1
  {
    forall i | 0 <= i < |es| :: ReturnsFresh(ss[i], es[i])
  }

  ghost predicate BumpsWhatItChanges(w: (Db, Bump, Db) -> bool) {
    forall a, bump, b | WriteOk(a, bump, b) && w(a, bump, b) :: Covered(a, bump, b)
  }

  lemma {:induction false} TraceKeeps(w: (Db, Bump, Db) -> bool, es: seq<Event>, ss: seq<Sys>, i: nat)
    requires IsTrace(w, es, ss) && BumpsWhatItChanges(w) && i < |ss|
    ensures Inv(ss[i])
  {
    if i > 0 {
      TraceKeeps(w, es, ss, i - 1);
      assert IsStep(w, ss[i - 1], es[i - 1], ss[i - 1 + 1]);
      StepFresh(ss[i - 1], es[i - 1]);
    }
  }

  lemma BumpingIsEnough(w: (Db, Bump, Db) -> bool, es: seq<Event>, ss: seq<Sys>)
    requires IsTrace(w, es, ss) && BumpsWhatItChanges(w)
    ensures FreshTrace(es, ss)
  {
    forall i | 0 <= i < |es| ensures ReturnsFresh(ss[i], es[i]) {
      TraceKeeps(w, es, ss, i);
      assert IsStep(w, ss[i], es[i], ss[i + 1]);
      StepFresh(ss[i], es[i]);
    }
  }

  // ── Retries ─────────────────────────────────────────────────────────────

  /** The event invalidates the puzzle that handler r is building a panel of. */
  ghost predicate Hits(s: Sys, n: Sys, r: int) {
    && r in s.readers && s.readers[r].Building?
    && RevisionOf(n.store.revisions, s.readers[r].p) != RevisionOf(s.store.revisions, s.readers[r].p)
  }

  /** How often that happened since the call of handler r began, up to state i. */
  ghost function HitsSince(ss: seq<Sys>, i: nat, r: int): nat
    requires i < |ss|
  {
    if i == 0 || r !in ss[i].readers then 0
    else HitsSince(ss, i - 1, r) + if Hits(ss[i - 1], ss[i], r) then 1 else 0
  }

  /** Every retry, and the one that is due, answers to a hit. */
  ghost predicate RetriesExplained(s: Sys, r: int, hits: nat) {
    r in s.readers ==>
      match s.readers[r]
      case Again(_, retries) => retries <= hits
      case Building(_, p, revision, _, _, _, _, retries) =>
        && p in s.store.revisions && revision <= s.store.revisions[p]
        && retries + (if revision < s.store.revisions[p] then 1 else 0) <= hits
  }

  /** Revisions never fall and never disappear. */
  lemma RevisionsGrow(s: Sys, e: Event, p: int)
    requires Enabled(s, e) && p in s.store.revisions
    ensures p in Next(s, e).0.store.revisions
    ensures s.store.revisions[p] <= Next(s, e).0.store.revisions[p]
  {
    if e.Write? && e.bump == BumpAll {
      assert p in s.store.revisions.Keys + e.after.puzzles.Keys;
    }
  }

  lemma StepExplains(s: Sys, e: Event, r: int, hits: nat)
    requires Enabled(s, e) && RetriesExplained(s, r, hits)
    ensures var n := Next(s, e).0;
            && (r in s.readers ==> RetriesExplained(n, r, hits + if Hits(s, n, r) then 1 else 0))
            && (r !in s.readers ==> RetriesExplained(n, r, 0))
  {
    if r in s.readers && s.readers[r].Building? {
      RevisionsGrow(s, e, s.readers[r].p);
    }
  }

  lemma {:induction false} TraceExplains(w: (Db, Bump, Db) -> bool, es: seq<Event>, ss: seq<Sys>, i: nat, r: int)
    requires IsTrace(w, es, ss) && i < |ss|
    ensures RetriesExplained(ss[i], r, HitsSince(ss, i, r))
  {
    if i > 0 {
      TraceExplains(w, es, ss, i - 1, r);
      assert IsStep(w, ss[i - 1], es[i - 1], ss[i - 1 + 1]);
      StepExplains(ss[i - 1], es[i - 1], r, HitsSince(ss, i - 1, r));
    }
  }

  /**
   * Whatever the writes do, a handler never retries more often than the puzzle it was building was invalidated since its
   * call began.
   */
  lemma RetriesBounded(w: (Db, Bump, Db) -> bool, es: seq<Event>, ss: seq<Sys>, i: nat, r: int)
    requires IsTrace(w, es, ss) && i < |ss| && r in ss[i].readers
    ensures ss[i].readers[r].retries <= HitsSince(ss, i, r)
  {
    TraceExplains(w, es, ss, i, r);
  }

  // ── Reuse ───────────────────────────────────────────────────────────────

  /** The puzzle's entry has this panel under the current revision. */
  ghost predicate CachedAs(s: Sys, p: int, kind: Kind, panel: Panel) {
    && p in s.store.revisions && p in s.store.cache && s.store.cache[p].revision == s.store.revisions[p]
    && kind in s.store.cache[p].panels && s.store.cache[p].panels[kind] == panel
  }

  /** The event ends a call for this panel of the puzzle. */
  ghost predicate Answers(s: Sys, e: Event, p: int, kind: Kind, panel: Panel) {
    && Enabled(s, e) && Next(s, e).1 == Some(panel)
    && match e
       case Open(_, k, q) => k == kind && q == p
       case Finish(r) => s.readers[r].kind == kind && s.readers[r].p == p
       case _ => false
  }

  lemma AnswerIsCached(s: Sys, e: Event, p: int, kind: Kind, panel: Panel)
    requires Answers(s, e, p, kind, panel)
    ensures CachedAs(Next(s, e).0, p, kind, panel)
  {}

  /** It stays there until the puzzle is invalidated. */
  lemma StaysCached(s: Sys, e: Event, p: int, kind: Kind, panel: Panel)
    requires Enabled(s, e) && CachedAs(s, p, kind, panel)
    requires RevisionOf(Next(s, e).0.store.revisions, p) == s.store.revisions[p]
    ensures CachedAs(Next(s, e).0, p, kind, panel)
  {
    RevisionsGrow(s, e, p);
  }

  lemma {:induction false} CachedUntil(
      w: (Db, Bump, Db) -> bool, es: seq<Event>, ss: seq<Sys>, i: nat, j: nat, p: int, kind: Kind, panel: Panel)
    requires Follows(w, es, ss) && i <= j < |ss| && CachedAs(ss[i], p, kind, panel)
    ensures p in ss[j].store.revisions && ss[i].store.revisions[p] <= ss[j].store.revisions[p]
    ensures ss[j].store.revisions[p] == ss[i].store.revisions[p] ==> CachedAs(ss[j], p, kind, panel)
  {
    if i < j {
      CachedUntil(w, es, ss, i, j - 1, p, kind, panel);
      assert IsStep(w, ss[j - 1], es[j - 1], ss[j - 1 + 1]);
      RevisionsGrow(ss[j - 1], es[j - 1], p);
      if ss[j].store.revisions[p] == ss[i].store.revisions[p] {
        StaysCached(ss[j - 1], es[j - 1], p, kind, panel);
      }
    }
  }

  /** In every interleaving a panel that was returned is returned again at once, until its puzzle is invalidated. */
  lemma PanelReused(w: (Db, Bump, Db) -> bool, es: seq<Event>, ss: seq<Sys>, i: nat, j: nat,
                    p: int, kind: Kind, panel: Panel, r: int)
    requires Follows(w, es, ss) && i < j < |es|
    requires Answers(ss[i], es[i], p, kind, panel) && es[j] == Open(r, kind, p)
    requires RevisionOf(ss[j].store.revisions, p) == RevisionOf(ss[i + 1].store.revisions, p)
    ensures Enabled(ss[j], es[j]) && Next(ss[j], es[j]).1 == Some(panel)
  {
    assert IsStep(w, ss[i], es[i], ss[i + 1]) && IsStep(w, ss[j], es[j], ss[j + 1]);
    AnswerIsCached(ss[i], es[i], p, kind, panel);
    CachedUntil(w, es, ss, i + 1, j, p, kind, panel);
  }

  // ── A write without its bump ────────────────────────────────────────────

  lemma FollowsOn(w: (Db, Bump, Db) -> bool, es: seq<Event>, ss: seq<Sys>, es': seq<Event>, ss': seq<Sys>)
    requires Follows(w, es, ss) && Follows(w, es', ss') && ss[|es|] == ss'[0]
    ensures Follows(w, es + es', ss + ss'[1..])
  {
    var e2, s2 := es + es', ss + ss'[1..];
    forall i | 0 <= i < |e2| ensures IsStep(w, s2[i], e2[i], s2[i + 1]) {
      if i < |es| {
        assert IsStep(w, ss[i], es[i], ss[i + 1]);
      } else {
        var j := i - |es|;
        assert IsStep(w, ss'[j], es'[j], ss'[j + 1]);
        assert s2[i] == ss'[j] && s2[i + 1] == ss'[j + 1];
      }
    }
  }

  /** No handler at work and nothing cached. */
  ghost predicate Quiet(s: Sys) {
    s.readers == map[] && s.store.cache == map[]
  }

  /** The state after one undisturbed heatmap call. */
  ghost function Primed(s: Sys, p: int): Sys
    requires p in s.db.puzzles
  {
    var revision := RevisionOf(s.store.revisions, p);
    Sys(s.db, Store(s.store.revisions[p := revision], map[p := Entry(revision, map[Heatmap := PanelOf(s.db, Heatmap, p)])]),
        map[])
  }

  ghost function CallEvents(p: int): seq<Event> {
    [Open(0, Heatmap, p), ReadRows(0), ReadBlocked(0), Finish(0)]
  }

  lemma OneCall(w: (Db, Bump, Db) -> bool, s0: Sys, p: int) returns (ss: seq<Sys>)
    requires Quiet(s0) && p in s0.db.puzzles
    ensures Follows(w, CallEvents(p), ss) && ss[0] == s0 && ss[4] == Primed(s0, p)
  {
    var s1 := Next(s0, Open(0, Heatmap, p)).0;
    var s2 := Next(s1, ReadRows(0)).0;
    var s3 := Next(s2, ReadBlocked(0)).0;
    var s4 := Next(s3, Finish(0)).0;
    ss := [s0, s1, s2, s3, s4];
    assert Built(s3.readers[0]) == PanelOf(s0.db, Heatmap, p);
    assert s4.readers == map[];
    assert s4.store.cache == Primed(s0, p).store.cache;
    assert s4.store.revisions == Primed(s0, p).store.revisions;
    assert IsStep(w, s0, CallEvents(p)[0], s1) && IsStep(w, s1, CallEvents(p)[1], s2);
    assert IsStep(w, s2, CallEvents(p)[2], s3) && IsStep(w, s3, CallEvents(p)[3], s4);
  }

  /** After an unbumped write to p the old panel is served. */
  lemma ServesStale(s: Sys, bump: Bump, b: Db, p: int)
    requires WriteOk(s.db, bump, b) && p in s.db.puzzles && !SameInputs(s.db, b, p)
    requires bump != BumpOne(p) && bump != BumpAll
    ensures var n := Next(Primed(s, p), Write(bump, b)).0;
            Enabled(n, Open(0, Heatmap, p)) && !ReturnsFresh(n, Open(0, Heatmap, p))
  {
    var n := Next(Primed(s, p), Write(bump, b)).0;
    assert p in n.store.cache && n.store.revisions[p] == n.store.cache[p].revision;
  }

  /** From any quiet state, one call, the write, one more call: the last one returns a panel that is no longer right. */
  lemma StaleFrom(w: (Db, Bump, Db) -> bool, s: Sys, bump: Bump, b: Db) returns (es: seq<Event>, ss: seq<Sys>)
    requires Quiet(s) && WriteOk(s.db, bump, b) && w(s.db, bump, b) && !Covered(s.db, bump, b)
    ensures Follows(w, es, ss) && ss[0] == s && |es| == 6 && !ReturnsFresh(ss[5], es[5])
  {
    var p :| p in s.db.puzzles && p in b.puzzles && !SameInputs(s.db, b, p) && bump != BumpOne(p) && bump != BumpAll;
    var call := OneCall(w, s, p);
    var n := Next(Primed(s, p), Write(bump, b)).0;
    ServesStale(s, bump, b, p);
    var last := Next(n, Open(0, Heatmap, p)).0;
    assert IsStep(w, Primed(s, p), Write(bump, b), n) && IsStep(w, n, Open(0, Heatmap, p), last);
    FollowsOn(w, CallEvents(p), call, [Write(bump, b), Open(0, Heatmap, p)], [Primed(s, p), n, last]);
    es := CallEvents(p) + [Write(bump, b), Open(0, Heatmap, p)];
    ss := call + [Primed(s, p), n, last][1..];
  }

  lemma BumpingIsNeeded(w: (Db, Bump, Db) -> bool, a: Db, bump: Bump, b: Db) returns (es: seq<Event>, ss: seq<Sys>)
    requires WriteOk(a, bump, b) && w(a, bump, b) && !Covered(a, bump, b)
    ensures IsTrace(w, es, ss) && !FreshTrace(es, ss)
  {
    es, ss := StaleFrom(w, Initial(a), bump, b);
  }

  /** Handlers return fresh panels under every interleaving if and only if every write bumps the puzzles it changes. */
  lemma FreshIffBumped(w: (Db, Bump, Db) -> bool)
    ensures BumpsWhatItChanges(w) <==> forall es, ss | IsTrace(w, es, ss) :: FreshTrace(es, ss)
  {
    if BumpsWhatItChanges(w) {
      forall es, ss | IsTrace(w, es, ss) ensures FreshTrace(es, ss) {
        BumpingIsEnough(w, es, ss);
      }
    } else {
      var a, bump, b :| WriteOk(a, bump, b) && w(a, bump, b) && !Covered(a, bump, b);
      var es, ss := BumpingIsNeeded(w, a, bump, b);
    }
  }
}

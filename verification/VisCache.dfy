/** Revisions and cached panels: what each locked section does (src/service.cpp, src/service_visualization.cpp). */
module VisCache {
  import opened Sets
  import opened Wrappers

  datatype Kind = Heatmap | Hilbert | Scatter

  /** One entry holds the three panels of a puzzle under one revision. */
  datatype Entry<P> = Entry(revision: nat, panels: map<Kind, P>)

  datatype Store<P> = Store(revisions: map<int, nat>, cache: map<int, Entry<P>>)

  datatype Outcome<P> = Retry | Return(panel: P)

  /** A missing revision is 1. */
  function RevisionOf(revisions: map<int, nat>, p: int): nat {
    if p in revisions then revisions[p] else 1
  }

  function Seen<P>(s: Store<P>, p: int): Store<P> {
    s.(revisions := s.revisions[p := RevisionOf(s.revisions, p)])
  }

  function Invalidate<P>(s: Store<P>, p: int): Store<P> {
    Store(s.revisions[p := RevisionOf(s.revisions, p) + 1], s.cache - {p})
  }

  /** Bumps every revision there is; a listed puzzle without one gets revision 1. */
  function InvalidateAll<P>(s: Store<P>, puzzles: set<int>): Store<P> {
    Store(map q | q in s.revisions.Keys + puzzles :: if q in s.revisions then s.revisions[q] + 1 else 1,
          s.cache - (s.revisions.Keys + puzzles))
  }

  function Lookup<P>(s: Store<P>, p: int, kind: Kind, revision: nat): Option<P> {
    if p in s.cache && s.cache[p].revision == revision && kind in s.cache[p].panels then Some(s.cache[p].panels[kind])
    else None
  }

  /** The last section of a handler: retry when the revision moved, else serve the cached panel or store the built one. */
  function Commit<P>(s: Store<P>, p: int, kind: Kind, revision: nat, built: P): (Store<P>, Outcome<P>) {
    if RevisionOf(s.revisions, p) != revision then (Seen(s, p), Retry)
    else
      var entry := if p in s.cache then s.cache[p] else Entry(0, map[]);
      if entry.revision == revision && kind in entry.panels then
        (Seen(s, p).(cache := s.cache[p := entry]), Return(entry.panels[kind]))
      else
        (Seen(s, p).(cache := s.cache[p := Entry(revision, entry.panels[kind := built])]), Return(built))
  }

  function Listed(puzzles: seq<int>): set<int> {
    set q | q in puzzles
  }

  lemma ListedSnoc(puzzles: seq<int>, i: nat)
    requires i < |puzzles|
    ensures Listed(puzzles[..i + 1]) == Listed(puzzles[..i]) + {puzzles[i]}
  {
    assert puzzles[..i + 1] == puzzles[..i] + [puzzles[i]];
  }

  lemma AllBumped<P>(s: Store<P>, puzzles: set<int>, after: Store<P>)
    requires after.revisions.Keys == s.revisions.Keys + puzzles
    requires forall q | q in after.revisions :: after.revisions[q] == if q in s.revisions then s.revisions[q] + 1 else 1
    requires after.cache == s.cache - s.revisions.Keys - puzzles
    ensures after == InvalidateAll(s, puzzles)
  {
    var wanted := InvalidateAll(s, puzzles).revisions;
    forall q ensures q in after.revisions <==> q in wanted {
      assert q in after.revisions.Keys <==> q in s.revisions.Keys + puzzles;
    }
    forall q | q in wanted ensures after.revisions[q] == wanted[q] {
      assert q in after.revisions;
    }
    assert after.revisions == wanted;
    assert after.cache == InvalidateAll(s, puzzles).cache;
  }

  class VisStore<P> {
    var visRevisions: map<int, nat>
    var visCache: map<int, Entry<P>>

    constructor ()
      ensures View() == Store(map[], map[])
    {
      visRevisions, visCache := map[], map[];
    }

    ghost function View(): Store<P>
      reads this
    {
      Store(visRevisions, visCache)
    }

    method VisualizationRevision(p: int) returns (revision: nat)
      modifies this`visRevisions
      ensures revision == RevisionOf(old(visRevisions), p)
      ensures View() == Seen(old(View()), p)
    {
      if p !in visRevisions {
        visRevisions := visRevisions[p := 1];
      }
      revision := visRevisions[p];
    }

    method InvalidateVisualization(p: int)
      modifies this
      ensures View() == Invalidate(old(View()), p)
    {
      var revision := VisualizationRevision(p);
      visRevisions := visRevisions[p := revision + 1];
      visCache := visCache - {p};
    }

    /** Every revision is bumped once, whatever the order of the walk. */
    method BumpEach(keys: set<int>)
      requires keys <= visRevisions.Keys
      modifies this
      ensures visRevisions.Keys == old(visRevisions.Keys)
      ensures forall q | q in visRevisions ::
                visRevisions[q] == if q in keys then old(visRevisions[q]) + 1 else old(visRevisions[q])
      ensures visCache == old(visCache) - keys
    {
      var left := keys;
      ghost var before, cached := visRevisions, visCache;
      while left != {}
        invariant left <= keys && visRevisions.Keys == before.Keys
        invariant forall q | q in visRevisions ::
                    visRevisions[q] == if q in keys && q !in left then before[q] + 1 else before[q]
        invariant visCache == cached - (keys - left)
        decreases |left|
      {
        ghost var some := Member(left);
        var q :| q in left;
        visRevisions := visRevisions[q := visRevisions[q] + 1];
        visCache := visCache - {q};
        left := left - {q};
      }
    }

    /** Listed puzzles without a revision get one; none keeps its panels. */
    method AddEach(puzzles: seq<int>)
      modifies this
      ensures visRevisions.Keys == old(visRevisions.Keys) + Listed(puzzles)
      ensures forall q | q in visRevisions :: visRevisions[q] == if q in old(visRevisions) then old(visRevisions[q]) else 1
      ensures visCache == old(visCache) - Listed(puzzles)
    {
      ghost var before, cached := visRevisions, visCache;
      for i := 0 to |puzzles|
        invariant visRevisions.Keys == before.Keys + Listed(puzzles[..i])
        invariant forall q | q in visRevisions :: visRevisions[q] == if q in before then before[q] else 1
        invariant visCache == cached - Listed(puzzles[..i])
      {
        var q := puzzles[i];
        ListedSnoc(puzzles, i);
        if q !in visRevisions {
          visRevisions := visRevisions[q := 1];
        }
        visCache := visCache - {q};
      }
      assert puzzles[..|puzzles|] == puzzles;
    }

    method InvalidateAllVisualizations(puzzles: seq<int>)
      modifies this
      ensures View() == InvalidateAll(old(View()), Listed(puzzles))
    {
      ghost var before := View();
      BumpEach(visRevisions.Keys);
      AddEach(puzzles);
      AllBumped(before, Listed(puzzles), View());
    }

    /** The first section of a handler. */
    method ReadSection(p: int, kind: Kind) returns (revision: nat, hit: Option<P>)
      modifies this`visRevisions
      ensures revision == RevisionOf(old(visRevisions), p)
      ensures View() == Seen(old(View()), p) && hit == Lookup(View(), p, kind, revision)
    {
      revision := VisualizationRevision(p);
      hit := None;
      if p in visCache && visCache[p].revision == revision && kind in visCache[p].panels {
        hit := Some(visCache[p].panels[kind]);
      }
    }

    method CommitSection(p: int, kind: Kind, revision: nat, built: P) returns (outcome: Outcome<P>)
      modifies this
      ensures (View(), outcome) == Commit(old(View()), p, kind, revision, built)
    {
      ghost var before := View();
      var now := VisualizationRevision(p);
      if now != revision {
        return Retry;
      }
      var entry := Entry(0, map[]);
      if p in visCache {
        entry := visCache[p];
      }
      visCache := visCache[p := entry];
      if entry.revision == revision && kind in entry.panels {
        return Return(entry.panels[kind]);
      }
      visCache := visCache[p := Entry(revision, entry.panels[kind := built])];
      assert visCache == before.cache[p := Entry(revision, entry.panels[kind := built])];
      outcome := Return(built);
    }
  }
}

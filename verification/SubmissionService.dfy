/** The submission service as an object over the tables (src/submission_service.cpp). */
module SubmissionService {
  import opened Wrappers
  import opened PoolModel
  import opened Lifecycle

  class SubmissionService {
    const db: PoolDb

    constructor (db: PoolDb)
      ensures this.db == db
    {
      this.db := db;
    }

    method ClearTestChunkIfNeeded(job: int)
      modifies db`puzzles
      ensures db.View() == ClearTest(old(db.View()), job)
    {
      if 0 <= job < |db.chunks| {
        var c := db.chunks[job];
        if c.isTest && c.puzzle in db.puzzles && db.puzzles[c.puzzle].test == Some(c.keys) {
          db.puzzles := db.puzzles[c.puzzle := db.puzzles[c.puzzle].(test := None)];
        }
      }
    }

    method SubmitDoneChunk(name: string, job: int, reported: nat) returns (r: SubmitResult)
      modifies db`chunks, db`puzzles
      ensures (db.View(), r) == SubmitDone(old(db.View()), name, job, reported)
    {
      if !(0 <= job < |db.chunks|) || !AssignedTo(name)(db.chunks[job]) {
        return Rejected;
      }
      var c := db.chunks[job];
      if reported < c.keys.end - c.keys.start {
        db.chunks := db.chunks[job := Reclaim()(c)];
        return UnderScan;
      }
      db.chunks := db.chunks[job := c.(status := Completed)];
      ClearTestChunkIfNeeded(job);
      r := Accepted;
    }

    /** Keeps the first report of every key. */
    method Deduplicate(reports: seq<Report>) returns (findings: seq<Report>)
      ensures findings == Distinct(reports)
    {
      findings := [];
      var seen: set<nat> := {};
      for i := 0 to |reports|
        invariant findings == Distinct(reports[..i])
        invariant forall k :: k in seen <==> HasKey(findings, k)
      {
        TakeSnoc(reports, i);
        assert reports[..i + 1][..i] == reports[..i];
        var f := reports[i];
        if f.key !in seen {
          forall k ensures HasKey(findings + [f], k) <==> HasKey(findings, k) || f.key == k {
            HasKeySnoc(findings, f, k);
          }
          findings := findings + [f];
          seen := seen + {f.key};
        }
      }
      assert reports[..|reports|] == reports;
    }

    method FindingExists(job: int, name: string, key: nat) returns (b: bool)
      ensures b == HasFinding(db.findings, job, name, key)
    {
      b := false;
      for i := 0 to |db.findings|
        invariant !b && forall j | 0 <= j < i :: !SameFinding(db.findings[j], job, name, key)
      {
        if SameFinding(db.findings[i], job, name, key) {
          return true;
        }
      }
    }

    method InsertFindings(job: nat, name: string, reports: seq<Report>)
      modifies db`findings
      ensures db.findings == AddFindings(old(db.findings), job, name, reports)
    {
      ghost var before := db.findings;
      for i := 0 to |reports|
        invariant db.findings == AddFindings(before, job, name, reports[..i])
      {
        TakeSnoc(reports, i);
        assert reports[..i + 1][..i] == reports[..i];
        var f := reports[i];
        var present := FindingExists(job, name, f.key);
        if !present {
          db.findings := db.findings + [Finding(job, name, f.key, f.address)];
        }
      }
      assert reports[..|reports|] == reports;
    }

    /** The owner's update, or, when there is no such finding yet, the late one; false when neither applies. */
    method MarkRow(name: string, job: int, primary: Report) returns (ok: bool)
      modifies db`chunks
      ensures ok == Marked(old(db.View()), name, job, primary).Some?
      ensures db.View() == if ok then Marked(old(db.View()), name, job, primary).value else old(db.View())
    {
      if 0 <= job < |db.chunks| && AssignedTo(name)(db.chunks[job]) {
        db.chunks := db.chunks[job := MarkFound(name, primary)(db.chunks[job])];
        return true;
      }
      var already := FindingExists(job, name, primary.key);
      if already {
        return true;
      }
      if 0 <= job < |db.chunks| && LateFor(name)(db.chunks[job]) {
        db.chunks := db.chunks[job := MarkFound(name, primary)(db.chunks[job])];
        return true;
      }
      ok := false;
    }

    method SubmitFoundChunk(name: string, job: int, reports: seq<Report>) returns (r: SubmitResult)
      requires reports != []
      modifies db`chunks, db`findings, db`puzzles
      ensures (db.View(), r) == SubmitFound(old(db.View()), name, job, reports)
    {
      var findings := Deduplicate(reports);
      var ok := MarkRow(name, job, findings[0]);
      if !ok {
        return Rejected;
      }
      InsertFindings(job, name, findings);
      ClearTestChunkIfNeeded(job);
      r := Accepted;
    }
  }
}

/**
 * The HR-development job-matching page (app/dashboard/hr-development/job-matching/page.tsx):
 * a ranking of successor candidates for a job, created once per job and
 * afterwards only shown or hidden. The page's list of matches is the store's
 * own array (handed out by reference and reloaded after each change), so the
 * lookup reads the store.
 */
module JobMatchingPage {
  import opened Wrappers
  import opened Types
  import opened Seqs
  import opened Store
  import opened Matching

  /** The score of an employee for the job: seed `"job-person"`, then the employee id, then the job id. */
  function JobPersonScore(jobId: string): string -> int
  {
    (employeeId: string) => DeterministicScore("job-person", employeeId, jobId)
  }

  function UserIds(users: seq<User>): (r: seq<string>)
    ensures |r| == |users| && forall i :: 0 <= i < |users| ==> r[i] == users[i].id
  {
    seq(|users|, i requires 0 <= i < |users| => users[i].id)
  }

  /** `successors`: the first five employees at most, scored for the job, best first. */
  function Successors(jobId: string, employees: seq<User>): seq<Scored>
  {
    Rank(UserIds(employees), JobPersonScore(jobId))
  }

  /**
   * The successors are min(5, #employees) entries sorted by non-increasing
   * score; each is one of the first five employees with its score for the job,
   * which lies in 60..95.
   */
  lemma SuccessorsShape(jobId: string, employees: seq<User>)
    ensures var r := Successors(jobId, employees);
            && |r| == Min(RANKED, |employees|)
            && NonIncreasing(r)
            && forall i :: 0 <= i < |r| ==>
                 && (exists k :: 0 <= k < Min(RANKED, |employees|) && employees[k].id == r[i].id)
                 && r[i].score == DeterministicScore("job-person", r[i].id, jobId)
                 && 60 <= r[i].score <= 95
  {
    var ids := UserIds(employees);
    var r := Successors(jobId, employees);
    RankEntries(ids, JobPersonScore(jobId));
    forall i | 0 <= i < |r|
      ensures exists k :: 0 <= k < Min(RANKED, |employees|) && employees[k].id == r[i].id
      ensures r[i].score == DeterministicScore("job-person", r[i].id, jobId)
    {
      assert r[i].id in ids[..Min(RANKED, |ids|)] && r[i].score == JobPersonScore(jobId)(r[i].id);
      var k :| 0 <= k < Min(RANKED, |ids|) && ids[..Min(RANKED, |ids|)][k] == r[i].id;
      assert employees[k].id == r[i].id;
    }
  }

  /** No job has two match records. */
  predicate OneMatchPerJob(matches: seq<JobPersonMatch>)
  {
    forall i, j :: 0 <= i < j < |matches| ==> matches[i].jobId != matches[j].jobId
  }

  /** A match appended for a job the lookup does not find keeps one match per job, and is then the job's match. */
  lemma AddMatchKeepsOnePerJob(matches: seq<JobPersonMatch>, m: JobPersonMatch)
    requires OneMatchPerJob(matches)
    requires Find(matches, JobMatchOf(m.jobId)).None?
    ensures OneMatchPerJob(matches + [m])
    ensures Find(matches + [m], JobMatchOf(m.jobId)) == Some(m)
  {
    FindAppend(matches, m, JobMatchOf(m.jobId));
    var r := matches + [m];
    forall i, j | 0 <= i < j < |r|
      ensures r[i].jobId != r[j].jobId
    {
      if j == |matches| {
        assert !JobMatchOf(m.jobId)(matches[i]);
      }
    }
  }

  /** The page's state: which job's successors are unfolded. */
  class JobMatchingView {
    var expandedJob: Option<string>

    constructor ()
      ensures expandedJob.None?
    {
      expandedJob := None;
    }

    /**
     * `handleCreateMatch`: when the job already has a match, nothing is stored
     * and the job is folded or unfolded; otherwise the successor ranking is
     * appended as the job's match and the job is unfolded. Creating only for a
     * job without a match keeps one match per job.
     */
    method CreateMatch(db: Database, jobId: string, matchId: string, createdAt: int)
      modifies db`jobPersonMatches, this`expandedJob
      ensures Find(old(db.jobPersonMatches), JobMatchOf(jobId)).Some? ==>
                && db.jobPersonMatches == old(db.jobPersonMatches)
                && expandedJob == (if old(expandedJob) == Some(jobId) then None else Some(jobId))
      ensures Find(old(db.jobPersonMatches), JobMatchOf(jobId)).None? ==>
                && db.jobPersonMatches == old(db.jobPersonMatches)
                     + [JobPersonMatch(matchId, jobId, Successors(jobId, Employees(db.users)), createdAt, true)]
                && expandedJob == Some(jobId)
      ensures OneMatchPerJob(old(db.jobPersonMatches)) ==> OneMatchPerJob(db.jobPersonMatches)
    {
      var existing := Find(db.jobPersonMatches, JobMatchOf(jobId));
      if existing.Some? {
        expandedJob := if expandedJob == Some(jobId) then None else Some(jobId);
        return;
      }
      var successors := Successors(jobId, Employees(db.users));
      var m := JobPersonMatch(matchId, jobId, successors, createdAt, true);
      if OneMatchPerJob(db.jobPersonMatches) {
        AddMatchKeepsOnePerJob(db.jobPersonMatches, m);
      }
      db.AddJobPersonMatch(m);
      expandedJob := Some(jobId);
    }
  }
}

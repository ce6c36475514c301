/**
 * The employee's person-matching page (app/dashboard/employee/person-matching/page.tsx):
 * generating a ranking of jobs for the signed-in employee, linking the first
 * competencies to the employee, and saving the ranking as a new match record.
 */
module PersonMatchingPage {
  import opened Wrappers
  import opened Types
  import opened Seqs
  import opened Store
  import opened Matching

  const NO_JOBS := "No jobs available in the system"
  const LINKED := 3

  /** The score of a job for the employee: seed `"person-job"`, then the employee id, then the job id. */
  function PersonJobScore(employeeId: string): string -> int
  {
    (jobId: string) => DeterministicScore("person-job", employeeId, jobId)
  }

  function JobIds(jobs: seq<Job>): (r: seq<string>)
    ensures |r| == |jobs| && forall i :: 0 <= i < |jobs| ==> r[i] == jobs[i].id
  {
    seq(|jobs|, i requires 0 <= i < |jobs| => jobs[i].id)
  }

  /** `matchedJobs`: the first five jobs at most, scored for the employee, best first. */
  function MatchedJobs(employeeId: string, jobs: seq<Job>): seq<Scored>
  {
    Rank(JobIds(jobs), PersonJobScore(employeeId))
  }

  /**
   * The ranking holds min(5, #jobs) entries, sorted by non-increasing score;
   * each is one of the first five jobs with its own score, which lies in 60..95.
   */
  lemma MatchedJobsShape(employeeId: string, jobs: seq<Job>)
    ensures var r := MatchedJobs(employeeId, jobs);
            && |r| == Min(RANKED, |jobs|)
            && NonIncreasing(r)
            && forall i :: 0 <= i < |r| ==>
                 && (exists k :: 0 <= k < Min(RANKED, |jobs|) && jobs[k].id == r[i].id)
                 && r[i].score == DeterministicScore("person-job", employeeId, r[i].id)
                 && 60 <= r[i].score <= 95
  {
    var ids := JobIds(jobs);
    var r := MatchedJobs(employeeId, jobs);
    RankEntries(ids, PersonJobScore(employeeId));
    forall i | 0 <= i < |r|
      ensures exists k :: 0 <= k < Min(RANKED, |jobs|) && jobs[k].id == r[i].id
      ensures r[i].score == DeterministicScore("person-job", employeeId, r[i].id)
    {
      assert r[i].id in ids[..Min(RANKED, |ids|)] && r[i].score == PersonJobScore(employeeId)(r[i].id);
      var k :| 0 <= k < Min(RANKED, |ids|) && ids[..Min(RANKED, |ids|)][k] == r[i].id;
      assert jobs[k].id == r[i].id;
    }
  }

  /**
   * The `forEach` over the chosen competencies: each one not yet linked to the
   * employee is linked, in competency order; the check sees the links added for
   * the earlier competencies.
   */
  function LinkAll(links: seq<EmployeeCompetency>, employeeId: string, competencies: seq<Competency>, addedAt: int): seq<EmployeeCompetency>
  {
    if competencies == [] then links
    else
      var before := LinkAll(links, employeeId, competencies[..|competencies| - 1], addedAt);
      var c := competencies[|competencies| - 1];
      if LinkExists(before, employeeId, c.id) then before
      else before + [EmployeeCompetency(employeeId, c.id, addedAt)]
  }

  /**
   * Linking keeps the old links in place, adds links of this employee to the
   * chosen competencies only, and leaves every chosen competency linked.
   */
  lemma {:induction false} LinkAllShape(links: seq<EmployeeCompetency>, employeeId: string, competencies: seq<Competency>, addedAt: int)
    ensures var r := LinkAll(links, employeeId, competencies, addedAt);
            && |links| <= |r| && r[..|links|] == links
            && (forall j :: |links| <= j < |r| ==>
                  r[j].employeeId == employeeId && r[j].addedAt == addedAt
                  && exists k :: 0 <= k < |competencies| && competencies[k].id == r[j].competencyId)
            && forall k :: 0 <= k < |competencies| ==> LinkExists(r, employeeId, competencies[k].id)
  {
    if competencies != [] {
      var n := |competencies| - 1;
      var init := competencies[..n];
      LinkAllShape(links, employeeId, init, addedAt);
      var before := LinkAll(links, employeeId, init, addedAt);
      var c := competencies[n];
      var r := LinkAll(links, employeeId, competencies, addedAt);
      assert forall k :: 0 <= k < n ==> init[k] == competencies[k];
      if !LinkExists(before, employeeId, c.id) {
        var l := EmployeeCompetency(employeeId, c.id, addedAt);
        assert r == before + [l];
        assert r[..|links|] == before[..|links|];
        forall k | 0 <= k < |competencies|
          ensures LinkExists(r, employeeId, competencies[k].id)
        {
          if k < n {
            var m :| 0 <= m < |before| && before[m].employeeId == employeeId && before[m].competencyId == competencies[k].id;
            assert r[m] == before[m];
          } else {
            assert r[|before|] == l;
          }
        }
      }
    }
  }

  /** The forEach never creates a duplicate link. */
  lemma {:induction false} LinkAllKeepsNoDuplicates(links: seq<EmployeeCompetency>, employeeId: string, competencies: seq<Competency>, addedAt: int)
    requires NoDuplicateLinks(links)
    ensures NoDuplicateLinks(LinkAll(links, employeeId, competencies, addedAt))
  {
    if competencies != [] {
      var n := |competencies| - 1;
      LinkAllKeepsNoDuplicates(links, employeeId, competencies[..n], addedAt);
      var before := LinkAll(links, employeeId, competencies[..n], addedAt);
      if !LinkExists(before, employeeId, competencies[n].id) {
        AddFreshLinkKeepsNoDuplicates(before, EmployeeCompetency(employeeId, competencies[n].id, addedAt));
      }
    }
  }

  /** `getEmployeeCompetenciesByEmployee(e).some((ec) => ec.competencyId === c)` asks whether the two are linked. */
  lemma OwnLinksHold(links: seq<EmployeeCompetency>, employeeId: string, competencyId: string)
    ensures var mine := Filter(links, LinksOf(employeeId));
            (exists k :: 0 <= k < |mine| && mine[k].competencyId == competencyId)
            <==> LinkExists(links, employeeId, competencyId)
  {
    var mine := Filter(links, LinksOf(employeeId));
    if LinkExists(links, employeeId, competencyId) {
      var m :| 0 <= m < |links| && links[m].employeeId == employeeId && links[m].competencyId == competencyId;
      FilterMembership(links, LinksOf(employeeId), links[m]);
      var k :| 0 <= k < |mine| && mine[k] == links[m];
    }
    if exists k :: 0 <= k < |mine| && mine[k].competencyId == competencyId {
      var k :| 0 <= k < |mine| && mine[k].competencyId == competencyId;
      var m :| 0 <= m < |links| && links[m] == mine[k];
    }
  }

  /** The loop that links the first competencies to the employee. */
  method LinkCompetencies(db: Database, employeeId: string, competencies: seq<Competency>, addedAt: int)
    modifies db`employeeCompetencies
    ensures db.employeeCompetencies == LinkAll(old(db.employeeCompetencies), employeeId, competencies, addedAt)
  {
    for i := 0 to |competencies|
      invariant db.employeeCompetencies == LinkAll(old(db.employeeCompetencies), employeeId, competencies[..i], addedAt)
    {
      assert competencies[..i + 1][..i] == competencies[..i];
      var comp := competencies[i];
      var mine := db.GetEmployeeCompetenciesByEmployee(employeeId);
      var linked := exists k :: 0 <= k < |mine| && mine[k].competencyId == comp.id;
      OwnLinksHold(db.employeeCompetencies, employeeId, comp.id);
      if !linked {
        db.AddEmployeeCompetency(EmployeeCompetency(employeeId, comp.id, addedAt));
      }
    }
    assert competencies[..|competencies|] == competencies;
  }

  /**
   * The page shows the employee's first match record; a generation appends a
   * new record, so a reload still shows the oldest one.
   */
  lemma ShownMatchIsOldest(matches: seq<PersonJobMatch>, m: PersonJobMatch, employeeId: string)
    ensures Filter(matches, PersonMatchOf(employeeId)) != [] ==>
              && Filter(matches + [m], PersonMatchOf(employeeId)) != []
              && Filter(matches + [m], PersonMatchOf(employeeId))[0] == Filter(matches, PersonMatchOf(employeeId))[0]
    ensures Filter(matches, PersonMatchOf(employeeId)) == [] && m.employeeId == employeeId ==>
              Filter(matches + [m], PersonMatchOf(employeeId)) == [m]
  {
    FilterConcat(matches, [m], PersonMatchOf(employeeId));
    assert Filter([m], PersonMatchOf(employeeId)) == if m.employeeId == employeeId then [m] else [];
  }

  /** The page's state. `currentUser` stands for the session read when the page loads. */
  class PersonMatchingView {
    var currentUser: Option<User>
    var personJobMatch: Option<PersonJobMatch>
    var hasGenerated: bool

    /** The page as it loads: the employee's first match record, when there is one. */
    constructor (db: Database, session: Option<User>)
      ensures currentUser == session
      ensures session.None? || db.GetPersonJobMatchesByEmployee(session.value.id) == [] ==>
                personJobMatch.None? && !hasGenerated
      ensures session.Some? && db.GetPersonJobMatchesByEmployee(session.value.id) != [] ==>
                personJobMatch == Some(db.GetPersonJobMatchesByEmployee(session.value.id)[0]) && hasGenerated
    {
      currentUser := session;
      personJobMatch := None;
      hasGenerated := false;
      if session.Some? {
        var existing := db.GetPersonJobMatchesByEmployee(session.value.id);
        if existing != [] {
          personJobMatch := Some(existing[0]);
          hasGenerated := true;
        }
      }
    }

    /**
     * `handleGenerateMatch`: nothing without a user; a message and nothing else
     * when there are no jobs; otherwise the first three competencies at most are
     * linked to the employee, the ranking is appended as a new match record,
     * and the page shows it.
     */
    method GenerateMatch(db: Database, matchId: string, now: int) returns (outcome: Option<Outcome>)
      modifies db`employeeCompetencies, db`personJobMatches, this`personJobMatch, this`hasGenerated
      ensures currentUser.None? <==> outcome.None?
      ensures outcome == Some(Rejected(NO_JOBS)) <==> currentUser.Some? && db.jobs == []
      ensures outcome != Some(Done) ==>
                && db.employeeCompetencies == old(db.employeeCompetencies) && db.personJobMatches == old(db.personJobMatches)
                && personJobMatch == old(personJobMatch) && hasGenerated == old(hasGenerated)
      ensures outcome == Some(Done) ==>
                var e := currentUser.value.id;
                var m := PersonJobMatch(matchId, e, MatchedJobs(e, db.jobs), now, true);
                && db.employeeCompetencies
                   == LinkAll(old(db.employeeCompetencies), e, db.competencies[..Min(LINKED, |db.competencies|)], now)
                && db.personJobMatches == old(db.personJobMatches) + [m]
                && personJobMatch == Some(m) && hasGenerated
    {
      if currentUser.None? {
        return None;
      }
      var jobs := db.jobs;
      if |jobs| == 0 {
        return Some(Rejected(NO_JOBS));
      }
      var e := currentUser.value.id;
      var newMatch := PersonJobMatch(matchId, e, MatchedJobs(e, jobs), now, true);
      var competencies := db.competencies;
      if |competencies| > 0 {
        LinkCompetencies(db, e, competencies[..Min(LINKED, |competencies|)], now);
      } else {
        assert competencies[..Min(LINKED, |competencies|)] == [];
      }
      db.AddPersonJobMatch(newMatch);
      personJobMatch, hasGenerated := Some(newMatch), true;
      outcome := Some(Done);
    }
  }
}

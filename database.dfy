/**
 * The in-memory store of lib/db.ts: one object holding ten record lists, with
 * first-match lookups, filtered lookups, appends, `Object.assign` updates of
 * the first match, filter-deletes and one true upsert (peer assignments).
 * Persistence to the browser's localStorage is not part of this model; the
 * store starts as it does when nothing was saved, with the three system users.
 */
module Store {
  import opened Wrappers
  import opened Types
  import opened Seqs

  // The selectors the store's `find` and `filter` calls use.

  function UserIdIs(id: string): User -> bool { (u: User) => u.id == id }
  function UserIdIsNot(id: string): User -> bool { (u: User) => u.id != id }
  function UsernameIs(username: string): User -> bool { (u: User) => u.username == username }
  function RoleIs(role: string): User -> bool { (u: User) => u.role == role }
  function JobIdIs(id: string): Job -> bool { (j: Job) => j.id == id }
  function CompetencyIdIs(id: string): Competency -> bool { (c: Competency) => c.id == id }
  function AssessmentIdIs(id: string): Assessment -> bool { (a: Assessment) => a.id == id }
  function ResponseRateeIs(rateeId: string): Response -> bool { (r: Response) => r.rateeId == rateeId }
  function JuryRateeIs(rateeId: string): Jury -> bool { (j: Jury) => j.rateeId == rateeId }
  function PersonMatchOf(employeeId: string): PersonJobMatch -> bool { (m: PersonJobMatch) => m.employeeId == employeeId }
  function JobMatchOf(jobId: string): JobPersonMatch -> bool { (m: JobPersonMatch) => m.jobId == jobId }
  function PredictionOf(employeeId: string): ResignationPrediction -> bool
  {
    (p: ResignationPrediction) => p.employeeId == employeeId
  }
  function LinksOf(employeeId: string): EmployeeCompetency -> bool
  {
    (ec: EmployeeCompetency) => ec.employeeId == employeeId
  }
  function IsLink(employeeId: string, competencyId: string): EmployeeCompetency -> bool
  {
    (ec: EmployeeCompetency) => ec.employeeId == employeeId && ec.competencyId == competencyId
  }
  function IsNotLink(employeeId: string, competencyId: string): EmployeeCompetency -> bool
  {
    (ec: EmployeeCompetency) => !(ec.employeeId == employeeId && ec.competencyId == competencyId)
  }
  function HierarchyOf(employeeId: string): HierarchyAssignment -> bool
  {
    (h: HierarchyAssignment) => h.employeeId == employeeId
  }
  function PeerRecordOf(employeeId: string): PeerAssignment -> bool
  {
    (p: PeerAssignment) => p.employeeId == employeeId
  }
  function PeerRecordNotOf(employeeId: string): PeerAssignment -> bool
  {
    (p: PeerAssignment) => p.employeeId != employeeId
  }

  // `Partial<T>` update objects: `None` is a field the update does not mention.

  function Pick<T>(update: Option<T>, current: T): T
  {
    if update.Some? then update.value else current
  }

  datatype UserPatch = UserPatch(
    id: Option<string>, username: Option<string>, password: Option<string>,
    name: Option<string>, role: Option<string>)

  datatype JobPatch = JobPatch(
    id: Option<string>, name: Option<string>, level: Option<string>,
    weight: Option<int>, criteria: Option<string>, createdAt: Option<int>)

  datatype AssessmentPatch = AssessmentPatch(
    id: Option<string>, name: Option<string>, startDate: Option<int>, endDate: Option<int>,
    status: Option<string>, questions: Option<seq<Question>>, juries: Option<seq<Jury>>,
    responses: Option<seq<Response>>, inChargeIds: Option<seq<string>>, createdAt: Option<int>)

  /** `supervisorId: Some(None)` assigns `undefined`, which clears the supervisor. */
  datatype HierarchyPatch = HierarchyPatch(
    employeeId: Option<string>, supervisorId: Option<Option<string>>,
    subordinateIds: Option<seq<string>>, assignedAt: Option<int>)

  const NO_ASSESSMENT_CHANGES := AssessmentPatch(None, None, None, None, None, None, None, None, None, None)

  /** `Object.assign(user, updates)`. */
  function MergeUser(u: User, p: UserPatch): User
  {
    User(Pick(p.id, u.id), Pick(p.username, u.username), Pick(p.password, u.password),
         Pick(p.name, u.name), Pick(p.role, u.role))
  }

  /** `Object.assign(job, updates)`. */
  function MergeJob(j: Job, p: JobPatch): Job
  {
    Job(Pick(p.id, j.id), Pick(p.name, j.name), Pick(p.level, j.level),
        Pick(p.weight, j.weight), Pick(p.criteria, j.criteria), Pick(p.createdAt, j.createdAt))
  }

  /** `Object.assign(assessment, updates)`. */
  function MergeAssessment(a: Assessment, p: AssessmentPatch): Assessment
  {
    Assessment(Pick(p.id, a.id), Pick(p.name, a.name), Pick(p.startDate, a.startDate),
               Pick(p.endDate, a.endDate), Pick(p.status, a.status), Pick(p.questions, a.questions),
               Pick(p.juries, a.juries), Pick(p.responses, a.responses),
               Pick(p.inChargeIds, a.inChargeIds), Pick(p.createdAt, a.createdAt))
  }

  /** `Object.assign(assignment, updates)`. */
  function MergeHierarchy(h: HierarchyAssignment, p: HierarchyPatch): HierarchyAssignment
  {
    HierarchyAssignment(Pick(p.employeeId, h.employeeId), Pick(p.supervisorId, h.supervisorId),
                        Pick(p.subordinateIds, h.subordinateIds), Pick(p.assignedAt, h.assignedAt))
  }

  function MergeUserWith(p: UserPatch): User -> User { (u: User) => MergeUser(u, p) }
  function MergeJobWith(p: JobPatch): Job -> Job { (j: Job) => MergeJob(j, p) }
  function MergeAssessmentWith(p: AssessmentPatch): Assessment -> Assessment
  {
    (a: Assessment) => MergeAssessment(a, p)
  }
  function MergeHierarchyWith(p: HierarchyPatch): HierarchyAssignment -> HierarchyAssignment
  {
    (h: HierarchyAssignment) => MergeHierarchy(h, p)
  }

  /** An update that supplies only the responses changes only the responses. */
  lemma ResponsesOnlyPatch(a: Assessment, responses: seq<Response>)
    ensures MergeAssessment(a, NO_ASSESSMENT_CHANGES.(responses := Some(responses))) == a.(responses := responses)
    ensures MergeAssessment(a, NO_ASSESSMENT_CHANGES) == a
  {
  }

  /** A hierarchy update that supplies every field replaces the record by those fields. */
  lemma FullHierarchyPatch(h: HierarchyAssignment, n: HierarchyAssignment)
    ensures MergeHierarchy(h, HierarchyPatch(Some(n.employeeId), Some(n.supervisorId), Some(n.subordinateIds), Some(n.assignedAt))) == n
  {
  }

  /** The three system accounts a store starts with when nothing was saved. */
  const DEFAULT_USERS: seq<User> := [
    User("1", "admin", "admin123", "Admin User", ADMIN),
    User("2", "HRPengembangan", "HRPengembangan123", "HR Pengembangan", HR_DEVELOPMENT),
    User("3", "HRPenilaian", "HRPenilaian123", "HR Penilaian", HR_ASSESSMENT)
  ]

  /** At most one peer record per employee: what `addPeerAssignment`'s upsert keeps. */
  predicate OnePeerRecordEach(xs: seq<PeerAssignment>)
  {
    forall i, j :: 0 <= i < j < |xs| ==> xs[i].employeeId != xs[j].employeeId
  }

  /** `links.some((ec) => ec.employeeId === employeeId && ec.competencyId === competencyId)`. */
  predicate LinkExists(links: seq<EmployeeCompetency>, employeeId: string, competencyId: string)
  {
    exists i :: 0 <= i < |links| && links[i].employeeId == employeeId && links[i].competencyId == competencyId
  }

  /** No employee is linked to the same competency twice. */
  predicate NoDuplicateLinks(links: seq<EmployeeCompetency>)
  {
    forall i, j :: 0 <= i < j < |links| ==>
      !(links[i].employeeId == links[j].employeeId && links[i].competencyId == links[j].competencyId)
  }

  /** Appending a link that does not exist yet keeps the links free of duplicates. */
  lemma AddFreshLinkKeepsNoDuplicates(links: seq<EmployeeCompetency>, l: EmployeeCompetency)
    requires NoDuplicateLinks(links)
    requires !LinkExists(links, l.employeeId, l.competencyId)
    ensures NoDuplicateLinks(links + [l])
  {
    var r := links + [l];
    forall i, j | 0 <= i < j < |r|
      ensures !(r[i].employeeId == r[j].employeeId && r[i].competencyId == r[j].competencyId)
    {
      if j == |links| {
        assert r[i] == links[i];
      }
    }
  }

  /** No two users share a username. */
  predicate UniqueUsernames(users: seq<User>)
  {
    forall i, j :: 0 <= i < j < |users| ==> users[i].username != users[j].username
  }

  /** `db.getUsers().filter((u) => u.role === "employee")`: the employees, in user order. */
  function Employees(users: seq<User>): (r: seq<User>)
    ensures forall i :: 0 <= i < |r| ==> r[i].role == EMPLOYEE && r[i] in users
    ensures forall i :: 0 <= i < |users| && users[i].role == EMPLOYEE ==> users[i] in r
  {
    FilterKeeps(users, RoleIs(EMPLOYEE));
    Filter(users, RoleIs(EMPLOYEE))
  }

  /**
   * `employees.filter((e) => e.id !== selectedEmployee)`: the supervisor, subordinate
   * and peer choices offered beside the employee being edited, in employee order.
   */
  function Candidates(employees: seq<User>, selectedEmployee: string): (r: seq<User>)
    ensures forall i :: 0 <= i < |r| ==> r[i].id != selectedEmployee && r[i] in employees
    ensures forall i :: 0 <= i < |employees| && employees[i].id != selectedEmployee ==> employees[i] in r
  {
    FilterKeeps(employees, UserIdIsNot(selectedEmployee));
    Filter(employees, UserIdIsNot(selectedEmployee))
  }

  class Database {
    var users: seq<User>
    var jobs: seq<Job>
    var competencies: seq<Competency>
    var assessments: seq<Assessment>
    var personJobMatches: seq<PersonJobMatch>
    var jobPersonMatches: seq<JobPersonMatch>
    var resignationPredictions: seq<ResignationPrediction>
    var employeeCompetencies: seq<EmployeeCompetency>
    var hierarchyAssignments: seq<HierarchyAssignment>
    var peerAssignments: seq<PeerAssignment>

    /** A store with nothing saved: the three system users and no other records. */
    constructor ()
      ensures users == DEFAULT_USERS
      ensures jobs == [] && competencies == [] && assessments == []
      ensures personJobMatches == [] && jobPersonMatches == [] && resignationPredictions == []
      ensures employeeCompetencies == [] && hierarchyAssignments == [] && peerAssignments == []
    {
      users := DEFAULT_USERS;
      jobs := [];
      competencies := [];
      assessments := [];
      personJobMatches := [];
      jobPersonMatches := [];
      resignationPredictions := [];
      employeeCompetencies := [];
      hierarchyAssignments := [];
      peerAssignments := [];
    }

    // Users

    /** `getUserById`: the first user with this id, or nothing. */
    function GetUserById(id: string): (r: Option<User>)
      reads this
      ensures IsFirstMatch(users, UserIdIs(id), r)
      ensures r.Some? ==> r.value in users && r.value.id == id
    {
      Find(users, UserIdIs(id))
    }

    /** `getUserByUsername`: the first user with this username, or nothing. */
    function GetUserByUsername(username: string): (r: Option<User>)
      reads this
      ensures IsFirstMatch(users, UsernameIs(username), r)
      ensures r.Some? ==> r.value in users && r.value.username == username
    {
      Find(users, UsernameIs(username))
    }

    method AddUser(user: User)
      modifies this`users
      ensures users == old(users) + [user]
    {
      users := users + [user];
    }

    /** `updateUser`: merges the supplied fields into the first user with this id; nothing when there is none. */
    method UpdateUser(id: string, updates: UserPatch)
      modifies this`users
      ensures users == UpdateFirst(old(users), UserIdIs(id), MergeUserWith(updates))
    {
      users := UpdateFirst(users, UserIdIs(id), MergeUserWith(updates));
    }

    /** `deleteUser`: every user with this id goes; the others stay, in order. */
    method DeleteUser(id: string)
      modifies this`users
      ensures users == Filter(old(users), UserIdIsNot(id))
      ensures forall i :: 0 <= i < |users| ==> users[i].id != id
      ensures forall i :: 0 <= i < |old(users)| && old(users)[i].id != id ==> old(users)[i] in users
    {
      FilterKeeps(users, UserIdIsNot(id));
      users := Filter(users, UserIdIsNot(id));
    }

    // Jobs and competencies

    function GetJobById(id: string): (r: Option<Job>)
      reads this
      ensures IsFirstMatch(jobs, JobIdIs(id), r)
      ensures r.Some? ==> r.value in jobs && r.value.id == id
    {
      Find(jobs, JobIdIs(id))
    }

    method AddJob(job: Job)
      modifies this`jobs
      ensures jobs == old(jobs) + [job]
    {
      jobs := jobs + [job];
    }

    method UpdateJob(id: string, updates: JobPatch)
      modifies this`jobs
      ensures jobs == UpdateFirst(old(jobs), JobIdIs(id), MergeJobWith(updates))
    {
      jobs := UpdateFirst(jobs, JobIdIs(id), MergeJobWith(updates));
    }

    function GetCompetencyById(id: string): (r: Option<Competency>)
      reads this
      ensures IsFirstMatch(competencies, CompetencyIdIs(id), r)
      ensures r.Some? ==> r.value in competencies && r.value.id == id
    {
      Find(competencies, CompetencyIdIs(id))
    }

    method AddCompetency(competency: Competency)
      modifies this`competencies
      ensures competencies == old(competencies) + [competency]
    {
      competencies := competencies + [competency];
    }

    // Assessments

    function GetAssessmentById(id: string): (r: Option<Assessment>)
      reads this
      ensures IsFirstMatch(assessments, AssessmentIdIs(id), r)
      ensures r.Some? ==> r.value in assessments && r.value.id == id
    {
      Find(assessments, AssessmentIdIs(id))
    }

    method AddAssessment(assessment: Assessment)
      modifies this`assessments
      ensures assessments == old(assessments) + [assessment]
    {
      assessments := assessments + [assessment];
    }

    method UpdateAssessment(id: string, updates: AssessmentPatch)
      modifies this`assessments
      ensures assessments == UpdateFirst(old(assessments), AssessmentIdIs(id), MergeAssessmentWith(updates))
    {
      assessments := UpdateFirst(assessments, AssessmentIdIs(id), MergeAssessmentWith(updates));
    }

    /** `getAssessmentResponsesByRatee`: the assessment's responses about this ratee, in order; none for an unknown assessment. */
    function GetAssessmentResponsesByRatee(assessmentId: string, rateeId: string): (r: seq<Response>)
      reads this
      ensures GetAssessmentById(assessmentId).None? ==> r == []
      ensures forall i :: 0 <= i < |r| ==> r[i].rateeId == rateeId
      ensures GetAssessmentById(assessmentId).Some? ==>
        var responses := GetAssessmentById(assessmentId).value.responses;
        (forall i :: 0 <= i < |r| ==> r[i] in responses)
        && (forall i :: 0 <= i < |responses| && responses[i].rateeId == rateeId ==> responses[i] in r)
    {
      var a := GetAssessmentById(assessmentId);
      if a.None? then [] else FilterKeeps(a.value.responses, ResponseRateeIs(rateeId)); Filter(a.value.responses, ResponseRateeIs(rateeId))
    }

    // Matches, predictions and competency links

    function GetPersonJobMatchesByEmployee(employeeId: string): (r: seq<PersonJobMatch>)
      reads this
      ensures forall i :: 0 <= i < |r| ==> r[i].employeeId == employeeId && r[i] in personJobMatches
      ensures forall i :: 0 <= i < |personJobMatches| && personJobMatches[i].employeeId == employeeId
                ==> personJobMatches[i] in r
    {
      FilterKeeps(personJobMatches, PersonMatchOf(employeeId));
      Filter(personJobMatches, PersonMatchOf(employeeId))
    }

    method AddPersonJobMatch(m: PersonJobMatch)
      modifies this`personJobMatches
      ensures personJobMatches == old(personJobMatches) + [m]
    {
      personJobMatches := personJobMatches + [m];
    }

    function GetJobPersonMatchesByJob(jobId: string): (r: seq<JobPersonMatch>)
      reads this
      ensures forall i :: 0 <= i < |r| ==> r[i].jobId == jobId && r[i] in jobPersonMatches
      ensures forall i :: 0 <= i < |jobPersonMatches| && jobPersonMatches[i].jobId == jobId
                ==> jobPersonMatches[i] in r
    {
      FilterKeeps(jobPersonMatches, JobMatchOf(jobId));
      Filter(jobPersonMatches, JobMatchOf(jobId))
    }

    method AddJobPersonMatch(m: JobPersonMatch)
      modifies this`jobPersonMatches
      ensures jobPersonMatches == old(jobPersonMatches) + [m]
    {
      jobPersonMatches := jobPersonMatches + [m];
    }

    function GetResignationPredictionByEmployee(employeeId: string): (r: Option<ResignationPrediction>)
      reads this
      ensures IsFirstMatch(resignationPredictions, PredictionOf(employeeId), r)
      ensures r.Some? ==> r.value in resignationPredictions && r.value.employeeId == employeeId
    {
      Find(resignationPredictions, PredictionOf(employeeId))
    }

    method AddResignationPrediction(p: ResignationPrediction)
      modifies this`resignationPredictions
      ensures resignationPredictions == old(resignationPredictions) + [p]
    {
      resignationPredictions := resignationPredictions + [p];
    }

    function GetEmployeeCompetenciesByEmployee(employeeId: string): (r: seq<EmployeeCompetency>)
      reads this
      ensures forall i :: 0 <= i < |r| ==> r[i].employeeId == employeeId && r[i] in employeeCompetencies
      ensures forall i :: 0 <= i < |employeeCompetencies| && employeeCompetencies[i].employeeId == employeeId
                ==> employeeCompetencies[i] in r
    {
      FilterKeeps(employeeCompetencies, LinksOf(employeeId));
      Filter(employeeCompetencies, LinksOf(employeeId))
    }

    method AddEmployeeCompetency(ec: EmployeeCompetency)
      modifies this`employeeCompetencies
      ensures employeeCompetencies == old(employeeCompetencies) + [ec]
    {
      employeeCompetencies := employeeCompetencies + [ec];
    }

    /** `deleteEmployeeCompetency`: removes exactly the links of this employee to this competency. */
    method DeleteEmployeeCompetency(employeeId: string, competencyId: string)
      modifies this`employeeCompetencies
      ensures employeeCompetencies == Filter(old(employeeCompetencies), IsNotLink(employeeId, competencyId))
    {
      employeeCompetencies := Filter(employeeCompetencies, IsNotLink(employeeId, competencyId));
    }

    // Hierarchy

    function GetHierarchyByEmployee(employeeId: string): (r: seq<HierarchyAssignment>)
      reads this
      ensures forall i :: 0 <= i < |r| ==> r[i].employeeId == employeeId && r[i] in hierarchyAssignments
      ensures forall i :: 0 <= i < |hierarchyAssignments| && hierarchyAssignments[i].employeeId == employeeId
                ==> hierarchyAssignments[i] in r
    {
      FilterKeeps(hierarchyAssignments, HierarchyOf(employeeId));
      Filter(hierarchyAssignments, HierarchyOf(employeeId))
    }

    /** `addHierarchyAssignment`: a plain append, even when the employee already has a record. */
    method AddHierarchyAssignment(assignment: HierarchyAssignment)
      modifies this`hierarchyAssignments
      ensures hierarchyAssignments == old(hierarchyAssignments) + [assignment]
    {
      hierarchyAssignments := hierarchyAssignments + [assignment];
    }

    /** `updateHierarchyAssignment`: merges into the employee's first record; nothing when there is none. */
    method UpdateHierarchyAssignment(employeeId: string, updates: HierarchyPatch)
      modifies this`hierarchyAssignments
      ensures hierarchyAssignments
           == UpdateFirst(old(hierarchyAssignments), HierarchyOf(employeeId), MergeHierarchyWith(updates))
    {
      hierarchyAssignments := UpdateFirst(hierarchyAssignments, HierarchyOf(employeeId), MergeHierarchyWith(updates));
    }

    // Juries

    /** `getAssessmentJuries`: the assessment's juries, or none for an unknown assessment. */
    function GetAssessmentJuries(assessmentId: string): (r: seq<Jury>)
      reads this
      ensures GetAssessmentById(assessmentId).None? ==> r == []
      ensures GetAssessmentById(assessmentId).Some? ==> r == GetAssessmentById(assessmentId).value.juries
    {
      var a := GetAssessmentById(assessmentId);
      if a.None? then [] else a.value.juries
    }

    /** `getJuriesByRatee`: the first jury of the assessment for this ratee, or nothing. */
    function GetJuriesByRatee(assessmentId: string, rateeId: string): (r: Option<Jury>)
      reads this
      ensures GetAssessmentById(assessmentId).None? ==> r.None?
      ensures GetAssessmentById(assessmentId).Some? ==>
                IsFirstMatch(GetAssessmentById(assessmentId).value.juries, JuryRateeIs(rateeId), r)
    {
      var a := GetAssessmentById(assessmentId);
      if a.None? then None else Find(a.value.juries, JuryRateeIs(rateeId))
    }

    /** `updateAssessmentJuries`: replaces the juries of the first assessment with this id. */
    method UpdateAssessmentJuries(assessmentId: string, juries: seq<Jury>)
      modifies this`assessments
      ensures assessments == UpdateFirst(old(assessments), AssessmentIdIs(assessmentId),
                                         MergeAssessmentWith(NO_ASSESSMENT_CHANGES.(juries := Some(juries))))
    {
      assessments := UpdateFirst(assessments, AssessmentIdIs(assessmentId),
                                 MergeAssessmentWith(NO_ASSESSMENT_CHANGES.(juries := Some(juries))));
    }

    // Peer assignments

    function GetPeerAssignmentByEmployee(employeeId: string): (r: Option<PeerAssignment>)
      reads this
      ensures IsFirstMatch(peerAssignments, PeerRecordOf(employeeId), r)
      ensures r.Some? ==> r.value in peerAssignments && r.value.employeeId == employeeId
    {
      Find(peerAssignments, PeerRecordOf(employeeId))
    }

    /** `addPeerAssignment`: overwrites the employee's record when there is one, appends otherwise. */
    method AddPeerAssignment(assignment: PeerAssignment)
      modifies this`peerAssignments
      ensures peerAssignments == Upsert(old(peerAssignments), PeerRecordOf(assignment.employeeId), assignment)
    {
      var existing := GetPeerAssignmentByEmployee(assignment.employeeId);
      if existing.Some? {
        var i := IndexOf(peerAssignments, PeerRecordOf(assignment.employeeId));
        peerAssignments := peerAssignments[i := assignment];
      } else {
        peerAssignments := peerAssignments + [assignment];
      }
    }

    /** `deletePeerAssignment`: removes the employee's records and keeps the others, in order. */
    method DeletePeerAssignment(employeeId: string)
      modifies this`peerAssignments
      ensures peerAssignments == Filter(old(peerAssignments), PeerRecordNotOf(employeeId))
    {
      peerAssignments := Filter(peerAssignments, PeerRecordNotOf(employeeId));
    }
  }

  /**
   * The peer upsert keeps at most one record per employee, and afterwards the
   * record found for the employee is the one just saved.
   */
  lemma UpsertPeerKeepsOneEach(xs: seq<PeerAssignment>, a: PeerAssignment)
    requires OnePeerRecordEach(xs)
    ensures OnePeerRecordEach(Upsert(xs, PeerRecordOf(a.employeeId), a))
    ensures Find(Upsert(xs, PeerRecordOf(a.employeeId), a), PeerRecordOf(a.employeeId)) == Some(a)
  {
    var p := PeerRecordOf(a.employeeId);
    var i := IndexOf(xs, p);
    var r := Upsert(xs, p, a);
    if i < 0 {
      IndexOfIsFirst(r, p, |xs|);
    } else {
      assert r == xs[i := a];
      forall j | 0 <= j < i ensures !p(r[j]) {
        assert r[j] == xs[j];
      }
      IndexOfIsFirst(r, p, i);
    }
  }

  /** With at most one record per employee, an existing record is overwritten and the count is unchanged. */
  lemma UpsertPeerCount(xs: seq<PeerAssignment>, a: PeerAssignment)
    ensures |Upsert(xs, PeerRecordOf(a.employeeId), a)|
         == if exists i :: 0 <= i < |xs| && xs[i].employeeId == a.employeeId then |xs| else |xs| + 1
  {
    var p := PeerRecordOf(a.employeeId);
    if exists i :: 0 <= i < |xs| && xs[i].employeeId == a.employeeId {
      var i :| 0 <= i < |xs| && xs[i].employeeId == a.employeeId;
      assert p(xs[i]);
    }
  }

  /** After `deletePeerAssignment(e)` there is no record for `e`, and every other employee's lookup is as before. */
  lemma DeletePeerKeepsOthers(xs: seq<PeerAssignment>, e: string, other: string)
    ensures Find(Filter(xs, PeerRecordNotOf(e)), PeerRecordOf(e)).None?
    ensures other != e ==> Find(Filter(xs, PeerRecordNotOf(e)), PeerRecordOf(other)) == Find(xs, PeerRecordOf(other))
  {
    if other != e {
      FindThroughFilter(xs, PeerRecordNotOf(e), PeerRecordOf(other));
    }
  }

  /** `deleteEmployeeCompetency` removes exactly the links of that employee to that competency. */
  lemma DeleteLinkExact(xs: seq<EmployeeCompetency>, employeeId: string, competencyId: string, l: EmployeeCompetency)
    ensures l in Filter(xs, IsNotLink(employeeId, competencyId))
        <==> l in xs && !(l.employeeId == employeeId && l.competencyId == competencyId)
  {
    var r := Filter(xs, IsNotLink(employeeId, competencyId));
    if l in r {
      var i :| 0 <= i < |r| && r[i] == l;
    }
    if l in xs && !(l.employeeId == employeeId && l.competencyId == competencyId) {
      var i :| 0 <= i < |xs| && xs[i] == l;
    }
  }

  /**
   * `addHierarchyAssignment` does not upsert: when the employee already has a
   * record, the appended one is a duplicate that every first-record lookup ignores.
   */
  lemma AddHierarchyKeepsFirst(xs: seq<HierarchyAssignment>, h: HierarchyAssignment)
    requires exists i :: 0 <= i < |xs| && xs[i].employeeId == h.employeeId
    ensures |Filter(xs + [h], HierarchyOf(h.employeeId))| == |Filter(xs, HierarchyOf(h.employeeId))| + 1 >= 2
    ensures Filter(xs + [h], HierarchyOf(h.employeeId))[0] == Filter(xs, HierarchyOf(h.employeeId))[0]
  {
    var p := HierarchyOf(h.employeeId);
    FilterConcat(xs, [h], p);
    assert Filter([h], p) == [h];
    var i :| 0 <= i < |xs| && xs[i].employeeId == h.employeeId;
    FilterMembership(xs, p, xs[i]);
  }
}

/**
 * The records of the talent-management store. Ids are the strings the pages
 * mint from the clock; dates are day numbers; weights and scores are integers.
 */
module Types {
  import opened Wrappers

  // The five role strings of `UserRole`. Roles stay strings because the login
  // page has a fallback route for any other value.
  const ADMIN := "admin"
  const HR_DEVELOPMENT := "hr-development"
  const HR_ASSESSMENT := "hr-assessment"
  const EMPLOYEE := "employee"
  const USER_MANAJEMEN := "user-manajemen"

  // The four rater types of a 360 response. They stay strings because the
  // aggregation on the results page skips any type it does not know.
  const SELF := "self"
  const UPWARD := "upward"
  const DOWNWARD := "downward"
  const PEER := "peer"

  // Assessment statuses: the one new assessments are created with, and the one
  // the rating page offers.
  const STATUS_RUNNING := "sedang berjalan"
  const STATUS_ONGOING := "Ongoing"

  predicate IsKnownRaterType(t: string)
  {
    t == SELF || t == UPWARD || t == DOWNWARD || t == PEER
  }

  datatype User = User(id: string, username: string, password: string, name: string, role: string)

  datatype Job = Job(id: string, name: string, level: string, weight: int, criteria: string, createdAt: int)

  datatype Competency = Competency(id: string, name: string, trainings: seq<string>, weight: int, createdAt: int)

  datatype Question = Question(id: string, question: string, category: string, weight: int)

  datatype Answer = Answer(questionId: string, score: int)

  /** One rater's scores for one ratee; `rateerId` is the rater (the source's spelling). */
  datatype Response = Response(
    id: string,
    assessmentId: string,
    rateeId: string,
    rateerId: string,
    raterType: string,
    answers: seq<Answer>)

  /** Who rates one ratee, by relationship. */
  datatype RaterIds = RaterIds(self: string, upward: seq<string>, downward: seq<string>, peer: seq<string>)

  datatype Jury = Jury(assessmentId: string, rateeId: string, raterIds: RaterIds)

  datatype Assessment = Assessment(
    id: string,
    name: string,
    startDate: int,
    endDate: int,
    status: string,
    questions: seq<Question>,
    juries: seq<Jury>,
    responses: seq<Response>,
    inChargeIds: seq<string>,
    createdAt: int)

  /** An entry of a ranking: a job id (person matching) or an employee id (job matching) with its score. */
  datatype Scored = Scored(id: string, score: int)

  datatype PersonJobMatch = PersonJobMatch(
    id: string, employeeId: string, matchedJobs: seq<Scored>, createdAt: int, deterministic: bool)

  datatype JobPersonMatch = JobPersonMatch(
    id: string, jobId: string, successors: seq<Scored>, createdAt: int, deterministic: bool)

  datatype EmployeeCompetency = EmployeeCompetency(employeeId: string, competencyId: string, addedAt: int)

  /** `riskLevel` holds what the resignation page writes: "Low", "Moderate" or "High". */
  datatype ResignationPrediction = ResignationPrediction(
    employeeId: string,
    riskLevel: string,
    estimatedMonths: int,
    reason: string,
    predictedAt: int,
    deterministic: bool)

  /** `supervisorId` is optional in the source: `None` is `undefined`. */
  datatype HierarchyAssignment = HierarchyAssignment(
    employeeId: string, supervisorId: Option<string>, subordinateIds: seq<string>, assignedAt: int)

  datatype PeerAssignment = PeerAssignment(employeeId: string, peerIds: seq<string>, assignedAt: int)
}

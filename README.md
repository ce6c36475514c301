# Talent management: a verified model of the engine

This project models the core of a small talent-management web application in Dafny and proves properties of the model. The application is organised around one in-browser store:
- users with roles;
- job positions and competencies;
- 360-degree assessments with their juries and responses;
- person-job and job-person matches;
- resignation predictions;
- employee competencies;
- hierarchy and peer assignments.

Page handlers change that store and the page's own state.

The model follows the program's layout. Each module matches one source file or one page:
- `Store` (`database.dfy`) is the `Database` class. It holds the ten collections as `seq` fields. Its getters are functions, and its add, update and delete operations are methods with field-granular `modifies` clauses.
- `Matching` is the deterministic score: the 32-bit string hash, folded over UTF-16 code units, with its wrap-around written out. It also holds the score-descending stable sort.
- `AssessmentHelper` covers the jury, target, received-response and average helpers.
- `Login` is the credential check and the role routes.
- `Breadcrumbs` is the trail of the dashboard layout, built by a loop.
- One module per page: `UsersPage`, `HierarchyPage`, `PeerPage`, `JobsPage`, `CompetenciesPage`, `EmployeeCompetenciesPage`, `JobMatchingPage`, `PersonMatchingPage`, `ResignationPage`, `AssessmentsPage`, `RatingPage`, `ResultsPage` and `SelfResultsPage`. A page whose handlers change state has a class holding that React state, and methods for the handlers; each method's `ensures` gives the new store and the new page state. `ResultsPage` and `SelfResultsPage` only compute from the store, as functions and loop methods, and the one piece of state of `ResignationPage`, the predictions it shows, is what its loading method returns while it changes the store. A handler that refuses returns `Rejected(message)` with the page's own message and changes nothing else.
- `Seqs`, `Text`, `Wrappers` and `Types` hold the list helpers the source uses (`filter`, `find`, `findIndex`, the upsert of `addPeerAssignment`, the checkbox toggle), the string helpers (`trim`, `split`, `charAt(0).toUpperCase()`, `charCodeAt`), the outcome datatypes and the entities.

Dates, ids, timestamps and random draws are parameters. Dates are whole numbers of days, ids are strings.

## Model

| member | source | states |
|---|---|---|
| Store.Database.constructor | lib/db.ts:91-104 | A fresh store holds exactly the three default accounts (admin, HR development, HR assessment) and nine empty collections |
| Store.Database.GetUserById | lib/db.ts:110-112 | The result is the first user with that id, and none when no user has it |
| Store.Database.GetUserByUsername | lib/db.ts:113-115 | The result is the first user with that username, and none when no user has it |
| Store.Database.AddUser | lib/db.ts:116-119 | The user is appended and the other collections are untouched |
| Store.Database.UpdateUser | lib/db.ts:120-126 | Only the first user with the id is merged with the patch; with no such user nothing changes |
| Store.Database.DeleteUser | lib/db.ts:127-130 | Every user with the id is removed, every other user stays, and their order is kept |
| Store.Database.GetJobById | lib/db.ts:136-138 | The result is the first job with the id |
| Store.Database.AddJob | lib/db.ts:139-142 | The job is appended |
| Store.Database.UpdateJob | lib/db.ts:143-149 | Only the first job with the id is merged with the patch |
| Store.Database.GetCompetencyById | lib/db.ts:155-157 | The result is the first competency with the id |
| Store.Database.AddCompetency | lib/db.ts:158-161 | The competency is appended |
| Store.Database.GetAssessmentById | lib/db.ts:167-169 | The result is the first assessment with the id |
| Store.Database.AddAssessment | lib/db.ts:170-173 | The assessment is appended |
| Store.Database.UpdateAssessment | lib/db.ts:174-180 | Only the first assessment with the id is merged with the patch |
| Store.Database.GetAssessmentResponsesByRatee | lib/db.ts:182-185 | For an unknown assessment the result is empty. Otherwise it holds exactly the assessment's responses for that ratee |
| Store.Database.GetPersonJobMatchesByEmployee | lib/db.ts:191-193 | Every element of the result is one of the employee's person-job matches, and each of them is in the result (the same elements; order and count are those of a filter, not stated) |
| Store.Database.AddPersonJobMatch | lib/db.ts:194-197 | The match is appended |
| Store.Database.GetJobPersonMatchesByJob | lib/db.ts:203-205 | Every element of the result is one of the job's job-person matches, and each of them is in the result (the same elements; order and count are those of a filter, not stated) |
| Store.Database.AddJobPersonMatch | lib/db.ts:206-209 | The match is appended |
| Store.Database.GetResignationPredictionByEmployee | lib/db.ts:215-217 | The result is the employee's first prediction |
| Store.Database.AddResignationPrediction | lib/db.ts:218-221 | The prediction is appended |
| Store.Database.GetEmployeeCompetenciesByEmployee | lib/db.ts:227-229 | Every element of the result is one of the employee's competency links, and each of them is in the result (the same elements; order and count are those of a filter, not stated) |
| Store.Database.AddEmployeeCompetency | lib/db.ts:230-233 | The link is appended |
| Store.Database.DeleteEmployeeCompetency | lib/db.ts:234-239 | Every link of that employee and competency is removed, and the rest are kept in order |
| Store.Database.GetHierarchyByEmployee | lib/db.ts:245-247 | Every element of the result is one of the employee's hierarchy records, and each of them is in the result (the same elements; order and count are those of a filter, not stated) |
| Store.Database.AddHierarchyAssignment | lib/db.ts:248-251 | The record is appended |
| Store.Database.UpdateHierarchyAssignment | lib/db.ts:252-258 | Only the employee's first record is merged with the patch |
| Store.Database.GetAssessmentJuries | lib/db.ts:261-264 | The result is the assessment's juries, or empty for an unknown assessment |
| Store.Database.GetJuriesByRatee | lib/db.ts:266-269 | The result is the first jury of the ratee in that assessment |
| Store.Database.UpdateAssessmentJuries | lib/db.ts:271-277 | Only the first assessment with the id gets the new juries; its other fields are kept |
| Store.Database.GetPeerAssignmentByEmployee | lib/db.ts:283-285 | The result is the employee's first peer record |
| Store.Database.AddPeerAssignment | lib/db.ts:287-295 | The employee's first record is overwritten, or the record is appended when there is none |
| Store.Database.DeletePeerAssignment | lib/db.ts:297-300 | Every record of the employee is removed |
| Store.ResponsesOnlyPatch | lib/db.ts:174-180 | A patch carrying only the responses replaces the responses and nothing else; an empty patch changes nothing |
| Store.FullHierarchyPatch | lib/db.ts:252-258 | A patch that sets every field turns a record into the new one |
| Store.AddFreshLinkKeepsNoDuplicates | app/dashboard/hr-development/employee-competencies/page.tsx:38-59 | Appending a link that does not exist yet keeps every (employee, competency) pair unique |
| Store.Employees | app/dashboard/admin/hierarchy/page.tsx:31 | The result holds exactly the users whose role is employee |
| Store.Candidates | app/dashboard/admin/hierarchy/page.tsx:106-107 | The result holds exactly the employees other than the selected one |
| Store.UpsertPeerKeepsOneEach | lib/db.ts:287-295 | With at most one record per employee, an upsert keeps it that way and leaves the new record as the employee's record |
| Store.UpsertPeerCount | lib/db.ts:287-295 | An upsert keeps the count when the employee had a record and adds one otherwise |
| Store.DeletePeerKeepsOthers | lib/db.ts:297-300 | After the delete the employee has no record, and every other employee's lookup is unchanged |
| Store.DeleteLinkExact | lib/db.ts:234-239 | A link survives exactly when it was stored and is not the deleted pair |
| Store.AddHierarchyKeepsFirst | lib/db.ts:245-251 | Appending a second record for an employee leaves the first one as the record every reader uses |
| Matching.ToInt32 | lib/utils/matching.ts:10 | `x & x` gives the signed 32-bit value congruent to x modulo 2^32 |
| Matching.StepIsTimes31 | lib/utils/matching.ts:9-10 | `(hash << 5) - hash + char`, wrapped, equals 31·hash + char wrapped to 32 bits |
| Matching.Hash | lib/utils/matching.ts:5-11 | The hash of code units is a signed 32-bit value |
| Matching.HashIsWrappedPolynomial | lib/utils/matching.ts:7-11 | The hash is the base-31 polynomial of the code units wrapped to 32 bits, as in Java's `String.hashCode` |
| Matching.HashConcat | lib/utils/matching.ts:5-11 | The hash of a concatenation continues from the hash of its first part |
| Matching.Normalize | lib/utils/matching.ts:14-15 | `abs(hash) % 36 + 60`, clamped, always lies in 60..95 |
| Matching.DeterministicScore | lib/utils/matching.ts:3-16 | The score lies in 60..95 and is the normalised hash of the UTF-16 units of seed + employee id + job id |
| Matching.ScoreOfSplitText | lib/utils/matching.ts:5 | Only the concatenated text counts, so the hash of the seed can be continued over the ids |
| Matching.ScoreOfEmpty | lib/utils/matching.ts:13-15 | The empty text scores 60 |
| Matching.Utf16Examples | lib/utils/matching.ts:8 | The code units of "a" and "ab" are [97] and [97, 98] |
| Matching.HashExamples | lib/utils/matching.ts:7-11 | The hashes of "a" and "ab" are 97 and 3105 |
| Matching.ScoreOfA | lib/utils/matching.ts:3-16 | The text "a" scores 85 |
| Matching.ScoreOfAB | lib/utils/matching.ts:5 | Two splits of the same text ("" + "a" + "b" and "ab" + "" + "") score the same, 69 |
| Matching.GenerateDeterministicScore | lib/utils/matching.ts:3-16 | The hashing loop computes the deterministic score, which lies in 60..95 |
| Matching.InsertByScore | lib/utils/matching.ts:18-20 | Inserting into a score-descending list keeps it descending and adds exactly the entry |
| Matching.InsertionSort | lib/utils/matching.ts:18-20 | The result is descending by score and a permutation of the input |
| Matching.SortByScore | lib/utils/matching.ts:18-20 | The result is non-increasing by score and a permutation of the input |
| Matching.InsertKeepsTies | lib/utils/matching.ts:19 | An insertion puts the new entry before every entry of equal score and keeps their order |
| Matching.SortByScoreIsStable | lib/utils/matching.ts:19 | Entries of equal score keep their input order, as the stable `Array.prototype.sort` does |
| Matching.ScoreAll | app/dashboard/hr-development/job-matching/page.tsx:38-41 | Each id is paired with its own score, in input order |
| Matching.Rank | app/dashboard/hr-development/job-matching/page.tsx:36-42 | The result has min(5, n) entries, is non-increasing and is a permutation of the scored first five ids |
| Matching.RankEntries | app/dashboard/employee/person-matching/page.tsx:40-46 | Every ranked entry is one of the first five ids, with that id's score |
| AssessmentHelper.FirstHierarchy | lib/utils/assessment-helper.ts:63 | `getHierarchyByEmployee(id)[0]` is the employee's first hierarchy record |
| AssessmentHelper.SupervisorOf | lib/utils/assessment-helper.ts:85 | A supervisor counts only when the first record names a non-empty one |
| AssessmentHelper.UpwardOf | lib/utils/assessment-helper.ts:70 | The upward raters are the first record's supervisor when it is non-empty, and nobody otherwise |
| AssessmentHelper.GetPeersForEmployee | lib/utils/assessment-helper.ts:82-93 | An id is a peer exactly when it is another listed id whose first hierarchy record names the employee's supervisor. Without a supervisor there are no peers |
| AssessmentHelper.PeersMembership | lib/utils/assessment-helper.ts:88-92 | An id is a peer exactly when it is listed, is another employee, and its first record names the same supervisor |
| AssessmentHelper.PeersSymmetric | lib/utils/assessment-helper.ts:82-93 | Being peers is symmetric, and two employees under the same supervisor are peers |
| AssessmentHelper.GenerateAssessmentJuries | lib/utils/assessment-helper.ts:59-80 | The loop builds one jury per employee id, in order |
| AssessmentHelper.HelperJuryShape | lib/utils/assessment-helper.ts:65-74 | A jury's self rater is the ratee, the ratee is never its own peer, and there is at most one upward rater |
| AssessmentHelper.EntriesFor | lib/utils/assessment-helper.ts:116-128 | One jury yields at most four assignments for a rater |
| AssessmentHelper.EntriesForMembership | lib/utils/assessment-helper.ts:117-128 | A jury assigns a ratee and rater type exactly when the rater sits in that slot |
| AssessmentHelper.AssignmentsInMembership | lib/utils/assessment-helper.ts:110-132 | An assignment is listed exactly when some jury places the rater in that slot for that ratee |
| AssessmentHelper.GetAssignedRatees | lib/utils/assessment-helper.ts:110-132 | Unknown assessment: no ratees. Otherwise the ratees are the assignments of the assessment's juries |
| AssessmentHelper.Round | lib/utils/assessment-helper.ts:56 | `Math.round` gives the integer within half a unit, halves rounding up |
| AssessmentHelper.Round1 | lib/utils/assessment-helper.ts:56 | `Math.round(x * 10) / 10` is a whole number of tenths, and x lies in the half-open band of 0.05 around it |
| AssessmentHelper.Round1IsNearestTenth | lib/utils/assessment-helper.ts:56 | The tenth whose half-open 0.05 band holds x is the rounded value, so the contract of Round1 fixes it uniquely |
| AssessmentHelper.Round1Examples | lib/utils/assessment-helper.ts:56 | 3.75 rounds to 3.8, 3.74 to 3.7, and 4 stays 4 |
| AssessmentHelper.RoundMonotone | lib/utils/assessment-helper.ts:56 | Rounding is monotone |
| AssessmentHelper.Round1Within | lib/utils/assessment-helper.ts:56 | Rounding to one decimal stays within integer bounds |
| AssessmentHelper.Scores | lib/utils/assessment-helper.ts:53 | The scores of the answers, in order |
| AssessmentHelper.ResponseMeans | lib/utils/assessment-helper.ts:52-55 | One mean answer score per response, in order |
| AssessmentHelper.CalculateAverageScore | lib/utils/assessment-helper.ts:50-57 | 0 for no responses. Otherwise the mean of the per-response means rounded to a whole number of tenths, halves up (with Round1IsNearestTenth, exactly `Math.round(mean * 10) / 10`) |
| AssessmentHelper.MeanBounds | lib/utils/assessment-helper.ts:53 | A mean lies between the bounds of its scores |
| AssessmentHelper.AverageScoreOnScale | lib/utils/assessment-helper.ts:50-57 | With every answer on the 1..5 scale the average lies in 1..5 |
| AssessmentHelper.Tagged | lib/utils/assessment-helper.ts:33-39 | Exactly the assessment's responses about the employee, in order, each tagged with the assessment's name and status |
| AssessmentHelper.ReceivedIn | lib/utils/assessment-helper.ts:31-40 | Every received response is about the employee |
| AssessmentHelper.ReceivedInComplete | lib/utils/assessment-helper.ts:32-40 | Every stored response about the employee is among those received |
| AssessmentHelper.GetReceivedAssessments | lib/utils/assessment-helper.ts:30-48 | Each group holds its rater type only. Together the groups are exactly the received responses of a known type |
| AssessmentHelper.SplitByRaterType | lib/utils/assessment-helper.ts:42-47 | The four type filters partition the responses of a known type |
| AssessmentHelper.ResolveUsers | lib/utils/assessment-helper.ts:104-106 | Entry i is the user of the i-th id that resolves, so unknown ids are dropped and the ids' order is kept; no more users than ids come back |
| AssessmentHelper.GetJuryForEmployee | lib/utils/assessment-helper.ts:95-108 | None when the assessment or the ratee's jury is missing. Otherwise self is the lookup of the self id, and each list is the users of its resolvable ids in order |
| AssessmentHelper.TargetsFor | lib/utils/assessment-helper.ts:21-24 | One target per id, named after the user or with the fallback |
| AssessmentHelper.GetAssessableTargets | lib/utils/assessment-helper.ts:4-28 | Unknown assessment: nothing. Otherwise self named after the user or "Self", the supervisor of the first record named or "Supervisor", its subordinates named or "Unknown", and no peers |
| AssessmentHelper.TargetsAgreeWithHelperJury | lib/utils/assessment-helper.ts:4-28 | The target ids are the self, upward and downward lists of the jury `generateAssessmentJuries` builds for the employee |
| Login.RouteForRole | app/page.tsx:35-43 | Each of the five roles goes to its own dashboard, and exactly the other roles go to "/dashboard" |
| Login.RoutesTellRolesApart | app/page.tsx:35-41 | Two known roles with the same route are the same role |
| Login.Authenticate | app/page.tsx:24-29 | Success exactly when the first user with the username has that password, and then it is that user |
| Login.AuthenticateWithUniqueUsernames | app/page.tsx:24-29 | With unique usernames, login succeeds exactly for a stored username/password pair |
| Login.DefaultAccountsReachTheirDashboards | lib/db.ts:91-104 | The three default accounts log in and reach their dashboards |
| Login.LoginPage.constructor | app/page.tsx:13-16 | The form starts empty, with no error and not loading |
| Login.LoginPage.HandleLogin | app/page.tsx:19-44 | Bad credentials: the error message and nothing else. Otherwise the user becomes the session and the route is the role's dashboard |
| Breadcrumbs.Segments | components/common/breadcrumb.tsx:39 | The segments are non-empty and contain no slash |
| Breadcrumbs.HrefAppend | components/common/breadcrumb.tsx:48 | `currentPath += "/" + segment` extends the path of the segments by one |
| Breadcrumbs.Trail | components/common/breadcrumb.tsx:40-51 | The trail has one crumb per segment after Home |
| Breadcrumbs.TrailStep | components/common/breadcrumb.tsx:46-50 | One more segment adds one crumb, for the extended path |
| Breadcrumbs.TrailShape | components/common/breadcrumb.tsx:46-51 | Crumb k links to the path of the first k segments. Its label is the table's, or else the segment capitalised |
| Breadcrumbs.TrailHrefs | components/common/breadcrumb.tsx:48-50 | Crumb k links to the path of the first k segments |
| Breadcrumbs.CrumbsExtendEachOther | components/common/breadcrumb.tsx:46-50 | Each link extends the previous one by a slash and the next segment |
| Breadcrumbs.RenderedIffContent | components/common/breadcrumb.tsx:39-53 | The trail is shown exactly when the pathname has a character other than "/" |
| Breadcrumbs.SegmentsOfHref | components/common/breadcrumb.tsx:39 | Splitting the path built from segments gives those segments back |
| Breadcrumbs.LastCrumbIsPage | components/common/breadcrumb.tsx:39-53 | A page's trail is shown, and its last crumb links to the page itself |
| Breadcrumbs.BuildBreadcrumbs | components/common/breadcrumb.tsx:38-53 | The loop builds exactly the trail that is shown, or nothing for Home alone |
| UsersPage.CheckNewUser | app/dashboard/admin/users/page.tsx:29-39 | The missing-field message exactly when a field is empty. The taken-username message exactly when all are filled but the username exists. Success otherwise |
| UsersPage.NewUser | app/dashboard/admin/users/page.tsx:41-47 | A created user always has the employee role and the form's fields |
| UsersPage.CreateKeepsUsernamesUnique | app/dashboard/admin/users/page.tsx:36-49 | A creation that passes the check keeps usernames unique |
| UsersPage.DeleteUnknownIsNoOp | lib/db.ts:127-130 | Deleting an id no user has changes nothing |
| UsersPage.UsersForm.constructor | app/dashboard/admin/users/page.tsx:16-27 | The page shows the store's users, with an empty form and no pending delete |
| UsersPage.UsersForm.CreateUser | app/dashboard/admin/users/page.tsx:29-54 | On refusal nothing changes. Otherwise the employee is appended, the list reloaded and the form reset. A list in step with the store stays in step, and then unique usernames stay unique |
| UsersPage.UsersForm.RequestDelete | app/dashboard/admin/users/page.tsx:145 | The delete button records the id to confirm |
| UsersPage.UsersForm.DeleteUser | app/dashboard/admin/users/page.tsx:56-66 | Refused exactly for an admin, HR development or HR assessment user. Otherwise every user with the id is removed and the list reloaded, so a list in step with the store stays in step |
| UsersPage.UsersForm.ConfirmDelete | app/dashboard/admin/users/page.tsx:165 | With no pending or an empty id, nothing happens. Otherwise the pending id goes through the delete; a list in step with the store stays in step |
| UsersPage.DefaultUsersProtected | app/dashboard/admin/users/page.tsx:56-61 | The three default accounts cannot be deleted |
| HierarchyPage.SupervisorChoice | app/dashboard/admin/hierarchy/page.tsx:46 | An empty selection becomes undefined: no supervisor exactly when none is chosen |
| HierarchyPage.NewHierarchy | app/dashboard/admin/hierarchy/page.tsx:44-49 | The record carries the employee, the chosen supervisor if any, and the subordinates |
| HierarchyPage.SavedHierarchyIsUsed | app/dashboard/admin/hierarchy/page.tsx:42-55 | After a save, the employee's first record is the saved one, so juries use its supervisor and subordinates |
| HierarchyPage.SaveTwiceKeepsLatest | app/dashboard/admin/hierarchy/page.tsx:42-55 | Saving twice for an employee is the same as saving the second record once |
| HierarchyPage.HierarchyForm.constructor | app/dashboard/admin/hierarchy/page.tsx:14-16 | Nothing selected |
| HierarchyPage.HierarchyForm.ToggleSubordinate | app/dashboard/admin/hierarchy/page.tsx:66-68 | The id is added when absent and removed when present. The selection keeps no id twice |
| HierarchyPage.HierarchyForm.AssignHierarchy | app/dashboard/admin/hierarchy/page.tsx:36-64 | Refused exactly without an employee. Otherwise the first record is overwritten or a new one appended, and the selections are cleared |
| PeerPage.SavedPeersAreUsed | app/dashboard/admin/peer-assignment/page.tsx:36-42 | After a save, the peers that juries take for the employee are the saved ones |
| PeerPage.PeerForm.constructor | app/dashboard/admin/peer-assignment/page.tsx:13-14 | Nothing selected |
| PeerPage.PeerForm.TogglePeer | app/dashboard/admin/peer-assignment/page.tsx:48-50 | The id is added when absent and removed when present. The selection keeps no id twice |
| PeerPage.PeerForm.AssignPeers | app/dashboard/admin/peer-assignment/page.tsx:30-46 | Refused exactly without an employee. Otherwise the record is upserted and found by the lookup, one record per employee is kept, and the selections are cleared |
| PeerPage.PeerForm.Delete | app/dashboard/admin/peer-assignment/page.tsx:52-57 | Unconfirmed: nothing changes. Confirmed: the employee has no peer record left |
| JobsPage.SubmitEnabled | app/dashboard/hr-development/jobs/page.tsx:24-32 | Enabled exactly when name and level are not blank and the weight is positive; the criteria do not take part |
| JobsPage.CheckCreate | app/dashboard/hr-development/jobs/page.tsx:38-43 | Accepted exactly when name, level and criteria are non-empty |
| JobsPage.EnabledFormGuard | app/dashboard/hr-development/jobs/page.tsx:24-43 | With the button enabled, only an empty criteria text is refused |
| JobsPage.JobForm.constructor | app/dashboard/hr-development/jobs/page.tsx:16-17 | Empty form with weight 50, closed |
| JobsPage.JobForm.CreateJob | app/dashboard/hr-development/jobs/page.tsx:38-59 | On refusal nothing changes. Otherwise the job is appended with the form's values and the form is reset and closed |
| CompetenciesPage.SubmitEnabled | app/dashboard/hr-development/competencies/page.tsx:25-32 | Enabled exactly when name and trainings are not blank and the weight is positive |
| CompetenciesPage.CheckCreate | app/dashboard/hr-development/competencies/page.tsx:38-45 | Accepted exactly when name and trainings are non-empty |
| CompetenciesPage.EnabledFormPassesGuard | app/dashboard/hr-development/competencies/page.tsx:25-45 | An enabled form always passes the guard |
| CompetenciesPage.Trainings | app/dashboard/hr-development/competencies/page.tsx:48 | One training per comma plus one. Each has no comma and no whitespace at either end |
| CompetenciesPage.TrainingsOfTypedList | app/dashboard/hr-development/competencies/page.tsx:48 | Typing trainings joined by commas gives each back trimmed, and exactly as typed when they are already trimmed |
| CompetenciesPage.CompetencyForm.constructor | app/dashboard/hr-development/competencies/page.tsx:16-18 | Empty form with weight 50, closed |
| CompetenciesPage.CompetencyForm.HandleCreate | app/dashboard/hr-development/competencies/page.tsx:38-45 | The confirmation opens exactly when the guard passes |
| CompetenciesPage.CompetencyForm.ConfirmCreate | app/dashboard/hr-development/competencies/page.tsx:47-64 | The competency is appended with the trimmed trainings, and the form is reset |
| EmployeeCompetenciesPage.CompetencyName | app/dashboard/hr-development/employee-competencies/page.tsx:47-48 | The competency's name, or "" for an unknown id |
| EmployeeCompetenciesPage.CheckAdd | app/dashboard/hr-development/employee-competencies/page.tsx:32-50 | Refused without an employee, or when the link exists, each with its message. Accepted otherwise |
| EmployeeCompetenciesPage.LinksForm.constructor | app/dashboard/hr-development/employee-competencies/page.tsx:16-20 | Nothing selected, no dialog open |
| EmployeeCompetenciesPage.LinksForm.HandleAdd | app/dashboard/hr-development/employee-competencies/page.tsx:32-50 | Accepted: the competency is recorded for confirmation. Refused: nothing changes |
| EmployeeCompetenciesPage.LinksForm.ConfirmAdd | app/dashboard/hr-development/employee-competencies/page.tsx:52-65 | With nothing pending or no employee, nothing happens. Otherwise the link is appended; a checked add keeps links unique |
| EmployeeCompetenciesPage.LinksForm.HandleRemove | app/dashboard/hr-development/employee-competencies/page.tsx:67-70 | The competency is recorded for confirmation |
| EmployeeCompetenciesPage.LinksForm.ConfirmRemove | app/dashboard/hr-development/employee-competencies/page.tsx:72-79 | The link is gone, and every other link stays |
| JobMatchingPage.SuccessorsShape | app/dashboard/hr-development/job-matching/page.tsx:36-42 | Min(5, n) successors, best first. Each is one of the first five employees with its job score in 60..95 |
| JobMatchingPage.AddMatchKeepsOnePerJob | app/dashboard/hr-development/job-matching/page.tsx:27-55 | Appending a match for a job without one keeps one match per job, and the new one is the job's match |
| JobMatchingPage.JobMatchingView.constructor | app/dashboard/hr-development/job-matching/page.tsx:15 | No job unfolded |
| JobMatchingPage.JobMatchingView.CreateMatch | app/dashboard/hr-development/job-matching/page.tsx:27-55 | An existing match only folds or unfolds the job. Otherwise the ranking is appended and unfolded; one match per job is kept |
| PersonMatchingPage.MatchedJobsShape | app/dashboard/employee/person-matching/page.tsx:40-46 | Min(5, n) jobs, best first. Each is one of the first five jobs with its score in 60..95 |
| PersonMatchingPage.LinkAllShape | app/dashboard/employee/person-matching/page.tsx:57-71 | Existing links stay in front, new links are the employee's, and every chosen competency ends up linked |
| PersonMatchingPage.LinkAllKeepsNoDuplicates | app/dashboard/employee/person-matching/page.tsx:61-69 | Linking only missing competencies keeps links unique |
| PersonMatchingPage.OwnLinksHold | app/dashboard/employee/person-matching/page.tsx:62 | The check on the employee's own links is the check on the whole store |
| PersonMatchingPage.LinkCompetencies | app/dashboard/employee/person-matching/page.tsx:57-71 | The loop adds exactly the missing links |
| PersonMatchingPage.ShownMatchIsOldest | app/dashboard/employee/person-matching/page.tsx:22-26 | A later match never replaces the first one shown on load |
| PersonMatchingPage.PersonMatchingView.constructor | app/dashboard/employee/person-matching/page.tsx:16-28 | The employee's first stored match is shown, if any |
| PersonMatchingPage.PersonMatchingView.GenerateMatch | app/dashboard/employee/person-matching/page.tsx:30-76 | No session: nothing. No jobs: refused. Otherwise up to three competencies are linked and the ranked match is appended and shown |
| ResignationPage.RiskLevel | app/dashboard/hr-development/resignation/page.tsx:31 | Low below 70, Moderate from 70 below 85, High from 85 |
| ResignationPage.EstimatedMonths | app/dashboard/hr-development/resignation/page.tsx:32 | `floor((score - 50) / 10) + 1` |
| ResignationPage.MonthsOnScale | app/dashboard/hr-development/resignation/page.tsx:30-32 | For a score in 60..95 the estimate is 2..5 months |
| ResignationPage.Fresh | app/dashboard/hr-development/resignation/page.tsx:29-50 | A new prediction has the employee's risk and months, 2..5 months, and one of the five reasons |
| ResignationPage.LoadStep | app/dashboard/hr-development/resignation/page.tsx:23-53 | A stored prediction is shown as it is. Otherwise a fresh one is stored and shown |
| ResignationPage.LoadStepShows | app/dashboard/hr-development/resignation/page.tsx:23-53 | Each step shows one more prediction, for that employee |
| ResignationPage.LoadFrom | app/dashboard/hr-development/resignation/page.tsx:23-54 | One shown prediction per employee, in order |
| ResignationPage.LoadFindsShown | app/dashboard/hr-development/resignation/page.tsx:23-54 | Each shown prediction is the one the store returns for that employee afterwards |
| ResignationPage.LoadOnlyAppendsFresh | app/dashboard/hr-development/resignation/page.tsx:23-54 | The store only grows, and only by fresh predictions |
| ResignationPage.ExistingPredictionReturned | app/dashboard/hr-development/resignation/page.tsx:24-27 | A stored prediction is shown unchanged |
| ResignationPage.LoadWhenAllPresent | app/dashboard/hr-development/resignation/page.tsx:23-54 | When every employee has a prediction, nothing is stored and the stored ones are shown |
| ResignationPage.SecondLoadAddsNothing | app/dashboard/hr-development/resignation/page.tsx:18-57 | A second load, at any time, stores nothing and shows the same predictions |
| ResignationPage.LoadPredictions | app/dashboard/hr-development/resignation/page.tsx:18-57 | The loop shows and stores what the load specifies |
| AssessmentsPage.Validate | app/dashboard/hr-assessment/assessments/page.tsx:73-88 | The missing-field message exactly when a field or the questions are missing. Otherwise the end must come after the start |
| AssessmentsPage.PeerIdsOf | app/dashboard/hr-assessment/assessments/page.tsx:97-106 | The employee's assigned peers, or none |
| AssessmentsPage.SnapshotJuries | app/dashboard/hr-assessment/assessments/page.tsx:95-109 | One jury per employee, in order, for this assessment |
| AssessmentsPage.SnapshotJuryContents | app/dashboard/hr-assessment/assessments/page.tsx:95-108 | Self is the ratee; upward is the first record's non-empty supervisor; downward its subordinates; peers the assigned ones |
| AssessmentsPage.SnapshotVersusHelper | app/dashboard/hr-assessment/assessments/page.tsx:95-108 | The page's juries agree with the helper's except on peers, which come from peer assignments |
| AssessmentsPage.NoSameSupervisorFallback | app/dashboard/hr-assessment/assessments/page.tsx:106 | Unlike the helper, the page does not fall back to employees with the same supervisor |
| AssessmentsPage.NewAssessment | app/dashboard/hr-assessment/assessments/page.tsx:111-122 | A new assessment is running and has no responses |
| AssessmentsPage.AssessmentForm.constructor | app/dashboard/hr-assessment/assessments/page.tsx:18-27 | Empty form; draft question in category Kinerja with weight 50 |
| AssessmentsPage.AssessmentForm.AddQuestion | app/dashboard/hr-assessment/assessments/page.tsx:39-54 | A blank draft changes nothing. Otherwise it is appended as a question and the draft is reset |
| AssessmentsPage.AssessmentForm.RemoveQuestion | app/dashboard/hr-assessment/assessments/page.tsx:56-62 | Every question with the id is removed, and the others stay |
| AssessmentsPage.AssessmentForm.ToggleInCharge | app/dashboard/hr-assessment/assessments/page.tsx:64-71 | The employee is added when absent and removed when present |
| AssessmentsPage.AssessmentForm.ValidateAndConfirm | app/dashboard/hr-assessment/assessments/page.tsx:73-88 | The confirmation opens exactly when the form validates |
| AssessmentsPage.AssessmentForm.CreateAssessment | app/dashboard/hr-assessment/assessments/page.tsx:90-134 | The assessment is appended with the juries taken at that moment, and the form is reset |
| RatingPage.ActiveAssessments | app/dashboard/employee/assessment/page.tsx:30 | Exactly the assessments whose status is "Ongoing" |
| RatingPage.CreatedAssessmentsAreNotOffered | app/dashboard/employee/assessment/page.tsx:30 | An assessment as created ("sedang berjalan") is never offered for rating |
| RatingPage.GroupRatees | app/dashboard/employee/assessment/page.tsx:174-179 | Each group holds exactly the assigned ratees of its own type |
| RatingPage.AssignmentsHaveKnownTypes | lib/utils/assessment-helper.ts:116-129 | Every assignment has one of the four rater types |
| RatingPage.GroupsPartition | app/dashboard/employee/assessment/page.tsx:174-179 | For ratees of known types, the four groups are a partition |
| RatingPage.GroupingLosesNothing | app/dashboard/employee/assessment/page.tsx:172-179 | Grouping the assigned ratees loses and duplicates none |
| RatingPage.BuildAnswers | app/dashboard/employee/assessment/page.tsx:82-85 | One answer per question, in order; an unanswered question scores 0 |
| RatingPage.SaveResponse | app/dashboard/employee/assessment/page.tsx:90-100 | The response at the first index with the same ratee, rater and type is replaced and nothing else changes; with none, the response is appended. The saved response is then the one found for its triple |
| RatingPage.SaveKeepsOnePerTriple | app/dashboard/employee/assessment/page.tsx:90-100 | Saving keeps at most one response per (ratee, rater, type) |
| RatingPage.ResubmitKeepsLatest | app/dashboard/employee/assessment/page.tsx:90-100 | Submitting twice for the same triple is the same as submitting the second once |
| RatingPage.SaveEnabledMeansAllAnswered | app/dashboard/employee/assessment/page.tsx:339-342 | When the save button is enabled, every question has a score in 1..5 |
| RatingPage.BuildResponse | app/dashboard/employee/assessment/page.tsx:76-86 | The response names the assessment, ratee, rater and type, and answers every question |
| RatingPage.RatingForm.constructor | app/dashboard/employee/assessment/page.tsx:25-33 | With a session, the ongoing assessments are listed; nothing is selected |
| RatingPage.RatingForm.SelectAssessment | app/dashboard/employee/assessment/page.tsx:35-40 | The assessment is selected, and the ratee and answers are cleared |
| RatingPage.RatingForm.SelectRatee | app/dashboard/employee/assessment/page.tsx:42-46 | The ratee is selected and the answers are cleared |
| RatingPage.RatingForm.ScoreChange | app/dashboard/employee/assessment/page.tsx:48-50 | The question's score is set and the others kept |
| RatingPage.RatingForm.Submit | app/dashboard/employee/assessment/page.tsx:52-132 | Incomplete exactly without a session, assessment or ratee; cancelled exactly when declined. Otherwise the response is saved and the selection reset |
| RatingPage.SubmitStoresResponses | app/dashboard/employee/assessment/page.tsx:104-119 | After the update the store returns the assessment with the new responses |
| ResultsPage.ScoresForConcat | app/dashboard/hr-assessment/results/page.tsx:33-41 | Grouping scores by question distributes over concatenation |
| ResultsPage.ScoresForFrom | app/dashboard/hr-assessment/results/page.tsx:45 | Every grouped score comes from an answer to that question |
| ResultsPage.RoundedMean | app/dashboard/hr-assessment/results/page.tsx:46-53 | 0 for no scores; otherwise the mean rounded to the nearest integer |
| ResultsPage.RoundedMeanOnScale | app/dashboard/hr-assessment/results/page.tsx:46-53 | The rounded mean of 1..5 scores lies in 1..5 |
| ResultsPage.UngroupedIsEmpty | app/dashboard/hr-assessment/results/page.tsx:45 | A question nobody answered falls back to an empty score list |
| ResultsPage.RecordHoldsScores | app/dashboard/hr-assessment/results/page.tsx:36-39 | Recording an answer keeps each question's list equal to its scores so far |
| ResultsPage.RecordCovers | app/dashboard/hr-assessment/results/page.tsx:36-39 | Recording an answer keeps every answered question in the table |
| ResultsPage.GroupingStep | app/dashboard/hr-assessment/results/page.tsx:34-41 | One answer keeps the grouping invariant (lists, key order, no repeats) |
| ResultsPage.RecordAnswers | app/dashboard/hr-assessment/results/page.tsx:35-40 | The inner loop keeps the grouping invariant over the answers |
| ResultsPage.GroupScores | app/dashboard/hr-assessment/results/page.tsx:33-41 | The nested loops group every answer's score under its question, in first-seen order |
| ResultsPage.GroupedKeepsAll | app/dashboard/hr-assessment/results/page.tsx:52-53 | Flattening the groups keeps every score, so count and sum are those of all answers |
| ResultsPage.FlattenScores | app/dashboard/hr-assessment/results/page.tsx:52 | `Object.values(questionScores).flat()` has one score per answer and the same sum |
| ResultsPage.CalculateResults | app/dashboard/hr-assessment/results/page.tsx:23-56 | Nothing without a selection or responses. Otherwise per question the rounded mean and rater count, the overall mean and the respondent count |
| ResultsPage.ResultsOnScale | app/dashboard/hr-assessment/results/page.tsx:46-53 | With 1..5 answers, each average and the overall average lie in 1..5 |
| ResultsPage.RaterCountIsResponses | app/dashboard/hr-assessment/results/page.tsx:47 | When each response answers a question once, its rater count is the number of responses |
| SelfResultsPage.RelevantAssessments | app/dashboard/employee/assessment-results/page.tsx:21-24 | An assessment is relevant exactly when it is stored and has a jury whose ratee is the user |
| SelfResultsPage.RelevantMembership | app/dashboard/employee/assessment-results/page.tsx:22-24 | An assessment is relevant exactly when one of its juries rates the user |
| SelfResultsPage.Collected | app/dashboard/employee/assessment-results/page.tsx:49-56 | The collecting loop keeps count equal to the number of scores and the average at 0 |
| SelfResultsPage.BucketFor | app/dashboard/employee/assessment-results/page.tsx:42-64 | A type's bucket counts exactly its responses. Its average is 0 when there are none, otherwise the mean of its scores rounded to a whole number of tenths |
| SelfResultsPage.CollectedStep | app/dashboard/employee/assessment-results/page.tsx:49-56 | A response adds its mean to its own type's bucket only |
| SelfResultsPage.FinishBucket | app/dashboard/employee/assessment-results/page.tsx:58-64 | Averaging a collected bucket gives the type's bucket |
| SelfResultsPage.CollectAllIsCollected | app/dashboard/employee/assessment-results/page.tsx:42-56 | The four buckets are exactly the collected ones |
| SelfResultsPage.CollectBuckets | app/dashboard/employee/assessment-results/page.tsx:42-56 | The `forEach` over responses fills the four buckets as specified |
| SelfResultsPage.AverageBuckets | app/dashboard/employee/assessment-results/page.tsx:58-64 | The `forEach` over keys turns collected buckets into averaged ones |
| SelfResultsPage.CalculateScoresByRaterType | app/dashboard/employee/assessment-results/page.tsx:37-67 | Nothing without an assessment or user. Otherwise one bucket per rater type for the user's responses |
| SelfResultsPage.CountsPartition | app/dashboard/employee/assessment-results/page.tsx:52-55 | The four counts add up to the responses of a known type |
| SelfResultsPage.BucketCountsAddUp | app/dashboard/employee/assessment-results/page.tsx:49-56 | Bucket counts add up to the responses of a known type, at most all responses |
| SelfResultsPage.BucketAverageOnScale | app/dashboard/employee/assessment-results/page.tsx:60-62 | A non-empty bucket of 1..5 answers averages in 1..5 |
| Seqs.Filter | lib/db.ts:128 | `filter` keeps only elements passing the test, all taken from the input |
| Seqs.FilterMembership | lib/db.ts:128 | An element survives a filter exactly when it is in the input and passes |
| Seqs.Find | lib/db.ts:111 | `find` returns the first element passing the test, or none |
| Seqs.FilterHeadIsFind | lib/db.ts:245-253 | `filter(...)[0]` is what `find` returns |
| Seqs.IndexOf | app/dashboard/employee/assessment/page.tsx:90-92 | `findIndex` is the first passing position, or -1 |
| Seqs.UpdateFirst | lib/db.ts:120-125 | Only the first passing element is updated; with none, nothing changes |
| Seqs.Upsert | lib/db.ts:287-295 | The element at the first passing index is replaced and nothing else changes; with none, the element is appended |
| Seqs.UpsertTwice | lib/db.ts:287-295 | A second upsert under the same test overrides the first |
| Seqs.UpsertFindsNew | lib/db.ts:287-295 | After an upsert, the lookup finds the new element |
| Seqs.Toggle | app/dashboard/admin/hierarchy/page.tsx:67 | The id is in the result exactly when it was not in the input; other ids are kept |
| Seqs.ToggleTwiceShape | app/dashboard/admin/peer-assignment/page.tsx:49 | Toggling twice moves a present id to the end and leaves an absent one absent |
| Seqs.ToggleTwiceRestores | app/dashboard/admin/peer-assignment/page.tsx:49 | Toggling twice restores the list exactly when the id was absent or present once, at the end |
| Seqs.ToggleKeepsNoDuplicates | app/dashboard/admin/peer-assignment/page.tsx:49 | A toggle never introduces a duplicate |
| Seqs.ToggleTwiceSameIds | app/dashboard/admin/hierarchy/page.tsx:67 | For a duplicate-free list, toggling twice keeps the same ids |
| Text.Utf16 | lib/utils/matching.ts:7-8 | `charCodeAt` over the text gives one or two code units per character |
| Text.Utf16Concat | lib/utils/matching.ts:5 | The code units of a concatenation are the concatenated code units |
| Text.Trim | app/dashboard/hr-development/competencies/page.tsx:48 | `trim()` is the middle slice without whitespace at either end, with only whitespace removed |
| Text.TrimEmptyIffBlank | app/dashboard/hr-development/competencies/page.tsx:27-28 | `trim() !== ""` exactly when the text has a non-whitespace character |
| Text.Split | components/common/breadcrumb.tsx:39 | `split` gives at least one piece, none containing the separator |
| Text.SplitCount | app/dashboard/hr-development/competencies/page.tsx:48 | One piece more than separators |
| Text.SplitJoin | app/dashboard/hr-development/competencies/page.tsx:48 | Joining the pieces with the separator gives the text back |
| Text.SplitOfJoin | app/dashboard/hr-development/competencies/page.tsx:48 | Splitting separator-free pieces joined by the separator gives the pieces back |
| Text.SplitHasContent | components/common/breadcrumb.tsx:39 | Some piece is non-empty exactly when the text has a character other than the separator |
| Text.Capitalize | components/common/breadcrumb.tsx:49 | The first character is upper-cased and the rest kept |

## Left out

- Persistence in localStorage (`loadFromStorage`, `saveToStorage`, the JSON round trip) and the browser's `currentUser` entry are not modelled. The store starts from the default accounts (lib/db.ts:91-104), and the session is a field or a parameter. So the model does not capture that an in-place `Object.assign` through a page's list (the hierarchy save) reaches storage only at the next save of any collection.
- Aliasing between a page's list and the store's array is not modelled. Where a page reads its list, the model reads the store, because the list is the store's own array, handed out by reference and reloaded after each change. The users page is the exception: `UsersForm.users` is the list it last loaded, it checks new usernames against that list, and its handlers only promise that a list in step with the store stays in step. The 500 ms polling of the hierarchy and peer pages is left out for the same reason.
- `Date.now()` ids, `new Date()` timestamps and date parsing are parameters. Dates are whole days, and an unparsable date is not modelled.
- `Math.random()` in the resignation reason is the `draw` parameter. `generateScores` on the employee results page is random display data and is not part of this model.
- Floating point is modelled as exact reals; `Math.round(x)` is floor(x + 0.5). NaN, infinities and fractional weights are not modelled (weights are integers).
- Key order of `Object.values` is modelled as first-insertion order. Numeric-looking keys, which JavaScript enumerates first, and keys inherited from `Object.prototype` (such as a question id "constructor") are not modelled.
- `Partial<T>` updates through `Object.assign` are patches with one optional value per field. Properties that are not fields of the entity are not modelled.
- Toasts, alerts, `console.log`, the confirmation modals' rendering, router navigation (a `route` field) and all rendering are left out. So are the summary, riwayat, dashboard and user-management display pages, the sidebar and the navbar.
- The breadcrumb's React keys and markup are not modelled; the model stops at the list of crumbs and whether it is shown.
- Text.Capitalize: upper-cases ASCII letters only; `toUpperCase` on other characters, including letters whose capital is two characters, is not modelled.
- AssessmentHelper.CalculateAverageScore: requires every response to have answers. A response without answers divides by zero and gives NaN in the source, which exact reals cannot represent.
- SelfResultsPage.CalculateScoresByRaterType: requires every response to have answers, for the same NaN reason.
- AssessmentHelper.GetJuryForEmployee: `self` holds the lookup result as an option, so an unknown self id gives a list with one missing user, as `[db.getUserById(id)]` does. The model does not say more about it.
- Wrong input types from the untyped JSON (a missing `juries` or `answers` field) are not modelled; every record has all its fields.
- The status life cycle of assessments is not modelled beyond creation. Nothing in the core changes a status, and RatingPage.CreatedAssessmentsAreNotOffered records that created assessments ("sedang berjalan") never match the rating page's "Ongoing" filter.
- The job form's button check leaves the criteria out. The criteria test stands as a separate statement after the assignment (jobs/page.tsx:29), and JobsPage.SubmitEnabled follows the code in this.

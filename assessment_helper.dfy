/**
 * The 360-degree assessment helpers of lib/utils/assessment-helper.ts: jury
 * construction from the hierarchy table with same-supervisor peers, the
 * rater-to-ratee lookup, the received-response split, jury resolution to user
 * records, the targets a rater may assess, and the rounded average score.
 * Functions that only consult the hierarchy table take that table as a value;
 * the others read the store.
 */
module AssessmentHelper {
  import opened Wrappers
  import opened Types
  import opened Seqs
  import opened Store

  // Hierarchy reads: `db.getHierarchyByEmployee(id)[0]` and its supervisor.

  /** `db.getHierarchyByEmployee(employeeId)[0]`: the employee's first hierarchy record, if any. */
  function FirstHierarchy(hierarchy: seq<HierarchyAssignment>, employeeId: string): (r: Option<HierarchyAssignment>)
    ensures IsFirstMatch(hierarchy, HierarchyOf(employeeId), r)
  {
    var mine := Filter(hierarchy, HierarchyOf(employeeId));
    FilterHeadIsFind(hierarchy, HierarchyOf(employeeId));
    if mine == [] then None else Some(mine[0])
  }

  /** `hierarchy?.supervisorId`: the supervisor field of the first record, absent when there is no record. */
  function RecordedSupervisor(hierarchy: seq<HierarchyAssignment>, employeeId: string): Option<string>
  {
    var h := FirstHierarchy(hierarchy, employeeId);
    if h.None? then None else h.value.supervisorId
  }

  /** `hierarchy?.supervisorId` read as a condition: present only when set and not the empty string. */
  function SupervisorOf(hierarchy: seq<HierarchyAssignment>, employeeId: string): (r: Option<string>)
    ensures r.Some? ==> r.value != "" && RecordedSupervisor(hierarchy, employeeId) == r
    ensures r.None? ==> RecordedSupervisor(hierarchy, employeeId) == None || RecordedSupervisor(hierarchy, employeeId) == Some("")
  {
    var s := RecordedSupervisor(hierarchy, employeeId);
    if s.Some? && s.value != "" then s else None
  }

  /** `hierarchy?.supervisorId ? [hierarchy.supervisorId] : []`. */
  function UpwardOf(hierarchy: seq<HierarchyAssignment>, employeeId: string): (r: seq<string>)
    ensures |r| <= 1
    ensures r == [] <==> SupervisorOf(hierarchy, employeeId).None?
    ensures r != [] ==> (r[0] != "" && FirstHierarchy(hierarchy, employeeId).Some?
                         && FirstHierarchy(hierarchy, employeeId).value.supervisorId == Some(r[0]))
  {
    var s := SupervisorOf(hierarchy, employeeId);
    if s.Some? then [s.value] else []
  }

  /** `hierarchy?.subordinateIds || []`. */
  function DownwardOf(hierarchy: seq<HierarchyAssignment>, employeeId: string): seq<string>
  {
    var h := FirstHierarchy(hierarchy, employeeId);
    if h.None? then [] else h.value.subordinateIds
  }

  // Peers by shared supervisor.

  function SharesSupervisor(hierarchy: seq<HierarchyAssignment>, employeeId: string, supervisorId: string): string -> bool
  {
    (id: string) => id != employeeId && RecordedSupervisor(hierarchy, id) == Some(supervisorId)
  }

  /**
   * `getPeersForEmployee`: nobody when the employee has no supervisor; otherwise
   * the other listed ids, in list order, whose first hierarchy record names the
   * same supervisor.
   */
  function GetPeersForEmployee(hierarchy: seq<HierarchyAssignment>, employeeId: string, allEmployeeIds: seq<string>): (r: seq<string>)
    ensures SupervisorOf(hierarchy, employeeId).None? ==> r == []
    ensures |r| <= |allEmployeeIds|
    ensures forall i :: 0 <= i < |r| ==> r[i] != employeeId && r[i] in allEmployeeIds
    ensures forall id :: id in r <==>
              id in allEmployeeIds && id != employeeId && SupervisorOf(hierarchy, employeeId).Some?
              && RecordedSupervisor(hierarchy, id) == SupervisorOf(hierarchy, employeeId)
  {
    var s := SupervisorOf(hierarchy, employeeId);
    if s.None? then []
    else
      forall id {
        FilterMembership(allEmployeeIds, SharesSupervisor(hierarchy, employeeId, s.value), id);
      }
      Filter(allEmployeeIds, SharesSupervisor(hierarchy, employeeId, s.value))
  }

  /** An id is a peer exactly when it is another listed id under the employee's (present) supervisor. */
  lemma PeersMembership(hierarchy: seq<HierarchyAssignment>, employeeId: string, allEmployeeIds: seq<string>, id: string)
    ensures id in GetPeersForEmployee(hierarchy, employeeId, allEmployeeIds)
        <==> id in allEmployeeIds && id != employeeId && SupervisorOf(hierarchy, employeeId).Some?
             && RecordedSupervisor(hierarchy, id) == SupervisorOf(hierarchy, employeeId)
  {
    var s := SupervisorOf(hierarchy, employeeId);
    if s.Some? {
      FilterMembership(allEmployeeIds, SharesSupervisor(hierarchy, employeeId, s.value), id);
    }
  }

  /** Being peers is symmetric among the listed ids, and colleagues under one supervisor are peers. */
  lemma PeersSymmetric(hierarchy: seq<HierarchyAssignment>, allEmployeeIds: seq<string>, a: string, b: string)
    requires a in allEmployeeIds && b in allEmployeeIds
    ensures b in GetPeersForEmployee(hierarchy, a, allEmployeeIds) <==> a in GetPeersForEmployee(hierarchy, b, allEmployeeIds)
    ensures a != b && SupervisorOf(hierarchy, a).Some? && SupervisorOf(hierarchy, a) == SupervisorOf(hierarchy, b)
            ==> b in GetPeersForEmployee(hierarchy, a, allEmployeeIds)
  {
    PeersMembership(hierarchy, a, allEmployeeIds, b);
    PeersMembership(hierarchy, b, allEmployeeIds, a);
  }

  /**
   * The jury `generateAssessmentJuries` builds for one ratee: not yet tied to an
   * assessment, self-rated, upward and downward from the ratee's first hierarchy
   * record, peers the same-supervisor colleagues among all the ids.
   */
  function HelperJury(hierarchy: seq<HierarchyAssignment>, rateeId: string, allEmployeeIds: seq<string>): Jury
  {
    Jury("", rateeId, RaterIds(
      rateeId,
      UpwardOf(hierarchy, rateeId),
      DownwardOf(hierarchy, rateeId),
      GetPeersForEmployee(hierarchy, rateeId, allEmployeeIds)))
  }

  /** `generateAssessmentJuries`: one jury per id, in input order. */
  method GenerateAssessmentJuries(db: Database, employeeIds: seq<string>) returns (juries: seq<Jury>)
    ensures |juries| == |employeeIds|
    ensures forall i :: 0 <= i < |juries| ==> juries[i] == HelperJury(db.hierarchyAssignments, employeeIds[i], employeeIds)
  {
    var hierarchy := db.hierarchyAssignments;
    juries := [];
    for i := 0 to |employeeIds|
      invariant |juries| == i
      invariant forall k :: 0 <= k < i ==> juries[k] == HelperJury(hierarchy, employeeIds[k], employeeIds)
    {
      var rateeId := employeeIds[i];
      var upward := UpwardOf(hierarchy, rateeId);
      var downward := DownwardOf(hierarchy, rateeId);
      var peer := GetPeersForEmployee(hierarchy, rateeId, employeeIds);
      var jury := Jury("", rateeId, RaterIds(rateeId, upward, downward, peer));
      assert jury == HelperJury(hierarchy, rateeId, employeeIds);
      var prev := juries;
      juries := juries + [jury];
      assert forall k :: 0 <= k < i ==> juries[k] == prev[k];
    }
  }

  /** Each helper-built jury rates the ratee by themself and never lists the ratee as their own peer. */
  lemma HelperJuryShape(hierarchy: seq<HierarchyAssignment>, rateeId: string, allEmployeeIds: seq<string>)
    ensures HelperJury(hierarchy, rateeId, allEmployeeIds).raterIds.self == rateeId
    ensures rateeId !in HelperJury(hierarchy, rateeId, allEmployeeIds).raterIds.peer
    ensures |HelperJury(hierarchy, rateeId, allEmployeeIds).raterIds.upward| <= 1
    ensures SupervisorOf(hierarchy, rateeId).None? ==> HelperJury(hierarchy, rateeId, allEmployeeIds).raterIds.peer == []
  {
  }

  // Who a rater has to assess.

  /** An entry of `getAssignedRatees`: a ratee and the relationship under which it is rated. */
  datatype AssignedRatee = AssignedRatee(id: string, raterType: string)

  /** `raterId` occupies slot `raterType` of a jury. */
  predicate InSlot(ids: RaterIds, raterType: string, raterId: string)
  {
    || (raterType == SELF && ids.self == raterId)
    || (raterType == UPWARD && raterId in ids.upward)
    || (raterType == DOWNWARD && raterId in ids.downward)
    || (raterType == PEER && raterId in ids.peer)
  }

  /** What one jury contributes: self, upward, downward, peer, in that order. */
  function EntriesFor(jury: Jury, raterId: string): (r: seq<AssignedRatee>)
    ensures |r| <= 4
  {
    (if jury.raterIds.self == raterId then [AssignedRatee(jury.rateeId, SELF)] else [])
    + (if raterId in jury.raterIds.upward then [AssignedRatee(jury.rateeId, UPWARD)] else [])
    + (if raterId in jury.raterIds.downward then [AssignedRatee(jury.rateeId, DOWNWARD)] else [])
    + (if raterId in jury.raterIds.peer then [AssignedRatee(jury.rateeId, PEER)] else [])
  }

  lemma EntriesForMembership(jury: Jury, raterId: string, rateeId: string, raterType: string)
    ensures AssignedRatee(rateeId, raterType) in EntriesFor(jury, raterId)
        <==> jury.rateeId == rateeId && InSlot(jury.raterIds, raterType, raterId)
  {
    assert SELF != UPWARD && SELF != DOWNWARD && SELF != PEER;
    assert UPWARD != DOWNWARD && UPWARD != PEER && DOWNWARD != PEER;
  }

  /** The entries of the juries in order, with no deduplication. */
  function AssignmentsIn(juries: seq<Jury>, raterId: string): seq<AssignedRatee>
  {
    if juries == [] then []
    else AssignmentsIn(juries[..|juries| - 1], raterId) + EntriesFor(juries[|juries| - 1], raterId)
  }

  /** Some jury for `rateeId` has `raterId` in slot `raterType`. */
  predicate RatedIn(juries: seq<Jury>, raterId: string, rateeId: string, raterType: string)
  {
    exists i :: 0 <= i < |juries| && juries[i].rateeId == rateeId && InSlot(juries[i].raterIds, raterType, raterId)
  }

  lemma RatedInSnoc(juries: seq<Jury>, raterId: string, rateeId: string, raterType: string)
    requires juries != []
    ensures RatedIn(juries, raterId, rateeId, raterType)
        <==> RatedIn(juries[..|juries| - 1], raterId, rateeId, raterType)
             || (juries[|juries| - 1].rateeId == rateeId && InSlot(juries[|juries| - 1].raterIds, raterType, raterId))
  {
    var n := |juries| - 1;
    if RatedIn(juries, raterId, rateeId, raterType) {
      var i :| 0 <= i < |juries| && juries[i].rateeId == rateeId && InSlot(juries[i].raterIds, raterType, raterId);
      if i < n {
        assert juries[..n][i] == juries[i];
      }
    }
    if RatedIn(juries[..n], raterId, rateeId, raterType) {
      var i :| 0 <= i < n && juries[..n][i].rateeId == rateeId && InSlot(juries[..n][i].raterIds, raterType, raterId);
      assert juries[i] == juries[..n][i];
    }
  }

  /** `(Y, t)` is listed exactly when the rater occupies slot `t` of a jury for `Y`. */
  lemma {:induction false} AssignmentsInMembership(juries: seq<Jury>, raterId: string, rateeId: string, raterType: string)
    ensures AssignedRatee(rateeId, raterType) in AssignmentsIn(juries, raterId)
        <==> exists i :: 0 <= i < |juries| && juries[i].rateeId == rateeId && InSlot(juries[i].raterIds, raterType, raterId)
  {
    if juries != [] {
      var n := |juries| - 1;
      AssignmentsInMembership(juries[..n], raterId, rateeId, raterType);
      EntriesForMembership(juries[n], raterId, rateeId, raterType);
      RatedInSnoc(juries, raterId, rateeId, raterType);
      assert AssignmentsIn(juries, raterId) == AssignmentsIn(juries[..n], raterId) + EntriesFor(juries[n], raterId);
    }
  }

  /** `getAssignedRatees`: nothing for an unknown assessment, otherwise the entries of its juries in order. */
  method GetAssignedRatees(db: Database, assessmentId: string, raterId: string) returns (ratees: seq<AssignedRatee>)
    ensures db.GetAssessmentById(assessmentId).None? ==> ratees == []
    ensures db.GetAssessmentById(assessmentId).Some? ==>
              ratees == AssignmentsIn(db.GetAssessmentById(assessmentId).value.juries, raterId)
  {
    var assessment := db.GetAssessmentById(assessmentId);
    if assessment.None? {
      return [];
    }
    var juries := assessment.value.juries;
    ratees := [];
    for i := 0 to |juries|
      invariant ratees == AssignmentsIn(juries[..i], raterId)
    {
      var jury := juries[i];
      var entries := [];
      if jury.raterIds.self == raterId {
        entries := entries + [AssignedRatee(jury.rateeId, SELF)];
      }
      if raterId in jury.raterIds.upward {
        entries := entries + [AssignedRatee(jury.rateeId, UPWARD)];
      }
      if raterId in jury.raterIds.downward {
        entries := entries + [AssignedRatee(jury.rateeId, DOWNWARD)];
      }
      if raterId in jury.raterIds.peer {
        entries := entries + [AssignedRatee(jury.rateeId, PEER)];
      }
      assert entries == EntriesFor(jury, raterId);
      ratees := ratees + entries;
      assert juries[..i + 1][..i] == juries[..i];
    }
    assert juries[..|juries|] == juries;
  }

  // Averages.

  /** `Math.round(x)`: the nearest integer, halves rounded up. */
  function Round(x: real): (r: int)
    ensures r as real - 0.5 <= x < r as real + 0.5
  {
    (x + 0.5).Floor
  }

  /** `Math.round(x * 10) / 10`: a whole number of tenths, the nearest one to `x` with halves rounded up. */
  function Round1(x: real): (r: real)
    ensures (r * 10.0).Floor as real == r * 10.0
    ensures r - 0.05 <= x < r + 0.05
  {
    Round(x * 10.0) as real / 10.0
  }

  /** The two clauses of `Round1` pin it down: the only whole number of tenths within the half-open 0.05 band. */
  lemma Round1IsNearestTenth(x: real, tenths: int)
    requires tenths as real / 10.0 - 0.05 <= x < tenths as real / 10.0 + 0.05
    ensures Round1(x) == tenths as real / 10.0
  {
    assert tenths as real - 0.5 <= x * 10.0 < tenths as real + 0.5;
    assert Round(x * 10.0) == tenths;
  }

  /** 3.75 rounds up to 3.8, and 3.74 down to 3.7. */
  lemma Round1Examples()
    ensures Round1(3.75) == 3.8 && Round1(3.74) == 3.7 && Round1(4.0) == 4.0
  {
    Round1IsNearestTenth(3.75, 38);
    Round1IsNearestTenth(3.74, 37);
    Round1IsNearestTenth(4.0, 40);
  }

  lemma RoundMonotone(x: real, y: real)
    requires x <= y
    ensures Round(x) <= Round(y)
  {
  }

  /** Rounding to one decimal keeps a value inside bounds that are themselves whole numbers. */
  lemma Round1Within(x: real, lo: int, hi: int)
    requires lo as real <= x <= hi as real
    ensures lo as real <= Round1(x) <= hi as real
  {
    RoundMonotone(lo as real * 10.0, x * 10.0);
    RoundMonotone(x * 10.0, hi as real * 10.0);
    assert Round(lo as real * 10.0) == lo * 10;
    assert Round(hi as real * 10.0) == hi * 10;
  }

  function Scores(answers: seq<Answer>): (r: seq<int>)
    ensures |r| == |answers|
    ensures forall i :: 0 <= i < |r| ==> r[i] == answers[i].score
  {
    if answers == [] then [] else Scores(answers[..|answers| - 1]) + [answers[|answers| - 1].score]
  }

  /** A response's mean answer score; JavaScript gives NaN for a response without answers. */
  function ResponseMean(r: Response): real
    requires r.answers != []
  {
    Sum(Scores(r.answers)) as real / |r.answers| as real
  }

  predicate HasAnswers(responses: seq<Response>)
  {
    forall i :: 0 <= i < |responses| ==> responses[i].answers != []
  }

  function ResponseMeans(responses: seq<Response>): (r: seq<real>)
    requires HasAnswers(responses)
    ensures |r| == |responses|
    ensures forall i :: 0 <= i < |r| ==> r[i] == ResponseMean(responses[i])
  {
    if responses == [] then []
    else ResponseMeans(responses[..|responses| - 1]) + [ResponseMean(responses[|responses| - 1])]
  }

  /** `calculateAverageScore`: 0 for no responses, else the mean of the response means to one decimal. */
  function CalculateAverageScore(responses: seq<Response>): (r: real)
    requires HasAnswers(responses)
    ensures responses == [] ==> r == 0.0
    ensures (r * 10.0).Floor as real == r * 10.0
    ensures responses != [] ==>
              var mean := SumReal(ResponseMeans(responses)) / |responses| as real;
              r - 0.05 <= mean < r + 0.05
  {
    if |responses| == 0 then 0.0
    else Round1(SumReal(ResponseMeans(responses)) / |responses| as real)
  }

  /** All scores in `[lo, hi]` give a mean in `[lo, hi]`. */
  lemma {:induction false} MeanBounds(xs: seq<int>, lo: int, hi: int)
    requires xs != []
    requires forall i :: 0 <= i < |xs| ==> lo <= xs[i] <= hi
    ensures lo as real <= Sum(xs) as real / |xs| as real <= hi as real
  {
    SumBounds(xs, lo, hi);
  }

  lemma {:induction false} SumBounds(xs: seq<int>, lo: int, hi: int)
    requires forall i :: 0 <= i < |xs| ==> lo <= xs[i] <= hi
    ensures |xs| * lo <= Sum(xs) <= |xs| * hi
  {
    if xs != [] {
      SumBounds(xs[..|xs| - 1], lo, hi);
    }
  }

  /** Answers scored on the 1..5 scale give an average score in 1..5. */
  lemma AverageScoreOnScale(responses: seq<Response>)
    requires HasAnswers(responses) && responses != []
    requires forall i, j :: 0 <= i < |responses| && 0 <= j < |responses[i].answers| ==> 1 <= responses[i].answers[j].score <= 5
    ensures 1.0 <= CalculateAverageScore(responses) <= 5.0
  {
    var means := ResponseMeans(responses);
    forall i | 0 <= i < |means| ensures 1.0 <= means[i] <= 5.0 {
      MeanBounds(Scores(responses[i].answers), 1, 5);
    }
    SumRealBounds(means, 1.0, 5.0);
    DivideBounds(SumReal(means), |responses| as real, 1.0, 5.0);
    Round1Within(SumReal(means) / |responses| as real, 1, 5);
  }

  lemma DivideBounds(s: real, n: real, lo: real, hi: real)
    requires n > 0.0 && n * lo <= s <= n * hi
    ensures lo <= s / n <= hi
  {
    assert s / n * n == s;
  }

  // Received responses, split by rater type.

  /** A response with the name and status of its assessment attached. */
  datatype ReceivedResponse = ReceivedResponse(response: Response, assessmentName: string, assessmentStatus: string)

  datatype ReceivedGroups = ReceivedGroups(
    self: seq<ReceivedResponse>, upward: seq<ReceivedResponse>,
    downward: seq<ReceivedResponse>, peer: seq<ReceivedResponse>)

  /** The assessment's responses about the employee, tagged with the assessment's name and status. */
  function Tagged(a: Assessment, employeeId: string): (r: seq<ReceivedResponse>)
    ensures forall i :: 0 <= i < |r| ==>
              r[i].response.rateeId == employeeId && r[i].assessmentName == a.name && r[i].assessmentStatus == a.status
    ensures |r| == |Filter(a.responses, ResponseRateeIs(employeeId))|
    ensures forall i :: 0 <= i < |r| ==>
              r[i] == ReceivedResponse(Filter(a.responses, ResponseRateeIs(employeeId))[i], a.name, a.status)
  {
    var mine := Filter(a.responses, ResponseRateeIs(employeeId));
    seq(|mine|, i requires 0 <= i < |mine| => ReceivedResponse(mine[i], a.name, a.status))
  }

  /** `assessments.flatMap(...)`: every assessment's tagged responses, in assessment order. */
  function ReceivedIn(assessments: seq<Assessment>, employeeId: string): (r: seq<ReceivedResponse>)
    ensures forall i :: 0 <= i < |r| ==> r[i].response.rateeId == employeeId
  {
    if assessments == [] then []
    else ReceivedIn(assessments[..|assessments| - 1], employeeId) + Tagged(assessments[|assessments| - 1], employeeId)
  }

  /** Every response about the employee in any assessment is received, tagged with that assessment. */
  lemma {:induction false} ReceivedInComplete(assessments: seq<Assessment>, employeeId: string, i: int, j: int)
    requires 0 <= i < |assessments| && 0 <= j < |assessments[i].responses|
    requires assessments[i].responses[j].rateeId == employeeId
    ensures ReceivedResponse(assessments[i].responses[j], assessments[i].name, assessments[i].status)
            in ReceivedIn(assessments, employeeId)
  {
    var n := |assessments| - 1;
    var a := assessments[i];
    if i == n {
      var mine := Filter(a.responses, ResponseRateeIs(employeeId));
      FilterMembership(a.responses, ResponseRateeIs(employeeId), a.responses[j]);
      var k :| 0 <= k < |mine| && mine[k] == a.responses[j];
      assert Tagged(a, employeeId)[k] == ReceivedResponse(a.responses[j], a.name, a.status);
    } else {
      assert assessments[..n][i] == a;
      ReceivedInComplete(assessments[..n], employeeId, i, j);
    }
  }

  function RaterTypeIs(t: string): ReceivedResponse -> bool
  {
    (x: ReceivedResponse) => x.response.raterType == t
  }

  function KnownRaterType(): ReceivedResponse -> bool
  {
    (x: ReceivedResponse) => IsKnownRaterType(x.response.raterType)
  }

  /** `getReceivedAssessments`: the employee's received responses across all assessments, split by rater type. */
  function GetReceivedAssessments(db: Database, employeeId: string): (r: ReceivedGroups)
    reads db
    ensures forall i :: 0 <= i < |r.self| ==> r.self[i].response.raterType == SELF
    ensures forall i :: 0 <= i < |r.upward| ==> r.upward[i].response.raterType == UPWARD
    ensures forall i :: 0 <= i < |r.downward| ==> r.downward[i].response.raterType == DOWNWARD
    ensures forall i :: 0 <= i < |r.peer| ==> r.peer[i].response.raterType == PEER
    ensures multiset(r.self + r.upward + r.downward + r.peer)
         == multiset(Filter(ReceivedIn(db.assessments, employeeId), KnownRaterType()))
  {
    var all := ReceivedIn(db.assessments, employeeId);
    SplitByRaterType(all);
    ReceivedGroups(Filter(all, RaterTypeIs(SELF)), Filter(all, RaterTypeIs(UPWARD)),
                   Filter(all, RaterTypeIs(DOWNWARD)), Filter(all, RaterTypeIs(PEER)))
  }

  /** The four rater-type filters partition the responses of a known type: each lands in exactly one list. */
  lemma SplitByRaterType(xs: seq<ReceivedResponse>)
    ensures multiset(Filter(xs, RaterTypeIs(SELF)) + Filter(xs, RaterTypeIs(UPWARD))
                     + Filter(xs, RaterTypeIs(DOWNWARD)) + Filter(xs, RaterTypeIs(PEER)))
         == multiset(Filter(xs, KnownRaterType()))
  {
    assert SELF != UPWARD && SELF != DOWNWARD && SELF != PEER;
    assert UPWARD != DOWNWARD && UPWARD != PEER && DOWNWARD != PEER;
    FilterPartition(xs, RaterTypeIs(SELF), RaterTypeIs(UPWARD), RaterTypeIs(DOWNWARD), RaterTypeIs(PEER), KnownRaterType());
  }

  // Resolving a jury to user records.

  /** `db.getUserById`, as a function of the id. */
  function UserLookup(users: seq<User>): string -> Option<User>
  {
    (id: string) => Find(users, UserIdIs(id))
  }

  /** The keys for which `lookup` finds something. */
  function Found<K, V>(lookup: K -> Option<V>): K -> bool
  {
    (k: K) => lookup(k).Some?
  }

  /**
   * `ids.map((id) => db.getUserById(id)).filter(Boolean)`: the users the ids
   * resolve to, unknown ids dropped: entry i is the user of the i-th id that
   * resolves.
   */
  function ResolveUsers(users: seq<User>, ids: seq<string>): (r: seq<User>)
    ensures |r| == |Filter(ids, Found(UserLookup(users)))| <= |ids|
    ensures forall i :: 0 <= i < |r| ==> UserLookup(users)(Filter(ids, Found(UserLookup(users)))[i]) == Some(r[i])
    ensures forall i :: 0 <= i < |r| ==> r[i] in users
    ensures forall i :: 0 <= i < |ids| && Find(users, UserIdIs(ids[i])).Some? ==> Find(users, UserIdIs(ids[i])).value in r
    ensures (forall i :: 0 <= i < |ids| ==> Find(users, UserIdIs(ids[i])).Some?) ==> |r| == |ids|
  {
    if ids == [] then []
    else
      var rest := ResolveUsers(users, ids[1..]);
      var u := Find(users, UserIdIs(ids[0]));
      var r := if u.Some? then [u.value] + rest else rest;
      ResolveStep(UserLookup(users), ids, rest, r);
      ResolveUsersCoverStep(users, ids, rest, r);
      r
  }

  /** One step of a `map(lookup).filter(Boolean)`: the first key's value, when found, goes in front of the rest's. */
  lemma ResolveStep<K, V>(lookup: K -> Option<V>, ids: seq<K>, rest: seq<V>, r: seq<V>)
    requires ids != []
    requires |rest| == |Filter(ids[1..], Found(lookup))|
    requires forall i :: 0 <= i < |rest| ==> lookup(Filter(ids[1..], Found(lookup))[i]) == Some(rest[i])
    requires r == if lookup(ids[0]).Some? then [lookup(ids[0]).value] + rest else rest
    ensures |r| == |Filter(ids, Found(lookup))|
    ensures forall i :: 0 <= i < |r| ==> lookup(Filter(ids, Found(lookup))[i]) == Some(r[i])
  {
    var tail := Filter(ids[1..], Found(lookup));
    var found := Filter(ids, Found(lookup));
    assert found == (if Found(lookup)(ids[0]) then [ids[0]] else []) + tail;
    assert Found(lookup)(ids[0]) == lookup(ids[0]).Some?;
    forall i | 0 <= i < |r|
      ensures lookup(found[i]) == Some(r[i])
    {
      if lookup(ids[0]).Some? {
        if i > 0 {
          assert found[i] == tail[i - 1] && r[i] == rest[i - 1];
        }
      } else {
        assert found[i] == tail[i] && r[i] == rest[i];
      }
    }
  }

  /** One step of `ResolveUsers`: the user of every resolvable id is kept. */
  lemma ResolveUsersCoverStep(users: seq<User>, ids: seq<string>, rest: seq<User>, r: seq<User>)
    requires ids != []
    requires forall i :: 0 <= i < |ids[1..]| && Find(users, UserIdIs(ids[1..][i])).Some? ==> Find(users, UserIdIs(ids[1..][i])).value in rest
    requires var u := Find(users, UserIdIs(ids[0])); r == if u.Some? then [u.value] + rest else rest
    ensures forall i :: 0 <= i < |ids| && Find(users, UserIdIs(ids[i])).Some? ==> Find(users, UserIdIs(ids[i])).value in r
  {
    forall i | 1 <= i < |ids| && Find(users, UserIdIs(ids[i])).Some?
      ensures Find(users, UserIdIs(ids[i])).value in r
    {
      assert ids[i] == ids[1..][i - 1];
    }
  }

  /** What `getJuryForEmployee` returns: `self` holds the lookup result even when it found nobody. */
  datatype JuryMembers = JuryMembers(self: seq<Option<User>>, upward: seq<User>, downward: seq<User>, peer: seq<User>)

  /** `getJuryForEmployee`: nothing for an unknown assessment or ratee; otherwise the jury resolved to users. */
  function GetJuryForEmployee(db: Database, assessmentId: string, employeeId: string): (r: Option<JuryMembers>)
    reads db
    ensures r.None? <==> db.GetJuriesByRatee(assessmentId, employeeId).None?
    ensures r.Some? ==>
              var ids := db.GetJuriesByRatee(assessmentId, employeeId).value.raterIds;
              && r.value.self == (if ids.self != "" then [db.GetUserById(ids.self)] else [])
              && r.value.upward == ResolveUsers(db.users, ids.upward)
              && r.value.downward == ResolveUsers(db.users, ids.downward)
              && r.value.peer == ResolveUsers(db.users, ids.peer)
  {
    var jury := db.GetJuriesByRatee(assessmentId, employeeId);
    if jury.None? then None
    else
      var ids := jury.value.raterIds;
      Some(JuryMembers(
        if ids.self != "" then [db.GetUserById(ids.self)] else [],
        ResolveUsers(db.users, ids.upward),
        ResolveUsers(db.users, ids.downward),
        ResolveUsers(db.users, ids.peer)))
  }

  // The targets a rater may assess.

  datatype Target = Target(id: string, name: string)

  datatype Targets = Targets(self: Target, supervisors: seq<Target>, subordinates: seq<Target>, peers: seq<Target>)

  /** `db.getUserById(id)?.name || fallback`. */
  function NameOr(users: seq<User>, id: string, fallback: string): string
  {
    var u := Find(users, UserIdIs(id));
    if u.Some? && u.value.name != "" then u.value.name else fallback
  }

  function TargetsFor(users: seq<User>, ids: seq<string>, fallback: string): (r: seq<Target>)
    ensures |r| == |ids|
    ensures forall i :: 0 <= i < |r| ==> r[i].id == ids[i] && r[i].name == NameOr(users, ids[i], fallback)
  {
    seq(|ids|, i requires 0 <= i < |ids| => Target(ids[i], NameOr(users, ids[i], fallback)))
  }

  function TargetIds(targets: seq<Target>): (r: seq<string>)
    ensures |r| == |targets| && forall i :: 0 <= i < |r| ==> r[i] == targets[i].id
  {
    seq(|targets|, i requires 0 <= i < |targets| => targets[i].id)
  }

  /**
   * `getAssessableTargets`: nothing (`{}`) for an unknown assessment; otherwise
   * the employee, their supervisor and subordinates as in the jury's upward and
   * downward lists, and no peers.
   */
  function GetAssessableTargets(db: Database, employeeId: string, assessmentId: string): (r: Option<Targets>)
    reads db
    ensures r.None? <==> db.GetAssessmentById(assessmentId).None?
    ensures r.Some? ==>
              && r.value.self == Target(employeeId, NameOr(db.users, employeeId, "Self"))
              && r.value.supervisors == TargetsFor(db.users, UpwardOf(db.hierarchyAssignments, employeeId), "Supervisor")
              && r.value.subordinates == TargetsFor(db.users, DownwardOf(db.hierarchyAssignments, employeeId), "Unknown")
              && r.value.peers == []
  {
    if db.GetAssessmentById(assessmentId).None? then None
    else
      var hierarchy := FirstHierarchy(db.hierarchyAssignments, employeeId);
      var supervisor := SupervisorOf(db.hierarchyAssignments, employeeId);
      Some(Targets(
        Target(employeeId, NameOr(db.users, employeeId, "Self")),
        if supervisor.Some? then [Target(supervisor.value, NameOr(db.users, supervisor.value, "Supervisor"))] else [],
        if hierarchy.Some? then TargetsFor(db.users, hierarchy.value.subordinateIds, "Unknown") else [],
        []))
  }

  /**
   * The targets of a rater are the ratee's own jury as `generateAssessmentJuries`
   * builds it: self, the upward list and the downward list, with no peers.
   */
  lemma TargetsAgreeWithHelperJury(db: Database, employeeId: string, assessmentId: string, allEmployeeIds: seq<string>)
    requires db.GetAssessmentById(assessmentId).Some?
    ensures var t := GetAssessableTargets(db, employeeId, assessmentId).value;
            var jury := HelperJury(db.hierarchyAssignments, employeeId, allEmployeeIds).raterIds;
            && t.self.id == jury.self
            && TargetIds(t.supervisors) == jury.upward
            && TargetIds(t.subordinates) == jury.downward
  {
    var t := GetAssessableTargets(db, employeeId, assessmentId).value;
    assert TargetIds(t.supervisors) == UpwardOf(db.hierarchyAssignments, employeeId);
    assert TargetIds(t.subordinates) == DownwardOf(db.hierarchyAssignments, employeeId);
  }
}

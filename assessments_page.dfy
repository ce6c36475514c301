/**
 * The HR assessment-creation page (app/dashboard/hr-assessment/assessments/page.tsx):
 * the form's question list and in-charge selection, the validation before the
 * confirmation dialog, and the creation of an assessment with one jury per
 * employee taken from the hierarchy and peer tables at that moment.
 */
module AssessmentsPage {
  import opened Wrappers
  import opened Types
  import opened Seqs
  import opened Text
  import opened Store
  import opened AssessmentHelper

  const FILL_ALL_FIELDS := "Please fill all required fields and add at least one question"
  const END_AFTER_START := "End date must be after start date"

  /**
   * The checks of `validateAndConfirm`. A date is `None` while its field is
   * empty; the first failing check decides the message.
   */
  function Validate(name: string, startDate: Option<int>, endDate: Option<int>, questions: seq<Question>): (r: Outcome)
    ensures r == Done <==> name != "" && startDate.Some? && endDate.Some? && questions != []
                           && startDate.value < endDate.value
    ensures r == Rejected(FILL_ALL_FIELDS) <==> name == "" || startDate.None? || endDate.None? || questions == []
    ensures r.Rejected? ==> r.message in {FILL_ALL_FIELDS, END_AFTER_START}
  {
    if name == "" || startDate.None? || endDate.None? || |questions| == 0 then Rejected(FILL_ALL_FIELDS)
    else if endDate.value <= startDate.value then Rejected(END_AFTER_START)
    else Done
  }

  /** `db.getPeerAssignmentByEmployee(id)?.peerIds || []`. */
  function PeerIdsOf(peers: seq<PeerAssignment>, employeeId: string): (r: seq<string>)
    ensures Find(peers, PeerRecordOf(employeeId)).None? ==> r == []
    ensures Find(peers, PeerRecordOf(employeeId)).Some? ==> r == Find(peers, PeerRecordOf(employeeId)).value.peerIds
  {
    var p := Find(peers, PeerRecordOf(employeeId));
    if p.None? then [] else p.value.peerIds
  }

  /** The jury the page builds for one employee. */
  function SnapshotJury(hierarchy: seq<HierarchyAssignment>, peers: seq<PeerAssignment>, assessmentId: string, rateeId: string): Jury
  {
    Jury(assessmentId, rateeId, RaterIds(rateeId, UpwardOf(hierarchy, rateeId), DownwardOf(hierarchy, rateeId), PeerIdsOf(peers, rateeId)))
  }

  /** The `juries` of `handleCreateAssessment`: one per employee, in user order, all carrying the new id. */
  function SnapshotJuries(users: seq<User>, hierarchy: seq<HierarchyAssignment>, peers: seq<PeerAssignment>, assessmentId: string): (r: seq<Jury>)
    ensures |r| == |Employees(users)|
    ensures forall i :: 0 <= i < |r| ==> r[i].assessmentId == assessmentId && r[i].rateeId == Employees(users)[i].id
    ensures forall i :: 0 <= i < |r| ==> r[i] == SnapshotJury(hierarchy, peers, assessmentId, r[i].rateeId)
  {
    var employees := Employees(users);
    seq(|employees|, i requires 0 <= i < |employees| => SnapshotJury(hierarchy, peers, assessmentId, employees[i].id))
  }

  /**
   * Each jury rates the ratee by themself; upward is the supervisor of the first
   * hierarchy record when it is set and non-empty; downward is that record's
   * subordinates; peers come only from the ratee's explicit peer record.
   */
  lemma SnapshotJuryContents(hierarchy: seq<HierarchyAssignment>, peers: seq<PeerAssignment>, assessmentId: string, rateeId: string)
    ensures var j := SnapshotJury(hierarchy, peers, assessmentId, rateeId);
            && j.raterIds.self == rateeId
            && (j.raterIds.upward != [] <==> exists s :: s != "" && RecordedSupervisor(hierarchy, rateeId) == Some(s))
            && (forall s :: s != "" && RecordedSupervisor(hierarchy, rateeId) == Some(s) ==> j.raterIds.upward == [s])
            && (FirstHierarchy(hierarchy, rateeId).None? ==> j.raterIds.downward == [])
            && (FirstHierarchy(hierarchy, rateeId).Some? ==> j.raterIds.downward == FirstHierarchy(hierarchy, rateeId).value.subordinateIds)
            && (Find(peers, PeerRecordOf(rateeId)).None? ==> j.raterIds.peer == [])
  {
    var s := RecordedSupervisor(hierarchy, rateeId);
    if s.Some? && s.value != "" {
      assert SupervisorOf(hierarchy, rateeId) == s;
    }
  }

  /**
   * The page's juries differ from the helper's `generateAssessmentJuries` only in
   * the assessment id and the peers: the helper's same-supervisor peers are not
   * used as a fallback, so an employee without a peer record gets no peers even
   * when colleagues share the supervisor.
   */
  lemma SnapshotVersusHelper(hierarchy: seq<HierarchyAssignment>, peers: seq<PeerAssignment>, assessmentId: string,
                             rateeId: string, allEmployeeIds: seq<string>)
    ensures var page := SnapshotJury(hierarchy, peers, assessmentId, rateeId);
            var helper := HelperJury(hierarchy, rateeId, allEmployeeIds);
            && page.rateeId == helper.rateeId
            && page.raterIds.(peer := []) == helper.raterIds.(peer := [])
            && (Find(peers, PeerRecordOf(rateeId)).None? ==> page.raterIds.peer == [])
  {
  }

  /** An employee has a peer-less page jury while the helper would list a colleague under the same supervisor. */
  lemma NoSameSupervisorFallback()
    ensures var hierarchy := [HierarchyAssignment("a", Some("boss"), [], 0), HierarchyAssignment("b", Some("boss"), [], 0)];
            && SnapshotJury(hierarchy, [], "x", "a").raterIds.peer == []
            && HelperJury(hierarchy, "a", ["a", "b"]).raterIds.peer == ["b"]
  {
    var hierarchy := [HierarchyAssignment("a", Some("boss"), [], 0), HierarchyAssignment("b", Some("boss"), [], 0)];
    assert FirstHierarchy(hierarchy, "a") == Some(hierarchy[0]);
    assert FirstHierarchy(hierarchy, "b") == Some(hierarchy[1]);
    assert Filter(["a", "b"][1..], SharesSupervisor(hierarchy, "a", "boss")) == ["b"];
  }

  function QuestionIdIsNot(id: string): Question -> bool { (q: Question) => q.id != id }

  /** The new assessment of `handleCreateAssessment`: running, with no responses yet. */
  function NewAssessment(id: string, name: string, startDate: int, endDate: int, questions: seq<Question>,
                         juries: seq<Jury>, inChargeIds: seq<string>, createdAt: int): (r: Assessment)
    ensures r.status == STATUS_RUNNING && r.responses == []
    ensures r.id == id && r.questions == questions && r.juries == juries && r.inChargeIds == inChargeIds
  {
    Assessment(id, name, startDate, endDate, STATUS_RUNNING, questions, juries, [], inChargeIds, createdAt)
  }

  /** The creation form's state. */
  class AssessmentForm {
    var name: string
    var startDate: Option<int>
    var endDate: Option<int>
    var questions: seq<Question>
    var inChargeIds: seq<string>
    // The question being typed: `currentQuestion`.
    var draftQuestion: string
    var draftCategory: string
    var draftWeight: int
    var showForm: bool
    var showConfirm: bool

    constructor ()
      ensures name == "" && startDate.None? && endDate.None? && questions == [] && inChargeIds == []
      ensures draftQuestion == "" && draftCategory == "Kinerja" && draftWeight == 50
      ensures !showForm && !showConfirm
    {
      name := "";
      startDate := None;
      endDate := None;
      questions := [];
      inChargeIds := [];
      draftQuestion := "";
      draftCategory := "Kinerja";
      draftWeight := 50;
      showForm := false;
      showConfirm := false;
    }

    /** `handleAddQuestion`: a whitespace-only draft is ignored; otherwise it is appended and the draft reset. */
    method AddQuestion(questionId: string)
      modifies this`questions, this`draftQuestion, this`draftCategory, this`draftWeight
      ensures IsBlank(old(draftQuestion)) ==>
                && questions == old(questions)
                && draftQuestion == old(draftQuestion) && draftCategory == old(draftCategory) && draftWeight == old(draftWeight)
      ensures !IsBlank(old(draftQuestion)) ==>
                && questions == old(questions) + [Question(questionId, old(draftQuestion), old(draftCategory), old(draftWeight))]
                && draftQuestion == "" && draftCategory == "Kinerja" && draftWeight == 50
    {
      TrimEmptyIffBlank(draftQuestion);
      if Trim(draftQuestion) != "" {
        questions := questions + [Question(questionId, draftQuestion, draftCategory, draftWeight)];
        draftQuestion, draftCategory, draftWeight := "", "Kinerja", 50;
      }
    }

    /** `handleRemoveQuestion`: drops every question with this id. */
    method RemoveQuestion(questionId: string)
      modifies this`questions
      ensures questions == Filter(old(questions), QuestionIdIsNot(questionId))
      ensures forall i :: 0 <= i < |questions| ==> questions[i].id != questionId
      ensures forall i :: 0 <= i < |old(questions)| && old(questions)[i].id != questionId ==> old(questions)[i] in questions
    {
      FilterKeeps(questions, QuestionIdIsNot(questionId));
      questions := Filter(questions, QuestionIdIsNot(questionId));
    }

    /** `handleInChargeToggle`. */
    method ToggleInCharge(employeeId: string)
      modifies this`inChargeIds
      ensures inChargeIds == Toggle(old(inChargeIds), employeeId)
      ensures employeeId in inChargeIds <==> employeeId !in old(inChargeIds)
    {
      inChargeIds := Toggle(inChargeIds, employeeId);
    }

    /** `validateAndConfirm`: the confirmation dialog opens only for a valid form. */
    method ValidateAndConfirm() returns (outcome: Outcome)
      modifies this`showConfirm
      ensures outcome == Validate(name, startDate, endDate, questions)
      ensures outcome == Done ==> showConfirm
      ensures outcome != Done ==> showConfirm == old(showConfirm)
    {
      outcome := Validate(name, startDate, endDate, questions);
      if outcome == Done {
        showConfirm := true;
      }
    }

    /**
     * `handleCreateAssessment`: appends the new assessment, with the jury
     * snapshot of every employee, and resets the form.
     */
    method CreateAssessment(db: Database, assessmentId: string, createdAt: int)
      requires startDate.Some? && endDate.Some?
      modifies db`assessments, this`name, this`startDate, this`endDate, this`questions, this`inChargeIds
      modifies this`showForm, this`showConfirm
      ensures db.assessments == old(db.assessments) + [NewAssessment(
                assessmentId, old(name), old(startDate).value, old(endDate).value, old(questions),
                SnapshotJuries(db.users, db.hierarchyAssignments, db.peerAssignments, assessmentId),
                old(inChargeIds), createdAt)]
      ensures name == "" && startDate.None? && endDate.None? && questions == [] && inChargeIds == []
      ensures !showForm && !showConfirm
    {
      var juries := SnapshotJuries(db.users, db.hierarchyAssignments, db.peerAssignments, assessmentId);
      var assessment := NewAssessment(assessmentId, name, startDate.value, endDate.value, questions, juries, inChargeIds, createdAt);
      db.AddAssessment(assessment);
      name, startDate, endDate, questions, inChargeIds := "", None, None, [], [];
      showForm, showConfirm := false, false;
    }
  }
}

/**
 * The employee rating page (app/dashboard/employee/assessment/page.tsx): the
 * list of ongoing assessments, the ratees grouped by relationship, the 1..5
 * score buttons, and the submission that builds one response and upserts it
 * into the assessment under the key (ratee, rater, rater type).
 */
module RatingPage {
  import opened Wrappers
  import opened Types
  import opened Seqs
  import opened Store
  import opened AssessmentHelper

  // The ongoing-assessment filter.

  function StatusIs(status: string): Assessment -> bool { (a: Assessment) => a.status == status }

  /** `db.getAssessments().filter((a) => a.status === "Ongoing")`. */
  function ActiveAssessments(assessments: seq<Assessment>): (r: seq<Assessment>)
    ensures forall i :: 0 <= i < |r| ==> r[i].status == STATUS_ONGOING && r[i] in assessments
    ensures forall i :: 0 <= i < |assessments| && assessments[i].status == STATUS_ONGOING ==> assessments[i] in r
  {
    FilterKeeps(assessments, StatusIs(STATUS_ONGOING));
    Filter(assessments, StatusIs(STATUS_ONGOING))
  }

  /**
   * The creation page gives new assessments the status "sedang berjalan", which
   * the rating page does not offer: creating an assessment never adds to the
   * list a rater sees.
   */
  lemma CreatedAssessmentsAreNotOffered(assessments: seq<Assessment>, created: Assessment)
    requires created.status == STATUS_RUNNING
    ensures ActiveAssessments(assessments + [created]) == ActiveAssessments(assessments)
  {
    FilterConcat(assessments, [created], StatusIs(STATUS_ONGOING));
    assert Filter([created], StatusIs(STATUS_ONGOING)) == [];
  }

  // Grouping the assigned ratees.

  function RateeTypeIs(t: string): AssignedRatee -> bool { (x: AssignedRatee) => x.raterType == t }

  datatype RateeGroups = RateeGroups(
    self: seq<AssignedRatee>, upward: seq<AssignedRatee>, downward: seq<AssignedRatee>, peer: seq<AssignedRatee>)

  /** `groupedRatees`: the assigned ratees split by relationship, each group in list order. */
  function GroupRatees(ratees: seq<AssignedRatee>): (r: RateeGroups)
    ensures forall i :: 0 <= i < |r.self| ==> r.self[i].raterType == SELF && r.self[i] in ratees
    ensures forall i :: 0 <= i < |r.upward| ==> r.upward[i].raterType == UPWARD && r.upward[i] in ratees
    ensures forall i :: 0 <= i < |r.downward| ==> r.downward[i].raterType == DOWNWARD && r.downward[i] in ratees
    ensures forall i :: 0 <= i < |r.peer| ==> r.peer[i].raterType == PEER && r.peer[i] in ratees
    ensures forall x :: (x in r.self <==> x in ratees && x.raterType == SELF)
                     && (x in r.upward <==> x in ratees && x.raterType == UPWARD)
                     && (x in r.downward <==> x in ratees && x.raterType == DOWNWARD)
                     && (x in r.peer <==> x in ratees && x.raterType == PEER)
  {
    forall x
      ensures x in Filter(ratees, RateeTypeIs(SELF)) <==> x in ratees && x.raterType == SELF
      ensures x in Filter(ratees, RateeTypeIs(UPWARD)) <==> x in ratees && x.raterType == UPWARD
      ensures x in Filter(ratees, RateeTypeIs(DOWNWARD)) <==> x in ratees && x.raterType == DOWNWARD
      ensures x in Filter(ratees, RateeTypeIs(PEER)) <==> x in ratees && x.raterType == PEER
    {
      FilterMembership(ratees, RateeTypeIs(SELF), x);
      FilterMembership(ratees, RateeTypeIs(UPWARD), x);
      FilterMembership(ratees, RateeTypeIs(DOWNWARD), x);
      FilterMembership(ratees, RateeTypeIs(PEER), x);
    }
    RateeGroups(Filter(ratees, RateeTypeIs(SELF)), Filter(ratees, RateeTypeIs(UPWARD)),
                Filter(ratees, RateeTypeIs(DOWNWARD)), Filter(ratees, RateeTypeIs(PEER)))
  }

  /** Every entry `getAssignedRatees` produces carries one of the four known types. */
  lemma {:induction false} AssignmentsHaveKnownTypes(juries: seq<Jury>, raterId: string)
    ensures forall i :: 0 <= i < |AssignmentsIn(juries, raterId)| ==> IsKnownRaterType(AssignmentsIn(juries, raterId)[i].raterType)
  {
    if juries != [] {
      AssignmentsHaveKnownTypes(juries[..|juries| - 1], raterId);
    }
  }

  /** The four groups partition a list whose types are all known: each entry lands in exactly one group. */
  lemma GroupsPartition(xs: seq<AssignedRatee>)
    requires forall i :: 0 <= i < |xs| ==> IsKnownRaterType(xs[i].raterType)
    ensures var g := GroupRatees(xs); multiset(g.self + g.upward + g.downward + g.peer) == multiset(xs)
  {
    var known := (x: AssignedRatee) => IsKnownRaterType(x.raterType);
    assert SELF != UPWARD && SELF != DOWNWARD && SELF != PEER;
    assert UPWARD != DOWNWARD && UPWARD != PEER && DOWNWARD != PEER;
    FilterPartition(xs, RateeTypeIs(SELF), RateeTypeIs(UPWARD), RateeTypeIs(DOWNWARD), RateeTypeIs(PEER), known);
    FilterKeepsAll(xs, known);
  }

  /** The grouping shows every assigned ratee exactly as often as `getAssignedRatees` lists it. */
  lemma GroupingLosesNothing(juries: seq<Jury>, raterId: string)
    ensures var xs := AssignmentsIn(juries, raterId);
            var g := GroupRatees(xs);
            multiset(g.self + g.upward + g.downward + g.peer) == multiset(xs)
  {
    AssignmentsHaveKnownTypes(juries, raterId);
    GroupsPartition(AssignmentsIn(juries, raterId));
  }

  // Building and saving a response.

  /** `selectedAssessment.questions.map((q) => ({ questionId: q.id, score: answers[q.id] || 0 }))`. */
  function BuildAnswers(questions: seq<Question>, answers: map<string, int>): (r: seq<Answer>)
    ensures |r| == |questions|
    ensures forall i :: 0 <= i < |r| ==> r[i].questionId == questions[i].id
    ensures forall i :: 0 <= i < |r| ==> questions[i].id in answers ==> r[i].score == answers[questions[i].id]
    ensures forall i :: 0 <= i < |r| ==> questions[i].id !in answers ==> r[i].score == 0
  {
    seq(|questions|, i requires 0 <= i < |questions| =>
      Answer(questions[i].id, if questions[i].id in answers then answers[questions[i].id] else 0))
  }

  /** The upsert key of `handleSubmit`: same ratee, same rater, same relationship. */
  function SameTriple(rateeId: string, raterId: string, raterType: string): Response -> bool
  {
    (r: Response) => r.rateeId == rateeId && r.rateerId == raterId && r.raterType == raterType
  }

  function TripleOf(r: Response): Response -> bool
  {
    SameTriple(r.rateeId, r.rateerId, r.raterType)
  }

  /** At most one response per (ratee, rater, rater type). */
  predicate OnePerTriple(responses: seq<Response>)
  {
    forall i, j :: 0 <= i < j < |responses| ==> !TripleOf(responses[i])(responses[j])
  }

  /** The `findIndex` then index-assign-or-push of `handleSubmit`. */
  function SaveResponse(responses: seq<Response>, response: Response): (r: seq<Response>)
    ensures (exists i :: 0 <= i < |responses| && TripleOf(response)(responses[i])) ==> |r| == |responses|
    ensures (forall i :: 0 <= i < |responses| ==> !TripleOf(response)(responses[i])) ==> r == responses + [response]
    ensures forall i :: 0 <= i < |responses| && !TripleOf(response)(responses[i]) ==> r[i] == responses[i]
    ensures IndexOf(responses, TripleOf(response)) >= 0 ==>
              r == responses[IndexOf(responses, TripleOf(response)) := response]
    ensures Find(r, TripleOf(response)) == Some(response)
  {
    UpsertFindsNew(responses, TripleOf(response), response);
    Upsert(responses, TripleOf(response), response)
  }

  /** Saving keeps one response per triple, and the saved one is the response found for its triple. */
  lemma SaveKeepsOnePerTriple(responses: seq<Response>, response: Response)
    requires OnePerTriple(responses)
    ensures OnePerTriple(SaveResponse(responses, response))
  {
    var p := TripleOf(response);
    var i := IndexOf(responses, p);
    var r := SaveResponse(responses, response);
    forall a, b | 0 <= a < b < |r| ensures !TripleOf(r[a])(r[b]) {
      if i >= 0 {
        assert r == responses[i := response];
      }
    }
  }

  /** Resubmitting for the same triple leaves only the later response, in the first one's place. */
  lemma ResubmitKeepsLatest(responses: seq<Response>, first: Response, second: Response)
    requires TripleOf(first) == TripleOf(second)
    ensures SaveResponse(SaveResponse(responses, first), second) == SaveResponse(responses, second)
  {
    UpsertTwice(responses, TripleOf(first), first, second);
  }

  // The save button.

  /** The ids of the assessment's questions. */
  function QuestionIds(questions: seq<Question>): set<string>
  {
    set i | 0 <= i < |questions| :: questions[i].id
  }

  predicate DistinctQuestionIds(questions: seq<Question>)
  {
    forall i, j :: 0 <= i < j < |questions| ==> questions[i].id != questions[j].id
  }

  /** The save button is enabled: as many answered questions as questions, and not saving. */
  predicate SaveEnabled(answers: map<string, int>, questions: seq<Question>, isLoading: bool)
  {
    |answers| == |questions| && !isLoading
  }

  lemma {:induction false} DistinctIdsCount(questions: seq<Question>)
    requires DistinctQuestionIds(questions)
    ensures |QuestionIds(questions)| == |questions|
  {
    if questions != [] {
      var n := |questions| - 1;
      var init := questions[..n];
      DistinctIdsCount(init);
      assert QuestionIds(questions) == QuestionIds(init) + {questions[n].id} by {
        forall x | x in QuestionIds(questions) ensures x in QuestionIds(init) + {questions[n].id} {
          var i :| 0 <= i < |questions| && questions[i].id == x;
          if i < n { assert init[i] == questions[i]; }
        }
        forall x | x in QuestionIds(init) ensures x in QuestionIds(questions) {
          var i :| 0 <= i < n && init[i].id == x;
          assert questions[i] == init[i];
        }
      }
      assert questions[n].id !in QuestionIds(init) by {
        forall i | 0 <= i < n ensures init[i].id != questions[n].id {
          assert init[i] == questions[i];
        }
      }
    }
  }

  lemma {:induction false} SubsetSize<T>(a: set<T>, b: set<T>)
    requires a <= b
    ensures |a| <= |b|
    ensures |a| == |b| ==> a == b
    decreases |a|
  {
    if a != {} {
      var x :| x in a;
      SubsetSize(a - {x}, b - {x});
      assert |a - {x}| == |a| - 1 && |b - {x}| == |b| - 1;
      assert a == (a - {x}) + {x} && b == (b - {x}) + {x};
    } else if |b| == 0 {
      assert b == {};
    }
  }

  /**
   * With distinct question ids and scores only ever set by the 1..5 buttons of
   * this assessment's questions, an enabled save button means every question is
   * answered: no built answer falls back to 0.
   */
  lemma SaveEnabledMeansAllAnswered(answers: map<string, int>, questions: seq<Question>, isLoading: bool)
    requires DistinctQuestionIds(questions)
    requires answers.Keys <= QuestionIds(questions)
    requires forall k :: k in answers ==> 1 <= answers[k] <= 5
    requires SaveEnabled(answers, questions, isLoading)
    ensures forall i :: 0 <= i < |questions| ==> 1 <= BuildAnswers(questions, answers)[i].score <= 5
  {
    DistinctIdsCount(questions);
    SubsetSize(answers.Keys, QuestionIds(questions));
    forall i | 0 <= i < |questions| ensures questions[i].id in answers {
      assert questions[i].id in QuestionIds(questions);
    }
  }

  /** A ratee chosen on the page: their id, display name and the relationship. */
  datatype Ratee = Ratee(id: string, name: string, raterType: string)

  datatype SubmitResult = Incomplete | Cancelled | Saved

  /** The response `handleSubmit` builds. */
  function BuildResponse(responseId: string, assessment: Assessment, ratee: Ratee, raterId: string, answers: map<string, int>): (r: Response)
    ensures r.assessmentId == assessment.id && r.rateeId == ratee.id && r.rateerId == raterId && r.raterType == ratee.raterType
    ensures r.answers == BuildAnswers(assessment.questions, answers)
  {
    Response(responseId, assessment.id, ratee.id, raterId, ratee.raterType, BuildAnswers(assessment.questions, answers))
  }

  /** The selected assessment's responses after `handleSubmit` upserts the built response. */
  function SubmittedResponses(responseId: string, assessment: Assessment, ratee: Ratee, raterId: string, answers: map<string, int>): seq<Response>
  {
    SaveResponse(assessment.responses, BuildResponse(responseId, assessment, ratee, raterId, answers))
  }

  /** `db.updateAssessment(id, { responses })`. */
  function StoreResponses(assessments: seq<Assessment>, id: string, responses: seq<Response>): seq<Assessment>
  {
    UpdateFirst(assessments, AssessmentIdIs(id), MergeAssessmentWith(NO_ASSESSMENT_CHANGES.(responses := Some(responses))))
  }

  /** The selection after saving: the stored assessment when the reload finds one, else the locally changed one. */
  function Reloaded(found: Option<Assessment>, local: Assessment): Option<Assessment>
  {
    if found.Some? then found else Some(local)
  }

  /** The page's state. `currentUser` stands for the session the page reads when it loads. */
  class RatingForm {
    var currentUser: Option<User>
    var assessments: seq<Assessment>
    var selected: Option<Assessment>
    var selectedRatee: Option<Ratee>
    var answers: map<string, int>
    var submitted: bool
    var isLoading: bool

    /** The page as it loads: the session's user and, when there is one, the ongoing assessments. */
    constructor (db: Database, session: Option<User>)
      ensures currentUser == session
      ensures assessments == if session.Some? then ActiveAssessments(db.assessments) else []
      ensures selected.None? && selectedRatee.None? && answers == map[] && !submitted && !isLoading
    {
      currentUser := session;
      assessments := if session.Some? then ActiveAssessments(db.assessments) else [];
      selected := None;
      selectedRatee := None;
      answers := map[];
      submitted := false;
      isLoading := false;
    }

    /** `handleAssessmentSelect`. */
    method SelectAssessment(assessment: Assessment)
      modifies this`selected, this`selectedRatee, this`answers, this`submitted
      ensures selected == Some(assessment) && selectedRatee.None? && answers == map[] && !submitted
    {
      selected, selectedRatee, answers, submitted := Some(assessment), None, map[], false;
    }

    /** `handleRateeSelect`. */
    method SelectRatee(ratee: Ratee)
      modifies this`selectedRatee, this`answers, this`submitted
      ensures selectedRatee == Some(ratee) && answers == map[] && !submitted
    {
      selectedRatee, answers, submitted := Some(ratee), map[], false;
    }

    /** `handleScoreChange`: the latest score for a question replaces any earlier one. */
    method ScoreChange(questionId: string, score: int)
      modifies this`answers
      ensures answers == old(answers)[questionId := score]
    {
      answers := answers[questionId := score];
    }

    /**
     * `handleSubmit`: nothing without a user, an assessment and a ratee, or when
     * the confirmation is declined; otherwise the response is upserted into the
     * selected assessment's responses, those responses are written to the first
     * stored assessment with its id, the selection reloads, and the ratee and
     * answers are cleared.
     */
    method Submit(db: Database, confirmed: bool, responseId: string) returns (result: SubmitResult)
      modifies this`selected, this`selectedRatee, this`answers, this`submitted, this`isLoading, db`assessments
      ensures result == Incomplete <==> old(currentUser).None? || old(selected).None? || old(selectedRatee).None?
      ensures result == Cancelled <==> result != Incomplete && !confirmed
      ensures result != Saved ==> db.assessments == old(db.assessments)
      ensures result != Saved ==> selected == old(selected)
                                  && selectedRatee == old(selectedRatee) && answers == old(answers)
                                  && submitted == old(submitted) && isLoading == old(isLoading)
      ensures result == Saved ==>
                var a := old(selected).value;
                var responses := SubmittedResponses(responseId, a, old(selectedRatee).value, old(currentUser).value.id, old(answers));
                && db.assessments == StoreResponses(old(db.assessments), a.id, responses)
                && selected == Reloaded(db.GetAssessmentById(a.id), a.(responses := responses))
                && selectedRatee.None? && answers == map[] && !submitted && !isLoading
    {
      if currentUser.None? || selected.None? || selectedRatee.None? {
        return Incomplete;
      }
      if !confirmed {
        return Cancelled;
      }
      isLoading := true;
      var a := selected.value;
      var responses := SubmittedResponses(responseId, a, selectedRatee.value, currentUser.value.id, answers);
      db.UpdateAssessment(a.id, NO_ASSESSMENT_CHANGES.(responses := Some(responses)));
      assert db.assessments == StoreResponses(old(db.assessments), a.id, responses);
      var updated := db.GetAssessmentById(a.id);
      // `selectedAssessment.responses` was changed in place, so without a reload the selection keeps the new list.
      selected := Reloaded(updated, a.(responses := responses));
      selectedRatee, answers, submitted := None, map[], false;
      isLoading := false;
      return Saved;
    }
  }

  /**
   * When the selected assessment is the first stored one with its id, the store
   * afterwards holds it with exactly the saved responses and nothing else changed.
   */
  lemma SubmitStoresResponses(assessments: seq<Assessment>, a: Assessment, responses: seq<Response>)
    requires Find(assessments, AssessmentIdIs(a.id)) == Some(a)
    ensures Find(StoreResponses(assessments, a.id, responses), AssessmentIdIs(a.id)) == Some(a.(responses := responses))
  {
    var p := AssessmentIdIs(a.id);
    var i := IndexOf(assessments, p);
    ResponsesOnlyPatch(a, responses);
    var stored := StoreResponses(assessments, a.id, responses);
    forall j | 0 <= j < i ensures !p(stored[j]) {
      assert stored[j] == assessments[j];
    }
    IndexOfIsFirst(stored, p, i);
  }
}

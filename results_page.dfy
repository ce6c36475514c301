/**
 * The HR results page (app/dashboard/hr-assessment/results/page.tsx): for a
 * chosen assessment and employee, the scores of the responses about that
 * employee grouped by question, each question's rounded mean and number of
 * scores, and the rounded mean of all the scores.
 */
module ResultsPage {
  import opened Wrappers
  import opened Types
  import opened Seqs
  import opened Store
  import opened AssessmentHelper

  /** One entry of `resultsByQuestion`. */
  datatype QuestionResult = QuestionResult(question: string, avgScore: int, raterCount: int)

  /** What `calculateResults` returns when there is something to show. */
  datatype Results = Results(byQuestion: seq<QuestionResult>, overallAvg: int, totalRaters: int)

  /** Every answer of every response, response by response: the order the page visits them in. */
  function AnswersOf(responses: seq<Response>): (r: seq<Answer>)
  {
    if responses == [] then [] else AnswersOf(responses[..|responses| - 1]) + responses[|responses| - 1].answers
  }

  /** The scores given to one question, in answer order: `questionScores[q.id] || []` once all answers are in. */
  function ScoresFor(answers: seq<Answer>, questionId: string): (r: seq<int>)
  {
    if answers == [] then []
    else
      var a := answers[|answers| - 1];
      ScoresFor(answers[..|answers| - 1], questionId) + (if a.questionId == questionId then [a.score] else [])
  }

  /** One more answer adds its score to its own question's list and to no other. */
  lemma ScoresForSnoc(answers: seq<Answer>, a: Answer, questionId: string)
    ensures ScoresFor(answers + [a], questionId)
         == ScoresFor(answers, questionId) + (if a.questionId == questionId then [a.score] else [])
  {
    assert (answers + [a])[..|answers|] == answers;
  }

  /** Grouping distributes over concatenation. */
  lemma {:induction false} ScoresForConcat(xs: seq<Answer>, ys: seq<Answer>, questionId: string)
    ensures ScoresFor(xs + ys, questionId) == ScoresFor(xs, questionId) + ScoresFor(ys, questionId)
  {
    if ys == [] {
      assert xs + ys == xs;
    } else {
      var n := |ys| - 1;
      assert (xs + ys)[..|xs + ys| - 1] == xs + ys[..n];
      ScoresForConcat(xs, ys[..n], questionId);
    }
  }

  /** Every score listed for a question was given by an answer to that question. */
  lemma {:induction false} ScoresForFrom(answers: seq<Answer>, questionId: string, i: int)
    requires 0 <= i < |ScoresFor(answers, questionId)|
    ensures exists j :: 0 <= j < |answers| && answers[j].questionId == questionId
                        && answers[j].score == ScoresFor(answers, questionId)[i]
  {
    var n := |answers| - 1;
    var prefix := ScoresFor(answers[..n], questionId);
    if i < |prefix| {
      ScoresForFrom(answers[..n], questionId, i);
      var j :| 0 <= j < n && answers[..n][j].questionId == questionId && answers[..n][j].score == prefix[i];
      assert answers[j] == answers[..n][j];
    } else {
      assert answers[n].questionId == questionId && answers[n].score == ScoresFor(answers, questionId)[i];
    }
  }

  /** `Math.round(sum / length)`, and 0 for no scores. */
  function RoundedMean(xs: seq<int>): (r: int)
    ensures xs == [] ==> r == 0
    ensures xs != [] ==> r as real - 0.5 <= Sum(xs) as real / |xs| as real < r as real + 0.5
  {
    if |xs| > 0 then Round(Sum(xs) as real / |xs| as real) else 0
  }

  /** The mean of scores on the 1..5 scale, rounded, is on that scale. */
  lemma RoundedMeanOnScale(xs: seq<int>)
    requires xs != []
    requires forall i :: 0 <= i < |xs| ==> 1 <= xs[i] <= 5
    ensures 1 <= RoundedMean(xs) <= 5
  {
    MeanBounds(xs, 1, 5);
    RoundMonotone(1.0, Sum(xs) as real / |xs| as real);
    RoundMonotone(Sum(xs) as real / |xs| as real, 5.0);
  }

  // The first pass: grouping the scores by question.

  /** No key is created twice. */
  ghost predicate Distinct(order: seq<string>)
  {
    forall i, j :: 0 <= i < j < |order| ==> order[i] != order[j]
  }

  /** Every answer seen so far has a key. */
  ghost predicate Covers(questionScores: map<string, seq<int>>, seen: seq<Answer>)
  {
    forall i :: 0 <= i < |seen| ==> seen[i].questionId in questionScores
  }

  /** Each key holds its question's scores in answer order. */
  ghost predicate HoldsScores(questionScores: map<string, seq<int>>, seen: seq<Answer>)
  {
    forall k :: k in questionScores ==> questionScores[k] == ScoresFor(seen, k)
  }

  /**
   * The state of `questionScores` after the answers `seen`: its keys, in the
   * order they were created, are exactly the questions answered so far, and
   * each holds that question's scores in answer order.
   */
  ghost predicate Grouping(questionScores: map<string, seq<int>>, order: seq<string>, seen: seq<Answer>)
  {
    && Distinct(order)
    && (forall k :: k in questionScores <==> k in order)
    && HoldsScores(questionScores, seen)
    && Covers(questionScores, seen)
  }

  /** A question that has no key yet has no scores. */
  lemma UngroupedIsEmpty(questionScores: map<string, seq<int>>, seen: seq<Answer>, questionId: string)
    requires Covers(questionScores, seen)
    requires questionId !in questionScores
    ensures ScoresFor(seen, questionId) == []
  {
    if ScoresFor(seen, questionId) != [] {
      ScoresForFrom(seen, questionId, 0);
    }
  }

  /** What one pass of the inner loop does to `questionScores`. */
  function Record(questionScores: map<string, seq<int>>, a: Answer): map<string, seq<int>>
  {
    questionScores[a.questionId := (if a.questionId in questionScores then questionScores[a.questionId] else []) + [a.score]]
  }

  /** What one pass of the inner loop does to the key order. */
  function RecordOrder(questionScores: map<string, seq<int>>, order: seq<string>, a: Answer): seq<string>
  {
    if a.questionId in questionScores then order else order + [a.questionId]
  }

  lemma RecordHoldsScores(questionScores: map<string, seq<int>>, seen: seq<Answer>, a: Answer)
    requires HoldsScores(questionScores, seen) && Covers(questionScores, seen)
    ensures HoldsScores(Record(questionScores, a), seen + [a])
  {
    if a.questionId !in questionScores {
      UngroupedIsEmpty(questionScores, seen, a.questionId);
    }
    var qs := Record(questionScores, a);
    forall key | key in qs ensures qs[key] == ScoresFor(seen + [a], key) {
      ScoresForSnoc(seen, a, key);
    }
  }

  lemma RecordCovers(questionScores: map<string, seq<int>>, seen: seq<Answer>, a: Answer)
    requires Covers(questionScores, seen)
    ensures Covers(Record(questionScores, a), seen + [a])
  {
    forall i | 0 <= i < |seen + [a]| ensures (seen + [a])[i].questionId in Record(questionScores, a) {
      if i < |seen| {
        assert (seen + [a])[i] == seen[i];
      }
    }
  }

  /** Recording one answer, as the inner loop does, keeps the grouping exact. */
  lemma GroupingStep(questionScores: map<string, seq<int>>, order: seq<string>, seen: seq<Answer>, a: Answer)
    requires Grouping(questionScores, order, seen)
    ensures Grouping(Record(questionScores, a), RecordOrder(questionScores, order, a), seen + [a])
  {
    RecordHoldsScores(questionScores, seen, a);
    RecordCovers(questionScores, seen, a);
    var order' := RecordOrder(questionScores, order, a);
    assert Distinct(order') by {
      if a.questionId !in questionScores {
        assert a.questionId !in order;
      }
    }
  }

  /** The inner `forEach`: the answers of one response, recorded one by one. */
  method RecordAnswers(questionScores: map<string, seq<int>>, order: seq<string>, ghost seen: seq<Answer>, answers: seq<Answer>)
    returns (questionScores': map<string, seq<int>>, order': seq<string>)
    requires Grouping(questionScores, order, seen)
    ensures Grouping(questionScores', order', seen + answers)
  {
    questionScores', order' := questionScores, order;
    assert seen + answers[..0] == seen;
    for j := 0 to |answers|
      invariant Grouping(questionScores', order', seen + answers[..j])
    {
      var answer := answers[j];
      GroupingStep(questionScores', order', seen + answers[..j], answer);
      // `if (!questionScores[id]) questionScores[id] = []`, then the push.
      var scores := if answer.questionId in questionScores' then questionScores'[answer.questionId] else [];
      if answer.questionId !in questionScores' {
        order' := order' + [answer.questionId];
      }
      questionScores' := questionScores'[answer.questionId := scores + [answer.score]];
      assert seen + answers[..j + 1] == (seen + answers[..j]) + [answer];
    }
    assert answers[..|answers|] == answers;
  }

  /**
   * The nested `forEach` loops of `calculateResults`: every answer's score is
   * pushed onto its question's list, the list created on the question's first
   * answer. `order` is the order in which the keys were created.
   */
  method GroupScores(responses: seq<Response>) returns (questionScores: map<string, seq<int>>, order: seq<string>)
    ensures Grouping(questionScores, order, AnswersOf(responses))
  {
    questionScores, order := map[], [];
    for i := 0 to |responses|
      invariant Grouping(questionScores, order, AnswersOf(responses[..i]))
    {
      assert responses[..i + 1][..i] == responses[..i];
      questionScores, order := RecordAnswers(questionScores, order, AnswersOf(responses[..i]), responses[i].answers);
    }
    assert responses[..|responses|] == responses;
  }

  // The second pass: `Object.values(questionScores).flat()`.

  /** The lists of the keys `order`, one after the other. */
  function Grouped(answers: seq<Answer>, order: seq<string>): seq<int>
  {
    if order == [] then [] else Grouped(answers, order[..|order| - 1]) + ScoresFor(answers, order[|order| - 1])
  }

  /** One more answer adds one score to the lists when its question is one of the keys. */
  lemma {:induction false} GroupedSnocLength(answers: seq<Answer>, a: Answer, order: seq<string>)
    requires Distinct(order)
    ensures |Grouped(answers + [a], order)| == |Grouped(answers, order)| + (if a.questionId in order then 1 else 0)
  {
    if order != [] {
      var n := |order| - 1;
      var key := order[n];
      GroupedSnocLength(answers, a, order[..n]);
      ScoresForSnoc(answers, a, key);
      assert order == order[..n] + [key];
      if a.questionId == key {
        assert a.questionId !in order[..n];
      }
    }
  }

  /** One more answer adds its score to exactly one list when its question is one of the distinct keys. */
  lemma {:induction false} GroupedSnocSum(answers: seq<Answer>, a: Answer, order: seq<string>)
    requires Distinct(order)
    ensures Sum(Grouped(answers + [a], order)) == Sum(Grouped(answers, order)) + (if a.questionId in order then a.score else 0)
  {
    if order != [] {
      var n := |order| - 1;
      var key := order[n];
      GroupedSnocSum(answers, a, order[..n]);
      ScoresForSnoc(answers, a, key);
      var f := ScoresFor(answers, key);
      SumConcat(Grouped(answers, order[..n]), f);
      SumConcat(Grouped(answers + [a], order[..n]), ScoresFor(answers + [a], key));
      assert order == order[..n] + [key];
      if a.questionId == key {
        assert a.questionId !in order[..n];
        SumConcat(f, [a.score]);
        assert Sum([a.score]) == a.score;
      } else {
        assert f + [] == f;
      }
    }
  }

  /** Flattening the groups gives every score exactly once: as many scores, with the same sum. */
  lemma {:induction false} GroupedKeepsAll(answers: seq<Answer>, order: seq<string>)
    requires Distinct(order)
    requires forall i :: 0 <= i < |answers| ==> answers[i].questionId in order
    ensures |Grouped(answers, order)| == |answers|
    ensures Sum(Grouped(answers, order)) == Sum(Scores(answers))
  {
    if answers == [] {
      if order != [] {
        GroupedKeepsAll(answers, order[..|order| - 1]);
      }
    } else {
      var n := |answers| - 1;
      var a := answers[n];
      assert answers == answers[..n] + [a];
      GroupedKeepsAll(answers[..n], order);
      GroupedSnocLength(answers[..n], a, order);
      GroupedSnocSum(answers[..n], a, order);
      assert Scores(answers) == Scores(answers[..n]) + [a.score];
      SumConcat(Scores(answers[..n]), [a.score]);
      assert Sum([a.score]) == a.score;
    }
  }

  /** `Object.values(questionScores).flat()`, with the keys taken in creation order. */
  method FlattenScores(questionScores: map<string, seq<int>>, order: seq<string>, ghost seen: seq<Answer>)
    returns (allScores: seq<int>)
    requires Grouping(questionScores, order, seen)
    ensures |allScores| == |seen|
    ensures Sum(allScores) == Sum(Scores(seen))
  {
    allScores := [];
    for k := 0 to |order|
      invariant allScores == Grouped(seen, order[..k])
    {
      assert order[..k + 1][..k] == order[..k];
      allScores := allScores + questionScores[order[k]];
    }
    assert order[..|order|] == order;
    GroupedKeepsAll(seen, order);
  }

  /** The entry of one question: its text, the rounded mean of its scores, and how many there are. */
  function ResultFor(q: Question, scores: seq<int>): QuestionResult
  {
    QuestionResult(q.question, RoundedMean(scores), |scores|)
  }

  /**
   * `calculateResults`: nothing until an assessment and an employee are chosen,
   * nothing while nobody has rated the employee; otherwise one entry per
   * question of the assessment, the rounded mean of every score given, and the
   * number of responses.
   */
  method CalculateResults(db: Database, assessment: Option<Assessment>, employee: Option<User>) returns (r: Option<Results>)
    ensures assessment.None? || employee.None? ==> r.None?
    ensures assessment.Some? && employee.Some? ==>
              var responses := db.GetAssessmentResponsesByRatee(assessment.value.id, employee.value.id);
              var answers := AnswersOf(responses);
              var questions := assessment.value.questions;
              && (r.None? <==> responses == [])
              && (r.Some? ==>
                    && |r.value.byQuestion| == |questions|
                    && (forall i :: 0 <= i < |questions| ==>
                          r.value.byQuestion[i] == ResultFor(questions[i], ScoresFor(answers, questions[i].id)))
                    && r.value.overallAvg == RoundedMean(Scores(answers))
                    && r.value.totalRaters == |responses|)
  {
    if assessment.None? || employee.None? {
      return None;
    }
    var responses := db.GetAssessmentResponsesByRatee(assessment.value.id, employee.value.id);
    if |responses| == 0 {
      return None;
    }
    var questionScores, order := GroupScores(responses);
    var questions := assessment.value.questions;
    ghost var answers := AnswersOf(responses);
    forall i | 0 <= i < |questions| && questions[i].id !in questionScores
      ensures ScoresFor(answers, questions[i].id) == []
    {
      UngroupedIsEmpty(questionScores, answers, questions[i].id);
    }
    var byQuestion := seq(|questions|, i requires 0 <= i < |questions| =>
      ResultFor(questions[i], if questions[i].id in questionScores then questionScores[questions[i].id] else []));
    var allScores := FlattenScores(questionScores, order, answers);
    var overallAvg := if |allScores| > 0 then Round(Sum(allScores) as real / |allScores| as real) else 0;
    return Some(Results(byQuestion, overallAvg, |responses|));
  }

  // What the figures mean.

  /** On the 1..5 scale, every non-empty question average and the overall average are on that scale too. */
  lemma ResultsOnScale(answers: seq<Answer>, questionId: string)
    requires forall i :: 0 <= i < |answers| ==> 1 <= answers[i].score <= 5
    ensures ScoresFor(answers, questionId) != [] ==> 1 <= RoundedMean(ScoresFor(answers, questionId)) <= 5
    ensures answers != [] ==> 1 <= RoundedMean(Scores(answers)) <= 5
  {
    var mine := ScoresFor(answers, questionId);
    forall i | 0 <= i < |mine| ensures 1 <= mine[i] <= 5 {
      ScoresForFrom(answers, questionId, i);
    }
    if mine != [] {
      RoundedMeanOnScale(mine);
    }
    if answers != [] {
      RoundedMeanOnScale(Scores(answers));
    }
  }

  /**
   * When every response answers a question exactly once, as the rating page's
   * responses do for the assessment's own questions, the question's
   * `raterCount` is the number of responses.
   */
  lemma {:induction false} RaterCountIsResponses(responses: seq<Response>, questionId: string)
    requires forall i :: 0 <= i < |responses| ==> |ScoresFor(responses[i].answers, questionId)| == 1
    ensures |ScoresFor(AnswersOf(responses), questionId)| == |responses|
  {
    if responses != [] {
      var n := |responses| - 1;
      RaterCountIsResponses(responses[..n], questionId);
      ScoresForConcat(AnswersOf(responses[..n]), responses[n].answers, questionId);
    }
  }
}

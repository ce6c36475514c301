/**
 * The HR-development resignation page (app/dashboard/hr-development/resignation/page.tsx):
 * on load every employee gets a resignation prediction, either the one the
 * store already holds or a new one derived from the deterministic score and
 * saved. The reason of a new prediction is a random pick from five texts; the
 * pick is a parameter here.
 */
module ResignationPage {
  import opened Wrappers
  import opened Types
  import opened Seqs
  import opened Store
  import opened Matching

  const LOW := "Low"
  const MODERATE := "Moderate"
  const HIGH := "High"

  const REASONS: seq<string> := [
    "Performance decreases",
    "Lack of promotional opportunities",
    "No work-life balance",
    "Compensation is not competitive",
    "The work environment is less supportive"
  ]

  /** `score < 70 ? "Low" : score < 85 ? "Moderate" : "High"`. */
  function RiskLevel(score: int): (r: string)
    ensures r == LOW <==> score < 70
    ensures r == MODERATE <==> 70 <= score < 85
    ensures r == HIGH <==> 85 <= score
  {
    if score < 70 then LOW else if score < 85 then MODERATE else HIGH
  }

  /**
   * `Math.floor((score - 50) / 10) + 1`: the number of whole tens from 50 to the
   * score, plus one. (Dafny's `/` by a positive divisor rounds down, as `Math.floor` does.)
   */
  function EstimatedMonths(score: int): (m: int)
    ensures 10 * (m - 1) <= score - 50 < 10 * m
  {
    (score - 50) / 10 + 1
  }

  /** Scores lie in 60..95, so the estimate lies in 2..5 months. */
  lemma MonthsOnScale(score: int)
    requires 60 <= score <= 95
    ensures 2 <= EstimatedMonths(score) <= 5
  {
  }

  /** The score of an employee: the hash of `"resignation"`, the employee id and `"base"`. */
  function ResignationScore(employeeId: string): int
  {
    DeterministicScore("resignation", employeeId, "base")
  }

  /** A new prediction; `draw` stands for the random pick of the reason. */
  function Fresh(employeeId: string, draw: string -> nat, predictedAt: int): (p: ResignationPrediction)
    ensures p.employeeId == employeeId && p.deterministic && p.predictedAt == predictedAt
    ensures p.riskLevel == RiskLevel(ResignationScore(employeeId))
    ensures p.estimatedMonths == EstimatedMonths(ResignationScore(employeeId))
    ensures 2 <= p.estimatedMonths <= 5
    ensures p.reason in REASONS
  {
    var score := ResignationScore(employeeId);
    MonthsOnScale(score);
    ResignationPrediction(employeeId, RiskLevel(score), EstimatedMonths(score), REASONS[draw(employeeId) % 5], predictedAt, true)
  }

  /** What a load shows and what the store holds afterwards. */
  datatype Loaded = Loaded(shown: seq<ResignationPrediction>, stored: seq<ResignationPrediction>)

  /** One employee of the get-or-create `map`: the stored prediction, or a new one that is saved. */
  function LoadStep(before: Loaded, employeeId: string, draw: string -> nat, predictedAt: int): (after: Loaded)
    ensures Find(before.stored, PredictionOf(employeeId)).Some? ==>
              after == Loaded(before.shown + [Find(before.stored, PredictionOf(employeeId)).value], before.stored)
    ensures Find(before.stored, PredictionOf(employeeId)).None? ==>
              after == Loaded(before.shown + [Fresh(employeeId, draw, predictedAt)],
                              before.stored + [Fresh(employeeId, draw, predictedAt)])
  {
    var existing := Find(before.stored, PredictionOf(employeeId));
    if existing.Some? then Loaded(before.shown + [existing.value], before.stored)
    else
      var p := Fresh(employeeId, draw, predictedAt);
      Loaded(before.shown + [p], before.stored + [p])
  }

  /** A step shows one more prediction, for the employee looked up, and keeps the earlier ones. */
  lemma LoadStepShows(before: Loaded, employeeId: string, draw: string -> nat, predictedAt: int)
    ensures var after := LoadStep(before, employeeId, draw, predictedAt);
            && |after.shown| == |before.shown| + 1
            && after.shown[..|before.shown|] == before.shown
            && after.shown[|before.shown|].employeeId == employeeId
  {
    var after := LoadStep(before, employeeId, draw, predictedAt);
    var existing := Find(before.stored, PredictionOf(employeeId));
    if existing.Some? {
      assert after.shown == before.shown + [existing.value];
    } else {
      assert after.shown == before.shown + [Fresh(employeeId, draw, predictedAt)];
    }
  }

  /**
   * The get-or-create `map` of `loadData` over the employees, in order: an
   * employee with a stored prediction gets it back; any other gets a new one,
   * which is saved before the next employee is looked up. One prediction is
   * shown per employee, in employee order.
   */
  function LoadFrom(stored: seq<ResignationPrediction>, employees: seq<User>, draw: string -> nat, predictedAt: int): (l: Loaded)
    ensures |l.shown| == |employees|
    ensures forall i :: 0 <= i < |employees| ==> l.shown[i].employeeId == employees[i].id
  {
    if employees == [] then Loaded([], stored)
    else
      var n := |employees| - 1;
      var before := LoadFrom(stored, employees[..n], draw, predictedAt);
      LoadStepShows(before, employees[n].id, draw, predictedAt);
      var l := LoadStep(before, employees[n].id, draw, predictedAt);
      assert forall i :: 0 <= i < n ==> l.shown[i] == l.shown[..n][i] && employees[..n][i] == employees[i];
      l
  }

  /** After a load, the first prediction the store holds for each employee is the one shown. */
  lemma {:induction false} LoadFindsShown(stored: seq<ResignationPrediction>, employees: seq<User>, draw: string -> nat, predictedAt: int)
    ensures var l := LoadFrom(stored, employees, draw, predictedAt);
            forall i :: 0 <= i < |employees| ==> Find(l.stored, PredictionOf(employees[i].id)) == Some(l.shown[i])
  {
    if employees != [] {
      var n := |employees| - 1;
      var id := employees[n].id;
      LoadFindsShown(stored, employees[..n], draw, predictedAt);
      var before := LoadFrom(stored, employees[..n], draw, predictedAt);
      var l := LoadFrom(stored, employees, draw, predictedAt);
      forall i | 0 <= i < n
        ensures Find(l.stored, PredictionOf(employees[i].id)) == Some(l.shown[i])
      {
        assert employees[..n][i] == employees[i];
        assert Find(before.stored, PredictionOf(employees[i].id)) == Some(before.shown[i]);
        if Find(before.stored, PredictionOf(id)).None? {
          FindAppend(before.stored, Fresh(id, draw, predictedAt), PredictionOf(employees[i].id));
        }
      }
      if Find(before.stored, PredictionOf(id)).None? {
        FindAppend(before.stored, Fresh(id, draw, predictedAt), PredictionOf(id));
      }
    }
  }

  /** A load keeps every stored prediction in place and saves only new predictions after them. */
  lemma {:induction false} LoadOnlyAppendsFresh(stored: seq<ResignationPrediction>, employees: seq<User>, draw: string -> nat, predictedAt: int)
    ensures var l := LoadFrom(stored, employees, draw, predictedAt);
            && |stored| <= |l.stored| && l.stored[..|stored|] == stored
            && forall j :: |stored| <= j < |l.stored| ==> l.stored[j] == Fresh(l.stored[j].employeeId, draw, predictedAt)
  {
    if employees != [] {
      var n := |employees| - 1;
      LoadOnlyAppendsFresh(stored, employees[..n], draw, predictedAt);
      var before := LoadFrom(stored, employees[..n], draw, predictedAt);
      if Find(before.stored, PredictionOf(employees[n].id)).None? {
        var p := Fresh(employees[n].id, draw, predictedAt);
        assert (before.stored + [p])[..|stored|] == before.stored[..|stored|];
      }
    }
  }

  /** A stored prediction is returned unchanged. */
  lemma ExistingPredictionReturned(stored: seq<ResignationPrediction>, employees: seq<User>, draw: string -> nat,
                                   predictedAt: int, i: int)
    requires 0 <= i < |employees|
    requires Find(stored, PredictionOf(employees[i].id)).Some?
    ensures LoadFrom(stored, employees, draw, predictedAt).shown[i] == Find(stored, PredictionOf(employees[i].id)).value
  {
    var l := LoadFrom(stored, employees, draw, predictedAt);
    var p := PredictionOf(employees[i].id);
    assert Find(l.stored, p) == Some(l.shown[i]) by {
      LoadFindsShown(stored, employees, draw, predictedAt);
    }
    assert Find(l.stored, p) == Find(stored, p) by {
      LoadOnlyAppendsFresh(stored, employees, draw, predictedAt);
      assert l.stored == stored + l.stored[|stored|..];
      FindConcat(stored, l.stored[|stored|..], p);
    }
  }

  /** When every employee already has a prediction, a load shows them and saves nothing. */
  lemma {:induction false} LoadWhenAllPresent(stored: seq<ResignationPrediction>, employees: seq<User>, draw: string -> nat, predictedAt: int)
    requires forall i :: 0 <= i < |employees| ==> Find(stored, PredictionOf(employees[i].id)).Some?
    ensures var l := LoadFrom(stored, employees, draw, predictedAt);
            && l.stored == stored
            && forall i :: 0 <= i < |employees| ==> l.shown[i] == Find(stored, PredictionOf(employees[i].id)).value
  {
    if employees != [] {
      var n := |employees| - 1;
      var init := employees[..n];
      assert forall i :: 0 <= i < n ==> init[i] == employees[i];
      LoadWhenAllPresent(stored, init, draw, predictedAt);
      var before := LoadFrom(stored, init, draw, predictedAt);
      var l := LoadFrom(stored, employees, draw, predictedAt);
      assert l.shown == before.shown + [Find(stored, PredictionOf(employees[n].id)).value];
      forall i | 0 <= i < n
        ensures l.shown[i] == Find(stored, PredictionOf(employees[i].id)).value
      {
        assert l.shown[i] == before.shown[i];
      }
    }
  }

  /** A second load saves no new prediction and shows the same predictions as the first. */
  lemma SecondLoadAddsNothing(stored: seq<ResignationPrediction>, employees: seq<User>, draw: string -> nat,
                              predictedAt: int, laterAt: int)
    ensures var first := LoadFrom(stored, employees, draw, predictedAt);
            LoadFrom(first.stored, employees, draw, laterAt) == first
  {
    var first := LoadFrom(stored, employees, draw, predictedAt);
    LoadFindsShown(stored, employees, draw, predictedAt);
    LoadWhenAllPresent(first.stored, employees, draw, laterAt);
    var second := LoadFrom(first.stored, employees, draw, laterAt);
    assert second.shown == first.shown;
  }

  /** `loadData`: the predictions shown, one per employee, with the new ones saved to the store. */
  method LoadPredictions(db: Database, draw: string -> nat, predictedAt: int) returns (predictions: seq<ResignationPrediction>)
    modifies db`resignationPredictions
    ensures Loaded(predictions, db.resignationPredictions)
         == LoadFrom(old(db.resignationPredictions), Employees(db.users), draw, predictedAt)
  {
    var employees := Employees(db.users);
    predictions := [];
    for i := 0 to |employees|
      invariant Loaded(predictions, db.resignationPredictions)
             == LoadFrom(old(db.resignationPredictions), employees[..i], draw, predictedAt)
    {
      assert employees[..i + 1][..i] == employees[..i];
      var emp := employees[i];
      var existing := db.GetResignationPredictionByEmployee(emp.id);
      if existing.Some? {
        predictions := predictions + [existing.value];
      } else {
        var score := GenerateDeterministicScore("resignation", emp.id, "base");
        var prediction := ResignationPrediction(emp.id, RiskLevel(score), EstimatedMonths(score),
                                                REASONS[draw(emp.id) % 5], predictedAt, true);
        db.AddResignationPrediction(prediction);
        predictions := predictions + [prediction];
      }
    }
    assert employees[..|employees|] == employees;
  }
}

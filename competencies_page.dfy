/**
 * The HR-development competency page (app/dashboard/hr-development/competencies/page.tsx):
 * a form for a new competency whose trainings are typed as one
 * comma-separated text, checked, confirmed and appended to the store.
 */
module CompetenciesPage {
  import opened Wrappers
  import opened Types
  import opened Text
  import opened Store

  const FILL_ALL_FIELDS := "Silakan isi semua field"
  const DEFAULT_WEIGHT := 50

  /**
   * The form's submit button is enabled exactly when the name and the
   * trainings each have a character that is not whitespace and the weight is
   * positive (`trim() !== ""` on both, `weight > 0`).
   */
  function SubmitEnabled(name: string, trainings: string, weight: int): (r: bool)
    ensures r <==> !IsBlank(name) && !IsBlank(trainings) && weight > 0
  {
    TrimEmptyIffBlank(name);
    TrimEmptyIffBlank(trainings);
    Trim(name) != "" && Trim(trainings) != "" && weight > 0
  }

  /** The guard of `handleCreateCompetency`: both texts non-empty. */
  function CheckCreate(name: string, trainings: string): (r: Outcome)
    ensures r == Done <==> name != "" && trainings != ""
    ensures r.Rejected? ==> r.message == FILL_ALL_FIELDS
  {
    if name == "" || trainings == "" then Rejected(FILL_ALL_FIELDS) else Done
  }

  /** A form whose button is enabled always passes the handler's guard. */
  lemma EnabledFormPassesGuard(name: string, trainings: string, weight: int)
    requires SubmitEnabled(name, trainings, weight)
    ensures CheckCreate(name, trainings) == Done
  {
  }

  /** `trainings.split(",").map((t) => t.trim())`. */
  function Trainings(text: string): (r: seq<string>)
    ensures |r| == multiset(text)[','] + 1
    ensures forall i :: 0 <= i < |r| ==>
              && ',' !in r[i]
              && (r[i] == [] || (!IsWhitespace(r[i][0]) && !IsWhitespace(r[i][|r[i]| - 1])))
  {
    var pieces := Split(text, ',');
    SplitCount(text, ',');
    forall i | 0 <= i < |pieces| {
      TrimmedPiece(pieces[i]);
    }
    seq(|pieces|, i requires 0 <= i < |pieces| => Trim(pieces[i]))
  }

  /** Trimming a piece without a comma gives a piece without a comma. */
  lemma TrimmedPiece(piece: string)
    requires ',' !in piece
    ensures ',' !in Trim(piece)
  {
    var k := Lead(piece);
    assert Trim(piece) == piece[k..k + |Trim(piece)|];
  }

  /**
   * Typing trainings separated by commas gives back each one trimmed, and
   * exactly the trainings typed when they already carry no surrounding
   * whitespace.
   */
  lemma TrainingsOfTypedList(typed: seq<string>)
    requires |typed| >= 1
    requires forall i :: 0 <= i < |typed| ==> ',' !in typed[i]
    ensures |Trainings(Join(typed, ","))| == |typed|
    ensures forall i :: 0 <= i < |typed| ==> Trainings(Join(typed, ","))[i] == Trim(typed[i])
    ensures (forall i :: 0 <= i < |typed| ==>
               typed[i] == [] || (!IsWhitespace(typed[i][0]) && !IsWhitespace(typed[i][|typed[i]| - 1])))
            ==> Trainings(Join(typed, ",")) == typed
  {
    SplitOfJoin(typed, ',');
    if forall i :: 0 <= i < |typed| ==>
         typed[i] == [] || (!IsWhitespace(typed[i][0]) && !IsWhitespace(typed[i][|typed[i]| - 1])) {
      forall i | 0 <= i < |typed|
        ensures Trim(typed[i]) == typed[i]
      {
        TrimOfTrimmed(typed[i]);
      }
    }
  }

  /** The page's form state. */
  class CompetencyForm {
    var name: string
    var trainings: string
    var weight: int
    var showForm: bool
    var showConfirm: bool

    constructor ()
      ensures name == "" && trainings == "" && weight == DEFAULT_WEIGHT && !showForm && !showConfirm
    {
      name, trainings, weight := "", "", DEFAULT_WEIGHT;
      showForm, showConfirm := false, false;
    }

    /** `handleCreateCompetency`: a message when a text is empty, otherwise the confirmation opens. */
    method HandleCreate() returns (outcome: Outcome)
      modifies this`showConfirm
      ensures outcome == CheckCreate(name, trainings)
      ensures outcome == Done ==> showConfirm
      ensures outcome.Rejected? ==> showConfirm == old(showConfirm)
    {
      outcome := CheckCreate(name, trainings);
      if outcome == Done {
        showConfirm := true;
      }
    }

    /**
     * `confirmCreate`: the competency is appended with the trimmed pieces of
     * the trainings text, and the form is reset and closed.
     */
    method ConfirmCreate(db: Database, id: string, createdAt: int)
      modifies db`competencies, this
      ensures db.competencies == old(db.competencies)
                + [Competency(id, old(name), Trainings(old(trainings)), old(weight), createdAt)]
      ensures name == "" && trainings == "" && weight == DEFAULT_WEIGHT && !showForm && !showConfirm
    {
      db.AddCompetency(Competency(id, name, Trainings(trainings), weight, createdAt));
      name, trainings, weight := "", "", DEFAULT_WEIGHT;
      showForm, showConfirm := false, false;
    }
  }
}

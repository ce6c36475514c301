/**
 * The HR-development job page (app/dashboard/hr-development/jobs/page.tsx):
 * a form for a new job position, checked and appended to the store.
 */
module JobsPage {
  import opened Wrappers
  import opened Types
  import opened Text
  import opened Store

  const FILL_ALL_FIELDS := "Please fill all fields"
  const DEFAULT_WEIGHT := 50

  /**
   * The submit button is enabled exactly when the name and the level each
   * have a character that is not whitespace and the weight is positive. The
   * test on the criteria stands as a statement of its own after the
   * assignment, so the criteria do not take part.
   */
  function SubmitEnabled(name: string, level: string, weight: int, criteria: string): (r: bool)
    ensures r <==> !IsBlank(name) && !IsBlank(level) && weight > 0
  {
    TrimEmptyIffBlank(name);
    TrimEmptyIffBlank(level);
    Trim(name) != "" && Trim(level) != "" && weight > 0
  }

  /** The guard of `handleCreateJob`: name, level and criteria non-empty. */
  function CheckCreate(name: string, level: string, criteria: string): (r: Outcome)
    ensures r == Done <==> name != "" && level != "" && criteria != ""
    ensures r.Rejected? ==> r.message == FILL_ALL_FIELDS
  {
    if name == "" || level == "" || criteria == "" then Rejected(FILL_ALL_FIELDS) else Done
  }

  /**
   * With the button enabled, the guard refuses exactly an empty criteria
   * text; criteria made of spaces only are accepted.
   */
  lemma EnabledFormGuard(name: string, level: string, weight: int, criteria: string)
    requires SubmitEnabled(name, level, weight, criteria)
    ensures CheckCreate(name, level, criteria) == Done <==> criteria != ""
  {
  }

  /** The page's form state. */
  class JobForm {
    var name: string
    var level: string
    var weight: int
    var criteria: string
    var showForm: bool

    constructor ()
      ensures name == "" && level == "" && weight == DEFAULT_WEIGHT && criteria == "" && !showForm
    {
      name, level, weight, criteria := "", "", DEFAULT_WEIGHT, "";
      showForm := false;
    }

    /**
     * `handleCreateJob`: a message and nothing else when a text is empty;
     * otherwise the job is appended with the form's values, and the form is
     * reset and closed.
     */
    method CreateJob(db: Database, id: string, createdAt: int) returns (outcome: Outcome)
      modifies db`jobs, this
      ensures outcome == CheckCreate(old(name), old(level), old(criteria))
      ensures outcome.Rejected? ==>
                && db.jobs == old(db.jobs)
                && name == old(name) && level == old(level) && weight == old(weight)
                && criteria == old(criteria) && showForm == old(showForm)
      ensures outcome == Done ==>
                && db.jobs == old(db.jobs) + [Job(id, old(name), old(level), old(weight), old(criteria), createdAt)]
                && name == "" && level == "" && weight == DEFAULT_WEIGHT && criteria == "" && !showForm
    {
      outcome := CheckCreate(name, level, criteria);
      if outcome.Rejected? {
        return;
      }
      db.AddJob(Job(id, name, level, weight, criteria, createdAt));
      name, level, weight, criteria := "", "", DEFAULT_WEIGHT, "";
      showForm := false;
    }
  }
}

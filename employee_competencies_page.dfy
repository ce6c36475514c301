/**
 * The HR-development employee-competency page
 * (app/dashboard/hr-development/employee-competencies/page.tsx): linking a
 * competency to the selected employee after a duplicate check and a
 * confirmation, and removing a link after a confirmation. The page's list of
 * links is the store's own array (the store hands it out by reference and the
 * page reloads it after every change), so the checks read the store.
 */
module EmployeeCompetenciesPage {
  import opened Wrappers
  import opened Types
  import opened Seqs
  import opened Store

  const SELECT_EMPLOYEE_FIRST := "Silakan pilih employee terlebih dahulu"
  const ALREADY_ADDED := "Kompetensi ini sudah ditambahkan untuk employee ini"

  /** `confirmData`: the competency waiting for the add confirmation, with the name the dialog shows. */
  datatype PendingLink = PendingLink(competencyId: string, competencyName: string)

  /** `comp?.name || ""`. */
  function CompetencyName(competencies: seq<Competency>, competencyId: string): (r: string)
    ensures Find(competencies, CompetencyIdIs(competencyId)).None? ==> r == ""
    ensures Find(competencies, CompetencyIdIs(competencyId)).Some? ==>
              r == Find(competencies, CompetencyIdIs(competencyId)).value.name
  {
    var c := Find(competencies, CompetencyIdIs(competencyId));
    if c.None? then "" else c.value.name
  }

  /** The guards of `handleAddCompetency`, in order. */
  function CheckAdd(links: seq<EmployeeCompetency>, selectedEmployee: string, competencyId: string): (r: Outcome)
    ensures r == Done <==> selectedEmployee != "" && !LinkExists(links, selectedEmployee, competencyId)
    ensures r == Rejected(SELECT_EMPLOYEE_FIRST) <==> selectedEmployee == ""
    ensures r == Rejected(ALREADY_ADDED) <==> selectedEmployee != "" && LinkExists(links, selectedEmployee, competencyId)
  {
    if selectedEmployee == "" then Rejected(SELECT_EMPLOYEE_FIRST)
    else if LinkExists(links, selectedEmployee, competencyId) then Rejected(ALREADY_ADDED)
    else Done
  }

  /** The page's state. */
  class LinksForm {
    var selectedEmployee: string
    var showConfirmAdd: bool
    var confirmData: Option<PendingLink>
    var showConfirmRemove: bool
    var removeCompId: string

    /**
     * A pending add was checked against the store for the selected employee:
     * confirming it cannot create a duplicate.
     */
    ghost predicate Checked(db: Database)
      reads this, db
    {
      confirmData.Some? ==> !LinkExists(db.employeeCompetencies, selectedEmployee, confirmData.value.competencyId)
    }

    constructor ()
      ensures selectedEmployee == "" && !showConfirmAdd && confirmData.None? && !showConfirmRemove && removeCompId == ""
    {
      selectedEmployee := "";
      showConfirmAdd, confirmData := false, None;
      showConfirmRemove, removeCompId := false, "";
    }

    /**
     * `handleAddCompetency`: without an employee, or when the link already
     * exists, a message and nothing else; otherwise the confirmation opens for
     * this competency.
     */
    method HandleAdd(db: Database, competencyId: string) returns (outcome: Outcome)
      modifies this`confirmData, this`showConfirmAdd
      ensures outcome == CheckAdd(db.employeeCompetencies, selectedEmployee, competencyId)
      ensures outcome.Rejected? ==> confirmData == old(confirmData) && showConfirmAdd == old(showConfirmAdd)
      ensures outcome == Done ==>
                && confirmData == Some(PendingLink(competencyId, CompetencyName(db.competencies, competencyId)))
                && showConfirmAdd
                && Checked(db)
    {
      outcome := CheckAdd(db.employeeCompetencies, selectedEmployee, competencyId);
      if outcome == Done {
        confirmData := Some(PendingLink(competencyId, CompetencyName(db.competencies, competencyId)));
        showConfirmAdd := true;
      }
    }

    /**
     * `confirmAddCompetency`: nothing without pending data or an employee;
     * otherwise exactly one link is appended and the dialog closes. A checked
     * add keeps the links free of duplicates.
     */
    method ConfirmAdd(db: Database, addedAt: int)
      modifies db`employeeCompetencies, this`showConfirmAdd, this`confirmData
      ensures old(confirmData).None? || selectedEmployee == "" ==>
                db.employeeCompetencies == old(db.employeeCompetencies)
                && showConfirmAdd == old(showConfirmAdd) && confirmData == old(confirmData)
      ensures old(confirmData).Some? && selectedEmployee != "" ==>
                && db.employeeCompetencies == old(db.employeeCompetencies)
                     + [EmployeeCompetency(selectedEmployee, old(confirmData).value.competencyId, addedAt)]
                && !showConfirmAdd && confirmData.None?
      ensures old(Checked(db)) && NoDuplicateLinks(old(db.employeeCompetencies)) ==> NoDuplicateLinks(db.employeeCompetencies)
    {
      if confirmData.None? || selectedEmployee == "" {
        return;
      }
      var link := EmployeeCompetency(selectedEmployee, confirmData.value.competencyId, addedAt);
      if Checked(db) && NoDuplicateLinks(db.employeeCompetencies) {
        AddFreshLinkKeepsNoDuplicates(db.employeeCompetencies, link);
      }
      db.AddEmployeeCompetency(link);
      showConfirmAdd, confirmData := false, None;
    }

    /** `handleRemoveCompetency`: asks for confirmation. */
    method HandleRemove(competencyId: string)
      modifies this`removeCompId, this`showConfirmRemove
      ensures removeCompId == competencyId && showConfirmRemove
    {
      removeCompId, showConfirmRemove := competencyId, true;
    }

    /**
     * `confirmRemoveCompetency`: removes the selected employee's links to the
     * competency and no other link, and closes the dialog.
     */
    method ConfirmRemove(db: Database)
      modifies db`employeeCompetencies, this`showConfirmRemove, this`removeCompId
      ensures db.employeeCompetencies == Filter(old(db.employeeCompetencies), IsNotLink(selectedEmployee, old(removeCompId)))
      ensures !LinkExists(db.employeeCompetencies, selectedEmployee, old(removeCompId))
      ensures forall l :: l in old(db.employeeCompetencies) && !(l.employeeId == selectedEmployee && l.competencyId == old(removeCompId))
                ==> l in db.employeeCompetencies
      ensures !showConfirmRemove && removeCompId == ""
    {
      forall l | l in db.employeeCompetencies {
        DeleteLinkExact(db.employeeCompetencies, selectedEmployee, removeCompId, l);
      }
      db.DeleteEmployeeCompetency(selectedEmployee, removeCompId);
      showConfirmRemove, removeCompId := false, "";
    }
  }
}

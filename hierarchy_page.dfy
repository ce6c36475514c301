/**
 * The admin hierarchy page (app/dashboard/admin/hierarchy/page.tsx): choosing
 * an employee's supervisor and subordinates and saving them as the employee's
 * hierarchy record.
 */
module HierarchyPage {
  import opened Wrappers
  import opened Types
  import opened Seqs
  import opened Store
  import opened AssessmentHelper

  const SELECT_EMPLOYEE := "Please select an employee"

  /** `selectedSupervisor || undefined`: the empty choice ("-- None --") means no supervisor. */
  function SupervisorChoice(selected: string): (r: Option<string>)
    ensures r.None? <==> selected == ""
    ensures r.Some? ==> r.value == selected
  {
    if selected == "" then None else Some(selected)
  }

  /** The record `handleAssignHierarchy` saves. */
  function NewHierarchy(employeeId: string, supervisor: string, subordinates: seq<string>, assignedAt: int): (h: HierarchyAssignment)
    ensures h.employeeId == employeeId && h.subordinateIds == subordinates && h.assignedAt == assignedAt
    ensures h.supervisorId == SupervisorChoice(supervisor)
  {
    HierarchyAssignment(employeeId, SupervisorChoice(supervisor), subordinates, assignedAt)
  }

  /**
   * The save: `Object.assign` over the first record of the employee, which the
   * page's list shares with the store, or an append when there is none.
   */
  function SaveHierarchy(hierarchy: seq<HierarchyAssignment>, h: HierarchyAssignment): seq<HierarchyAssignment>
  {
    Upsert(hierarchy, HierarchyOf(h.employeeId), h)
  }

  /**
   * After a save the employee's first record is the saved one, so the juries of
   * assessments created afterwards take the chosen supervisor (when one was
   * chosen) as upward rater and the chosen subordinates as downward raters.
   */
  lemma SavedHierarchyIsUsed(hierarchy: seq<HierarchyAssignment>, employeeId: string, supervisor: string,
                             subordinates: seq<string>, assignedAt: int)
    ensures var saved := SaveHierarchy(hierarchy, NewHierarchy(employeeId, supervisor, subordinates, assignedAt));
            && FirstHierarchy(saved, employeeId) == Some(NewHierarchy(employeeId, supervisor, subordinates, assignedAt))
            && UpwardOf(saved, employeeId) == (if supervisor == "" then [] else [supervisor])
            && DownwardOf(saved, employeeId) == subordinates
  {
    var h := NewHierarchy(employeeId, supervisor, subordinates, assignedAt);
    var saved := SaveHierarchy(hierarchy, h);
    UpsertFindsNew(hierarchy, HierarchyOf(employeeId), h);
    FilterHeadIsFind(saved, HierarchyOf(employeeId));
  }

  /** Saving the same employee twice leaves one record, holding the second save, where the first was. */
  lemma SaveTwiceKeepsLatest(hierarchy: seq<HierarchyAssignment>, first: HierarchyAssignment, second: HierarchyAssignment)
    requires first.employeeId == second.employeeId
    ensures SaveHierarchy(SaveHierarchy(hierarchy, first), second) == SaveHierarchy(hierarchy, second)
  {
    UpsertTwice(hierarchy, HierarchyOf(first.employeeId), first, second);
  }

  /** The page's selections. */
  class HierarchyForm {
    var selectedEmployee: string
    var selectedSupervisor: string
    var selectedSubordinates: seq<string>

    /** The subordinate selection is built by the checkboxes, so it never holds an id twice. */
    ghost predicate Valid()
      reads this
    {
      NoDuplicates(selectedSubordinates)
    }

    constructor ()
      ensures Valid()
      ensures selectedEmployee == "" && selectedSupervisor == "" && selectedSubordinates == []
    {
      selectedEmployee, selectedSupervisor, selectedSubordinates := "", "", [];
    }

    /** `handleSubordinateToggle`: an id toggled twice leaves the same ids selected. */
    method ToggleSubordinate(id: string)
      requires Valid()
      modifies this`selectedSubordinates
      ensures Valid()
      ensures selectedSubordinates == Toggle(old(selectedSubordinates), id)
      ensures id in selectedSubordinates <==> id !in old(selectedSubordinates)
    {
      ToggleKeepsNoDuplicates(selectedSubordinates, id);
      selectedSubordinates := Toggle(selectedSubordinates, id);
    }

    /**
     * `handleAssignHierarchy`: refused without an employee; otherwise the
     * employee's first record is overwritten (the count unchanged) or a record
     * is appended, and the selections are cleared.
     */
    method AssignHierarchy(db: Database, assignedAt: int) returns (outcome: Outcome)
      requires Valid()
      modifies db`hierarchyAssignments, this`selectedEmployee, this`selectedSupervisor, this`selectedSubordinates
      ensures Valid()
      ensures outcome == Rejected(SELECT_EMPLOYEE) <==> old(selectedEmployee) == ""
      ensures outcome == Done <==> old(selectedEmployee) != ""
      ensures outcome.Rejected? ==>
                && db.hierarchyAssignments == old(db.hierarchyAssignments)
                && selectedEmployee == old(selectedEmployee) && selectedSupervisor == old(selectedSupervisor)
                && selectedSubordinates == old(selectedSubordinates)
      ensures outcome == Done ==>
                && db.hierarchyAssignments == SaveHierarchy(old(db.hierarchyAssignments),
                     NewHierarchy(old(selectedEmployee), old(selectedSupervisor), old(selectedSubordinates), assignedAt))
                && selectedEmployee == "" && selectedSupervisor == "" && selectedSubordinates == []
    {
      if selectedEmployee == "" {
        return Rejected(SELECT_EMPLOYEE);
      }
      var h := NewHierarchy(selectedEmployee, selectedSupervisor, selectedSubordinates, assignedAt);
      var i := IndexOf(db.hierarchyAssignments, HierarchyOf(selectedEmployee));
      if 0 <= i {
        // Every field is supplied, so the merge replaces the record by the new one.
        FullHierarchyPatch(db.hierarchyAssignments[i], h);
        db.hierarchyAssignments := db.hierarchyAssignments[i := MergeHierarchy(db.hierarchyAssignments[i],
          HierarchyPatch(Some(h.employeeId), Some(h.supervisorId), Some(h.subordinateIds), Some(h.assignedAt)))];
      } else {
        db.AddHierarchyAssignment(h);
      }
      selectedEmployee, selectedSupervisor, selectedSubordinates := "", "", [];
      outcome := Done;
    }
  }
}

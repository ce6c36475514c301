/**
 * The admin peer-assignment page (app/dashboard/admin/peer-assignment/page.tsx):
 * choosing an employee's peers, saving them through the store's upsert, and
 * deleting an employee's peer record after confirmation.
 */
module PeerPage {
  import opened Wrappers
  import opened Types
  import opened Seqs
  import opened Store
  import opened AssessmentsPage

  const SELECT_EMPLOYEE := "Please select an employee"

  /**
   * Once an employee's peers are saved, the assessment page takes exactly that
   * selection as the peers of the employee's jury.
   */
  lemma SavedPeersAreUsed(peers: seq<PeerAssignment>, a: PeerAssignment)
    ensures PeerIdsOf(Upsert(peers, PeerRecordOf(a.employeeId), a), a.employeeId) == a.peerIds
  {
    UpsertFindsNew(peers, PeerRecordOf(a.employeeId), a);
  }

  /** The page's selections. */
  class PeerForm {
    var selectedEmployee: string
    var selectedPeers: seq<string>

    /** The peer selection is built by the checkboxes, so it never holds an id twice. */
    ghost predicate Valid()
      reads this
    {
      NoDuplicates(selectedPeers)
    }

    constructor ()
      ensures Valid()
      ensures selectedEmployee == "" && selectedPeers == []
    {
      selectedEmployee, selectedPeers := "", [];
    }

    /** `handlePeerToggle`: an id toggled twice leaves the same ids selected. */
    method TogglePeer(id: string)
      requires Valid()
      modifies this`selectedPeers
      ensures Valid()
      ensures selectedPeers == Toggle(old(selectedPeers), id)
      ensures id in selectedPeers <==> id !in old(selectedPeers)
    {
      ToggleKeepsNoDuplicates(selectedPeers, id);
      selectedPeers := Toggle(selectedPeers, id);
    }

    /**
     * `handleAssignPeers`: refused without an employee; otherwise the selection
     * is upserted as the employee's record, which is then the one record of the
     * employee when the store had at most one per employee, and the selections
     * are cleared.
     */
    method AssignPeers(db: Database, assignedAt: int) returns (outcome: Outcome)
      requires Valid()
      modifies db`peerAssignments, this`selectedEmployee, this`selectedPeers
      ensures Valid()
      ensures outcome == Rejected(SELECT_EMPLOYEE) <==> old(selectedEmployee) == ""
      ensures outcome == Done <==> old(selectedEmployee) != ""
      ensures outcome.Rejected? ==>
                db.peerAssignments == old(db.peerAssignments)
                && selectedEmployee == old(selectedEmployee) && selectedPeers == old(selectedPeers)
      ensures outcome == Done ==>
                var a := PeerAssignment(old(selectedEmployee), old(selectedPeers), assignedAt);
                && db.peerAssignments == Upsert(old(db.peerAssignments), PeerRecordOf(a.employeeId), a)
                && db.GetPeerAssignmentByEmployee(a.employeeId) == Some(a)
                && (OnePeerRecordEach(old(db.peerAssignments)) ==> OnePeerRecordEach(db.peerAssignments))
                && selectedEmployee == "" && selectedPeers == []
    {
      if selectedEmployee == "" {
        return Rejected(SELECT_EMPLOYEE);
      }
      var a := PeerAssignment(selectedEmployee, selectedPeers, assignedAt);
      UpsertFindsNew(db.peerAssignments, PeerRecordOf(a.employeeId), a);
      if OnePeerRecordEach(db.peerAssignments) {
        UpsertPeerKeepsOneEach(db.peerAssignments, a);
      }
      db.AddPeerAssignment(a);
      selectedEmployee, selectedPeers := "", [];
      outcome := Done;
    }

    /**
     * `handleDelete`: only a confirmed delete removes the employee's record; the
     * records of every other employee stay, in order.
     */
    method Delete(db: Database, employeeId: string, confirmed: bool)
      modifies db`peerAssignments
      ensures !confirmed ==> db.peerAssignments == old(db.peerAssignments)
      ensures confirmed ==> db.peerAssignments == Filter(old(db.peerAssignments), PeerRecordNotOf(employeeId))
      ensures confirmed ==> db.GetPeerAssignmentByEmployee(employeeId).None?
    {
      if confirmed {
        DeletePeerKeepsOthers(db.peerAssignments, employeeId, employeeId);
        db.DeletePeerAssignment(employeeId);
      }
    }
  }
}

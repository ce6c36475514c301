/**
 * The admin user-management page (app/dashboard/admin/users/page.tsx): the
 * creation of employee accounts and the deletion of accounts, which the page
 * refuses for the three system roles.
 */
module UsersPage {
  import opened Wrappers
  import opened Types
  import opened Seqs
  import opened Store

  const FILL_ALL_FIELDS := "Please fill all fields"
  const USERNAME_EXISTS := "Username already exists"
  const CANNOT_DELETE_SYSTEM := "Cannot delete system users"

  /** The roles whose accounts the page never deletes. */
  predicate IsSystemRole(role: string)
  {
    role == ADMIN || role == HR_DEVELOPMENT || role == HR_ASSESSMENT
  }

  /** `users.some((u) => u.username === username)`. */
  predicate UsernameTaken(users: seq<User>, username: string)
  {
    exists i :: 0 <= i < |users| && users[i].username == username
  }

  /** The guards of `handleCreateUser`, in order: every field filled, then a fresh username. */
  function CheckNewUser(users: seq<User>, username: string, password: string, name: string): (r: Outcome)
    ensures r == Done <==> username != "" && password != "" && name != "" && !UsernameTaken(users, username)
    ensures r == Rejected(FILL_ALL_FIELDS) <==> username == "" || password == "" || name == ""
    ensures r == Rejected(USERNAME_EXISTS) <==>
              username != "" && password != "" && name != "" && UsernameTaken(users, username)
  {
    if username == "" || password == "" || name == "" then Rejected(FILL_ALL_FIELDS)
    else if UsernameTaken(users, username) then Rejected(USERNAME_EXISTS)
    else Done
  }

  /** The account `handleCreateUser` saves: always an employee. */
  function NewUser(id: string, username: string, password: string, name: string): (u: User)
    ensures u.role == EMPLOYEE
    ensures u.id == id && u.username == username && u.password == password && u.name == name
  {
    User(id, username, password, name, EMPLOYEE)
  }

  /** Accepting a new user keeps usernames unique. */
  lemma CreateKeepsUsernamesUnique(users: seq<User>, id: string, username: string, password: string, name: string)
    requires UniqueUsernames(users)
    requires CheckNewUser(users, username, password, name) == Done
    ensures UniqueUsernames(users + [NewUser(id, username, password, name)])
  {
    var r := users + [NewUser(id, username, password, name)];
    forall i, j | 0 <= i < j < |r| ensures r[i].username != r[j].username {
      if j == |users| {
        assert r[i] == users[i];
      }
    }
  }

  /** A user whose first record under `id` has a system role: `handleDeleteUser` stops there. */
  predicate IsProtected(users: seq<User>, id: string)
  {
    var u := Find(users, UserIdIs(id));
    u.Some? && IsSystemRole(u.value.role)
  }

  /** Deleting an id no user has leaves the users as they are. */
  lemma DeleteUnknownIsNoOp(users: seq<User>, id: string)
    requires forall i :: 0 <= i < |users| ==> users[i].id != id
    ensures Filter(users, UserIdIsNot(id)) == users
  {
    FilterKeepsAll(users, UserIdIsNot(id));
  }

  /**
   * The page's state. `users` is the list `loadUsers` last read from the store;
   * the page checks new usernames against it. The constructor and every
   * handler that changes the store reload it, so a list in step with the
   * store stays in step.
   */
  class UsersForm {
    var users: seq<User>
    var username: string
    var password: string
    var name: string
    var showForm: bool
    var deleteConfirm: Option<string>

    constructor (db: Database)
      ensures users == db.users
      ensures username == "" && password == "" && name == "" && !showForm && deleteConfirm.None?
    {
      users := db.users;
      username, password, name := "", "", "";
      showForm := false;
      deleteConfirm := None;
    }

    /**
     * `handleCreateUser`: the first failing guard is reported and nothing
     * changes; otherwise one employee is appended to the store, the list is
     * reloaded and the form is cleared and closed.
     */
    method CreateUser(db: Database, id: string) returns (outcome: Outcome)
      modifies db`users, this`users, this`username, this`password, this`name, this`showForm
      ensures outcome == CheckNewUser(old(users), old(username), old(password), old(name))
      ensures old(users == db.users) ==> users == db.users
      ensures old(users == db.users) && UniqueUsernames(old(db.users)) ==> UniqueUsernames(db.users)
      ensures outcome.Rejected? ==>
                && db.users == old(db.users) && users == old(users)
                && username == old(username) && password == old(password) && name == old(name)
                && showForm == old(showForm)
      ensures outcome == Done ==>
                && db.users == old(db.users) + [NewUser(id, old(username), old(password), old(name))]
                && users == db.users
                && username == "" && password == "" && name == "" && !showForm
    {
      outcome := CheckNewUser(users, username, password, name);
      if outcome.Rejected? {
        return;
      }
      if users == db.users && UniqueUsernames(db.users) {
        CreateKeepsUsernamesUnique(db.users, id, username, password, name);
      }
      db.AddUser(NewUser(id, username, password, name));
      users := db.users;
      username, password, name := "", "", "";
      showForm := false;
    }

    /** The delete button: it asks for confirmation of this id. */
    method RequestDelete(id: string)
      modifies this`deleteConfirm
      ensures deleteConfirm == Some(id)
    {
      deleteConfirm := Some(id);
    }

    /**
     * `handleDeleteUser`: refused, with nothing changed, when the first user with
     * this id has a system role; otherwise every user with the id is removed
     * (an unknown id changes nothing), the list is reloaded and the dialog closes.
     */
    method DeleteUser(db: Database, id: string) returns (outcome: Outcome)
      modifies db`users, this`users, this`deleteConfirm
      ensures outcome == Rejected(CANNOT_DELETE_SYSTEM) <==> IsProtected(old(db.users), id)
      ensures outcome == Done <==> !IsProtected(old(db.users), id)
      ensures old(users == db.users) ==> users == db.users
      ensures outcome.Rejected? ==>
                db.users == old(db.users) && users == old(users) && deleteConfirm == old(deleteConfirm)
      ensures outcome == Done ==>
                && db.users == Filter(old(db.users), UserIdIsNot(id))
                && (forall i :: 0 <= i < |db.users| ==> db.users[i].id != id)
                && users == db.users && deleteConfirm.None?
    {
      var user := db.GetUserById(id);
      if user.Some? && IsSystemRole(user.value.role) {
        return Rejected(CANNOT_DELETE_SYSTEM);
      }
      db.DeleteUser(id);
      users := db.users;
      deleteConfirm := None;
      outcome := Done;
    }

    /**
     * The dialog's confirm action: `deleteConfirm && handleDeleteUser(deleteConfirm)`.
     * An empty id is falsy in JavaScript, so it deletes nothing, like no pending id.
     */
    method ConfirmDelete(db: Database) returns (outcome: Option<Outcome>)
      modifies db`users, this`users, this`deleteConfirm
      ensures old(deleteConfirm).None? || old(deleteConfirm) == Some("") ==>
                outcome.None? && db.users == old(db.users) && users == old(users) && deleteConfirm == old(deleteConfirm)
      ensures old(users == db.users) ==> users == db.users
      ensures old(deleteConfirm).Some? && old(deleteConfirm) != Some("") ==>
                && outcome.Some?
                && (outcome.value == Done <==> !IsProtected(old(db.users), old(deleteConfirm).value))
                && (outcome.value == Done ==> db.users == Filter(old(db.users), UserIdIsNot(old(deleteConfirm).value)))
                && (outcome.value != Done ==> db.users == old(db.users))
    {
      if deleteConfirm.None? || deleteConfirm.value == "" {
        return None;
      }
      var o := DeleteUser(db, deleteConfirm.value);
      outcome := Some(o);
    }
  }

  /** The three default accounts are protected: deleting any of their ids from the initial store is refused. */
  lemma DefaultUsersProtected()
    ensures IsProtected(DEFAULT_USERS, "1") && IsProtected(DEFAULT_USERS, "2") && IsProtected(DEFAULT_USERS, "3")
  {
    assert Find(DEFAULT_USERS, UserIdIs("1")) == Some(DEFAULT_USERS[0]);
    assert Find(DEFAULT_USERS, UserIdIs("2")) == Some(DEFAULT_USERS[1]);
    assert Find(DEFAULT_USERS, UserIdIs("3")) == Some(DEFAULT_USERS[2]);
  }
}

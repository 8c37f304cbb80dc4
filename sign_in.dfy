/**
 * The sign-in model: looking a user up by email together with a role name,
 * and the forgot-password update that installs a temporary password.
 */
module SignIn {
  import opened Schema

  /** A row of `getUserByEmailWithRole`: the user's columns and `r.name AS role`. */
  datatype SignInRow = SignInRow(
    userId: UserId,
    fullName: string,
    email: string,
    password: string,
    status: string,
    mustChangePassword: bool,
    role: Option<string>)

  /** The user holds an assignment to an existing role with that name. */
  predicate HoldsRoleNamed(userRoles: set<(UserId, RoleId)>, roles: map<RoleId, Role>, u: UserId, name: string)
  {
    exists link :: link in userRoles && link.0 == u && link.1 in roles && roles[link.1].name == name
  }

  /**
   * `getUserByEmailWithRole(email)`: the first row of the left joins, or
   * nothing when no user has the email. When the user has several roles the
   * row order is unspecified; this model returns one of the role names, and
   * no role only when the user holds none.
   */
  method GetUserByEmailWithRole(db: Database, email: string) returns (row: Option<SignInRow>)
    requires db.Valid()
    ensures row.None? <==> forall u :: u in db.users ==> db.users[u].email != email
    ensures row.Some? ==>
      var v := row.value;
      && v.userId in db.users
      && db.users[v.userId] == User(v.fullName, v.email, v.password, v.status, v.mustChangePassword)
      && v.email == email
      && (forall u :: u in db.users && db.users[u].email == email ==> u == v.userId)
      && (v.role.Some? ==> HoldsRoleNamed(db.userRoles, db.roles, v.userId, v.role.value))
      && (v.role.None? ==> forall link :: link in db.userRoles && link.0 == v.userId ==> link.1 !in db.roles)
  {
    if !exists u :: u in db.users && db.users[u].email == email {
      return None;
    }
    var u :| u in db.users && db.users[u].email == email;
    var user := db.users[u];
    var role: Option<string> := None;
    if exists link :: link in db.userRoles && link.0 == u && link.1 in db.roles {
      var link :| link in db.userRoles && link.0 == u && link.1 in db.roles;
      role := Some(db.roles[link.1].name);
    }
    row := Some(SignInRow(u, user.fullName, user.email, user.password, user.status, user.mustChangePassword, role));
  }

  /** The rows `setTempPasswordByEmail` updates: the user with this email, if active. */
  predicate ActiveWithEmail(users: map<UserId, User>, u: UserId, email: string)
  {
    u in users && users[u].email == email && users[u].status == "Active"
  }

  /**
   * `setTempPasswordByEmail(email, hashedPassword)`: installs the temporary
   * password and sets the must-change flag on the active user with that
   * email, and returns the number of rows updated.
   */
  method SetTempPasswordByEmail(db: Database, email: string, hashedPassword: string) returns (affected: nat)
    requires db.Valid()
    modifies db`users
    ensures db.Valid()
    ensures affected <= 1
    ensures affected == 1 <==> exists u :: ActiveWithEmail(old(db.users), u, email)
    ensures forall u :: ActiveWithEmail(old(db.users), u, email) ==>
      db.users == old(db.users)[u := old(db.users)[u].(password := hashedPassword, mustChangePassword := true)]
    ensures affected == 0 ==> db.users == old(db.users)
  {
    if !exists u :: u in db.users && db.users[u].email == email && db.users[u].status == "Active" {
      return 0;
    }
    var u :| u in db.users && db.users[u].email == email && db.users[u].status == "Active";
    assert forall w :: ActiveWithEmail(db.users, w, email) ==> w == u;
    db.users := db.users[u := db.users[u].(password := hashedPassword, mustChangePassword := true)];
    affected := 1;
    assert ActiveWithEmail(old(db.users), u, email);
  }
}

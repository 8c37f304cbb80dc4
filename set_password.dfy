/**
 * The set-password model: a user replaces the password, which clears the
 * must-change flag set by the forgot-password flow.
 */
module SetPassword {
  import opened Schema
  import SignIn

  /**
   * `updateUserPassword(user_id, hashedPassword)`: stores the new hash and
   * clears the must-change flag on that user only; an unknown id changes
   * nothing.
   */
  method UpdateUserPassword(db: Database, userId: UserId, hashedPassword: string)
    requires db.Valid()
    modifies db`users
    ensures db.Valid()
    ensures db.users == (if userId in old(db.users)
                         then old(db.users)[userId := old(db.users)[userId].(password := hashedPassword, mustChangePassword := false)]
                         else old(db.users))
  {
    if userId in db.users {
      db.users := db.users[userId := db.users[userId].(password := hashedPassword, mustChangePassword := false)];
    }
  }

  /**
   * The forgot-password round trip: an active user gets a temporary password
   * and must change it; setting a new password then leaves the user with
   * that password and the flag clear, and every other user as before.
   */
  method ForgotThenSet(db: Database, u: UserId, temporary: string, chosen: string)
    requires db.Valid() && u in db.users && db.users[u].status == "Active"
    modifies db`users
    ensures db.Valid()
    ensures db.users == old(db.users)[u := old(db.users)[u].(password := chosen, mustChangePassword := false)]
  {
    var affected := SignIn.SetTempPasswordByEmail(db, db.users[u].email, temporary);
    assert db.users[u].mustChangePassword;
    UpdateUserPassword(db, u, chosen);
  }
}

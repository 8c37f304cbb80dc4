/**
 * The user-management transactions of the users model: create a user with
 * one role, update selected fields and the role, delete a user with its
 * role assignments. Each runs in one transaction, so a method either makes
 * all of its changes or fails with the store unchanged.
 */
module Users {
  import opened Schema

  /** Some user already has this email address. */
  predicate EmailTaken(users: map<UserId, User>, email: string)
  {
    exists u :: u in users && users[u].email == email
  }

  /** The fields `createUserWithRole` reads from `userData`; the password arrives already hashed. */
  datatype NewUser = NewUser(fullName: string, email: string, userStatus: Option<string>)

  /** `createUserWithRole(userData, roleId)`. */
  method CreateUserWithRole(db: Database, data: NewUser, hashedPassword: string, roleId: RoleId)
    returns (r: Result<UserId>)
    requires db.Valid()
    modifies db`users, db`userRoles, db`nextUserId
    ensures db.Valid()
    ensures r.Failure? <==> EmailTaken(old(db.users), data.email)
    ensures r.Failure? ==> r.error == DuplicateUserEmail && unchanged(db)
    ensures r.Success? ==>
      && r.value !in old(db.users)
      && db.users == old(db.users)[r.value := User(data.fullName, data.email, hashedPassword,
           if Truthy(data.userStatus) then data.userStatus.value else "Active", false)]
      && db.userRoles == old(db.userRoles) + {(r.value, roleId)}
  {
    if exists u :: u in db.users && db.users[u].email == data.email {
      return Failure(DuplicateUserEmail);
    }
    var status := if Truthy(data.userStatus) then data.userStatus.value else "Active";
    var id := db.nextUserId;
    db.users := db.users[id := User(data.fullName, data.email, hashedPassword, status, false)];
    db.nextUserId := db.nextUserId + 1;
    db.userRoles := db.userRoles + {(id, roleId)};
    r := Success(id);
  }

  /** Rewriting a user's row without touching the email keeps emails unique. */
  lemma SameEmailKeepsUnique(users: map<UserId, User>, u: UserId, user: User)
    requires UniqueEmails(users) && u in users && user.email == users[u].email
    ensures UniqueEmails(users[u := user])
  {
  }

  /** The fields `updateUser` may change; each is applied only when supplied and truthy. */
  datatype UserChanges = UserChanges(fullName: Option<string>, userStatus: Option<string>, password: Option<string>)

  /**
   * `updateUser(user_id, updatedData, role_id)`. `hashedPassword` is the hash
   * of `changes.password`, used only when that password is truthy.
   */
  method UpdateUser(db: Database, userId: UserId, changes: UserChanges, hashedPassword: string, roleId: Option<RoleId>)
    requires db.Valid()
    modifies db`users, db`userRoles
    ensures db.Valid()
    ensures db.users.Keys == old(db.users).Keys
    ensures forall u :: u in db.users && u != userId ==> db.users[u] == old(db.users)[u]
    ensures userId in db.users ==>
      var before, after := old(db.users)[userId], db.users[userId];
      && after.fullName == (if Truthy(changes.fullName) then changes.fullName.value else before.fullName)
      && after.status == (if Truthy(changes.userStatus) then changes.userStatus.value else before.status)
      && after.password == (if Truthy(changes.password) then hashedPassword else before.password)
      && after.email == before.email
      && after.mustChangePassword == before.mustChangePassword
    ensures roleId.Some? && roleId.value != 0 ==>
      db.userRoles == (set ur | ur in old(db.userRoles) && ur.0 != userId) + {(userId, roleId.value)}
    ensures !(roleId.Some? && roleId.value != 0) ==> db.userRoles == old(db.userRoles)
  {
    if userId in db.users {
      var user := db.users[userId];
      var changed := false;
      if Truthy(changes.fullName) {
        user := user.(fullName := changes.fullName.value);
        changed := true;
      }
      if Truthy(changes.userStatus) {
        user := user.(status := changes.userStatus.value);
        changed := true;
      }
      if Truthy(changes.password) {
        user := user.(password := hashedPassword);
        changed := true;
      }
      if changed {
        SameEmailKeepsUnique(db.users, userId, user);
        db.users := db.users[userId := user];
      }
    }
    if roleId.Some? && roleId.value != 0 {
      db.userRoles := (set ur | ur in db.userRoles && ur.0 != userId) + {(userId, roleId.value)};
    }
  }

  /** `deleteUser(user_id)`: the user's role assignments, then the user row. Direct grants stay. */
  method DeleteUser(db: Database, userId: UserId)
    requires db.Valid()
    modifies db`users, db`userRoles
    ensures db.Valid()
    ensures db.users == old(db.users) - {userId}
    ensures db.userRoles == set ur | ur in old(db.userRoles) && ur.0 != userId
    ensures forall ur :: ur in db.userRoles ==> ur.0 != userId
  {
    db.userRoles := set ur | ur in db.userRoles && ur.0 != userId;
    db.users := db.users - {userId};
  }
}

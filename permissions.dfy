/**
 * The permissions model: create and update with a duplicate-name check,
 * and remove behind two ordered in-use guards.
 */
module Permissions {
  import opened Schema

  /** Some permission other than `except` is called `name`. */
  predicate NameTaken(permissions: map<PermissionId, Permission>, name: string, except: Option<PermissionId>)
  {
    exists k :: k in permissions && permissions[k].name == name && Some(k) != except
  }

  /** `create({ name, description })`: a falsy description is stored as NULL. */
  method Create(db: Database, name: string, description: Option<string>) returns (r: Result<PermissionId>)
    requires db.Valid()
    modifies db`permissions, db`nextPermissionId
    ensures db.Valid()
    ensures r.Failure? <==> NameTaken(old(db.permissions), name, None)
    ensures r.Failure? ==> r.error == DuplicatePermission && HttpStatus(r.error) == Some(409) && unchanged(db)
    ensures r.Success? ==>
      && r.value !in old(db.permissions)
      && db.permissions == old(db.permissions)[r.value := Permission(name, OrNull(description))]
  {
    if exists k :: k in db.permissions && db.permissions[k].name == name {
      return Failure(DuplicatePermission);
    }
    var id := db.nextPermissionId;
    db.permissions := db.permissions[id := Permission(name, OrNull(description))];
    db.nextPermissionId := db.nextPermissionId + 1;
    r := Success(id);
  }

  /**
   * `update(id, { name, description })`: fails when another permission has
   * the name; otherwise rewrites that one row, if it exists.
   */
  method Update(db: Database, id: PermissionId, name: string, description: Option<string>) returns (r: Result<()>)
    requires db.Valid()
    modifies db`permissions
    ensures db.Valid()
    ensures r.Failure? <==> NameTaken(old(db.permissions), name, Some(id))
    ensures r.Failure? ==> r.error == DuplicatePermission && HttpStatus(r.error) == Some(409) && unchanged(db)
    ensures r.Success? ==>
      db.permissions == (if id in old(db.permissions) then old(db.permissions)[id := Permission(name, OrNull(description))] else old(db.permissions))
  {
    if exists k :: k in db.permissions && db.permissions[k].name == name && k != id {
      return Failure(DuplicatePermission);
    }
    if id in db.permissions {
      db.permissions := db.permissions[id := Permission(name, OrNull(description))];
    }
    r := Success(());
  }

  /** Some direct grant, live or expired, names the permission. */
  predicate GrantedDirectly(grants: seq<Grant>, id: PermissionId)
  {
    exists i :: 0 <= i < |grants| && grants[i].permissionId == id
  }

  /**
   * `remove(id)`: refuses a permission linked to a role, then one granted
   * directly to a user (expired grants included), otherwise deletes the row
   * and reports whether there was one.
   */
  method Remove(db: Database, id: PermissionId) returns (r: Result<Removal>)
    requires db.Valid()
    modifies db`permissions
    ensures db.Valid()
    ensures (exists k :: (k, id) in old(db.rolePermissions)) ==> r == Failure(PermissionInRoles)
    ensures (forall k :: (k, id) !in old(db.rolePermissions)) && GrantedDirectly(db.grants, id) ==>
      r == Failure(PermissionInUsers)
    ensures (forall k :: (k, id) !in old(db.rolePermissions)) && !GrantedDirectly(db.grants, id) ==>
      r == Success(if id in old(db.permissions) then Removed else NotFound)
    ensures r.Failure? ==> HttpStatus(r.error) == Some(409)
    ensures db.permissions == (if r == Success(Removed) then old(db.permissions) - {id} else old(db.permissions))
  {
    if exists link :: link in db.rolePermissions && link.1 == id {
      var link :| link in db.rolePermissions && link.1 == id;
      return Failure(PermissionInRoles);
    }
    if exists i :: 0 <= i < |db.grants| && db.grants[i].permissionId == id {
      return Failure(PermissionInUsers);
    }
    if id !in db.permissions {
      return Success(NotFound);
    }
    db.permissions := db.permissions - {id};
    r := Success(Removed);
  }

  /** A grant that has already expired still blocks the removal of its permission. */
  method ExpiredGrantBlocksRemove(db: Database, g: Grant, now: Time) returns (r: Result<Removal>)
    requires db.Valid() && g in db.grants && !Live(g, now)
    requires forall k :: (k, g.permissionId) !in db.rolePermissions
    modifies db`permissions
    ensures r == Failure(PermissionInUsers)
  {
    var i :| 0 <= i < |db.grants| && db.grants[i] == g;
    r := Remove(db, g.permissionId);
  }
}

/**
 * The roles model: listing roles with their departments and permissions,
 * and the create, update and remove transactions with their duplicate-name
 * and in-use guards.
 */
module Roles {
  import opened Schema

  // ---------------------------------------------------------------------
  // getAll (models/roles.model.js:4-28)
  // ---------------------------------------------------------------------

  /** One element of the `getAll` result. */
  datatype RoleView = RoleView(
    roleId: RoleId,
    name: string,
    departmentId: Option<DepartmentId>,
    departmentName: Option<string>,
    permissionIds: seq<PermissionId>,
    permissionNames: seq<string>)

  /** The permissions the inner join of `role_permissions` with `permissions` yields for `roleId`, ascending. */
  function LinkedPermissions(rolePermissions: set<(RoleId, PermissionId)>, permissions: map<PermissionId, Permission>,
                             roleId: RoleId, bound: nat): (ps: seq<PermissionId>)
    requires KeysBelow(permissions, bound)
    ensures forall p :: p in ps <==> (roleId, p) in rolePermissions && p in permissions
    ensures forall i, j :: 0 <= i < j < |ps| ==> ps[i] < ps[j]
  {
    IdsWhere(bound, (p: nat) => (roleId, p) in rolePermissions && p in permissions)
  }

  /** The left join with `departments`: the department's name, or NULL. */
  function DepartmentName(departments: map<DepartmentId, Department>, d: Option<DepartmentId>): (n: Option<string>)
    ensures n.Some? <==> d.Some? && d.value in departments
    ensures n.Some? ==> n.value == departments[d.value].name
  {
    if d.Some? && d.value in departments then Some(departments[d.value].name) else None
  }

  /** The view of one role: its row, its department's name and its linked permissions with their names. */
  function ViewOf(roles: map<RoleId, Role>, departments: map<DepartmentId, Department>,
                  rolePermissions: set<(RoleId, PermissionId)>, permissions: map<PermissionId, Permission>,
                  id: RoleId, permissionBound: nat): (v: RoleView)
    requires id in roles && KeysBelow(permissions, permissionBound)
    ensures v.roleId == id
  {
    var ps := LinkedPermissions(rolePermissions, permissions, id, permissionBound);
    RoleView(id, roles[id].name, roles[id].departmentId, DepartmentName(departments, roles[id].departmentId),
             ps, NamesOf(permissions, ps))
  }

  /** Each view matches its role: the listed permission ids and names are exactly its links, aligned. */
  lemma ViewOfMatches(roles: map<RoleId, Role>, departments: map<DepartmentId, Department>,
                      rolePermissions: set<(RoleId, PermissionId)>, permissions: map<PermissionId, Permission>,
                      id: RoleId, permissionBound: nat)
    requires id in roles && KeysBelow(permissions, permissionBound)
    ensures ViewMatches(ViewOf(roles, departments, rolePermissions, permissions, id, permissionBound),
                        roles, departments, rolePermissions, permissions)
  {
  }

  /**
   * `v` shows an existing role as stored, its department's name, and the
   * ids and names of exactly its linked permissions, each id once, in
   * matching order.
   */
  ghost predicate ViewMatches(v: RoleView, roles: map<RoleId, Role>, departments: map<DepartmentId, Department>,
                        rolePermissions: set<(RoleId, PermissionId)>, permissions: map<PermissionId, Permission>)
  {
    && v.roleId in roles
    && v.name == roles[v.roleId].name
    && v.departmentId == roles[v.roleId].departmentId
    && v.departmentName == DepartmentName(departments, v.departmentId)
    && |v.permissionIds| == |v.permissionNames|
    && (forall p :: p in v.permissionIds <==> (v.roleId, p) in rolePermissions && p in permissions)
    && (forall a, b :: 0 <= a < b < |v.permissionIds| ==> v.permissionIds[a] != v.permissionIds[b])
    && (forall k :: 0 <= k < |v.permissionIds| ==>
          v.permissionIds[k] in permissions && v.permissionNames[k] == permissions[v.permissionIds[k]].name)
  }

  /** `getAll()`: the views of all roles, newest id first. */
  function GetAll(roles: map<RoleId, Role>, departments: map<DepartmentId, Department>,
                  rolePermissions: set<(RoleId, PermissionId)>, permissions: map<PermissionId, Permission>,
                  roleBound: nat, permissionBound: nat): (r: seq<RoleView>)
    requires KeysBelow(roles, roleBound) && KeysBelow(permissions, permissionBound)
    ensures forall i :: 0 <= i < |r| ==> r[i].roleId in roles
  {
    var ids := IdsDescending(roleBound, (id: nat) => id in roles);
    assert forall i :: 0 <= i < |ids| ==> ids[i] in roles by {
      forall i | 0 <= i < |ids|
        ensures ids[i] in roles
      {
        assert ids[i] in ids;
      }
    }
    seq(|ids|, i requires 0 <= i < |ids| => ViewOf(roles, departments, rolePermissions, permissions, ids[i], permissionBound))
  }

  /**
   * `getAll()` lists every role once, newest id first, each with its row,
   * its department's name and, in matching order, the ids and names of
   * exactly its linked permissions.
   */
  lemma GetAllListsRoles(roles: map<RoleId, Role>, departments: map<DepartmentId, Department>,
                         rolePermissions: set<(RoleId, PermissionId)>, permissions: map<PermissionId, Permission>,
                         roleBound: nat, permissionBound: nat)
    requires KeysBelow(roles, roleBound) && KeysBelow(permissions, permissionBound)
    ensures var r := GetAll(roles, departments, rolePermissions, permissions, roleBound, permissionBound);
      && (forall id :: id in roles <==> exists i :: 0 <= i < |r| && r[i].roleId == id)
      && (forall i, j :: 0 <= i < j < |r| ==> r[i].roleId > r[j].roleId)
      && (forall i :: 0 <= i < |r| ==> ViewMatches(r[i], roles, departments, rolePermissions, permissions))
  {
    var ids := IdsDescending(roleBound, (id: nat) => id in roles);
    forall i | 0 <= i < |ids|
      ensures ids[i] in roles
    {
      assert ids[i] in ids;
    }
    var r := GetAll(roles, departments, rolePermissions, permissions, roleBound, permissionBound);
    assert |r| == |ids|;
    assert forall i :: 0 <= i < |r| ==> r[i] == ViewOf(roles, departments, rolePermissions, permissions, ids[i], permissionBound);
    assert forall i :: 0 <= i < |r| ==> r[i].roleId == ids[i];
    ListedOnceNewestFirst(roles, ids, r);
    forall i | 0 <= i < |r|
      ensures ViewMatches(r[i], roles, departments, rolePermissions, permissions)
    {
      assert ids[i] in ids;
      ViewOfMatches(roles, departments, rolePermissions, permissions, ids[i], permissionBound);
    }
  }

  /** Views that follow the descending list of all role ids cover every role, newest first. */
  lemma ListedOnceNewestFirst(roles: map<RoleId, Role>, ids: seq<RoleId>, r: seq<RoleView>)
    requires forall k: nat :: k in ids <==> k in roles
    requires forall i, j :: 0 <= i < j < |ids| ==> ids[i] > ids[j]
    requires |r| == |ids| && forall i :: 0 <= i < |r| ==> r[i].roleId == ids[i]
    ensures forall id :: id in roles <==> exists i :: 0 <= i < |r| && r[i].roleId == id
    ensures forall i, j :: 0 <= i < j < |r| ==> r[i].roleId > r[j].roleId
  {
    forall id | id in roles
      ensures exists i :: 0 <= i < |r| && r[i].roleId == id
    {
      var i :| 0 <= i < |ids| && ids[i] == id;
      assert r[i].roleId == id;
    }
    forall i | 0 <= i < |r|
      ensures r[i].roleId in roles
    {
      assert ids[i] in ids;
    }
  }

  // ---------------------------------------------------------------------
  // create, update, remove (models/roles.model.js:38-182)
  // ---------------------------------------------------------------------

  /** Some role other than `except` is called `name`. */
  predicate NameTaken(roles: map<RoleId, Role>, name: string, except: Option<RoleId>)
  {
    exists k :: k in roles && roles[k].name == name && Some(k) != except
  }

  /** The links `role_permissions` gains for `roleId` from a list of ids; repeated ids give one link. */
  function Links(roleId: RoleId, ids: seq<PermissionId>): (links: set<(RoleId, PermissionId)>)
    ensures forall l :: l in links <==> l.0 == roleId && l.1 in ids
  {
    set p | p in ids :: (roleId, p)
  }

  /**
   * `create({ name, department_id, permission_ids })`: fails on a taken
   * name, otherwise adds the role (a falsy department stored as NULL) and
   * one link per distinct permission id.
   */
  method Create(db: Database, name: string, departmentId: Option<DepartmentId>, permissionIds: seq<PermissionId>)
    returns (r: Result<RoleId>)
    requires db.Valid()
    modifies db`roles, db`rolePermissions, db`nextRoleId
    ensures db.Valid()
    ensures r.Failure? <==> NameTaken(old(db.roles), name, None)
    ensures r.Failure? ==> r.error == DuplicateRole && HttpStatus(r.error) == Some(409) && unchanged(db)
    ensures r.Success? ==>
      && r.value !in old(db.roles)
      && db.roles == old(db.roles)[r.value := Role(name, OrNullId(departmentId))]
      && db.rolePermissions == old(db.rolePermissions) + Links(r.value, permissionIds)
  {
    if exists k :: k in db.roles && db.roles[k].name == name {
      return Failure(DuplicateRole);
    }
    var id := db.nextRoleId;
    db.roles := db.roles[id := Role(name, OrNullId(departmentId))];
    db.nextRoleId := db.nextRoleId + 1;
    if |permissionIds| > 0 {
      db.rolePermissions := db.rolePermissions + Links(id, permissionIds);
    }
    r := Success(id);
  }

  /**
   * `update(id, { name, department_id, grant_permissions, revoke_permissions })`:
   * fails when another role has the name; otherwise rewrites the row (if
   * any), deletes the revoked links and then inserts the granted ones.
   */
  method Update(db: Database, id: RoleId, name: string, departmentId: Option<DepartmentId>,
                grant: seq<PermissionId>, revoke: seq<PermissionId>)
    returns (r: Result<()>)
    requires db.Valid()
    modifies db`roles, db`rolePermissions
    ensures db.Valid()
    ensures r.Failure? <==> NameTaken(old(db.roles), name, Some(id))
    ensures r.Failure? ==> r.error == DuplicateRole && HttpStatus(r.error) == Some(409) && unchanged(db)
    ensures r.Success? ==>
      && db.roles == (if id in old(db.roles) then old(db.roles)[id := Role(name, OrNullId(departmentId))] else old(db.roles))
      && db.rolePermissions == (old(db.rolePermissions) - Links(id, revoke)) + Links(id, grant)
  {
    if exists k :: k in db.roles && db.roles[k].name == name && k != id {
      return Failure(DuplicateRole);
    }
    if id in db.roles {
      db.roles := db.roles[id := Role(name, OrNullId(departmentId))];
    }
    if |revoke| > 0 {
      db.rolePermissions := db.rolePermissions - Links(id, revoke);
    }
    if |grant| > 0 {
      db.rolePermissions := db.rolePermissions + Links(id, grant);
    }
    r := Success(());
  }

  /**
   * What a successful update leaves linked: a granted id is linked even when
   * it is also revoked, a revoked id that is not granted is unlinked, any
   * other id keeps its link state, and other roles' links do not change.
   */
  lemma UpdateLinks(before: set<(RoleId, PermissionId)>, id: RoleId, grant: seq<PermissionId>,
                    revoke: seq<PermissionId>, role: RoleId, p: PermissionId)
    ensures var after := (before - Links(id, revoke)) + Links(id, grant);
      && (role == id && p in grant ==> (role, p) in after)
      && (role == id && p in revoke && p !in grant ==> (role, p) !in after)
      && (role == id && p !in revoke && p !in grant ==> ((role, p) in after <==> (role, p) in before))
      && (role != id ==> ((role, p) in after <==> (role, p) in before))
  {
  }

  /**
   * `remove(id)`: refuses a role assigned to a user, then a role with a
   * permission link (in that order), otherwise deletes the row and reports
   * whether there was one.
   */
  method Remove(db: Database, id: RoleId) returns (r: Result<Removal>)
    requires db.Valid()
    modifies db`roles
    ensures db.Valid()
    ensures (exists u :: (u, id) in old(db.userRoles)) ==> r == Failure(RoleInUseUsers)
    ensures (forall u :: (u, id) !in old(db.userRoles)) && (exists p :: (id, p) in old(db.rolePermissions)) ==>
      r == Failure(RoleInUsePermissions)
    ensures (forall u :: (u, id) !in old(db.userRoles)) && (forall p :: (id, p) !in old(db.rolePermissions)) ==>
      r == Success(if id in old(db.roles) then Removed else NotFound)
    ensures r.Failure? ==> HttpStatus(r.error) == Some(409)
    ensures db.roles == (if r == Success(Removed) then old(db.roles) - {id} else old(db.roles))
  {
    if exists link :: link in db.userRoles && link.1 == id {
      var link :| link in db.userRoles && link.1 == id;
      return Failure(RoleInUseUsers);
    }
    if exists link :: link in db.rolePermissions && link.0 == id {
      var link :| link in db.rolePermissions && link.0 == id;
      return Failure(RoleInUsePermissions);
    }
    if id !in db.roles {
      return Success(NotFound);
    }
    db.roles := db.roles - {id};
    r := Success(Removed);
  }

  /**
   * A role created with a permission cannot then be removed: no user holds
   * it yet (every assignment names an existing role), but its link blocks it.
   */
  method CreateThenRemove(db: Database, name: string, p: PermissionId) returns (created: Result<RoleId>, removed: Result<Removal>)
    requires db.Valid() && !NameTaken(db.roles, name, None)
    requires forall u, k :: (u, k) in db.userRoles ==> k in db.roles
    modifies db`roles, db`rolePermissions, db`nextRoleId
    ensures created.Success? && removed == Failure(RoleInUsePermissions)
  {
    created := Create(db, name, None, [p]);
    assert (created.value, p) in db.rolePermissions;
    removed := Remove(db, created.value);
  }
}

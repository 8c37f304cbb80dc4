/**
 * The entitlement store: the MySQL tables the models read and write, held
 * in memory. Each table with an auto-increment key is a map from its id to
 * its row; each link table whose rows are inserted with INSERT IGNORE or
 * removed by key is a set of pairs; `user_permissions`, which has no unique
 * constraint, is a sequence of rows in insertion order.
 */
module Schema {

  datatype Option<+T> = None | Some(value: T)

  /** Error codes the models attach to the errors they throw. */
  datatype Error =
    | DuplicateUserEmail
    | DuplicateRole
    | RoleInUseUsers
    | RoleInUsePermissions
    | DuplicatePermission
    | PermissionInRoles
    | PermissionInUsers
    | DuplicateDepartment
    | DuplicateMenuKey
    | InvalidOrProcessedRequest
    | Unauthorized
    | InvalidToken

  /** The `code` property of the thrown error (or its message when it has no code). */
  function Code(e: Error): string
  {
    match e
    case DuplicateUserEmail => "DUPLICATE_USER_EMAIL"
    case DuplicateRole => "DUPLICATE_ROLE"
    case RoleInUseUsers => "ROLE_IN_USE_USERS"
    case RoleInUsePermissions => "ROLE_IN_USE_PERMISSIONS"
    case DuplicatePermission => "DUPLICATE_PERMISSION"
    case PermissionInRoles => "PERMISSION_IN_ROLES"
    case PermissionInUsers => "PERMISSION_IN_USERS"
    case DuplicateDepartment => "DUPLICATE_DEPARTMENT"
    case DuplicateMenuKey => "DUPLICATE_MENU_KEY"
    case InvalidOrProcessedRequest => "Invalid or already processed request"
    case Unauthorized => "Unauthorized"
    case InvalidToken => "Invalid token"
  }

  /** Each error carries its own code, so a caller can tell the errors apart by it. */
  lemma CodesDistinct(a: Error, b: Error)
    ensures Code(a) == Code(b) ==> a == b
  {
  }

  /** The `status` property of the thrown error; only the role and permission models set one. */
  function HttpStatus(e: Error): Option<int>
  {
    match e
    case DuplicateRole | RoleInUseUsers | RoleInUsePermissions
       | DuplicatePermission | PermissionInRoles | PermissionInUsers => Some(409)
    case _ => None
  }

  datatype Result<+T> = Success(value: T) | Failure(error: Error)

  /** What a delete returns when none of its guards threw. */
  datatype Removal = Removed | NotFound

  type UserId = nat
  type RoleId = nat
  type PermissionId = nat
  type DepartmentId = nat
  type MenuId = nat
  type RequestId = nat

  /** A point in time, as compared by MySQL (`expires_at > NOW()`). */
  type Time = int

  /** JavaScript truthiness of an optional string: absent and "" are falsy. */
  predicate Truthy(v: Option<string>)
  {
    v.Some? && v.value != ""
  }

  /** JavaScript truthiness of an optional number: absent and 0 are falsy. */
  predicate TruthyInt(v: Option<int>)
  {
    v.Some? && v.value != 0
  }

  /** `v || null` for a string input. */
  function OrNull(v: Option<string>): (r: Option<string>)
    ensures r.Some? <==> Truthy(v)
    ensures r.Some? ==> r == v
  {
    if Truthy(v) then v else None
  }

  /** `v || null` for a number input. */
  function OrNullInt(v: Option<int>): (r: Option<int>)
    ensures r.Some? <==> TruthyInt(v)
    ensures r.Some? ==> r == v
  {
    if TruthyInt(v) then v else None
  }

  /** `v || null` for an id input: absent and 0 are falsy. */
  function OrNullId(v: Option<nat>): (r: Option<nat>)
    ensures r.Some? <==> v.Some? && v.value != 0
    ensures r.Some? ==> r == v
  {
    if v.Some? && v.value != 0 then v else None
  }

  datatype User = User(
    fullName: string,
    email: string,
    password: string,            // a bcrypt hash, never interpreted here
    status: string,              // "Active" or "Inactive"
    mustChangePassword: bool)

  datatype Role = Role(name: string, departmentId: Option<DepartmentId>)

  datatype Permission = Permission(name: string, description: Option<string>)

  datatype Department = Department(name: string, description: Option<string>)

  datatype Menu = Menu(menuLabel: string, route: string, menuKey: string)

  /** A row of `user_permissions`: a direct grant, NULL expiry meaning "never expires". */
  datatype Grant = Grant(userId: UserId, permissionId: PermissionId, expiresAt: Option<Time>)

  datatype RequestStatus = Pending | Approved | Rejected

  /** The text MySQL stores in `permission_requests.status`. */
  function StatusName(s: RequestStatus): string
  {
    match s
    case Pending => "Pending"
    case Approved => "Approved"
    case Rejected => "Rejected"
  }

  datatype Request = Request(
    userId: UserId,
    permissionId: PermissionId,
    reason: Option<string>,
    requestedAt: Time,
    status: RequestStatus,
    reviewedBy: Option<UserId>,
    reviewedAt: Option<Time>,
    rejectionReason: Option<string>,
    expiresAt: Option<Time>)

  /** A grant is in force at `now` when it has no expiry or expires strictly later. */
  predicate Live(g: Grant, now: Time)
  {
    g.expiresAt.None? || g.expiresAt.value > now
  }

  ghost predicate UniqueEmails(users: map<UserId, User>)
  {
    forall a, b :: a in users && b in users && users[a].email == users[b].email ==> a == b
  }

  ghost predicate UniqueRoleNames(roles: map<RoleId, Role>)
  {
    forall a, b :: a in roles && b in roles && roles[a].name == roles[b].name ==> a == b
  }

  ghost predicate UniquePermissionNames(permissions: map<PermissionId, Permission>)
  {
    forall a, b :: a in permissions && b in permissions && permissions[a].name == permissions[b].name ==> a == b
  }

  ghost predicate UniqueDepartmentNames(departments: map<DepartmentId, Department>)
  {
    forall a, b :: a in departments && b in departments && departments[a].name == departments[b].name ==> a == b
  }

  ghost predicate UniqueMenuKeys(menus: map<MenuId, Menu>)
  {
    forall a, b :: a in menus && b in menus && menus[a].menuKey == menus[b].menuKey ==> a == b
  }

  ghost predicate KeysBelow<V>(m: map<nat, V>, bound: nat)
  {
    forall k :: k in m ==> k < bound
  }

  /** The ids below `bound` that satisfy `p`, in ascending order. */
  function IdsWhere(bound: nat, p: nat -> bool): (r: seq<nat>)
    ensures forall k: nat :: k in r <==> k < bound && p(k)
    ensures forall i, j :: 0 <= i < j < |r| ==> r[i] < r[j]
  {
    if bound == 0 then []
    else
      var prefix := IdsWhere(bound - 1, p);
      assert forall i :: 0 <= i < |prefix| ==> prefix[i] < bound - 1 by {
        forall i | 0 <= i < |prefix|
          ensures prefix[i] < bound - 1
        {
          assert prefix[i] in prefix;
        }
      }
      prefix + (if p(bound - 1) then [bound - 1] else [])
  }

  /** The ids below `bound` that satisfy `p`, in descending order. */
  function IdsDescending(bound: nat, p: nat -> bool): (r: seq<nat>)
    ensures forall k: nat :: k in r <==> k < bound && p(k)
    ensures forall i, j :: 0 <= i < j < |r| ==> r[i] > r[j]
  {
    if bound == 0 then []
    else
      var rest := IdsDescending(bound - 1, p);
      assert forall i :: 0 <= i < |rest| ==> rest[i] < bound - 1 by {
        forall i | 0 <= i < |rest|
          ensures rest[i] < bound - 1
        {
          assert rest[i] in rest;
        }
      }
      (if p(bound - 1) then [bound - 1] else []) + rest
  }

  /** The names of the permissions `ids`, aligned with the ids. */
  function NamesOf(permissions: map<PermissionId, Permission>, ids: seq<PermissionId>): (names: seq<string>)
    requires forall p :: p in ids ==> p in permissions
    ensures |names| == |ids|
    ensures forall i :: 0 <= i < |ids| ==> names[i] == permissions[ids[i]].name
  {
    if ids == [] then [] else [permissions[ids[0]].name] + NamesOf(permissions, ids[1..])
  }

  class Database {
    var users: map<UserId, User>
    var userRoles: set<(UserId, RoleId)>
    var roles: map<RoleId, Role>
    var rolePermissions: set<(RoleId, PermissionId)>
    var permissions: map<PermissionId, Permission>
    var grants: seq<Grant>
    var departments: map<DepartmentId, Department>
    var menus: map<MenuId, Menu>
    var menuPermissions: set<(MenuId, PermissionId)>
    var requests: map<RequestId, Request>

    // the auto-increment counters
    var nextUserId: nat
    var nextRoleId: nat
    var nextPermissionId: nat
    var nextDepartmentId: nat
    var nextMenuId: nat
    var nextRequestId: nat

    /**
     * Every key lies below its table's auto-increment counter, and the
     * columns the models check before writing stay unique: user email,
     * role name, permission name, department name and menu key.
     */
    ghost predicate Valid()
      reads this
    {
      && KeysBelow(users, nextUserId)
      && KeysBelow(roles, nextRoleId)
      && KeysBelow(permissions, nextPermissionId)
      && KeysBelow(departments, nextDepartmentId)
      && KeysBelow(menus, nextMenuId)
      && KeysBelow(requests, nextRequestId)
      && UniqueEmails(users)
      && UniqueRoleNames(roles)
      && UniquePermissionNames(permissions)
      && UniqueDepartmentNames(departments)
      && UniqueMenuKeys(menus)
    }

    constructor ()
      ensures Valid()
      ensures users == map[] && roles == map[] && permissions == map[]
      ensures departments == map[] && menus == map[] && requests == map[]
      ensures userRoles == {} && rolePermissions == {} && menuPermissions == {} && grants == []
    {
      users, roles, permissions := map[], map[], map[];
      departments, menus, requests := map[], map[], map[];
      userRoles, rolePermissions, menuPermissions, grants := {}, {}, {}, [];
      nextUserId, nextRoleId, nextPermissionId := 0, 0, 0;
      nextDepartmentId, nextMenuId, nextRequestId := 0, 0, 0;
    }
  }
}

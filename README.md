# Enhanced RBAC backend — entitlement core in Dafny

This project models the data layer of an Express/MySQL role-based access
control backend. Users hold roles. Roles carry permissions. Users can also
hold direct, possibly expiring, permission grants obtained through an
access-request workflow. Menus are linked to permissions and shown to a
user according to the permissions that user holds.

The MySQL tables are held in memory by one `Schema.Database` object:

- tables with an auto-increment key are maps from id to row, with a counter
  per table;
- the link tables `user_roles`, `role_permissions` and `menu_permissions`
  are sets of pairs;
- `user_permissions` has no unique constraint, so it is a sequence of grants
  in insertion order.

Every model function that writes becomes a module-level method that takes
that object and names the tables it may change. A
transaction is one method: it either makes all of its changes, or it
returns the error with the object unchanged. `NOW()` is a `now` parameter.
A bcrypt hash arrives as an already-computed string. A verified JWT payload
arrives as an input.

`Database.Valid()` holds before and after every method. It says that every
key lies below its table's counter, and that the columns the models check
before writing stay unique: user email, role name, permission name,
department name and menu key.

Files, one module each:

- `schema.dfy` — the tables, rows, error codes and JavaScript `x || null`
  truthiness helpers.
- `text.dfy` — `includes` and ASCII `toLowerCase`.
- `user_permissions.dfy` — effective-permission resolution, grouping by menu
  key and menu projection.
- `users.dfy` — user create, update and delete.
- `requests.dfy` — the access-request state machine.
- `roles.dfy`, `permissions.dfy`, `departments.dfy`, `menus.dfy` — the
  entity tables and their guards.
- `sign_in.dfy`, `set_password.dfy` — the password flags.
- `admin_only.dfy` — the admin gate.

Choices where the source leaves something open:

- SQL results without an `ORDER BY` are taken in ascending id order:
  - the permission UNION;
  - the menu query;
  - the permissions of a role in `getAll`.
- `ORDER BY role_id DESC` is modelled exactly.
- `ORDER BY requested_at DESC` is a stable sort of the ascending-id list.
- The `SELECT DISTINCT menu_key` list is an input. It must list each stored
  key once (`UserPermissions.ListsMenuKeys`); its order is free.
- `includes` and `LIKE '%key%'` are both read as case-sensitive substring
  tests (`Text.Includes`).
- SQL `=` on a string column is read as exact, case-sensitive equality. This
  covers the duplicate-name and duplicate-key checks, the email lookup and
  the request status filters.
- A new user's `must_change_password` flag is taken to default to false,
  since the insert gives it no value.
- `role_permissions` is taken to have a unique `(role_id, permission_id)`
  index, so `INSERT IGNORE` never stores a link twice.
- A falsy number is an absent value or 0. A falsy string is an absent value
  or "".
- `affectedRows` counts the rows the `WHERE` clause matches.

Two behaviours of the code worth knowing, which the model keeps:

- `reject` has no `Pending` check. It overwrites any request, even an
  approved one, and the grant made by the approval stays in place.
- `departments.remove` has no in-use check. It deletes the row, if there is
  one, and always reports success. So the controller's not-found branch
  (controllers/departments.controller.js:121) cannot be reached.

## Model

| member | source | states |
|---|---|---|
| Schema.CodesDistinct | models/permissions.model.js:27-82 | every error the models throw carries its own code, so the codes tell the errors apart |
| Text.Includes | models/users.model.js:9 | `includes` holds only when the key fits in the name, and always for the empty key; `Text.IncludesAt` and `Text.IncludesOffset` tie it to "occurs at some offset" (also the reading of `LIKE '%key%'` in `Menus.AutoLinks`) |
| Text.Lower | middlewares/adminOnly.middleware.js:4 | `toLowerCase` keeps the length and lower-cases each ASCII letter in place |
| Text.IncludesAt | models/users.model.js:9 | an occurrence of the key at any offset makes `includes` true |
| Text.IncludesOffset | models/users.model.js:9 | when `includes` is true, it names an offset where the key occurs |
| Text.LowerMatches | middlewares/adminOnly.middleware.js:4 | lower-casing a label gives a lower-case target exactly when the two are equal up to ASCII case |
| UserPermissions.FirstMatch | models/users.model.js:9 | finds the first key in list order that the name contains, or reports that no key matches |
| UserPermissions.Grouped | models/users.model.js:5-17 | every menu key has a group; `misc` has one only when it is a key or some name matched no key; there are no other groups |
| UserPermissions.BucketIsGroup | models/users.model.js:8-14 | each name's bucket (its first matching key, else `misc`) is one of the groups |
| UserPermissions.GroupedSnoc | models/users.model.js:8-15 | one more name is appended to the end of its own bucket, and no other group changes |
| UserPermissions.MembersCount | models/users.model.js:8-15 | a group holds each name as many times as the input does when the name's bucket is that group, and zero times otherwise |
| UserPermissions.MembersInOrder | models/users.model.js:10-13 | each group is a subsequence of the input, so it keeps input order |
| UserPermissions.GroupsPartitionNames | models/users.model.js:8-15 | concatenating the groups (each listed once) gives a permutation of the input names |
| UserPermissions.PushAllIsGrouped | models/users.model.js:6-15 | filling empty groups per key one name at a time yields exactly the grouping |
| UserPermissions.PushName | models/users.model.js:8-14 | one name goes to the end of the group of its first matching key when that key is non-empty, otherwise to `misc`, created on first use; no other group changes |
| UserPermissions.GroupPermissions | models/users.model.js:5-17 | the `forEach`/`push` loops compute exactly the grouping |
| UserPermissions.FilterNonEmpty | models/users.model.js:56-61 | the filter keeps exactly the non-empty groups, unchanged |
| UserPermissions.NoNamesNoGroups | models/users.model.js:56-70 | with no permission names, no group survives the filter |
| UserPermissions.ResolvedIds | models/users.model.js:32-46 | every resolved id is a stored permission |
| UserPermissions.ResolvedIsUnion | models/users.model.js:32-46 | the resolved ids are exactly the role-derived permissions together with the live direct grants, each once |
| UserPermissions.ExpiredGrantExcluded | models/users.model.js:43 | a permission held only through expired grants is not resolved |
| UserPermissions.LinkedMenuIds | models/users.model.js:72-80 | the menu query returns exactly the stored menus with a `menu_permissions` row naming a resolved permission id, each once, by ascending id |
| UserPermissions.MenuShownIffLinked | models/users.model.js:72-89 | a menu is shown exactly when both checks pass: it is linked to a resolved id and its key has a non-empty group; the item carries that group |
| UserPermissions.RowsOf | models/users.model.js:74 | each menu row carries its menu's label, route and key |
| UserPermissions.ProjectMenu | models/users.model.js:82-89 | each item comes from a row whose key has a non-empty group and carries exactly that group; every such row gives an item |
| UserPermissions.GetUserPermissions | models/users.model.js:20-97 | a missing token gives Unauthorized and a bad token gives Invalid token; otherwise the result has the payload's name and role, the non-empty groups of the resolved names, an empty menu when no id was resolved, and only menu items with a non-empty group whose key belongs to a menu linked to a resolved id |
| Users.CreateUserWithRole | models/users.model.js:99-142 | a taken email fails with DUPLICATE_USER_EMAIL and changes nothing; otherwise one new user (status defaulting to Active) and exactly one role link are added |
| Users.UpdateUser | models/users.model.js:168-213 | only supplied, truthy fields change, on that user only; a truthy role id replaces all of the user's role links with that one |
| Users.DeleteUser | models/users.model.js:215-229 | the user row and all of its role links are removed; direct grants are not touched |
| Requests.InsertNewest | models/requests.model.js:22 | inserting adds exactly the one id to the multiset of ids |
| Requests.ConsNewest | models/requests.model.js:22 | putting a request no older than every listed one in front keeps the list newest first |
| Requests.InsertNewestSorted | models/requests.model.js:22 | inserting into a newest-first list keeps it newest first |
| Requests.SortNewest | models/requests.model.js:22 | the sort is a permutation of its input |
| Requests.SortNewestSorted | models/requests.model.js:22 | the sorted list is newest first |
| Requests.GetAll | models/requests.model.js:5-62 | lists exactly the visible requests, each once, newest first: an admin asking for Pending sees all pending requests, an admin asking for another status sees the ones they reviewed, anyone else sees their own; requests whose permission or requester is gone are dropped |
| Requests.Create | models/requests.model.js:64-71 | adds one pending request with a fresh id, requested now, with a falsy expiry stored as NULL |
| Requests.Approve | models/requests.model.js:73-110 | a missing or non-pending request fails with "Invalid or already processed request" and changes nothing; otherwise exactly one grant with the request's user, permission and expiry is appended, and the request becomes Approved with `reviewed_by` and `reviewed_at` set |
| Requests.Reject | models/requests.model.js:112-120 | success exactly when the request exists; the request is then overwritten as Rejected with `reviewed_by`, `reviewed_at` and the reason, whatever its status; grants are untouched |
| Requests.ApproveTwice | models/requests.model.js:83-85 | approving twice: the second call fails and exactly one grant is added |
| Requests.ApproveThenResolved | models/requests.model.js:83-92 | approving a pending request for a stored permission with no expiry, or one still ahead, makes that permission resolved for the requester at once |
| Requests.RejectAfterApprove | models/requests.model.js:112-120 | rejecting an approved request succeeds, and the grants are the old ones plus exactly the approval's grant, with the request's user, permission and expiry |
| Roles.LinkedPermissions | models/roles.model.js:12-19 | the ids listed for a role are exactly its links to stored permissions |
| Roles.DepartmentName | models/roles.model.js:6-8 | the LEFT JOIN on departments: the name is present exactly when the role names a stored department, and is then that department's name; otherwise NULL |
| Roles.ViewOfMatches | models/roles.model.js:18-25 | a role's view matches its row and its department, and lists, in matching order, the ids and names of exactly its links to stored permissions, each id once |
| Roles.GetAll | models/roles.model.js:4-28 | every listed view is of a stored role; `Roles.GetAllListsRoles` states the full listing |
| Roles.GetAllListsRoles | models/roles.model.js:4-28 | `getAll` lists every stored role once, newest id first, each with its matching view, whose permission ids are exactly the role's links, each once |
| Roles.Links | models/roles.model.js:62-69 | the links made from a list of ids are one per distinct id, so repeats collapse |
| Roles.Create | models/roles.model.js:38-80 | a taken name fails with DUPLICATE_ROLE/409 and changes nothing; otherwise one role with a falsy department stored as NULL, plus its links |
| Roles.Update | models/roles.model.js:82-131 | a name held by another role fails with DUPLICATE_ROLE/409; keeping its own name succeeds; the row is rewritten, revoked links are deleted and granted links then inserted |
| Roles.UpdateLinks | models/roles.model.js:107-121 | after an update, an id both granted and revoked is linked, a revoked-only id is not, and other roles' links are unchanged |
| Roles.Remove | models/roles.model.js:133-182 | a role assigned to a user fails with ROLE_IN_USE_USERS, checked first; then a role with a permission link fails with ROLE_IN_USE_PERMISSIONS; otherwise the row is deleted, or notFound is reported |
| Roles.CreateThenRemove | models/roles.model.js:149-160 | a role just created with a permission cannot be removed |
| Permissions.Create | models/permissions.model.js:19-37 | a taken name fails with DUPLICATE_PERMISSION/409 and changes nothing; otherwise one row with a falsy description stored as NULL |
| Permissions.Update | models/permissions.model.js:39-56 | a name held by another permission fails; keeping its own name succeeds; only the target row changes |
| Permissions.Remove | models/permissions.model.js:58-109 | a permission linked to a role fails with PERMISSION_IN_ROLES, checked first; then one with any direct grant, expired or not, fails with PERMISSION_IN_USERS; otherwise the row is deleted, or notFound is reported |
| Permissions.ExpiredGrantBlocksRemove | models/permissions.model.js:73-85 | an expired grant still blocks the removal |
| Departments.Create | models/departments.model.js:21-38 | a taken name fails with DUPLICATE_DEPARTMENT and changes nothing; otherwise exactly one department is added |
| Departments.Update | models/departments.model.js:40-57 | a name held by another department fails; keeping its own name succeeds; only the target row changes |
| Departments.Remove | models/departments.model.js:59-62 | always reports success and deletes the row if there is one |
| Menus.AutoLinks | models/menu.model.js:37-50 | a new menu is linked to exactly the stored permissions whose name contains its key |
| Menus.Create | models/menu.model.js:14-60 | a taken key fails with DUPLICATE_MENU_KEY and changes nothing; otherwise one menu and its automatic links are added |
| Menus.NoMatchNoLinks | models/menu.model.js:44-50 | a key that no name contains gives no links |
| Menus.MatchLinked | models/menu.model.js:38-41 | a permission containing the key at any offset is linked |
| Menus.Update | models/menu.model.js:62-79 | a key held by another menu fails; keeping its own key succeeds; only the target row changes and links are untouched |
| Menus.Remove | models/menu.model.js:81-84 | always reports success and deletes the row if there is one |
| SignIn.GetUserByEmailWithRole | models/sign_in.model.js:4-21 | nothing when no user has the email; otherwise that single user's columns, with the name of a stored role the user holds, or none only when no role link of the user names a stored role |
| SignIn.SetTempPasswordByEmail | models/sign_in.model.js:23-31 | only the active user with that email gets the password and the must-change flag; returns 1 then, and 0 with nothing changed otherwise |
| SetPassword.UpdateUserPassword | models/set_password.model.js:3-8 | the user's password becomes the hash and the must-change flag is cleared; other columns and other users are unchanged |
| SetPassword.ForgotThenSet | models/set_password.model.js:3-8 | forgot-password followed by set-password leaves the new password with the flag clear |
| AdminOnly.AdminOnly | middlewares/adminOnly.middleware.js:1-9 | passes on exactly when the role is "admin" or "super admin" up to letter case; otherwise 403 "Access denied: Admins only" |
| AdminOnly.AdminLabelsAllowed | middlewares/adminOnly.middleware.js:4 | "Admin", "ADMIN", "admin" and "Super Admin" pass |
| AdminOnly.OtherLabelsDenied | middlewares/adminOnly.middleware.js:2-5 | no role, an empty role, " admin" (no trimming) and another label are refused |

## Left out

- JWT signing and verification: the token check is the input `TokenCheck` (none, invalid, or a verified payload).
- bcrypt: hashes are input strings; `test.js` only demonstrates bcrypt.
- Email sending, audit logging (`utils/auditLoggers.js`, the audit-log model) and `genTempPassword` (random) are side effects outside the data layer.
- Controllers, routes, `app.js` and the error handler are HTTP glue. Two notes on them: the approve and reject routes have no admin gate (routes/requests.js:11-12), and the controller's `isAdmin` is a case-sensitive comparison with "Admin" (controllers/requests.controller.js:10).
- The connection pool and concurrent transactions: each transaction is one atomic method, with no interleaving.
- Foreign keys and the `*_FK_BLOCKED` error paths are not modelled. Links and grants may name rows that do not exist.
- The read-only `getById` lookups, `users.getAll` and the `getAll` lists of permissions, departments and menus are plain `SELECT`s and are not modelled.
- The `created_at` and `updated_at` columns, and the database defaults for `requested_at` and `status`, which the model sets to `now` and Pending.
- UserPermissions.GetUserPermissions: the `DISTINCT menu_key` order and the UNION order are fixed as described above, and JavaScript object key order is not modelled (groups form a map).
- Text.Includes: `LIKE` under a case-insensitive collation, and `_`/`%` in a key acting as wildcards, are not modelled.
- Text.LowerMatches: only ASCII letters are lower-cased; `toLowerCase` on other scripts is not modelled.
- Requests.GetAll: returns request ids rather than joined rows (`permission_name`, `requested_by_name`, `reviewed_by_name`).
- Requests.Create: a falsy `expires_at` is an absent value or 0; the string and Date forms of the value are not distinguished.
- SignIn.GetUserByEmailWithRole: the model prefers a link to a stored role; without foreign keys the source's first row could be a dangling link with a NULL role name even when another link names a stored role.
- SignIn.GetUserByEmailWithRole: when the user has several role rows, the first row is unspecified; the model returns one of the role names and does not say which.
- Case-insensitive collations: under MySQL's usual collations, `=` on strings ignores letter case, so "Admin" and "admin" would count as duplicate names, and a status filter of "pending" would match Pending rows. The model compares exactly, so `Requests.GetAll` for an admin asking for "pending" lists only requests they reviewed with status "pending", that is none.
- Duplicate `role_permissions` rows, possible in the source without a unique index, are not modelled: `Roles.GetAllListsRoles` would then list such a permission twice.
- JavaScript object lookups by keys that name `Object.prototype` members (a menu key of "constructor", say) are not modelled: the groups form a map, so such a key has a group only when the grouping made one.

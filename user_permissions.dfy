/**
 * `getUserPermissions` and its helper `groupPermissions`: the effective
 * permission set of a user (role-derived permissions plus direct grants in
 * force), grouped by menu key, and the menu entries the user may see.
 */
module UserPermissions {
  import opened Schema
  import opened Text

  /** The bucket that collects names no menu key claims. */
  const Misc: string := "misc"

  // ---------------------------------------------------------------------
  // groupPermissions (models/users.model.js:5-17)
  // ---------------------------------------------------------------------

  /** `menuKeys.find((key) => perm.includes(key))`, as the index of the key found. */
  function FirstMatch(name: string, keys: seq<string>): (r: Option<nat>)
    ensures r.Some? ==> r.value < |keys| && Includes(name, keys[r.value])
    ensures r.Some? ==> forall j :: 0 <= j < r.value ==> !Includes(name, keys[j])
    ensures r.None? ==> forall j :: 0 <= j < |keys| ==> !Includes(name, keys[j])
  {
    if keys == [] then None
    else if Includes(name, keys[0]) then Some(0)
    else match FirstMatch(name, keys[1..])
      case None => None
      case Some(i) => Some(i + 1)
  }

  /**
   * A name falls through to the misc bucket when no key matches it, or when
   * the first key that matches is "" (found, but falsy).
   */
  predicate Unmatched(name: string, keys: seq<string>)
  {
    var m := FirstMatch(name, keys);
    m.None? || keys[m.value] == ""
  }

  /** The group a permission name is pushed into. */
  function Bucket(name: string, keys: seq<string>): string
  {
    var m := FirstMatch(name, keys);
    if m.Some? && keys[m.value] != "" then keys[m.value] else Misc
  }

  /** The names pushed into group `k`, in input order. */
  function Members(names: seq<string>, keys: seq<string>, k: string): seq<string>
    decreases |names|
  {
    if names == [] then []
    else
      var last := names[|names| - 1];
      Members(names[..|names| - 1], keys, k) + (if Bucket(last, keys) == k then [last] else [])
  }

  /** Some name falls through to the misc bucket. */
  predicate HasUnmatched(names: seq<string>, keys: seq<string>)
  {
    exists n :: n in names && Unmatched(n, keys)
  }

  /** The property names of the object `groupPermissions` returns. */
  function GroupKeys(names: seq<string>, keys: seq<string>): set<string>
  {
    (set k | k in keys) + (if HasUnmatched(names, keys) then {Misc} else {})
  }

  /** The object `groupPermissions(names, keys)` returns (its keys and their arrays). */
  function Grouped(names: seq<string>, keys: seq<string>): (g: map<string, seq<string>>)
    ensures forall k :: k in keys ==> k in g
    ensures Misc in g <==> Misc in keys || exists n :: n in names && Unmatched(n, keys)
    ensures forall k :: k in g ==> k in keys || k == Misc
  {
    map k | k in GroupKeys(names, keys) :: Members(names, keys, k)
  }

  /** Every name's bucket is one of the groups. */
  lemma BucketIsGroup(names: seq<string>, keys: seq<string>, x: string)
    requires x in names
    ensures Bucket(x, keys) in Grouped(names, keys)
  {
    var m := FirstMatch(x, keys);
    if m.Some? && keys[m.value] != "" {
      assert keys[m.value] in keys;
    }
  }

  lemma MembersSnoc(names: seq<string>, n: string, keys: seq<string>, k: string)
    ensures Members(names + [n], keys, k) == Members(names, keys, k) + (if Bucket(n, keys) == k then [n] else [])
  {
    assert (names + [n])[..|names|] == names;
  }

  /** A group no name falls into is empty. */
  lemma {:induction false} MembersNone(names: seq<string>, keys: seq<string>, k: string)
    requires forall x :: x in names ==> Bucket(x, keys) != k
    ensures Members(names, keys, k) == []
    decreases |names|
  {
    if names != [] {
      MembersNone(names[..|names| - 1], keys, k);
    }
  }

  lemma GroupKeysSnoc(names: seq<string>, n: string, keys: seq<string>)
    ensures GroupKeys(names + [n], keys) == GroupKeys(names, keys) + {Bucket(n, keys)}
  {
    assert HasUnmatched(names + [n], keys) <==> HasUnmatched(names, keys) || Unmatched(n, keys) by {
      if HasUnmatched(names + [n], keys) {
        var w :| w in names + [n] && Unmatched(w, keys);
        assert w == n || w in names;
      }
      if HasUnmatched(names, keys) {
        var w :| w in names && Unmatched(w, keys);
        assert w in names + [n];
      }
    }
    var m := FirstMatch(n, keys);
    if m.Some? && keys[m.value] != "" {
      assert keys[m.value] in keys;
    }
  }

  /** Appending one name to the input appends it to its own group and nowhere else. */
  lemma GroupedSnoc(names: seq<string>, n: string, keys: seq<string>)
    ensures
      var g := Grouped(names, keys);
      var b := Bucket(n, keys);
      Grouped(names + [n], keys) == g[b := (if b in g then g[b] else []) + [n]]
  {
    var g, g' := Grouped(names, keys), Grouped(names + [n], keys);
    var b := Bucket(n, keys);
    GroupKeysSnoc(names, n, keys);
    if b !in g {
      forall x | x in names
        ensures Bucket(x, keys) != b
      {
        BucketIsGroup(names, keys, x);
      }
      MembersNone(names, keys, b);
    }
    forall k | k in g'
      ensures g'[k] == g[b := (if b in g then g[b] else []) + [n]][k]
    {
      MembersSnoc(names, n, keys, k);
    }
  }

  /** `Members` counts each name exactly as often as the input does, in its own group only. */
  lemma {:induction false} MembersCount(names: seq<string>, keys: seq<string>, k: string, x: string)
    ensures multiset(Members(names, keys, k))[x] == if Bucket(x, keys) == k then multiset(names)[x] else 0
    decreases |names|
  {
    if names != [] {
      var init, last := names[..|names| - 1], names[|names| - 1];
      assert names == init + [last];
      MembersCount(init, keys, k, x);
    }
  }

  /** `a` is `b` with some elements left out, the rest in their original order. */
  predicate Subsequence(a: seq<string>, b: seq<string>)
    decreases |b|
  {
    if b == [] then a == []
    else
      || Subsequence(a, b[..|b| - 1])
      || (a != [] && a[|a| - 1] == b[|b| - 1] && Subsequence(a[..|a| - 1], b[..|b| - 1]))
  }

  /** Each group keeps the input order of its names. */
  lemma {:induction false} MembersInOrder(names: seq<string>, keys: seq<string>, k: string)
    ensures Subsequence(Members(names, keys, k), names)
    decreases |names|
  {
    if names != [] {
      var init, last := names[..|names| - 1], names[|names| - 1];
      assert names == init + [last];
      MembersInOrder(init, keys, k);
      var prefix := Members(init, keys, k);
      MembersSnoc(init, last, keys, k);
      if Bucket(last, keys) == k {
        var a := prefix + [last];
        assert a[..|a| - 1] == prefix && a[|a| - 1] == names[|names| - 1];
        assert Subsequence(a[..|a| - 1], names[..|names| - 1]);
        assert Members(names, keys, k) == a;
        assert Subsequence(a, names);
      } else {
        assert Members(names, keys, k) == prefix;
        assert Subsequence(prefix, names[..|names| - 1]);
        assert Subsequence(prefix, names);
      }
    }
  }

  /** The arrays of the groups listed in `ks`, concatenated. */
  function Concat(g: map<string, seq<string>>, ks: seq<string>): seq<string>
    requires forall k :: k in ks ==> k in g
  {
    if ks == [] then [] else g[ks[0]] + Concat(g, ks[1..])
  }

  predicate Distinct(ks: seq<string>)
  {
    forall i, j :: 0 <= i < j < |ks| ==> ks[i] != ks[j]
  }

  lemma {:induction false} ConcatCount(names: seq<string>, keys: seq<string>, ks: seq<string>, x: string)
    requires forall k :: k in ks ==> k in Grouped(names, keys)
    requires Distinct(ks)
    ensures multiset(Concat(Grouped(names, keys), ks))[x]
         == if Bucket(x, keys) in ks then multiset(names)[x] else 0
    decreases |ks|
  {
    if ks != [] {
      var g := Grouped(names, keys);
      assert forall k :: k in ks[1..] ==> k in ks;
      ConcatCount(names, keys, ks[1..], x);
      MembersCount(names, keys, ks[0], x);
      assert Bucket(x, keys) in ks <==> Bucket(x, keys) == ks[0] || Bucket(x, keys) in ks[1..];
      if Bucket(x, keys) == ks[0] {
        assert ks[0] !in ks[1..];
      }
    }
  }

  /**
   * The groups partition the input: listing every group once and
   * concatenating their arrays yields a permutation of the names.
   */
  lemma GroupsPartitionNames(names: seq<string>, keys: seq<string>, ks: seq<string>)
    requires Distinct(ks)
    requires forall k :: k in ks <==> k in Grouped(names, keys)
    ensures multiset(Concat(Grouped(names, keys), ks)) == multiset(names)
  {
    forall x
      ensures multiset(Concat(Grouped(names, keys), ks))[x] == multiset(names)[x]
    {
      ConcatCount(names, keys, ks, x);
      if x in names {
        BucketIsGroup(names, keys, x);
      }
    }
  }

  /** One `push` of `name` into its bucket, creating the misc array on first use. */
  function Push(g: map<string, seq<string>>, name: string, keys: seq<string>): map<string, seq<string>>
  {
    var b := Bucket(name, keys);
    g[b := (if b in g then g[b] else []) + [name]]
  }

  /** The names pushed one after another, starting from `g`. */
  function PushAll(g: map<string, seq<string>>, names: seq<string>, keys: seq<string>): map<string, seq<string>>
    decreases |names|
  {
    if names == [] then g
    else Push(PushAll(g, names[..|names| - 1], keys), names[|names| - 1], keys)
  }

  /** Starting from an empty array per key and pushing every name gives `Grouped`. */
  lemma {:induction false} PushAllIsGrouped(names: seq<string>, keys: seq<string>)
    ensures PushAll(map k | k in keys :: [], names, keys) == Grouped(names, keys)
    decreases |names|
  {
    if names == [] {
      assert Grouped([], keys) == map k | k in keys :: [];
    } else {
      var init, last := names[..|names| - 1], names[|names| - 1];
      PushAllIsGrouped(init, keys);
      assert names == init + [last];
      GroupedSnoc(init, last, keys);
    }
  }

  /** Pushing the names up to `j + 1` is pushing those up to `j`, then `names[j]`. */
  lemma PushAllStep(g: map<string, seq<string>>, names: seq<string>, j: nat, keys: seq<string>)
    requires j < |names|
    ensures PushAll(g, names[..j + 1], keys) == Push(PushAll(g, names[..j], keys), names[j], keys)
  {
    assert names[..j + 1][..j] == names[..j];
  }

  /**
   * The body of the `forEach` over the names: push the name into the group of
   * its first matching key, or into `misc`, created on first use.
   */
  method PushName(grouped: map<string, seq<string>>, perm: string, keys: seq<string>)
    returns (next: map<string, seq<string>>)
    requires forall k :: k in keys ==> k in grouped
    ensures next == Push(grouped, perm, keys)
  {
    var found := FirstMatch(perm, keys);
    if found.Some? && keys[found.value] != "" {
      var key := keys[found.value];
      next := grouped[key := grouped[key] + [perm]];
    } else {
      next := grouped;
      if Misc !in next {
        next := next[Misc := []];
      }
      next := next[Misc := next[Misc] + [perm]];
    }
  }

  /** `groupPermissions(permissions, menuKeys)`: a group per key, then each name pushed into its bucket. */
  method GroupPermissions(names: seq<string>, keys: seq<string>) returns (grouped: map<string, seq<string>>)
    ensures grouped == Grouped(names, keys)
  {
    grouped := map[];
    var i := 0;
    while i < |keys|
      invariant 0 <= i <= |keys|
      invariant grouped == map k | k in keys[..i] :: []
    {
      assert keys[..i + 1] == keys[..i] + [keys[i]];
      grouped := grouped[keys[i] := []];
      i := i + 1;
    }
    assert keys[..i] == keys;
    ghost var start := grouped;
    var j := 0;
    while j < |names|
      invariant 0 <= j <= |names|
      invariant grouped == PushAll(start, names[..j], keys)
      invariant forall k :: k in keys ==> k in grouped
    {
      grouped := PushName(grouped, names[j], keys);
      PushAllStep(start, names, j, keys);
      j := j + 1;
    }
    assert names[..j] == names;
    PushAllIsGrouped(names, keys);
  }

  // ---------------------------------------------------------------------
  // Dropping empty groups (models/users.model.js:56-61)
  // ---------------------------------------------------------------------

  /** The groups with at least one name. */
  function NonEmptyGroups(g: map<string, seq<string>>): map<string, seq<string>>
  {
    map k | k in g && g[k] != [] :: g[k]
  }

  /** The loop over `Object.entries(groupedPermissions)` that keeps the non-empty arrays. */
  method FilterNonEmpty(grouped: map<string, seq<string>>) returns (filtered: map<string, seq<string>>)
    ensures forall k :: k in filtered <==> k in grouped && |grouped[k]| > 0
    ensures forall k :: k in filtered ==> filtered[k] == grouped[k]
    ensures filtered == NonEmptyGroups(grouped)
  {
    filtered := map[];
    var todo := grouped.Keys;
    while todo != {}
      invariant todo <= grouped.Keys
      invariant forall k :: k in filtered <==> k in grouped && k !in todo && |grouped[k]| > 0
      invariant forall k :: k in filtered ==> filtered[k] == grouped[k]
      decreases todo
    {
      var key :| key in todo;
      if |grouped[key]| > 0 {
        filtered := filtered[key := grouped[key]];
      }
      todo := todo - {key};
    }
  }

  /** With no names every group is empty, so nothing survives the filter. */
  lemma NoNamesNoGroups(keys: seq<string>)
    ensures NonEmptyGroups(Grouped([], keys)) == map[]
  {
    var g := Grouped([], keys);
    forall k | k in g
      ensures g[k] == []
    {
    }
  }

  // ---------------------------------------------------------------------
  // Resolution (models/users.model.js:32-49)
  // ---------------------------------------------------------------------

  /** `p` is reachable from one of `u`'s roles (the first SELECT of the UNION). */
  predicate ViaRole(userRoles: set<(UserId, RoleId)>, rolePermissions: set<(RoleId, PermissionId)>,
                    u: UserId, p: PermissionId)
  {
    exists ur :: ur in userRoles && ur.0 == u && (ur.1, p) in rolePermissions
  }

  /** `u` holds a direct grant of `p` in force at `now` (the second SELECT of the UNION). */
  predicate ViaGrant(grants: seq<Grant>, u: UserId, p: PermissionId, now: Time)
  {
    exists g :: g in grants && g.userId == u && g.permissionId == p && Live(g, now)
  }

  predicate Effective(permissions: map<PermissionId, Permission>, userRoles: set<(UserId, RoleId)>,
                      rolePermissions: set<(RoleId, PermissionId)>, grants: seq<Grant>,
                      u: UserId, p: PermissionId, now: Time)
  {
    p in permissions && (ViaRole(userRoles, rolePermissions, u, p) || ViaGrant(grants, u, p, now))
  }

  /** The `permission_id` column of the UNION, each id once, in ascending order. */
  function ResolvedIds(permissions: map<PermissionId, Permission>, userRoles: set<(UserId, RoleId)>,
                       rolePermissions: set<(RoleId, PermissionId)>, grants: seq<Grant>,
                       u: UserId, now: Time, bound: nat): (ids: seq<PermissionId>)
    ensures forall p :: p in ids ==> p in permissions
  {
    IdsWhere(bound, (p: nat) => Effective(permissions, userRoles, rolePermissions, grants, u, p, now))
  }

  /** The permissions of `u`'s roles, as the join user_roles ⋈ role_permissions ⋈ permissions gives them. */
  function RoleDerived(permissions: map<PermissionId, Permission>, userRoles: set<(UserId, RoleId)>,
                       rolePermissions: set<(RoleId, PermissionId)>, u: UserId): set<PermissionId>
  {
    set ur, rp | ur in userRoles && rp in rolePermissions && ur.0 == u && ur.1 == rp.0 && rp.1 in permissions :: rp.1
  }

  /** The permissions of `u`'s direct grants that are in force at `now`. */
  function DirectLive(permissions: map<PermissionId, Permission>, grants: seq<Grant>,
                      u: UserId, now: Time): set<PermissionId>
  {
    set g | g in grants && g.userId == u && Live(g, now) && g.permissionId in permissions :: g.permissionId
  }

  /**
   * The resolved ids are exactly the union of the role-derived permissions
   * and the live direct grants, each listed once.
   */
  lemma ResolvedIsUnion(permissions: map<PermissionId, Permission>, userRoles: set<(UserId, RoleId)>,
                        rolePermissions: set<(RoleId, PermissionId)>, grants: seq<Grant>,
                        u: UserId, now: Time, bound: nat)
    requires KeysBelow(permissions, bound)
    ensures var ids := ResolvedIds(permissions, userRoles, rolePermissions, grants, u, now, bound);
      && (set p | p in ids) == RoleDerived(permissions, userRoles, rolePermissions, u) + DirectLive(permissions, grants, u, now)
      && forall i, j :: 0 <= i < j < |ids| ==> ids[i] != ids[j]
  {
    var ids := ResolvedIds(permissions, userRoles, rolePermissions, grants, u, now, bound);
    var union := RoleDerived(permissions, userRoles, rolePermissions, u) + DirectLive(permissions, grants, u, now);
    forall p: nat
      ensures p in ids <==> p in union
    {
      if ViaRole(userRoles, rolePermissions, u, p) && p in permissions {
        var ur :| ur in userRoles && ur.0 == u && (ur.1, p) in rolePermissions;
        assert p in RoleDerived(permissions, userRoles, rolePermissions, u) by {
          var rp := (ur.1, p);
          assert rp in rolePermissions && ur.1 == rp.0 && rp.1 == p;
        }
      }
      if p in RoleDerived(permissions, userRoles, rolePermissions, u) {
        var ur, rp :| ur in userRoles && rp in rolePermissions && ur.0 == u && ur.1 == rp.0 && rp.1 in permissions && rp.1 == p;
        assert ViaRole(userRoles, rolePermissions, u, p);
      }
    }
    assert (set p | p in ids) == union;
  }

  /**
   * A permission the user holds only through grants that have all expired
   * by `now` is not resolved.
   */
  lemma ExpiredGrantExcluded(permissions: map<PermissionId, Permission>, userRoles: set<(UserId, RoleId)>,
                             rolePermissions: set<(RoleId, PermissionId)>, grants: seq<Grant>,
                             u: UserId, p: PermissionId, now: Time, bound: nat)
    requires !ViaRole(userRoles, rolePermissions, u, p)
    requires forall g :: g in grants && g.userId == u && g.permissionId == p ==>
               g.expiresAt.Some? && g.expiresAt.value <= now
    ensures p !in ResolvedIds(permissions, userRoles, rolePermissions, grants, u, now, bound)
  {
  }

  // ---------------------------------------------------------------------
  // Menu projection (models/users.model.js:72-89)
  // ---------------------------------------------------------------------

  /** A row of the menu query: a menu linked by id to one of the resolved permissions. */
  datatype MenuRow = MenuRow(id: MenuId, menuLabel: string, route: string, menuKey: string)

  /** An entry of the returned `menu` array. */
  datatype MenuItem = MenuItem(menuLabel: string, key: string, route: string, permissions: seq<string>)

  /** Menu `m` is stored and some `menu_permissions` row links it to one of the resolved ids. */
  predicate LinkedMenu(menus: map<MenuId, Menu>, menuPermissions: set<(MenuId, PermissionId)>,
                       ids: seq<PermissionId>, m: MenuId)
  {
    m in menus && exists mp :: mp in menuPermissions && mp.0 == m && mp.1 in ids
  }

  /** The menus linked in `menu_permissions` to a resolved permission, each once, by ascending id. */
  function LinkedMenuIds(menus: map<MenuId, Menu>, menuPermissions: set<(MenuId, PermissionId)>,
                         ids: seq<PermissionId>, bound: nat): (ms: seq<MenuId>)
    ensures forall m: MenuId :: m in ms <==> m < bound && LinkedMenu(menus, menuPermissions, ids, m)
    ensures forall i, j :: 0 <= i < j < |ms| ==> ms[i] < ms[j]
    ensures forall m :: m in ms ==> m in menus
  {
    IdsWhere(bound, (m: nat) => LinkedMenu(menus, menuPermissions, ids, m))
  }

  function RowsOf(menus: map<MenuId, Menu>, ms: seq<MenuId>): (rows: seq<MenuRow>)
    requires forall m :: m in ms ==> m in menus
    ensures |rows| == |ms|
    ensures forall i :: 0 <= i < |ms| ==> rows[i] == MenuRow(ms[i], menus[ms[i]].menuLabel, menus[ms[i]].route, menus[ms[i]].menuKey)
  {
    if ms == [] then []
    else [MenuRow(ms[0], menus[ms[0]].menuLabel, menus[ms[0]].route, menus[ms[0]].menuKey)] + RowsOf(menus, ms[1..])
  }

  function ItemOf(row: MenuRow, filtered: map<string, seq<string>>): MenuItem
    requires row.menuKey in filtered
  {
    MenuItem(row.menuLabel, row.menuKey, row.route, filtered[row.menuKey])
  }

  /** `filteredGroupedPermissions[menuItem.menu_key]?.length > 0` */
  predicate Shown(row: MenuRow, filtered: map<string, seq<string>>)
  {
    row.menuKey in filtered && |filtered[row.menuKey]| > 0
  }

  /**
   * The `filter`/`map` over the menu rows: a row is kept exactly when its
   * key has a non-empty group, and its entry carries that group.
   */
  function ProjectMenu(rows: seq<MenuRow>, filtered: map<string, seq<string>>): (menu: seq<MenuItem>)
    ensures |menu| <= |rows|
    ensures forall item :: item in menu ==>
      && item.key in filtered && item.permissions == filtered[item.key] && |item.permissions| > 0
      && exists row :: row in rows && row.menuKey == item.key && row.menuLabel == item.menuLabel && row.route == item.route
    ensures forall row :: row in rows && Shown(row, filtered) ==> ItemOf(row, filtered) in menu
  {
    if rows == [] then []
    else
      var rest := ProjectMenu(rows[1..], filtered);
      if Shown(rows[0], filtered) then [ItemOf(rows[0], filtered)] + rest else rest
  }

  /**
   * The two checks a menu passes before it is shown: the menu query links it
   * to a resolved permission id, and its key has a non-empty group. Every
   * item comes from such a menu and carries that group, and every such menu
   * gives an item.
   */
  lemma MenuShownIffLinked(menus: map<MenuId, Menu>, menuPermissions: set<(MenuId, PermissionId)>,
                           ids: seq<PermissionId>, filtered: map<string, seq<string>>, bound: nat)
    requires KeysBelow(menus, bound)
    ensures var menu := ProjectMenu(RowsOf(menus, LinkedMenuIds(menus, menuPermissions, ids, bound)), filtered);
      && (forall item :: item in menu ==>
            && item.key in filtered && |filtered[item.key]| > 0 && item.permissions == filtered[item.key]
            && exists m :: && LinkedMenu(menus, menuPermissions, ids, m) && menus[m].menuKey == item.key
                           && menus[m].menuLabel == item.menuLabel && menus[m].route == item.route)
      && (forall m :: LinkedMenu(menus, menuPermissions, ids, m) && menus[m].menuKey in filtered
                      && |filtered[menus[m].menuKey]| > 0 ==>
            MenuItem(menus[m].menuLabel, menus[m].menuKey, menus[m].route, filtered[menus[m].menuKey]) in menu)
  {
    var ms := LinkedMenuIds(menus, menuPermissions, ids, bound);
    var rows := RowsOf(menus, ms);
    var menu := ProjectMenu(rows, filtered);
    forall item | item in menu
      ensures exists m :: && LinkedMenu(menus, menuPermissions, ids, m) && menus[m].menuKey == item.key
                          && menus[m].menuLabel == item.menuLabel && menus[m].route == item.route
    {
      var row :| row in rows && row.menuKey == item.key && row.menuLabel == item.menuLabel && row.route == item.route;
      var i :| 0 <= i < |rows| && rows[i] == row;
      assert ms[i] in ms;
    }
    forall m | LinkedMenu(menus, menuPermissions, ids, m) && menus[m].menuKey in filtered
                 && |filtered[menus[m].menuKey]| > 0
      ensures MenuItem(menus[m].menuLabel, menus[m].menuKey, menus[m].route, filtered[menus[m].menuKey]) in menu
    {
      assert m in ms;
      var i :| 0 <= i < |ms| && ms[i] == m;
      assert rows[i] in rows && Shown(rows[i], filtered);
    }
  }

  // ---------------------------------------------------------------------
  // getUserPermissions (models/users.model.js:20-97)
  // ---------------------------------------------------------------------

  /** The claims of a verified token that the function uses. */
  datatype Payload = Payload(userId: UserId, role: Option<string>, fullName: Option<string>)

  /** What the token check yields: no token, a token `jwt.verify` rejects, or its payload. */
  datatype TokenCheck = NoToken | BadToken | Verified(payload: Payload)

  datatype PermissionsView = PermissionsView(
    fullName: Option<string>,
    role: Option<string>,
    permissions: map<string, seq<string>>,
    menu: seq<MenuItem>)

  /** `keys` is what `SELECT DISTINCT menu_key FROM menus` may return: every key once, in some order. */
  ghost predicate ListsMenuKeys(keys: seq<string>, menus: map<MenuId, Menu>)
  {
    && Distinct(keys)
    && (forall m :: m in menus ==> menus[m].menuKey in keys)
    && (forall i :: 0 <= i < |keys| ==> exists m :: m in menus && menus[m].menuKey == keys[i])
  }

  method GetUserPermissions(db: Database, token: TokenCheck, menuKeys: seq<string>, now: Time)
    returns (r: Result<PermissionsView>)
    requires db.Valid()
    requires ListsMenuKeys(menuKeys, db.menus)
    ensures token == NoToken ==> r == Failure(Unauthorized)
    ensures token == BadToken ==> r == Failure(InvalidToken)
    ensures token.Verified? ==>
      var u := token.payload.userId;
      var ids := ResolvedIds(db.permissions, db.userRoles, db.rolePermissions, db.grants, u, now, db.nextPermissionId);
      var filtered := NonEmptyGroups(Grouped(NamesOf(db.permissions, ids), menuKeys));
      && r.Success?
      && r.value.fullName == token.payload.fullName && r.value.role == token.payload.role
      && r.value.permissions == filtered
      && r.value.menu == (if ids == [] then [] else
           ProjectMenu(RowsOf(db.menus, LinkedMenuIds(db.menus, db.menuPermissions, ids, db.nextMenuId)), filtered))
    ensures token.Verified? ==>
      var ids := ResolvedIds(db.permissions, db.userRoles, db.rolePermissions, db.grants, token.payload.userId, now, db.nextPermissionId);
      forall item :: item in r.value.menu ==>
        && |item.permissions| > 0
        && exists m :: LinkedMenu(db.menus, db.menuPermissions, ids, m) && db.menus[m].menuKey == item.key
  {
    if token == NoToken {
      return Failure(Unauthorized);
    }
    if token == BadToken {
      return Failure(InvalidToken);
    }
    var payload := token.payload;
    var ids := ResolvedIds(db.permissions, db.userRoles, db.rolePermissions, db.grants, payload.userId, now, db.nextPermissionId);
    var names := NamesOf(db.permissions, ids);
    var grouped := GroupPermissions(names, menuKeys);
    var filtered := FilterNonEmpty(grouped);
    if ids == [] {
      return Success(PermissionsView(payload.fullName, payload.role, map[], []));
    }
    var rows := RowsOf(db.menus, LinkedMenuIds(db.menus, db.menuPermissions, ids, db.nextMenuId));
    var menu := ProjectMenu(rows, filtered);
    MenuShownIffLinked(db.menus, db.menuPermissions, ids, filtered, db.nextMenuId);
    r := Success(PermissionsView(payload.fullName, payload.role, filtered, menu));
  }
}

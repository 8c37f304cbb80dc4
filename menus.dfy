/**
 * The menus model: create, which also links the menu to every permission
 * whose name contains its key; update; and an unconditional remove.
 */
module Menus {
  import opened Schema
  import opened Text

  /** Some menu other than `except` has the key. */
  predicate KeyTaken(menus: map<MenuId, Menu>, key: string, except: Option<MenuId>)
  {
    exists k :: k in menus && menus[k].menuKey == key && Some(k) != except
  }

  /** The links made for a new menu: every permission whose name contains the key (`name LIKE '%key%'`). */
  function AutoLinks(menuId: MenuId, permissions: map<PermissionId, Permission>, key: string)
    : (links: set<(MenuId, PermissionId)>)
    ensures forall l :: l in links <==> l.0 == menuId && l.1 in permissions && Includes(permissions[l.1].name, key)
  {
    set p | p in permissions && Includes(permissions[p].name, key) :: (menuId, p)
  }

  /**
   * `create({ label, route, menu_key })`, one transaction: fails on a taken
   * key, otherwise inserts the menu and its automatic links.
   */
  method Create(db: Database, menuLabel: string, route: string, key: string) returns (r: Result<MenuId>)
    requires db.Valid()
    modifies db`menus, db`menuPermissions, db`nextMenuId
    ensures db.Valid()
    ensures r.Failure? <==> KeyTaken(old(db.menus), key, None)
    ensures r.Failure? ==> r.error == DuplicateMenuKey && unchanged(db)
    ensures r.Success? ==>
      && r.value !in old(db.menus)
      && db.menus == old(db.menus)[r.value := Menu(menuLabel, route, key)]
      && db.menuPermissions == old(db.menuPermissions) + AutoLinks(r.value, db.permissions, key)
  {
    if exists k :: k in db.menus && db.menus[k].menuKey == key {
      return Failure(DuplicateMenuKey);
    }
    var id := db.nextMenuId;
    db.menus := db.menus[id := Menu(menuLabel, route, key)];
    db.nextMenuId := db.nextMenuId + 1;
    var links := AutoLinks(id, db.permissions, key);
    if links != {} {
      db.menuPermissions := db.menuPermissions + links;
    }
    r := Success(id);
  }

  /** A key that no permission name contains gives the new menu no links. */
  lemma NoMatchNoLinks(menuId: MenuId, permissions: map<PermissionId, Permission>, key: string)
    requires forall p :: p in permissions ==> !Includes(permissions[p].name, key)
    ensures AutoLinks(menuId, permissions, key) == {}
  {
  }

  /** A permission whose name contains the key is linked, wherever the key occurs in the name. */
  lemma MatchLinked(menuId: MenuId, permissions: map<PermissionId, Permission>, key: string, p: PermissionId, offset: nat)
    requires p in permissions
    requires offset + |key| <= |permissions[p].name| && permissions[p].name[offset..offset + |key|] == key
    ensures (menuId, p) in AutoLinks(menuId, permissions, key)
  {
    IncludesAt(permissions[p].name, key, offset);
  }

  /**
   * `update(id, { label, route, menu_key })`: fails when another menu has
   * the key; otherwise rewrites the row, if it exists. The links are left
   * as they were, even when the key changes.
   */
  method Update(db: Database, id: MenuId, menuLabel: string, route: string, key: string) returns (r: Result<()>)
    requires db.Valid()
    modifies db`menus
    ensures db.Valid()
    ensures r.Failure? <==> KeyTaken(old(db.menus), key, Some(id))
    ensures r.Failure? ==> r.error == DuplicateMenuKey && unchanged(db)
    ensures r.Success? ==>
      db.menus == (if id in old(db.menus) then old(db.menus)[id := Menu(menuLabel, route, key)] else old(db.menus))
  {
    if exists k :: k in db.menus && db.menus[k].menuKey == key && k != id {
      return Failure(DuplicateMenuKey);
    }
    if id in db.menus {
      db.menus := db.menus[id := Menu(menuLabel, route, key)];
    }
    r := Success(());
  }

  /** `remove(id)`: deletes the row if there is one and always reports success. */
  method Remove(db: Database, id: MenuId) returns (success: bool)
    requires db.Valid()
    modifies db`menus
    ensures db.Valid()
    ensures success
    ensures db.menus == old(db.menus) - {id}
  {
    db.menus := db.menus - {id};
    success := true;
  }
}

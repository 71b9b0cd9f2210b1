/** The role tables and the two queries of src/auth/rbac/repository.py. Inner joins are
    comprehensions over rows; `distinct` and `set(...)` make the result a set. */
module RbacStore {
  datatype Database = Database(
    users: set<int>,
    roles: map<int, string>,
    permissions: map<int, string>,
    userRoles: set<(int, int)>,
    rolePermissions: set<(int, int)>)

  /** The foreign keys of `user_roles` and `role_permissions`. */
  predicate ForeignKeys(db: Database) {
    && (forall ur | ur in db.userRoles :: ur.0 in db.users && ur.1 in db.roles)
    && (forall rp | rp in db.rolePermissions :: rp.0 in db.roles && rp.1 in db.permissions)
  }

  /** `get_user_permissions`: permissions, role_permissions and user_roles, without roles. */
  function UserPermissions(db: Database, user: int): set<string> {
    set ur, rp | ur in db.userRoles && rp in db.rolePermissions
                 && rp.1 in db.permissions && rp.0 == ur.1 && ur.0 == user :: db.permissions[rp.1]
  }

  /** `get_user_roles`. */
  function UserRoles(db: Database, user: int): set<string> {
    set ur | ur in db.userRoles && ur.1 in db.roles && ur.0 == user :: db.roles[ur.1]
  }

  /** The query that goes through all four tables. */
  function UserPermissionsViaRoles(db: Database, user: int): set<string> {
    set ur, rp, role | ur in db.userRoles && rp in db.rolePermissions && role in db.roles
                       && rp.1 in db.permissions && rp.0 == role && ur.1 == role && ur.0 == user :: db.permissions[rp.1]
  }

  /** The codes attached to one role. */
  function RoleCodes(db: Database, role: int): set<string> {
    set rp | rp in db.rolePermissions && rp.0 == role && rp.1 in db.permissions :: db.permissions[rp.1]
  }

  ghost predicate Assigned(db: Database, user: int, role: int) {
    role in db.roles && (user, role) in db.userRoles
  }

  /** Under the foreign keys a user's permissions are the union of the codes of their roles, and
      skipping the roles table changes nothing. */
  lemma JoinIsUnionOfRoles(db: Database, user: int)
    requires ForeignKeys(db)
    ensures forall c :: c in UserPermissions(db, user) <==> exists role :: Assigned(db, user, role) && c in RoleCodes(db, role)
    ensures UserPermissions(db, user) == UserPermissionsViaRoles(db, user)
  {
    forall c | c in UserPermissions(db, user)
      ensures exists role :: Assigned(db, user, role) && c in RoleCodes(db, role)
      ensures c in UserPermissionsViaRoles(db, user)
    {
      var ur, rp :| ur in db.userRoles && rp in db.rolePermissions
        && rp.1 in db.permissions && rp.0 == ur.1 && ur.0 == user && c == db.permissions[rp.1];
      assert ur == (user, ur.1);
      assert Assigned(db, user, ur.1) && c in RoleCodes(db, ur.1);
    }
    forall c, role | Assigned(db, user, role) && c in RoleCodes(db, role)
      ensures c in UserPermissions(db, user)
    {
      var rp :| rp in db.rolePermissions && rp.0 == role && rp.1 in db.permissions && c == db.permissions[rp.1];
      assert (user, role) in db.userRoles && (user, role).1 == rp.0;
    }
  }

  /** Without the foreign keys the two queries agree on a user exactly when every role that the
      user is still assigned to, but that is gone, adds no code to those of the roles that exist. */
  lemma JoinsAgree(db: Database, user: int)
    ensures UserPermissions(db, user) == UserPermissionsViaRoles(db, user)
       <==> forall ur | ur in db.userRoles && ur.0 == user && ur.1 !in db.roles ::
              RoleCodes(db, ur.1) <= UserPermissionsViaRoles(db, user)
  {
    forall ur | ur in db.userRoles && ur.0 == user
      ensures RoleCodes(db, ur.1) <= UserPermissions(db, user)
      ensures ur.1 in db.roles ==> RoleCodes(db, ur.1) <= UserPermissionsViaRoles(db, user)
    {
    }
    forall c | c in UserPermissions(db, user)
      ensures exists ur :: ur in db.userRoles && ur.0 == user && c in RoleCodes(db, ur.1)
    {
      var ur, rp :| ur in db.userRoles && rp in db.rolePermissions
        && rp.1 in db.permissions && rp.0 == ur.1 && ur.0 == user && c == db.permissions[rp.1];
      assert c in RoleCodes(db, ur.1);
    }
  }

  /** A user whose every assignment outlived its one role: one query finds the role's codes, the
      other finds nothing. */
  lemma OrphanedAssignment(db: Database, user: int, role: int)
    requires (user, role) in db.userRoles && role !in db.roles
    requires forall ur | ur in db.userRoles && ur.0 == user :: ur.1 == role
    ensures UserPermissionsViaRoles(db, user) == {} && UserPermissions(db, user) == RoleCodes(db, role)
  {
  }

  // ---- Deletion with ON DELETE CASCADE --------------------------------------------------

  function DeleteUser(db: Database, user: int): Database {
    db.(users := db.users - {user},
        userRoles := (set ur | ur in db.userRoles && ur.0 != user))
  }

  function DeleteRole(db: Database, role: int): Database {
    db.(roles := db.roles - {role},
        userRoles := (set ur | ur in db.userRoles && ur.1 != role),
        rolePermissions := (set rp | rp in db.rolePermissions && rp.0 != role))
  }

  function DeletePermission(db: Database, permission: int): Database {
    db.(permissions := db.permissions - {permission},
        rolePermissions := (set rp | rp in db.rolePermissions && rp.1 != permission))
  }

  /** A deleted user has no permissions left; nobody else notices. */
  lemma DeletedUser(db: Database, gone: int, user: int)
    requires ForeignKeys(db)
    ensures ForeignKeys(DeleteUser(db, gone))
    ensures UserPermissions(DeleteUser(db, gone), user) == if user == gone then {} else UserPermissions(db, user)
    ensures UserRoles(DeleteUser(db, gone), user) == if user == gone then {} else UserRoles(db, user)
    ensures DeleteUser(db, gone).users == db.users - {gone} && DeleteUser(db, gone).roles == db.roles
    ensures DeleteUser(db, gone).permissions == db.permissions && DeleteUser(db, gone).rolePermissions == db.rolePermissions
    ensures forall u, r :: (u, r) in DeleteUser(db, gone).userRoles <==> (u, r) in db.userRoles && u != gone
  {
  }

  lemma RolesAfterDeletion(db: Database, gone: int, user: int)
    ensures forall n :: n in UserRoles(DeleteRole(db, gone), user)
                   <==> exists role :: role != gone && Assigned(db, user, role) && db.roles[role] == n
  {
    var after := DeleteRole(db, gone);
    forall n, role | role != gone && Assigned(db, user, role) && db.roles[role] == n
      ensures n in UserRoles(after, user)
    {
      var ur := (user, role);
      assert ur in after.userRoles && ur.1 in after.roles && ur.0 == user && after.roles[ur.1] == n;
    }
    forall n | n in UserRoles(after, user)
      ensures exists role :: role != gone && Assigned(db, user, role) && db.roles[role] == n
    {
      var ur :| ur in after.userRoles && ur.1 in after.roles && ur.0 == user && after.roles[ur.1] == n;
      assert ur == (user, ur.1) && Assigned(db, user, ur.1);
    }
  }

  /** Deleting a role leaves each user the union of the codes of their other roles. */
  lemma DeletedRole(db: Database, gone: int, user: int)
    requires ForeignKeys(db)
    ensures ForeignKeys(DeleteRole(db, gone))
    ensures forall c :: c in UserPermissions(DeleteRole(db, gone), user)
                   <==> exists role :: role != gone && Assigned(db, user, role) && c in RoleCodes(db, role)
    ensures forall n :: n in UserRoles(DeleteRole(db, gone), user)
                   <==> exists role :: role != gone && Assigned(db, user, role) && db.roles[role] == n
    ensures var after := DeleteRole(db, gone);
            && gone !in after.roles && (forall r | r in db.roles && r != gone :: r in after.roles && after.roles[r] == db.roles[r])
            && after.users == db.users && after.permissions == db.permissions
            && (forall u, r :: (u, r) in after.userRoles <==> (u, r) in db.userRoles && r != gone)
  {
    RolesAfterDeletion(db, gone, user);
    var after := DeleteRole(db, gone);
    JoinIsUnionOfRoles(after, user);
    forall role | role != gone
      ensures Assigned(after, user, role) <==> Assigned(db, user, role)
      ensures RoleCodes(after, role) == RoleCodes(db, role)
    {
      forall c | c in RoleCodes(db, role) ensures c in RoleCodes(after, role) {
        var rp :| rp in db.rolePermissions && rp.0 == role && rp.1 in db.permissions && c == db.permissions[rp.1];
        assert rp in after.rolePermissions;
      }
    }
  }

  /** Deleting a permission takes away that permission's row and no other. */
  lemma DeletedPermission(db: Database, gone: int, user: int)
    requires ForeignKeys(db)
    ensures ForeignKeys(DeletePermission(db, gone))
    ensures forall c :: c in UserPermissions(DeletePermission(db, gone), user)
                   <==> exists role, p :: p != gone && Assigned(db, user, role) && (role, p) in db.rolePermissions && db.permissions[p] == c
    ensures UserRoles(DeletePermission(db, gone), user) == UserRoles(db, user)
    ensures var after := DeletePermission(db, gone);
            && gone !in after.permissions
            && (forall p | p in db.permissions && p != gone :: p in after.permissions && after.permissions[p] == db.permissions[p])
            && after.users == db.users && after.roles == db.roles && after.userRoles == db.userRoles
            && (forall r, p :: (r, p) in after.rolePermissions <==> (r, p) in db.rolePermissions && p != gone)
  {
  }
}

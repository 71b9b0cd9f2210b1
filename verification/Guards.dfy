/** The route guards of src/auth/rbac/dependencies.py: what they decide, and the one row they
    leave in the audit log. */
module Guards {
  import opened Wrappers
  import opened Audit
  import opened Permissions
  import opened RbacStore

  datatype Actor = Actor(id: int, superuser: bool)

  /** Returning normally, raising the insufficient-permission or -role exception, or `ValueError`. */
  datatype Decision = Allowed | Forbidden | BadArgument

  /** Some role of the user carries a permission that matches. */
  ghost predicate Granted(db: Database, user: int, required: string, wildcards: bool) {
    exists role, p :: Assigned(db, user, role) && (role, p) in db.rolePermissions && p in db.permissions
                      && Match(required, db.permissions[p], wildcards)
  }

  /** The quantified requirement, stated on roles and permissions. */
  ghost predicate Satisfied(db: Database, user: int, required: seq<string>, mode: string, wildcards: bool) {
    || (mode == "all" && forall r | r in required :: Granted(db, user, r, wildcards))
    || (mode == "any" && exists r | r in required :: Granted(db, user, r, wildcards))
  }

  ghost predicate HasRole(db: Database, user: int, name: string) {
    exists role :: Assigned(db, user, role) && db.roles[role] == name
  }

  ghost predicate RolesSatisfied(db: Database, user: int, required: seq<string>, mode: string) {
    || (mode == "all" && forall r | r in required :: HasRole(db, user, r))
    || (mode == "any" && exists r | r in required :: HasRole(db, user, r))
  }

  predicate ValidMode(mode: string) {
    mode == "all" || mode == "any"
  }

  lemma GrantedBy(db: Database, user: int, role: int, p: int, required: string, wildcards: bool)
    requires Assigned(db, user, role) && (role, p) in db.rolePermissions && p in db.permissions
    requires Match(required, db.permissions[p], wildcards)
    ensures Granted(db, user, required, wildcards)
  {
  }

  lemma HasIsGranted(db: Database, user: int, required: string, wildcards: bool)
    requires ForeignKeys(db)
    ensures Has(required, UserPermissions(db, user), wildcards) <==> Granted(db, user, required, wildcards)
  {
    if c :| c in UserPermissions(db, user) && Match(required, c, wildcards) {
      var ur, rp :| ur in db.userRoles && rp in db.rolePermissions
        && rp.1 in db.permissions && rp.0 == ur.1 && ur.0 == user && c == db.permissions[rp.1];
      assert ur == (user, ur.1) && rp == (ur.1, rp.1);
      GrantedBy(db, user, ur.1, rp.1, required, wildcards);
    }
    if role, p :| Assigned(db, user, role) && (role, p) in db.rolePermissions && p in db.permissions
                  && Match(required, db.permissions[p], wildcards) {
      var ur, rp := (user, role), (role, p);
      assert ur in db.userRoles && rp in db.rolePermissions && rp.0 == ur.1 && ur.0 == user;
      assert db.permissions[p] in UserPermissions(db, user);
    }
  }

  lemma CheckIsSatisfied(db: Database, user: int, required: seq<string>, mode: string, wildcards: bool)
    requires ForeignKeys(db)
    ensures CheckPermissions(UserPermissions(db, user), required, mode, wildcards)
         == if ValidMode(mode) then Some(Satisfied(db, user, required, mode, wildcards)) else None
  {
    forall r ensures Has(r, UserPermissions(db, user), wildcards) <==> Granted(db, user, r, wildcards) {
      HasIsGranted(db, user, r, wildcards);
    }
  }

  /** The code is carried by one of the user's roles. */
  ghost predicate Carried(db: Database, user: int, code: string) {
    exists role, p :: Assigned(db, user, role) && (role, p) in db.rolePermissions && p in db.permissions && db.permissions[p] == code
  }

  /** With wildcards off the check asks for the required codes themselves. */
  lemma ExactCheck(db: Database, user: int, required: seq<string>)
    requires ForeignKeys(db)
    ensures CheckPermissions(UserPermissions(db, user), required, "all", false) == Some(forall r | r in required :: Carried(db, user, r))
    ensures CheckPermissions(UserPermissions(db, user), required, "any", false) == Some(exists r :: r in required && Carried(db, user, r))
    ensures Satisfied(db, user, required, "all", false) <==> forall r | r in required :: Carried(db, user, r)
    ensures Satisfied(db, user, required, "any", false) <==> exists r :: r in required && Carried(db, user, r)
  {
    forall r ensures Granted(db, user, r, false) <==> Carried(db, user, r) {
      GrantedIsCarried(db, user, r);
    }
    CheckIsSatisfied(db, user, required, "all", false);
    CheckIsSatisfied(db, user, required, "any", false);
  }

  lemma GrantedIsCarried(db: Database, user: int, code: string)
    ensures Granted(db, user, code, false) <==> Carried(db, user, code)
  {
    forall c ensures Match(code, c, false) <==> c == code { WithoutWildcards(code, {c}); }
    if Carried(db, user, code) {
      var role, p :| Assigned(db, user, role) && (role, p) in db.rolePermissions && p in db.permissions && db.permissions[p] == code;
      GrantedBy(db, user, role, p, code, false);
    }
  }

  lemma CheckRolesIsSatisfied(db: Database, user: int, required: seq<string>, mode: string)
    requires ForeignKeys(db)
    ensures CheckRoles(UserRoles(db, user), required, mode)
         == if ValidMode(mode) then Some(RolesSatisfied(db, user, required, mode)) else None
  {
    forall r ensures r in UserRoles(db, user) <==> HasRole(db, user, r) {
      if r in UserRoles(db, user) {
        var ur :| ur in db.userRoles && ur.1 in db.roles && ur.0 == user && db.roles[ur.1] == r;
        assert ur == (user, ur.1) && Assigned(db, user, ur.1);
      }
      if HasRole(db, user, r) {
        var role :| Assigned(db, user, role) && db.roles[role] == r;
        assert (user, role) in db.userRoles && (user, role).1 in db.roles;
      }
    }
  }

  /** The role check asks for the names of assigned roles, all of them or one. */
  lemma ExactRoles(db: Database, user: int, required: seq<string>)
    requires ForeignKeys(db)
    ensures CheckRoles(UserRoles(db, user), required, "all")
         == Some(forall r | r in required :: exists role :: role in db.roles && (user, role) in db.userRoles && db.roles[role] == r)
    ensures CheckRoles(UserRoles(db, user), required, "any")
         == Some(exists r, role :: r in required && role in db.roles && (user, role) in db.userRoles && db.roles[role] == r)
    ensures RolesSatisfied(db, user, required, "all") == CheckRoles(UserRoles(db, user), required, "all").value
    ensures RolesSatisfied(db, user, required, "any") == CheckRoles(UserRoles(db, user), required, "any").value
  {
    CheckRolesIsSatisfied(db, user, required, "all");
    CheckRolesIsSatisfied(db, user, required, "any");
    forall r ensures HasRole(db, user, r) <==> exists role :: role in db.roles && (user, role) in db.userRoles && db.roles[role] == r {
      if role :| role in db.roles && (user, role) in db.userRoles && db.roles[role] == r { assert Assigned(db, user, role); }
    }
  }

  /** `require_permissions(*perms, match, bypass_superuser, wildcard_support)` on one request. */
  method RequirePermissions(audit: AuditService, db: Database, user: Actor, perms: seq<string>, mode: string,
                            bypass: bool, wildcards: bool, fault: Fault) returns (d: Decision)
    requires ForeignKeys(db)
    modifies audit
    ensures d.Allowed? ==>
              && audit.calls == old(audit.calls) + [Row(PermissionCheck, Result.Granted, Some(user.id))]
              && audit.committed == Stored(old(audit.committed), old(audit.pending), Row(PermissionCheck, Result.Granted, Some(user.id)), fault)
    ensures d.Forbidden? ==>
              && audit.calls == old(audit.calls) + [Row(PermissionCheck, Result.Denied, Some(user.id))]
              && audit.committed == Stored(old(audit.committed), old(audit.pending), Row(PermissionCheck, Result.Denied, Some(user.id)), fault)
    ensures d.BadArgument? ==>
              audit.calls == old(audit.calls) && audit.committed == old(audit.committed) && audit.pending == old(audit.pending)
    ensures old(audit.Kept()) ==> audit.Kept()
    ensures d.Allowed? <==> perms != [] && ((bypass && user.superuser) || Satisfied(db, user.id, perms, mode, wildcards))
    ensures d.BadArgument? <==> perms == [] || (!(bypass && user.superuser) && mode != "all" && mode != "any")
  {
    if perms == [] {
      return BadArgument;
    }
    if bypass && user.superuser {
      audit.Log(Row(PermissionCheck, Result.Granted, Some(user.id)), fault);
      return Allowed;
    }
    d := CheckAndAudit(audit, db, user, perms, mode, wildcards, fault);
  }

  /** `owner_or_perm`, which accepts an empty list of permissions. */
  method OwnerOrPerm(audit: AuditService, db: Database, user: Actor, ownerId: int, perms: seq<string>, mode: string,
                     bypass: bool, wildcards: bool, fault: Fault) returns (d: Decision)
    requires ForeignKeys(db)
    modifies audit
    ensures d.Allowed? ==>
              && audit.calls == old(audit.calls) + [Row(PermissionCheck, Result.Granted, Some(user.id))]
              && audit.committed == Stored(old(audit.committed), old(audit.pending), Row(PermissionCheck, Result.Granted, Some(user.id)), fault)
    ensures d.Forbidden? ==>
              && audit.calls == old(audit.calls) + [Row(PermissionCheck, Result.Denied, Some(user.id))]
              && audit.committed == Stored(old(audit.committed), old(audit.pending), Row(PermissionCheck, Result.Denied, Some(user.id)), fault)
    ensures d.BadArgument? ==>
              audit.calls == old(audit.calls) && audit.committed == old(audit.committed) && audit.pending == old(audit.pending)
    ensures old(audit.Kept()) ==> audit.Kept()
    ensures d.Allowed? <==>
              (bypass && user.superuser) || user.id == ownerId || Satisfied(db, user.id, perms, mode, wildcards)
    ensures d.BadArgument? <==> !(bypass && user.superuser) && user.id != ownerId && mode != "all" && mode != "any"
  {
    if bypass && user.superuser {
      audit.Log(Row(PermissionCheck, Result.Granted, Some(user.id)), fault);
      return Allowed;
    }
    if user.id == ownerId {
      audit.Log(Row(PermissionCheck, Result.Granted, Some(user.id)), fault);
      return Allowed;
    }
    d := CheckAndAudit(audit, db, user, perms, mode, wildcards, fault);
  }

  /** The permission check with which both guards end. */
  method CheckAndAudit(audit: AuditService, db: Database, user: Actor, perms: seq<string>, mode: string,
                       wildcards: bool, fault: Fault) returns (d: Decision)
    requires ForeignKeys(db)
    modifies audit
    ensures d.Allowed? ==>
              && audit.calls == old(audit.calls) + [Row(PermissionCheck, Result.Granted, Some(user.id))]
              && audit.committed == Stored(old(audit.committed), old(audit.pending), Row(PermissionCheck, Result.Granted, Some(user.id)), fault)
    ensures d.Forbidden? ==>
              && audit.calls == old(audit.calls) + [Row(PermissionCheck, Result.Denied, Some(user.id))]
              && audit.committed == Stored(old(audit.committed), old(audit.pending), Row(PermissionCheck, Result.Denied, Some(user.id)), fault)
    ensures d.BadArgument? ==>
              audit.calls == old(audit.calls) && audit.committed == old(audit.committed) && audit.pending == old(audit.pending)
    ensures old(audit.Kept()) ==> audit.Kept()
    ensures d.Allowed? <==> Satisfied(db, user.id, perms, mode, wildcards)
    ensures d.BadArgument? <==> mode != "all" && mode != "any"
  {
    CheckIsSatisfied(db, user.id, perms, mode, wildcards);
    var hasPerms := CheckPermissions(UserPermissions(db, user.id), perms, mode, wildcards);
    if hasPerms.None? {
      return BadArgument;
    }
    if !hasPerms.value {
      audit.Log(Row(PermissionCheck, Result.Denied, Some(user.id)), fault);
      return Forbidden;
    }
    audit.Log(Row(PermissionCheck, Result.Granted, Some(user.id)), fault);
    return Allowed;
  }

  /** `require_roles(*roles, match, bypass_superuser)` on one request. */
  method RequireRoles(audit: AuditService, db: Database, user: Actor, roles: seq<string>, mode: string,
                      bypass: bool, fault: Fault) returns (d: Decision)
    requires ForeignKeys(db)
    modifies audit
    ensures d.Allowed? ==>
              && audit.calls == old(audit.calls) + [Row(RoleCheck, Result.Granted, Some(user.id))]
              && audit.committed == Stored(old(audit.committed), old(audit.pending), Row(RoleCheck, Result.Granted, Some(user.id)), fault)
    ensures d.Forbidden? ==>
              && audit.calls == old(audit.calls) + [Row(RoleCheck, Result.Denied, Some(user.id))]
              && audit.committed == Stored(old(audit.committed), old(audit.pending), Row(RoleCheck, Result.Denied, Some(user.id)), fault)
    ensures d.BadArgument? ==>
              audit.calls == old(audit.calls) && audit.committed == old(audit.committed) && audit.pending == old(audit.pending)
    ensures old(audit.Kept()) ==> audit.Kept()
    ensures d.Allowed? <==> roles != [] && ((bypass && user.superuser) || RolesSatisfied(db, user.id, roles, mode))
    ensures d.BadArgument? <==> roles == [] || (!(bypass && user.superuser) && mode != "all" && mode != "any")
  {
    if roles == [] {
      return BadArgument;
    }
    if bypass && user.superuser {
      audit.Log(Row(RoleCheck, Result.Granted, Some(user.id)), fault);
      return Allowed;
    }
    CheckRolesIsSatisfied(db, user.id, roles, mode);
    var hasRoles := CheckRoles(UserRoles(db, user.id), roles, mode);
    if hasRoles.None? {
      return BadArgument;
    }
    if !hasRoles.value {
      audit.Log(Row(RoleCheck, Result.Denied, Some(user.id)), fault);
      return Forbidden;
    }
    audit.Log(Row(RoleCheck, Result.Granted, Some(user.id)), fault);
    return Allowed;
  }

  // ---- Consequences ---------------------------------------------------------------------

  /** More assignments never take an authorisation away. */
  ghost predicate Extends(small: Database, big: Database) {
    && small.users <= big.users && small.userRoles <= big.userRoles && small.rolePermissions <= big.rolePermissions
    && (forall r | r in small.roles :: r in big.roles && big.roles[r] == small.roles[r])
    && (forall p | p in small.permissions :: p in big.permissions && big.permissions[p] == small.permissions[p])
  }

  lemma AuthorisationIsMonotone(small: Database, big: Database, user: int, required: seq<string>, mode: string,
        wildcards: bool)
    requires Extends(small, big)
    ensures Satisfied(small, user, required, mode, wildcards) ==> Satisfied(big, user, required, mode, wildcards)
    ensures RolesSatisfied(small, user, required, mode) ==> RolesSatisfied(big, user, required, mode)
  {
  }

  /** A concrete requirement is met exactly when a role carries one of its five spellings. */
  lemma ConcreteRequirement(db: Database, user: int, m: string, a: string)
    requires ForeignKeys(db) && Plain(m, a)
    ensures Granted(db, user, Join(m, a), true)
       <==> exists role, code :: Assigned(db, user, role) && code in RoleCodes(db, role) && code in Spellings(m, a)
  {
    if role, p :| Assigned(db, user, role) && (role, p) in db.rolePermissions && p in db.permissions
                  && Match(Join(m, a), db.permissions[p], true) {
      ConcreteMatch(m, a, db.permissions[p]);
      assert (role, p).0 == role && db.permissions[p] in RoleCodes(db, role);
    }
    if role, code :| Assigned(db, user, role) && code in RoleCodes(db, role) && code in Spellings(m, a) {
      ConcreteMatch(m, a, code);
      var rp :| rp in db.rolePermissions && rp.0 == role && rp.1 in db.permissions && code == db.permissions[rp.1];
      assert rp == (role, rp.1);
      GrantedBy(db, user, role, rp.1, Join(m, a), true);
    }
  }

  /** What a role deletion takes from a user: what no other of their roles grants. */
  lemma RoleDeletionRevokes(db: Database, gone: int, user: int, required: string, wildcards: bool)
    requires ForeignKeys(db)
    ensures Granted(DeleteRole(db, gone), user, required, wildcards)
       <==> exists role, code :: role != gone && Assigned(db, user, role) && code in RoleCodes(db, role) && Match(required, code, wildcards)
  {
    var after := DeleteRole(db, gone);
    DeletedRole(db, gone, user);
    HasIsGranted(after, user, required, wildcards);
    if role, code :| role != gone && Assigned(db, user, role) && code in RoleCodes(db, role) && Match(required, code, wildcards) {
      assert code in UserPermissions(after, user);
    }
  }
}

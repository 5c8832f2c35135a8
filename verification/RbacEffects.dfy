/**
 What each role, permission and user call answers, which rows it changes, whom it deletes from the cache, and which
 rules users hold afterwards: stated row by row.
 */
module RbacEffects {
  import opened Common
  import opened JoinRows
  import opened Rbac
  import opened RbacCache

  predicate AllKnown<T>(ids: seq<nat>, table: map<nat, T>) {
    forall id | id in ids :: id in table
  }

  lemma KnownElements<T>(ids: seq<nat>, table: map<nat, T>)
    ensures Elements(ids) <= table.Keys <==> AllKnown(ids, table)
  {
    assert forall id :: id in ids <==> id in Elements(ids);
  }

  // The role exists and is not a system role.
  predicate Mutable(t: Tables, role: nat) {
    role in t.roles && !t.roles[role].isSystem
  }

  /******* Answers *******/

  lemma SetRolesAnswers(t: Tables, user: nat, ids: seq<nat>)
    ensures
      var error := Apply(t, Mutation.SetRoles(user, ids)).error;
      && (error.None? <==> AllKnown(ids, t.roles) && user in t.users && !t.users[user].deleted)
      && (error == Some(BadRows(ForeignKeyViolation)) <==> AllKnown(ids, t.roles) && ids != [] && user !in t.users)
      && (error == Some(UserNotFound) <==>
            AllKnown(ids, t.roles) && if user in t.users then t.users[user].deleted else ids == [])
      && (!AllKnown(ids, t.roles) ==>
            && error.Some? && error.value.BadRows? && error.value.failure.UnknownIds?
            && forall id :: id in error.value.failure.missing <==> id in ids && id !in t.roles)
  {
    KnownElements(ids, t.roles);
    assert forall id :: id in Distinct(ids) <==> id in Elements(Distinct(ids));
    assert forall id :: id in ids <==> id in Elements(ids);
  }

  lemma SetPermissionsAnswers(t: Tables, role: nat, ids: seq<nat>)
    ensures
      var error := Apply(t, Mutation.SetPermissions(role, ids)).error;
      && (error.None? <==> Mutable(t, role) && AllKnown(ids, t.permissions))
      && (error == Some(RoleNotFound) <==> role !in t.roles)
      && (error == Some(SystemRole) <==> role in t.roles && t.roles[role].isSystem)
      && (Mutable(t, role) && !AllKnown(ids, t.permissions) ==>
            && error.Some? && error.value.BadRows? && error.value.failure.UnknownIds?
            && forall id :: id in error.value.failure.missing <==> id in ids && id !in t.permissions)
  {
    KnownElements(ids, t.permissions);
    assert forall id :: id in Distinct(ids) <==> id in Elements(Distinct(ids));
    assert forall id :: id in ids <==> id in Elements(ids);
  }

  // Some role is called this.
  ghost predicate NameTakenBy(t: Tables, name: string) {
    exists r :: r in t.roles && t.roles[r].name == name
  }

  /** System roles are neither changed nor deleted, names and rules are unique, and nobody deletes the own account. */
  lemma OtherAnswers(t: Tables, m: Mutation)
    ensures
      var error := Apply(t, m).error;
      match m
      case RemoveRole(role) =>
        && (error == Some(RoleNotFound) <==> role !in t.roles)
        && (error == Some(SystemRole) <==> role in t.roles && t.roles[role].isSystem)
        && (error.None? <==> Mutable(t, role))
      case RemovePermission(permission) =>
        error == if permission in t.permissions then None else Some(PermissionNotFound)
      case CreateRole(id, name) =>
        && (error == Some(NameTaken) <==> NameTakenBy(t, name))
        && (error.None? <==> !NameTakenBy(t, name) && id !in t.drawn)
      case UpdateRole(role, newName) =>
        && (error == Some(RoleNotFound) <==> role !in t.roles)
        && (error == Some(SystemRole) <==> role in t.roles && t.roles[role].isSystem)
        && (error == Some(NameTaken) <==>
              Mutable(t, role) && newName.Some? && newName.value != t.roles[role].name && NameTakenBy(t, newName.value))
        && (error.None? <==> Mutable(t, role) && error != Some(NameTaken))
      case CreatePermission(id, rule) =>
        && (error == Some(PermissionExists) <==> exists p :: p in t.permissions && t.permissions[p] == rule)
        && (error.None? <==> error != Some(PermissionExists) && id !in t.drawn)
      case SoftDelete(user, acting) =>
        && (error == Some(OwnAccount) <==> acting == Some(user))
        && (error.None? <==> acting != Some(user) && user in t.users && !t.users[user].deleted)
        && (error.Some? ==> error.value.OwnAccount? || error.value.UserNotFound?)
      case _ => true
  {
  }

  lemma CreateUserAnswers(t: Tables, id: nat, emailFree: bool, ids: seq<nat>)
    requires Valid(t)
    ensures
      var error := Apply(t, Mutation.CreateUser(id, emailFree, ids)).error;
      && (error == Some(EmailTaken) <==> !emailFree)
      && (error == Some(NoDefaultRole) <==> emailFree && id !in t.drawn && ids == [] && !NameTakenBy(t, "user"))
      && (error.None? <==>
            && emailFree && id !in t.drawn
            && if ids == [] then NameTakenBy(t, "user") else AllKnown(ids, t.roles))
  {
    KnownElements(ids, t.roles);
  }

  /******* Rows *******/

  // Whether the user holds the role after the call
  ghost predicate HoldsAfter(t: Tables, m: Mutation, user: nat, role: nat) {
    match m
    case SetRoles(owner, ids) =>
      if owner == user && user in t.users && AllKnown(ids, t.roles) then role in ids else (user, role) in t.userRoles
    case RemoveRole(removed) => (user, role) in t.userRoles && !(removed == role && Mutable(t, removed))
    case CreateUser(id, _, ids) =>
      || (user, role) in t.userRoles
      || (&& id == user && Apply(t, m).error.None? && role in t.roles
          && if ids == [] then t.roles[role].name == "user" else role in ids)
    case _ => (user, role) in t.userRoles
  }

  /** The join rows of users after a call: a user's roles change only by the user's own calls and with deleted roles. */
  lemma UserRolesAfter(t: Tables, m: Mutation, user: nat, role: nat)
    requires Valid(t)
    ensures (user, role) in Apply(t, m).tables.userRoles <==> HoldsAfter(t, m, user, role)
  {
    match m
    case SetRoles(owner, ids) => KnownElements(ids, t.roles);
    case CreateUser(id, emailFree, ids) =>
      KnownElements(ids, t.roles);
      CreateUserAnswers(t, id, emailFree, ids);
    case _ =>
  }

  // Whether the role has the permission after the call
  ghost predicate PermitsAfter(t: Tables, m: Mutation, role: nat, permission: nat) {
    match m
    case SetPermissions(owner, ids) =>
      if owner == role && Mutable(t, role) && AllKnown(ids, t.permissions) then permission in ids
      else (role, permission) in t.rolePermissions
    case RemoveRole(removed) => (role, permission) in t.rolePermissions && !(removed == role && Mutable(t, removed))
    case RemovePermission(removed) => (role, permission) in t.rolePermissions && removed != permission
    case _ => (role, permission) in t.rolePermissions
  }

  lemma RolePermissionsAfter(t: Tables, m: Mutation, role: nat, permission: nat)
    requires Valid(t)
    ensures (role, permission) in Apply(t, m).tables.rolePermissions <==> PermitsAfter(t, m, role, permission)
  {
    if m.SetPermissions? { KnownElements(m.permissionIds, t.permissions); }
  }

  /** The roles after a call: one is deleted, renamed or created, and nothing else. */
  lemma RolesAfter(t: Tables, m: Mutation, role: nat)
    requires Valid(t)
    ensures
      var t' := Apply(t, m).tables;
      && (role in t'.roles <==>
            || (role in t.roles && !(m == Mutation.RemoveRole(role) && !t.roles[role].isSystem))
            || (m.CreateRole? && m.newId == role && Apply(t, m).error.None?))
      && (role in t'.roles && role in t.roles ==>
            t'.roles[role] ==
            if m.UpdateRole? && m.roleId == role && Apply(t, m).error.None? && m.newName.Some?
            then t.roles[role].(name := m.newName.value) else t.roles[role])
      && (role in t'.roles && role !in t.roles ==> t'.roles[role] == Role(m.name, false))
  {
  }

  /** The permissions after a call: one is deleted or created, and nothing else. */
  lemma PermissionsAfter(t: Tables, m: Mutation, permission: nat)
    requires Valid(t)
    ensures
      var t' := Apply(t, m).tables;
      && (permission in t'.permissions <==>
            || (permission in t.permissions && m != Mutation.RemovePermission(permission))
            || (m.CreatePermission? && m.newId == permission && Apply(t, m).error.None?))
      && (permission in t'.permissions ==>
            t'.permissions[permission]
            == if permission in t.permissions then t.permissions[permission] else m.rule)
  {
  }

  /** The users after a call: one is created live or marked deleted, and nothing else. */
  lemma UsersAfter(t: Tables, m: Mutation, user: nat)
    requires Valid(t)
    ensures
      var t' := Apply(t, m).tables;
      && (user in t'.users <==>
            user in t.users || (m.CreateUser? && m.newId == user && Apply(t, m).error.None?))
      && (user in t'.users ==>
            (t'.users[user].deleted <==>
               user in t.users
               && (t.users[user].deleted || (m.SoftDelete? && m.userId == user && m.actingUserId != Some(user)))))
  {
  }

  /** The keys a call deletes from the cache: of the users whose rules it can change, and of no others. */
  lemma InvalidatedExactly(t: Tables, m: Mutation, user: nat)
    ensures user in Apply(t, m).invalidated <==>
      match m
      case SetRoles(owner, ids) => owner == user && AllKnown(ids, t.roles) && (ids == [] || owner in t.users)
      case SetPermissions(role, ids) =>
        Mutable(t, role) && AllKnown(ids, t.permissions) && (user, role) in t.userRoles
      case RemoveRole(role) => Mutable(t, role) && (user, role) in t.userRoles
      case RemovePermission(permission) =>
        permission in t.permissions
        && exists role: nat :: (user, role) in t.userRoles && (role, permission) in t.rolePermissions
      case SoftDelete(id, acting) => id == user && acting != Some(user) && user in t.users && !t.users[user].deleted
      case _ => false
  {
    match m
    case SetRoles(_, ids) => KnownElements(ids, t.roles);
    case SetPermissions(role, ids) =>
      KnownElements(ids, t.permissions);
      HoldersExactly(t, role, user);
    case RemoveRole(role) => HoldersExactly(t, role, user);
    case RemovePermission(permission) => PermittedUsersExactly(t, permission, user);
    case _ =>
  }

  lemma HoldersExactly(t: Tables, role: nat, user: nat)
    ensures user in UsersWithRole(t, role) <==> (user, role) in t.userRoles
  {
    if user in UsersWithRole(t, role) {
      var ur :| ur in t.userRoles && ur.1 == role && ur.0 == user;
      assert ur == (user, role);
    }
    if (user, role) in t.userRoles { assert (user, role).0 in UsersWithRole(t, role); }
  }

  lemma PermittedUsersExactly(t: Tables, permission: nat, user: nat)
    ensures user in UsersWithPermission(t, permission) <==>
            exists role: nat :: (user, role) in t.userRoles && (role, permission) in t.rolePermissions
  {
    if user in UsersWithPermission(t, permission) {
      var ur, rp :| ur in t.userRoles && rp in t.rolePermissions && ur.1 == rp.0 && rp.1 == permission && ur.0 == user;
      assert ur == (user, ur.1) && rp == (ur.1, permission);
    }
    if role: nat :| (user, role) in t.userRoles && (role, permission) in t.rolePermissions {
      var ur, rp := (user, role), (role, permission);
      assert ur in t.userRoles && rp in t.rolePermissions && ur.1 == rp.0 && rp.1 == permission && ur.0 == user;
    }
  }

  /******* Rules *******/

  /** A deleted permission is gone: its row, its links, and its rule from every user; all other rows stay. */
  lemma RemovedPermissionIsGone(t: Tables, permission: nat)
    requires Valid(t) && permission in t.permissions
    ensures
      var e := Apply(t, Mutation.RemovePermission(permission));
      && e.error.None? && permission !in e.tables.permissions
      && (forall role :: (role, permission) !in e.tables.rolePermissions)
      && (forall user :: t.permissions[permission] !in Join(e.tables, user))
      && (forall p | p in t.permissions && p != permission ::
            p in e.tables.permissions && e.tables.permissions[p] == t.permissions[p])
      && (forall role, p | p != permission ::
            (role, p) in e.tables.rolePermissions <==> (role, p) in t.rolePermissions)
      && e.tables.users == t.users && e.tables.roles == t.roles && e.tables.userRoles == t.userRoles
  {
    var t' := Apply(t, Mutation.RemovePermission(permission)).tables;
    forall user ensures t.permissions[permission] !in Join(t', user) {
      JoinMeans(t', user, t.permissions[permission]);
    }
  }

  /** A deleted role is gone with its links, and its holders keep exactly the rules another of their roles grants. */
  lemma RemovedRoleIsGone(t: Tables, role: nat, user: nat, rule: Rule)
    requires Valid(t) && Mutable(t, role)
    ensures
      var e := Apply(t, Mutation.RemoveRole(role));
      && e.error.None? && role !in e.tables.roles
      && (user, role) !in e.tables.userRoles && (forall p :: (role, p) !in e.tables.rolePermissions)
      && (forall r | r in t.roles && r != role :: r in e.tables.roles && e.tables.roles[r] == t.roles[r])
      && (rule in Join(e.tables, user) <==> GrantedByOther(t, role, user, rule))
      && e.tables.users == t.users && e.tables.permissions == t.permissions
  {
    var t' := Apply(t, Mutation.RemoveRole(role)).tables;
    JoinMeans(t', user, rule);
    if Granted(t', user, rule) {
      var r: nat, p: nat :| Links(t', user, r, p, rule);
      assert r != role && Links(t, user, r, p, rule);
    }
    if GrantedByOther(t, role, user, rule) {
      var r: nat, p: nat :| r != role && Links(t, user, r, p, rule);
      assert Links(t', user, r, p, rule);
    }
  }

  // A role other than this one grants the user the rule.
  ghost predicate GrantedByOther(t: Tables, role: nat, user: nat, rule: Rule) {
    exists r: nat, p: nat :: r != role && Links(t, user, r, p, rule)
  }

  /** After setRoles a user holds exactly the rules of the named roles. */
  lemma SetRolesGrants(t: Tables, user: nat, ids: seq<nat>, rule: Rule)
    requires Valid(t) && user in t.users && AllKnown(ids, t.roles)
    ensures
      rule in Join(Apply(t, Mutation.SetRoles(user, ids)).tables, user) <==>
      exists r: nat, p: nat :: r in ids && (r, p) in t.rolePermissions && p in t.permissions && t.permissions[p] == rule
  {
    var t' := Apply(t, Mutation.SetRoles(user, ids)).tables;
    JoinMeans(t', user, rule);
    forall r: nat ensures (user, r) in t'.userRoles <==> r in ids {
      UserRolesAfter(t, Mutation.SetRoles(user, ids), user, r);
    }
    if Granted(t', user, rule) {
      var r: nat, p: nat :| Links(t', user, r, p, rule);
      assert r in ids && (r, p) in t.rolePermissions;
    }
    if r: nat, p: nat :| r in ids && (r, p) in t.rolePermissions && p in t.permissions && t.permissions[p] == rule {
      assert Links(t', user, r, p, rule);
    }
  }

  /** After setPermissions a holder of the role has exactly the named rules and those of the holder's other roles. */
  lemma SetPermissionsGrants(t: Tables, role: nat, ids: seq<nat>, user: nat, rule: Rule)
    requires Valid(t) && Mutable(t, role) && AllKnown(ids, t.permissions) && (user, role) in t.userRoles
    ensures
      rule in Join(Apply(t, Mutation.SetPermissions(role, ids)).tables, user) <==>
      (exists p: nat :: p in ids && t.permissions[p] == rule) || GrantedByOther(t, role, user, rule)
  {
    var m := Mutation.SetPermissions(role, ids);
    var t' := Apply(t, m).tables;
    JoinMeans(t', user, rule);
    forall r: nat, p: nat ensures (r, p) in t'.rolePermissions <==> PermitsAfter(t, m, r, p) {
      RolePermissionsAfter(t, m, r, p);
    }
    if Granted(t', user, rule) {
      var r: nat, p: nat :| Links(t', user, r, p, rule);
      if r != role { assert Links(t, user, r, p, rule); } else { assert p in ids && t.permissions[p] == rule; }
    }
    if p: nat :| p in ids && t.permissions[p] == rule { assert Links(t', user, role, p, rule); }
    if GrantedByOther(t, role, user, rule) {
      var r: nat, p: nat :| r != role && Links(t, user, r, p, rule);
      assert Links(t', user, r, p, rule);
    }
  }

  /******* The cache *******/

  /** A lookup answers what is cached, or loads the user's rules and caches them; no other entry changes. */
  lemma LookupAnswers(t: Tables, cache: Cache, user: nat, readOk: bool, writeOk: bool)
    ensures
      var (after, rules) := Lookup(t, cache, user, readOk, writeOk);
      if readOk && user in cache then rules == cache[user] && after == cache
      else
        && (forall rule :: rule in rules <==> Granted(t, user, rule))
        && (writeOk ==> user in after && after[user] == rules)
        && (!writeOk ==> after == cache)
        && (forall other | other != user :: other in after <==> other in cache)
        && (forall other | other != user && other in cache :: after[other] == cache[other])
  {
    forall rule { JoinMeans(t, user, rule); }
  }

  /** Invalidation removes exactly the asked-for keys whose deletion Redis carries out. */
  lemma InvalidateRemoves(cache: Cache, users: set<nat>, reached: set<nat>, user: nat)
    ensures
      var after := Invalidate(cache, users, reached);
      && (user in after <==> user in cache && !(user in users && user in reached))
      && (user in after ==> after[user] == cache[user])
  {
  }
}

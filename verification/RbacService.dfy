/**
 The role, permission and user-role calls as they change the tables and the cache in place. `reached` is the set
 of cache keys Redis manages to delete during the call; each method's effect is the mutation of the same name.
 */
module RbacService {
  import opened Common
  import opened JoinRows
  import opened Rbac
  import opened RbacCache

  class Service {
    var drawn: set<nat>
    var users: map<nat, Account>
    var roles: map<nat, Role>
    var permissions: map<nat, Rule>
    var userRoles: Rows
    var rolePermissions: Rows
    var cache: Cache

    function State(): Tables
      reads this
    {
      Tables(drawn, users, roles, permissions, userRoles, rolePermissions)
    }

    ghost predicate Consistent()
      reads this
    {
      Rbac.Valid(State())
    }

    constructor ()
      ensures Consistent() && Coherent(State(), cache) && State() == Tables({}, map[], map[], map[], {}, {})
    {
      drawn, users, roles, permissions, userRoles, rolePermissions := {}, map[], map[], map[], {}, {};
      cache := map[];
    }

    // What a mutation call must do to the tables, the cache and its caller.
    ghost predicate Did(was: Tables, wasCache: Cache, m: Mutation, reached: set<nat>, error: Option<Error>)
      reads this
    {
      var e := Apply(was, m);
      && State() == e.tables
      && cache == Invalidate(wasCache, e.invalidated, reached)
      && error == e.error
      && Consistent()
    }

    method GetPermissionRulesForUser(user: nat, readOk: bool, writeOk: bool) returns (rules: set<Rule>)
      modifies this`cache
      ensures (cache, rules) == Lookup(State(), old(cache), user, readOk, writeOk)
      ensures Coherent(State(), old(cache)) ==>
        (forall rule :: rule in rules <==> Granted(State(), user, rule)) && Coherent(State(), cache)
    {
      forall rule { JoinMeans(State(), user, rule); }
      if readOk && user in cache { return cache[user]; }
      rules := Join(State(), user);
      if writeOk { cache := cache[user := rules]; }
    }

    method InvalidateUsers(userIds: set<nat>, reached: set<nat>)
      modifies this`cache
      ensures cache == Invalidate(old(cache), userIds, reached)
    {
      if userIds == {} { return; }
      cache := cache - userIds * reached;
    }

    method SetRoles(userId: nat, roleIds: seq<nat>, reached: set<nat>) returns (error: Option<Error>)
      requires Consistent()
      modifies this
      ensures Did(old(State()), old(cache), Mutation.SetRoles(userId, roleIds), reached, error)
    {
      ApplyKeepsValid(State(), Mutation.SetRoles(userId, roleIds));
      var rows, failure := ReplaceJoinRows(userRoles, userId, roleIds, users.Keys, roles.Keys);
      if failure.Some? { return Some(BadRows(failure.value)); }
      userRoles := rows;
      InvalidateUsers({userId}, reached);
      error := LiveUserError(State(), userId);
    }

    method SetPermissions(roleId: nat, permissionIds: seq<nat>, reached: set<nat>) returns (error: Option<Error>)
      requires Consistent()
      modifies this
      ensures Did(old(State()), old(cache), Mutation.SetPermissions(roleId, permissionIds), reached, error)
    {
      ApplyKeepsValid(State(), Mutation.SetPermissions(roleId, permissionIds));
      if roleId !in roles { return Some(RoleNotFound); }
      if roles[roleId].isSystem { return Some(SystemRole); }
      var rows, failure := ReplaceJoinRows(rolePermissions, roleId, permissionIds, roles.Keys, permissions.Keys);
      if failure.Some? { return Some(BadRows(failure.value)); }
      rolePermissions := rows;
      InvalidateUsers(UsersWithRole(State(), roleId), reached);
      error := None;
    }

    // Captures the affected users before the delete, because the cascade removes the rows that name them.
    method RemoveRole(roleId: nat, reached: set<nat>) returns (error: Option<Error>)
      requires Consistent()
      modifies this
      ensures Did(old(State()), old(cache), Mutation.RemoveRole(roleId), reached, error)
    {
      ApplyKeepsValid(State(), Mutation.RemoveRole(roleId));
      if roleId !in roles { return Some(RoleNotFound); }
      if roles[roleId].isSystem { return Some(SystemRole); }
      var userIds := UsersWithRole(State(), roleId);
      roles := roles - {roleId};
      userRoles := set row | row in userRoles && row.1 != roleId;
      rolePermissions := set row | row in rolePermissions && row.0 != roleId;
      InvalidateUsers(userIds, reached);
      error := None;
    }

    method RemovePermission(permissionId: nat, reached: set<nat>) returns (error: Option<Error>)
      requires Consistent()
      modifies this
      ensures Did(old(State()), old(cache), Mutation.RemovePermission(permissionId), reached, error)
    {
      ApplyKeepsValid(State(), Mutation.RemovePermission(permissionId));
      if permissionId !in permissions { return Some(PermissionNotFound); }
      var userIds := UsersWithPermission(State(), permissionId);
      permissions := permissions - {permissionId};
      rolePermissions := set row | row in rolePermissions && row.1 != permissionId;
      InvalidateUsers(userIds, reached);
      error := None;
    }

    // The join rows of the user being created: the named roles, or the default role when none is named.
    method GrantInitialRoles(newId: nat, roleIds: seq<nat>) returns (rows: Rows, error: Option<Error>)
      requires Consistent() && newId !in drawn
      ensures error == CreateUserEffect(State(), newId, true, roleIds).error
      ensures error.None? ==> rows == CreateUserEffect(State(), newId, true, roleIds).tables.userRoles
    {
      rows := userRoles;
      assert users[newId := Account(false)].Keys == users.Keys + {newId};
      if |roleIds| > 0 {
        var replaced, failure := ReplaceJoinRows(userRoles, newId, roleIds, users.Keys + {newId}, roles.Keys);
        if failure.Some? { return rows, Some(BadRows(failure.value)); }
        return replaced, None;
      }
      if !NameUsed(State(), DEFAULT_ROLE_NAME) { return rows, Some(NoDefaultRole); }
      var role :| role in roles && roles[role].name == DEFAULT_ROLE_NAME;
      return userRoles + {(newId, role)}, None;
    }

    // `newId` is the uuid the database generates for the inserted row, `emailFree` what the email's unique index says;
    // a failure rolls the insert back.
    method CreateUser(newId: nat, emailFree: bool, roleIds: seq<nat>) returns (error: Option<Error>)
      requires Consistent()
      modifies this
      ensures Did(old(State()), old(cache), Mutation.CreateUser(newId, emailFree, roleIds), {}, error)
    {
      ApplyKeepsValid(State(), Mutation.CreateUser(newId, emailFree, roleIds));
      if !emailFree { return Some(EmailTaken); }
      if newId in drawn { return Some(UniqueViolation); }
      var rows;
      rows, error := GrantInitialRoles(newId, roleIds);
      if error.Some? { return; }
      drawn := drawn + {newId};
      users := users[newId := Account(false)];
      userRoles := rows;
    }

    method CreateRole(newId: nat, name: string) returns (error: Option<Error>)
      requires Consistent()
      modifies this
      ensures Did(old(State()), old(cache), Mutation.CreateRole(newId, name), {}, error)
    {
      ApplyKeepsValid(State(), Mutation.CreateRole(newId, name));
      if NameUsed(State(), name) { return Some(NameTaken); }
      if newId in drawn { return Some(UniqueViolation); }
      drawn := drawn + {newId};
      roles := roles[newId := Role(name, false)];
      error := None;
    }

    method UpdateRole(roleId: nat, newName: Option<string>) returns (error: Option<Error>)
      requires Consistent()
      modifies this
      ensures Did(old(State()), old(cache), Mutation.UpdateRole(roleId, newName), {}, error)
    {
      ApplyKeepsValid(State(), Mutation.UpdateRole(roleId, newName));
      if roleId !in roles { return Some(RoleNotFound); }
      if roles[roleId].isSystem { return Some(SystemRole); }
      error := None;
      if newName.Some? && newName.value != roles[roleId].name {
        if NameUsed(State(), newName.value) { return Some(NameTaken); }
        roles := roles[roleId := roles[roleId].(name := newName.value)];
      }
    }

    method CreatePermission(newId: nat, rule: Rule) returns (error: Option<Error>)
      requires Consistent()
      modifies this
      ensures Did(old(State()), old(cache), Mutation.CreatePermission(newId, rule), {}, error)
    {
      ApplyKeepsValid(State(), Mutation.CreatePermission(newId, rule));
      if exists p :: p in permissions && permissions[p] == rule { return Some(PermissionExists); }
      if newId in drawn { return Some(UniqueViolation); }
      drawn := drawn + {newId};
      permissions := permissions[newId := rule];
      error := None;
    }

    method SoftDelete(userId: nat, actingUserId: Option<nat>, reached: set<nat>) returns (error: Option<Error>)
      requires Consistent()
      modifies this
      ensures Did(old(State()), old(cache), Mutation.SoftDelete(userId, actingUserId), reached, error)
    {
      ApplyKeepsValid(State(), Mutation.SoftDelete(userId, actingUserId));
      if actingUserId == Some(userId) { return Some(OwnAccount); }
      if userId !in users || users[userId].deleted { return Some(UserNotFound); }
      users := users[userId := Account(true)];
      InvalidateUsers({userId}, reached);
      error := None;
    }
  }
}

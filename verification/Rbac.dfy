/** The role and permission tables, the join that grants permissions, and the mutations of both. */
module Rbac {
  import opened Common
  import opened JoinRows

  datatype Action = Manage | Create | Read | Update | Delete

  datatype Rule = Rule(action: Action, subject: string)

  datatype Role = Role(name: string, isSystem: bool)

  datatype Account = Account(deleted: bool)

  // `drawn` holds every uuid the database has generated; it never generates one twice.
  datatype Tables = Tables(
    drawn: set<nat>, users: map<nat, Account>, roles: map<nat, Role>, permissions: map<nat, Rule>,
    userRoles: Rows, rolePermissions: Rows)

  const DEFAULT_ROLE_NAME := "user"

  // The primary keys, foreign keys and unique constraints of the schema.
  ghost predicate Valid(t: Tables) {
    && t.users.Keys <= t.drawn && t.roles.Keys <= t.drawn && t.permissions.Keys <= t.drawn
    && (forall row | row in t.userRoles :: row.0 in t.users && row.1 in t.roles)
    && (forall row | row in t.rolePermissions :: row.0 in t.roles && row.1 in t.permissions)
    && (forall a, b | a in t.roles && b in t.roles && t.roles[a].name == t.roles[b].name :: a == b)
    && (forall a, b | a in t.permissions && b in t.permissions && t.permissions[a] == t.permissions[b] :: a == b)
  }

  // loadPermissionRules: permissions join role_permissions join user_roles
  function Join(t: Tables, user: nat): set<Rule> {
    set ur, rp | ur in t.userRoles && rp in t.rolePermissions && ur.0 == user && ur.1 == rp.0 && rp.1 in t.permissions
      :: t.permissions[rp.1]
  }

  // Role r, which the user holds, is linked to permission p, which is this rule.
  predicate Links(t: Tables, user: nat, r: nat, p: nat, rule: Rule) {
    (user, r) in t.userRoles && (r, p) in t.rolePermissions && p in t.permissions && t.permissions[p] == rule
  }

  ghost predicate Granted(t: Tables, user: nat, rule: Rule) {
    exists r: nat, p: nat :: Links(t, user, r, p, rule)
  }

  /** The join yields exactly the rules that one of the user's roles is linked to. */
  lemma JoinMeans(t: Tables, user: nat, rule: Rule)
    ensures rule in Join(t, user) <==> Granted(t, user, rule)
  {
    if rule in Join(t, user) {
      var ur, rp :| ur in t.userRoles && rp in t.rolePermissions && ur.0 == user && ur.1 == rp.0
                    && rp.1 in t.permissions && t.permissions[rp.1] == rule;
      assert ur == (user, ur.1) && rp == (ur.1, rp.1);
      assert Links(t, user, ur.1, rp.1, rule);
    }
    if Granted(t, user, rule) {
      var r: nat, p: nat :| Links(t, user, r, p, rule);
      var ur, rp := (user, r), (r, p);
      assert ur in t.userRoles && rp in t.rolePermissions && ur.0 == user && ur.1 == rp.0;
    }
  }

  function UsersWithRole(t: Tables, role: nat): set<nat> {
    set ur | ur in t.userRoles && ur.1 == role :: ur.0
  }

  function UsersWithPermission(t: Tables, permission: nat): set<nat> {
    set ur, rp | ur in t.userRoles && rp in t.rolePermissions && ur.1 == rp.0 && rp.1 == permission :: ur.0
  }

  datatype Mutation =
    | SetRoles(userId: nat, roleIds: seq<nat>)
    | SetPermissions(roleId: nat, permissionIds: seq<nat>)
    | RemoveRole(roleId: nat)
    | RemovePermission(permissionId: nat)
    | CreateUser(newId: nat, emailFree: bool, roleIds: seq<nat>)
    | CreateRole(newId: nat, name: string)
    | UpdateRole(roleId: nat, newName: Option<string>)
    | CreatePermission(newId: nat, rule: Rule)
    | SoftDelete(userId: nat, actingUserId: Option<nat>)

  datatype Error =
    | BadRows(failure: Failure) | RoleNotFound | SystemRole | PermissionNotFound | UserNotFound | OwnAccount
    | NameTaken | PermissionExists | EmailTaken | NoDefaultRole | UniqueViolation

  // The tables after the call's commit, the users it deletes from the cache, and the error it answers with.
  datatype Effect = Effect(tables: Tables, invalidated: set<nat>, error: Option<Error>)

  function Rejected(t: Tables, error: Error): Effect {
    Effect(t, {}, Some(error))
  }

  predicate NameUsed(t: Tables, name: string) {
    exists r :: r in t.roles && t.roles[r].name == name
  }

  function LiveUserError(t: Tables, user: nat): Option<Error> {
    if user in t.users && !t.users[user].deleted then None else Some(UserNotFound)
  }

  // An assignment to a soft-deleted user commits, and only then is the user reported missing.
  function SetRolesEffect(t: Tables, user: nat, roleIds: seq<nat>): Effect {
    var (rows, failure) := Replaced(t.userRoles, user, roleIds, t.users.Keys, t.roles.Keys);
    if failure.Some? then Rejected(t, BadRows(failure.value))
    else Effect(t.(userRoles := rows), {user}, LiveUserError(t, user))
  }

  function SetPermissionsEffect(t: Tables, role: nat, permissionIds: seq<nat>): Effect {
    if role !in t.roles then Rejected(t, RoleNotFound)
    else if t.roles[role].isSystem then Rejected(t, SystemRole)
    else
      var (rows, failure) := Replaced(t.rolePermissions, role, permissionIds, t.roles.Keys, t.permissions.Keys);
      if failure.Some? then Rejected(t, BadRows(failure.value))
      else
        var after := t.(rolePermissions := rows);
        Effect(after, UsersWithRole(after, role), None)
  }

  // ON DELETE CASCADE removes the role's rows from both join tables.
  function DropRole(t: Tables, role: nat): Tables {
    t.(roles := t.roles - {role},
       userRoles := (set row | row in t.userRoles && row.1 != role),
       rolePermissions := (set row | row in t.rolePermissions && row.0 != role))
  }

  function RemoveRoleEffect(t: Tables, role: nat): Effect {
    if role !in t.roles then Rejected(t, RoleNotFound)
    else if t.roles[role].isSystem then Rejected(t, SystemRole)
    else Effect(DropRole(t, role), UsersWithRole(t, role), None)
  }

  function DropPermission(t: Tables, permission: nat): Tables {
    t.(permissions := t.permissions - {permission},
       rolePermissions := (set row | row in t.rolePermissions && row.1 != permission))
  }

  function RemovePermissionEffect(t: Tables, permission: nat): Effect {
    if permission !in t.permissions then Rejected(t, PermissionNotFound)
    else Effect(DropPermission(t, permission), UsersWithPermission(t, permission), None)
  }

  function InsertUser(t: Tables, id: nat): Tables {
    t.(drawn := t.drawn + {id}, users := t.users[id := Account(false)])
  }

  // `emailFree` says whether no live account has the email. The default role is granted only when no role is named; any
  // failure rolls the whole insert back.
  ghost function CreateUserEffect(t: Tables, id: nat, emailFree: bool, roleIds: seq<nat>): Effect {
    if !emailFree then Rejected(t, EmailTaken)
    else if id in t.drawn then Rejected(t, UniqueViolation)
    else
      var inserted := InsertUser(t, id);
      if roleIds != [] then
        var (rows, failure) := Replaced(t.userRoles, id, roleIds, inserted.users.Keys, t.roles.Keys);
        if failure.Some? then Rejected(t, BadRows(failure.value))
        else Effect(inserted.(userRoles := rows), {}, None)
      else if NameUsed(t, DEFAULT_ROLE_NAME) then
        var role :| role in t.roles && t.roles[role].name == DEFAULT_ROLE_NAME;
        Effect(inserted.(userRoles := t.userRoles + {(id, role)}), {}, None)
      else Rejected(t, NoDefaultRole)
  }

  function CreateRoleEffect(t: Tables, id: nat, name: string): Effect {
    if NameUsed(t, name) then Rejected(t, NameTaken)
    else if id in t.drawn then Rejected(t, UniqueViolation)
    else Effect(t.(drawn := t.drawn + {id}, roles := t.roles[id := Role(name, false)]), {}, None)
  }

  function UpdateRoleEffect(t: Tables, role: nat, newName: Option<string>): Effect {
    if role !in t.roles then Rejected(t, RoleNotFound)
    else if t.roles[role].isSystem then Rejected(t, SystemRole)
    else if newName.None? || newName.value == t.roles[role].name then Effect(t, {}, None)
    else if NameUsed(t, newName.value) then Rejected(t, NameTaken)
    else Effect(t.(roles := t.roles[role := Role(newName.value, false)]), {}, None)
  }

  function CreatePermissionEffect(t: Tables, id: nat, rule: Rule): Effect {
    if exists p :: p in t.permissions && t.permissions[p] == rule then Rejected(t, PermissionExists)
    else if id in t.drawn then Rejected(t, UniqueViolation)
    else Effect(t.(drawn := t.drawn + {id}, permissions := t.permissions[id := rule]), {}, None)
  }

  function SoftDeleteEffect(t: Tables, user: nat, actingUserId: Option<nat>): Effect {
    if actingUserId == Some(user) then Rejected(t, OwnAccount)
    else if user !in t.users || t.users[user].deleted then Rejected(t, UserNotFound)
    else Effect(t.(users := t.users[user := Account(true)]), {user}, None)
  }

  ghost function Apply(t: Tables, m: Mutation): Effect {
    match m
    case SetRoles(user, roleIds) => SetRolesEffect(t, user, roleIds)
    case SetPermissions(role, permissionIds) => SetPermissionsEffect(t, role, permissionIds)
    case RemoveRole(role) => RemoveRoleEffect(t, role)
    case RemovePermission(permission) => RemovePermissionEffect(t, permission)
    case CreateUser(id, emailFree, roleIds) => CreateUserEffect(t, id, emailFree, roleIds)
    case CreateRole(id, name) => CreateRoleEffect(t, id, name)
    case UpdateRole(role, newName) => UpdateRoleEffect(t, role, newName)
    case CreatePermission(id, rule) => CreatePermissionEffect(t, id, rule)
    case SoftDelete(user, acting) => SoftDeleteEffect(t, user, acting)
  }

  lemma ReplacementsKeepValid(t: Tables, owner: nat, ids: seq<nat>)
    requires Valid(t)
    ensures Valid(SetRolesEffect(t, owner, ids).tables)
    ensures Valid(SetPermissionsEffect(t, owner, ids).tables)
  {
    assert forall id | id in ids :: id in Elements(ids);
  }

  lemma RemovalsKeepValid(t: Tables, id: nat)
    requires Valid(t)
    ensures Valid(DropRole(t, id)) && Valid(DropPermission(t, id))
  {
  }

  lemma CreateUserKeepsValid(t: Tables, id: nat, emailFree: bool, roleIds: seq<nat>)
    requires Valid(t)
    ensures Valid(CreateUserEffect(t, id, emailFree, roleIds).tables)
  {
    assert forall role | role in roleIds :: role in Elements(roleIds);
  }

  lemma RoleCallsKeepValid(t: Tables, id: nat, name: Option<string>)
    requires Valid(t)
    ensures Valid(UpdateRoleEffect(t, id, name).tables)
    ensures name.Some? ==> Valid(CreateRoleEffect(t, id, name.value).tables)
  {
  }

  /** Every mutation keeps the schema's constraints: no join row outlives what it references. */
  lemma ApplyKeepsValid(t: Tables, m: Mutation)
    requires Valid(t)
    ensures Valid(Apply(t, m).tables)
  {
    match m
    case SetRoles(user, ids) => ReplacementsKeepValid(t, user, ids);
    case SetPermissions(role, ids) => ReplacementsKeepValid(t, role, ids);
    case RemoveRole(role) => RemovalsKeepValid(t, role);
    case RemovePermission(permission) => RemovalsKeepValid(t, permission);
    case CreateUser(id, emailFree, roleIds) => CreateUserKeepsValid(t, id, emailFree, roleIds);
    case CreateRole(id, name) => RoleCallsKeepValid(t, id, Some(name));
    case UpdateRole(role, newName) => RoleCallsKeepValid(t, role, newName);
    case _ =>
  }

  // A uuid the database has generated stays generated.
  lemma DrawnGrows(t: Tables, m: Mutation)
    ensures t.drawn <= Apply(t, m).tables.drawn
  {
  }

  function RolesOf(t: Tables, user: nat): set<nat> {
    set row | row in t.userRoles && row.0 == user :: row.1
  }

  // setRoles on a soft-deleted user, with known roles that differ from the ones the user has
  predicate ReassignsDeletedUser(t: Tables, m: Mutation) {
    && m.SetRoles? && m.userId in t.users && t.users[m.userId].deleted
    && Elements(m.roleIds) <= t.roles.Keys && RolesOf(t, m.userId) != Elements(m.roleIds)
  }

  /** A call can commit a change and still answer with an error: setRoles on a soft-deleted user, and only that. */
  lemma ErrorAfterCommitExactly(t: Tables, m: Mutation)
    requires Valid(t)
    ensures Apply(t, m).error.Some? && Apply(t, m).tables != t <==> ReassignsDeletedUser(t, m)
  {
    if m.SetRoles? {
      ReplacedChangesExactly(t, m.userId, m.roleIds);
    }
  }

  lemma ReplacedChangesExactly(t: Tables, user: nat, ids: seq<nat>)
    ensures Others(t.userRoles, user) + RowsFor(user, ids) != t.userRoles <==> RolesOf(t, user) != Elements(ids)
  {
    var after := Others(t.userRoles, user) + RowsFor(user, ids);
    forall id ensures id in RolesOf(t, user) <==> (user, id) in t.userRoles {
      if id in RolesOf(t, user) {
        var row :| row in t.userRoles && row.0 == user && row.1 == id;
        assert row == (user, id);
      }
      if (user, id) in t.userRoles { assert (user, id).1 in RolesOf(t, user); }
    }
    forall id ensures id in Elements(ids) <==> (user, id) in after {}
    if RolesOf(t, user) == Elements(ids) { assert after == t.userRoles; }
  }

  /******* What a mutation can change in the join *******/

  ghost predicate SameGrants(t: Tables, t': Tables, user: nat) {
    && (forall r :: (user, r) in t.userRoles <==> (user, r) in t'.userRoles)
    && (forall r, p :: (user, r) in t.userRoles ==> ((r, p) in t.rolePermissions <==> (r, p) in t'.rolePermissions))
    && (forall r, p :: (user, r) in t.userRoles && (r, p) in t.rolePermissions && p in t.permissions ==>
          p in t'.permissions && t'.permissions[p] == t.permissions[p])
    && (forall r, p :: (user, r) in t.userRoles && (r, p) in t.rolePermissions && p in t'.permissions ==>
          p in t.permissions)
  }

  lemma SameGrantsSameJoin(t: Tables, t': Tables, user: nat)
    requires SameGrants(t, t', user)
    ensures Join(t, user) == Join(t', user)
  {
    forall rule ensures rule in Join(t, user) <==> rule in Join(t', user) {
      if rule in Join(t, user) {
        var ur, rp :| ur in t.userRoles && rp in t.rolePermissions && ur.0 == user && ur.1 == rp.0
                      && rp.1 in t.permissions && t.permissions[rp.1] == rule;
        assert (user, ur.1) in t'.userRoles && (ur.1, rp.1) in t'.rolePermissions;
      }
      if rule in Join(t', user) {
        var ur, rp :| ur in t'.userRoles && rp in t'.rolePermissions && ur.0 == user && ur.1 == rp.0
                      && rp.1 in t'.permissions && t'.permissions[rp.1] == rule;
        assert (user, ur.1) in t.userRoles && (ur.1, rp.1) in t.rolePermissions;
      }
    }
  }

  /**
   The captured set is enough: a user whose join a mutation changes, cascades included, is a user the
   mutation invalidates, or the user it has just created.
   */
  lemma InvalidationCoversChange(t: Tables, m: Mutation, user: nat)
    requires Valid(t)
    requires Join(Apply(t, m).tables, user) != Join(t, user)
    ensures user in Apply(t, m).invalidated || (m.CreateUser? && user == m.newId && user !in t.drawn)
  {
    var e := Apply(t, m);
    if user !in e.invalidated && !(m.CreateUser? && user == m.newId && user !in t.drawn) {
      UntouchedGrants(t, m, user);
      SameGrantsSameJoin(t, e.tables, user);
    }
  }

  lemma UntouchedBySetPermissions(t: Tables, role: nat, permissionIds: seq<nat>, user: nat)
    requires user !in SetPermissionsEffect(t, role, permissionIds).invalidated
    ensures SameGrants(t, SetPermissionsEffect(t, role, permissionIds).tables, user)
  {
    if SetPermissionsEffect(t, role, permissionIds).error.None? {
      assert (user, role) in t.userRoles ==> user in UsersWithRole(t, role);
    }
  }

  lemma UntouchedByRemoveRole(t: Tables, role: nat, user: nat)
    requires user !in RemoveRoleEffect(t, role).invalidated
    ensures SameGrants(t, RemoveRoleEffect(t, role).tables, user)
  {
    if RemoveRoleEffect(t, role).error.None? {
      assert (user, role) in t.userRoles ==> user in UsersWithRole(t, role);
    }
  }

  lemma UntouchedByRemovePermission(t: Tables, permission: nat, user: nat)
    requires user !in RemovePermissionEffect(t, permission).invalidated
    ensures SameGrants(t, RemovePermissionEffect(t, permission).tables, user)
  {
    if RemovePermissionEffect(t, permission).error.None? {
      assert forall r :: (user, r) in t.userRoles && (r, permission) in t.rolePermissions ==>
          user in UsersWithPermission(t, permission);
    }
  }

  lemma UntouchedByCreateUser(t: Tables, id: nat, emailFree: bool, roleIds: seq<nat>, user: nat)
    requires user != id
    ensures SameGrants(t, CreateUserEffect(t, id, emailFree, roleIds).tables, user)
  {
  }

  lemma UntouchedBySetRoles(t: Tables, owner: nat, roleIds: seq<nat>, user: nat)
    requires user !in SetRolesEffect(t, owner, roleIds).invalidated
    ensures SameGrants(t, SetRolesEffect(t, owner, roleIds).tables, user)
  {
  }

  // The join is the same without a row of the join tables changing.
  lemma UntouchedByOthers(t: Tables, m: Mutation, user: nat)
    requires m.CreateRole? || m.UpdateRole? || m.SoftDelete?
    ensures SameGrants(t, Apply(t, m).tables, user)
  {
  }

  lemma UntouchedByCreatePermission(t: Tables, id: nat, rule: Rule, user: nat)
    requires Valid(t)
    ensures SameGrants(t, CreatePermissionEffect(t, id, rule).tables, user)
  {
  }

  lemma UntouchedGrants(t: Tables, m: Mutation, user: nat)
    requires Valid(t)
    requires user !in Apply(t, m).invalidated && !(m.CreateUser? && user == m.newId && user !in t.drawn)
    ensures SameGrants(t, Apply(t, m).tables, user)
  {
    match m
    case SetPermissions(role, permissionIds) => UntouchedBySetPermissions(t, role, permissionIds, user);
    case RemoveRole(role) => UntouchedByRemoveRole(t, role, user);
    case RemovePermission(permission) => UntouchedByRemovePermission(t, permission, user);
    case CreateUser(id, emailFree, roleIds) =>
      if user != id { UntouchedByCreateUser(t, id, emailFree, roleIds, user); }
    case SetRoles(owner, ids) => UntouchedBySetRoles(t, owner, ids, user);
    case CreatePermission(id, rule) => UntouchedByCreatePermission(t, id, rule, user);
    case _ => UntouchedByOthers(t, m, user);
  }
}

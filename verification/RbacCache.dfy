/** The permission cache used sequentially: each call runs to its end before the next one starts. */
module RbacCache {
  import opened Common
  import opened JoinRows
  import opened Rbac

  type Cache = map<nat, set<Rule>>

  ghost predicate Coherent(t: Tables, cache: Cache) {
    forall user | user in cache :: cache[user] == Join(t, user)
  }

  // `reached` is the set of keys whose deletion Redis carries out; errors are swallowed.
  function Invalidate(cache: Cache, users: set<nat>, reached: set<nat>): Cache {
    cache - users * reached
  }

  // getPermissionRulesForUser: a failed read is a miss, a failed write is ignored.
  function Lookup(t: Tables, cache: Cache, user: nat, readOk: bool, writeOk: bool): (Cache, set<Rule>) {
    if readOk && user in cache then (cache, cache[user])
    else if writeOk then (cache[user := Join(t, user)], Join(t, user))
    else (cache, Join(t, user))
  }

  // The new user of a CreateUser has an id nobody could have looked up before.
  ghost predicate NewIdUncached(m: Mutation, cache: Cache) {
    m.CreateUser? ==> m.newId !in cache
  }

  /**
   After a mutation of a coherent cache, exactly the cached users whose join changed and whose key Redis did
   not delete are stale: the cache is coherent if and only if there are none.
   */
  lemma CoherentExactlyWhenReached(t: Tables, cache: Cache, m: Mutation, reached: set<nat>)
    requires Valid(t) && Coherent(t, cache) && NewIdUncached(m, cache)
    ensures
      var e := Apply(t, m);
      Coherent(e.tables, Invalidate(cache, e.invalidated, reached)) <==>
      forall user | user in cache && Join(e.tables, user) != Join(t, user) :: user in reached
  {
    var e := Apply(t, m);
    var after := Invalidate(cache, e.invalidated, reached);
    forall user | user in cache && Join(e.tables, user) != Join(t, user) ensures user in e.invalidated {
      InvalidationCoversChange(t, m, user);
    }
    if Coherent(e.tables, after) {
      forall user | user in cache && Join(e.tables, user) != Join(t, user) ensures user in reached {
        assert user !in reached ==> user in after;
      }
    }
  }

  datatype Call =
    | Mutate(m: Mutation, reached: set<nat>)
    | Read(user: nat, readOk: bool, writeOk: bool)
    | Expire(user: nat)

  ghost function Tables'(t: Tables, call: Call): Tables {
    if call.Mutate? then Apply(t, call.m).tables else t
  }

  ghost function Cache'(t: Tables, cache: Cache, call: Call): Cache {
    match call
    case Mutate(m, reached) => Invalidate(cache, Apply(t, m).invalidated, reached)
    case Read(user, readOk, writeOk) => Lookup(t, cache, user, readOk, writeOk).0
    case Expire(user) => cache - {user}
  }

  // The tables after a run: whatever Redis does, they depend on the mutations alone.
  ghost function TablesAfter(t: Tables, calls: seq<Call>): Tables
    decreases |calls|
  {
    if |calls| == 0 then t else Tables'(TablesAfter(t, calls[..|calls| - 1]), calls[|calls| - 1])
  }

  ghost function CacheAfter(t: Tables, cache: Cache, calls: seq<Call>): Cache
    decreases |calls|
  {
    if |calls| == 0 then cache
    else
      var before := calls[..|calls| - 1];
      Cache'(TablesAfter(t, before), CacheAfter(t, cache, before), calls[|calls| - 1])
  }

  // Redis deletes what it is asked to, and reads are for user ids the service has issued.
  ghost predicate Orderly(t: Tables, call: Call) {
    match call
    case Mutate(m, reached) => Apply(t, m).invalidated <= reached
    case Read(user, _, _) => user in t.drawn
    case Expire(_) => true
  }

  ghost predicate OrderlyRun(t: Tables, calls: seq<Call>)
    decreases |calls|
  {
    |calls| > 0 ==>
      && OrderlyRun(t, calls[..|calls| - 1])
      && Orderly(TablesAfter(t, calls[..|calls| - 1]), calls[|calls| - 1])
  }

  lemma StepKeepsCoherent(t: Tables, cache: Cache, call: Call)
    requires Valid(t) && Coherent(t, cache) && cache.Keys <= t.drawn && Orderly(t, call)
    ensures Valid(Tables'(t, call)) && Coherent(Tables'(t, call), Cache'(t, cache, call))
    ensures Cache'(t, cache, call).Keys <= Tables'(t, call).drawn
  {
    if call.Mutate? {
      var m := call.m;
      ApplyKeepsValid(t, m);
      DrawnGrows(t, m);
      if m.CreateUser? && m.newId in cache { assert Apply(t, m).tables == t && Apply(t, m).invalidated == {}; }
      else {
        CoherentExactlyWhenReached(t, cache, m, call.reached);
        forall user | user in cache && Join(Apply(t, m).tables, user) != Join(t, user) ensures user in call.reached {
          InvalidationCoversChange(t, m, user);
        }
      }
    }
  }

  /**
   Sequential coherence: after any run of mutations, reads and expiries with Redis available, every cache entry
   is the join, and so is what a read returns.
   */
  lemma {:induction false} RunKeepsCoherent(t: Tables, cache: Cache, calls: seq<Call>)
    requires Valid(t) && Coherent(t, cache) && cache.Keys <= t.drawn && OrderlyRun(t, calls)
    ensures
      var t', cache' := TablesAfter(t, calls), CacheAfter(t, cache, calls);
      && Valid(t') && Coherent(t', cache') && cache'.Keys <= t'.drawn
      && forall user, readOk, writeOk :: Lookup(t', cache', user, readOk, writeOk).1 == Join(t', user)
    decreases |calls|
  {
    if |calls| > 0 {
      var before := calls[..|calls| - 1];
      RunKeepsCoherent(t, cache, before);
      StepKeepsCoherent(TablesAfter(t, before), CacheAfter(t, cache, before), calls[|calls| - 1]);
    }
  }

  lemma {:induction false} RunKeepsTablesValid(t: Tables, calls: seq<Call>)
    requires Valid(t)
    ensures Valid(TablesAfter(t, calls))
    decreases |calls|
  {
    if |calls| > 0 {
      var before := calls[..|calls| - 1];
      RunKeepsTablesValid(t, before);
      if calls[|calls| - 1].Mutate? { ApplyKeepsValid(TablesAfter(t, before), calls[|calls| - 1].m); }
    }
  }

  lemma TablesOneMore(t: Tables, calls: seq<Call>, n: nat)
    requires 0 < n <= |calls|
    ensures TablesAfter(t, calls[..n]) == Tables'(TablesAfter(t, calls[..n - 1]), calls[n - 1])
  {
    assert calls[..n][..n - 1] == calls[..n - 1];
  }

  /******* Assignments over a run *******/

  // The call gives a known user roles that all exist; anything else leaves the user's roles as they are.
  predicate Assigns(t: Tables, call: Call, user: nat) {
    && call.Mutate? && call.m.SetRoles? && call.m.userId == user
    && user in t.users && Elements(call.m.roleIds) <= t.roles.Keys
  }

  ghost predicate AssignedExactly(t: Tables, user: nat, ids: seq<nat>) {
    && user in t.users && Elements(ids) <= t.drawn
    && forall role :: (user, role) in t.userRoles <==> role in ids && role in t.roles
  }

  lemma SetRolesAssigns(t: Tables, call: Call, user: nat)
    requires Valid(t) && Assigns(t, call, user)
    ensures AssignedExactly(Tables'(t, call), user, call.m.roleIds)
  {
    assert forall id :: id in call.m.roleIds <==> id in Elements(call.m.roleIds);
  }

  // Unless it assigns the user, a mutation takes from the user's rows only those of the role it deletes.
  lemma UserRowsStand(t: Tables, m: Mutation, user: nat)
    requires Valid(t) && user in t.users && !Assigns(t, Mutate(m, {}), user)
    ensures
      var t' := Apply(t, m).tables;
      && user in t'.users
      && (forall role :: (user, role) in t'.userRoles <==> (user, role) in t.userRoles && role in t'.roles)
      && (forall role | role in t'.roles && role in t.drawn :: role in t.roles)
  {
    match m
    case SetRoles(_, _) =>
    case RemoveRole(_) =>
    case CreateUser(_, _, _) =>
    case _ =>
  }

  lemma AssignmentStands(t: Tables, call: Call, user: nat, ids: seq<nat>)
    requires Valid(t) && AssignedExactly(t, user, ids) && !Assigns(t, call, user)
    ensures AssignedExactly(Tables'(t, call), user, ids)
  {
    if call.Mutate? {
      DrawnGrows(t, call.m);
      UserRowsStand(t, call.m, user);
      assert forall id | id in ids :: id in Elements(ids);
    }
  }

  /**
   A user's roles are the ids of the last setRoles that took effect, less the roles deleted since: other owners'
   assignments, failed calls, every other mutation, and whatever Redis loses, leave them alone.
   */
  lemma {:induction false} LastAssignmentWins(t: Tables, calls: seq<Call>, user: nat, k: nat, n: nat)
    requires Valid(t) && k < n <= |calls|
    requires Assigns(TablesAfter(t, calls[..k]), calls[k], user)
    requires forall j | k < j < n :: !Assigns(TablesAfter(t, calls[..j]), calls[j], user)
    ensures AssignedExactly(TablesAfter(t, calls[..n]), user, calls[k].m.roleIds)
    decreases n
  {
    RunKeepsTablesValid(t, calls[..n - 1]);
    TablesOneMore(t, calls, n);
    if n == k + 1 { SetRolesAssigns(TablesAfter(t, calls[..k]), calls[k], user); }
    else {
      LastAssignmentWins(t, calls, user, k, n - 1);
      AssignmentStands(TablesAfter(t, calls[..n - 1]), calls[n - 1], user, calls[k].m.roleIds);
    }
  }

  // The call gives a non-system role permissions that all exist.
  predicate Permits(t: Tables, call: Call, role: nat) {
    && call.Mutate? && call.m.SetPermissions? && call.m.roleId == role
    && role in t.roles && !t.roles[role].isSystem && Elements(call.m.permissionIds) <= t.permissions.Keys
  }

  // The permissions of a role while it exists; a deleted role has none.
  ghost predicate PermittedExactly(t: Tables, role: nat, ids: seq<nat>) {
    && role in t.drawn && Elements(ids) <= t.drawn
    && forall p :: (role, p) in t.rolePermissions <==> role in t.roles && p in ids && p in t.permissions
  }

  lemma SetPermissionsPermits(t: Tables, call: Call, role: nat)
    requires Valid(t) && Permits(t, call, role)
    ensures PermittedExactly(Tables'(t, call), role, call.m.permissionIds)
  {
    assert forall id :: id in call.m.permissionIds <==> id in Elements(call.m.permissionIds);
  }

  // Unless it sets the role's permissions, a mutation takes from the role's rows only those of what it deletes.
  lemma RoleRowsStand(t: Tables, m: Mutation, role: nat)
    requires Valid(t) && role in t.drawn && !Permits(t, Mutate(m, {}), role)
    ensures
      var t' := Apply(t, m).tables;
      && (role in t'.roles ==> role in t.roles)
      && (forall p :: (role, p) in t'.rolePermissions <==>
            (role, p) in t.rolePermissions && role in t'.roles && p in t'.permissions)
      && (forall p | p in t'.permissions && p in t.drawn :: p in t.permissions)
  {
    match m
    case SetPermissions(_, _) =>
    case RemoveRole(_) =>
    case RemovePermission(_) =>
    case _ =>
  }

  lemma PermissionsStand(t: Tables, call: Call, role: nat, ids: seq<nat>)
    requires Valid(t) && PermittedExactly(t, role, ids) && !Permits(t, call, role)
    ensures PermittedExactly(Tables'(t, call), role, ids)
  {
    if call.Mutate? {
      DrawnGrows(t, call.m);
      RoleRowsStand(t, call.m, role);
      assert forall id | id in ids :: id in Elements(ids);
    }
  }

  /** A role's permissions are the ids of its last setPermissions that took effect, less those deleted since. */
  lemma {:induction false} LastPermissionsWin(t: Tables, calls: seq<Call>, role: nat, k: nat, n: nat)
    requires Valid(t) && k < n <= |calls|
    requires Permits(TablesAfter(t, calls[..k]), calls[k], role)
    requires forall j | k < j < n :: !Permits(TablesAfter(t, calls[..j]), calls[j], role)
    ensures PermittedExactly(TablesAfter(t, calls[..n]), role, calls[k].m.permissionIds)
    decreases n
  {
    RunKeepsTablesValid(t, calls[..n - 1]);
    TablesOneMore(t, calls, n);
    if n == k + 1 { SetPermissionsPermits(TablesAfter(t, calls[..k]), calls[k], role); }
    else {
      LastPermissionsWin(t, calls, role, k, n - 1);
      PermissionsStand(TablesAfter(t, calls[..n - 1]), calls[n - 1], role, calls[k].m.permissionIds);
    }
  }
}

/** The idempotent seeder: find or insert every listed permission, role and link, then the bootstrap admin. */
module Seeder {
  import NamingStrategy
  import opened Rbac

  datatype SeedRole = SeedRole(name: string, description: string, isSystem: bool, permissions: seq<Rule>)

  const SEED_ROLES := [
    SeedRole("admin", "Full system administration access", true,
             [Rule(Manage, "User"), Rule(Manage, "Role"), Rule(Manage, "Permission"), Rule(Manage, "Metric")]),
    SeedRole("user", "Default registered user", true, [Rule(Read, "User"), Rule(Read, "Role")])
  ]

  /** What the list holds: two system roles, the administrator's four rules and the user's two. */
  lemma SeedRolesList()
    ensures
      && |SEED_ROLES| == 2
      && SEED_ROLES[0].name == "admin" && SEED_ROLES[0].isSystem
      && SEED_ROLES[1].name == "user" && SEED_ROLES[1].isSystem
      && (forall rule :: rule in SEED_ROLES[0].permissions <==>
            rule.action == Manage && rule.subject in ["User", "Role", "Permission", "Metric"])
      && (forall rule :: rule in SEED_ROLES[1].permissions <==> rule.action == Read && rule.subject in ["User", "Role"])
  {
  }

  datatype RoleRow = RoleRow(name: string, description: string, isSystem: bool)

  datatype UserRow = UserRow(email: string, password: string, deleted: bool)

  // Ids from `next` on are the ones the database has not generated yet.
  datatype Db = Db(
    next: nat, permissions: map<nat, Rule>, roles: map<nat, RoleRow>, links: set<(nat, nat)>,
    users: map<nat, UserRow>, grants: set<(nat, nat)>)

  ghost predicate KeysOk(db: Db) {
    && (forall p | p in db.permissions :: p < db.next)
    && (forall r | r in db.roles :: r < db.next)
    && (forall u | u in db.users :: u < db.next)
    && (forall a, b | a in db.permissions && b in db.permissions && db.permissions[a] == db.permissions[b] :: a == b)
    && (forall a, b | a in db.roles && b in db.roles && db.roles[a].name == db.roles[b].name :: a == b)
  }

  // Nothing that was there is changed or gone.
  ghost predicate Extends(a: Db, b: Db) {
    && a.next <= b.next && a.links <= b.links && a.grants <= b.grants
    && (forall p | p in a.permissions :: p in b.permissions && b.permissions[p] == a.permissions[p])
    && (forall r | r in a.roles :: r in b.roles && b.roles[r] == a.roles[r])
    && (forall u | u in a.users :: u in b.users && b.users[u] == a.users[u])
  }

  lemma ExtendsTransitive(a: Db, b: Db, c: Db)
    requires Extends(a, b) && Extends(b, c)
    ensures Extends(a, c)
  {
  }

  predicate HasRule(db: Db, rule: Rule) {
    exists p :: p in db.permissions && db.permissions[p] == rule
  }

  predicate HasRole(db: Db, name: string) {
    exists r :: r in db.roles && db.roles[r].name == name
  }

  predicate HasLink(db: Db, name: string, rule: Rule) {
    exists link :: link in db.links && link.0 in db.roles && db.roles[link.0].name == name
                   && link.1 in db.permissions && db.permissions[link.1] == rule
  }

  // The email column is citext: it keeps the letters' case and ignores it when it compares.
  predicate SameEmail(a: string, b: string) {
    NamingStrategy.LowerAll(a) == NamingStrategy.LowerAll(b)
  }

  /** The same letters up to the case of A to Z. */
  lemma SameEmailMeans(a: string, b: string)
    ensures SameEmail(a, b) <==>
      && |a| == |b|
      && forall i | 0 <= i < |a| ::
           || a[i] == b[i]
           || ('A' <= a[i] <= 'Z' && b[i] as int == a[i] as int + 32)
           || ('A' <= b[i] <= 'Z' && a[i] as int == b[i] as int + 32)
  {
    var x, y := NamingStrategy.LowerAll(a), NamingStrategy.LowerAll(b);
    if x == y {
      forall i | 0 <= i < |a|
        ensures
          || a[i] == b[i]
          || ('A' <= a[i] <= 'Z' && b[i] as int == a[i] as int + 32)
          || ('A' <= b[i] <= 'Z' && a[i] as int == b[i] as int + 32)
      {
        assert x[i] == y[i];
      }
    }
  }

  // The live account with this email holds the admin role.
  predicate HasAdmin(db: Db, email: string) {
    exists grant :: grant in db.grants && HasAccount(db, email, grant.0)
                    && grant.1 in db.roles && db.roles[grant.1].name == "admin"
  }

  // The user is a live account with this email.
  predicate HasAccount(db: Db, email: string, user: nat) {
    user in db.users && SameEmail(db.users[user].email, email) && !db.users[user].deleted
  }

  // UQ_users_email_active
  ghost predicate UniqueEmail(db: Db, email: string) {
    forall a, b | HasAccount(db, email, a) && HasAccount(db, email, b) :: a == b
  }

  /******* Permission keys *******/

  function ActionName(action: Action): string {
    match action
    case Manage => "manage"
    case Create => "create"
    case Read => "read"
    case Update => "update"
    case Delete => "delete"
  }

  function PermissionKey(rule: Rule): string {
    ActionName(rule.action) + ":" + rule.subject
  }

  /** A key is the action's name, a colon and the subject. */
  lemma PermissionKeyMeans(subject: string)
    ensures PermissionKey(Rule(Manage, subject)) == "manage:" + subject
    ensures PermissionKey(Rule(Create, subject)) == "create:" + subject
    ensures PermissionKey(Rule(Read, subject)) == "read:" + subject
    ensures PermissionKey(Rule(Update, subject)) == "update:" + subject
    ensures PermissionKey(Rule(Delete, subject)) == "delete:" + subject
  {
  }

  lemma {:induction false} KeySplits(a: string, b: string, x: string, y: string)
    requires ':' !in a && ':' !in b && a + ":" + x == b + ":" + y
    ensures a == b && x == y
  {
    var s, t := a + ":" + x, b + ":" + y;
    assert s[|a|] == ':' && t[|b|] == ':';
    assert forall k | 0 <= k < |a| :: s[k] == a[k] && a[k] in a;
    assert forall k | 0 <= k < |b| :: t[k] == b[k] && b[k] in b;
    assert s[..|a|] == a && t[..|b|] == b;
    assert s[|a| + 1..] == x && t[|b| + 1..] == y;
  }

  /** Different rules have different keys, because no action contains a colon. */
  lemma PermissionKeyInjective(a: Rule, b: Rule)
    requires PermissionKey(a) == PermissionKey(b)
    ensures a == b
  {
    KeySplits(ActionName(a.action), ActionName(b.action), a.subject, b.subject);
  }

  // Every key of the map names the permission of its rule.
  ghost predicate MapOk(m: map<string, nat>, db: Db) {
    forall rule: Rule | PermissionKey(rule) in m ::
      m[PermissionKey(rule)] in db.permissions && db.permissions[m[PermissionKey(rule)]] == rule
  }

  lemma MapExtended(m: map<string, nat>, db: Db, rule: Rule, p: nat)
    requires MapOk(m, db) && p in db.permissions && db.permissions[p] == rule
    ensures MapOk(m[PermissionKey(rule) := p], db)
  {
    forall other: Rule | PermissionKey(other) == PermissionKey(rule) ensures other == rule {
      PermissionKeyInjective(other, rule);
    }
  }

  lemma MapStays(m: map<string, nat>, a: Db, b: Db)
    requires MapOk(m, a) && Extends(a, b)
    ensures MapOk(m, b)
  {
  }

  /******* What a run of the seeder must reach *******/

  ghost predicate HasRules(db: Db, rules: seq<Rule>) {
    forall j | 0 <= j < |rules| :: HasRule(db, rules[j])
  }

  ghost predicate PermissionsSeeded(db: Db, roles: seq<SeedRole>) {
    forall i | 0 <= i < |roles| :: HasRules(db, roles[i].permissions)
  }

  // The map holds the keys of these rules.
  ghost predicate Keyed(m: map<string, nat>, rules: seq<Rule>) {
    forall j | 0 <= j < |rules| :: PermissionKey(rules[j]) in m
  }

  ghost predicate AllKeyed(m: map<string, nat>, roles: seq<SeedRole>) {
    forall i | 0 <= i < |roles| :: Keyed(m, roles[i].permissions)
  }

  lemma AllKeyedSnoc(m: map<string, nat>, m': map<string, nat>, roles: seq<SeedRole>, i: nat)
    requires i < |roles| && AllKeyed(m, roles[..i]) && m.Keys <= m'.Keys && Keyed(m', roles[i].permissions)
    ensures AllKeyed(m', roles[..i + 1])
  {
    forall a | 0 <= a < i ensures Keyed(m', roles[a].permissions) {
      assert Keyed(m, roles[..i][a].permissions);
    }
  }

  lemma AllKeyedIsSeeded(m: map<string, nat>, db: Db, roles: seq<SeedRole>)
    requires MapOk(m, db) && AllKeyed(m, roles)
    ensures PermissionsSeeded(db, roles)
  {
    forall i | 0 <= i < |roles| ensures HasRules(db, roles[i].permissions) {
      assert Keyed(m, roles[i].permissions);
    }
  }

  ghost predicate RoleSeeded(db: Db, role: SeedRole, upTo: nat)
    requires upTo <= |role.permissions|
  {
    HasRole(db, role.name) && forall j | 0 <= j < upTo :: HasLink(db, role.name, role.permissions[j])
  }

  ghost predicate RolesSeeded(db: Db, roles: seq<SeedRole>) {
    forall i | 0 <= i < |roles| :: RoleSeeded(db, roles[i], |roles[i].permissions|)
  }

  ghost predicate Seeded(db: Db, roles: seq<SeedRole>, adminEmail: string, adminPassword: string) {
    && PermissionsSeeded(db, roles) && RolesSeeded(db, roles)
    && (adminEmail != "" && adminPassword != "" ==> HasAdmin(db, adminEmail))
  }

  // Whatever a run adds to the three tables is on the list.
  ghost predicate ListedRule(roles: seq<SeedRole>, rule: Rule) {
    exists i, j :: 0 <= i < |roles| && 0 <= j < |roles[i].permissions| && roles[i].permissions[j] == rule
  }

  ghost predicate OnlyRulesOf(a: Db, b: Db, rules: seq<Rule>) {
    forall p | p in b.permissions && p !in a.permissions :: b.permissions[p] in rules
  }

  ghost predicate OnlyListedRules(a: Db, b: Db, roles: seq<SeedRole>) {
    forall p | p in b.permissions && p !in a.permissions :: ListedRule(roles, b.permissions[p])
  }

  lemma OnlyListedRulesStep(a: Db, b: Db, c: Db, roles: seq<SeedRole>, i: nat)
    requires i < |roles| && Extends(b, c) && OnlyListedRules(a, b, roles) && OnlyRulesOf(b, c, roles[i].permissions)
    ensures OnlyListedRules(a, c, roles)
  {
    forall p | p in c.permissions && p !in a.permissions ensures ListedRule(roles, c.permissions[p]) {
      if p in b.permissions { assert ListedRule(roles, b.permissions[p]); }
    }
  }

  ghost predicate ListedRole(roles: seq<SeedRole>, row: RoleRow) {
    exists i :: 0 <= i < |roles| && row == RoleRow(roles[i].name, roles[i].description, roles[i].isSystem)
  }

  ghost predicate OnlyLinksOf(a: Db, b: Db, role: nat, rules: seq<Rule>) {
    forall link | link in b.links && link !in a.links ::
      link.0 == role && link.1 in b.permissions && b.permissions[link.1] in rules
  }

  ghost predicate ListedLink(db: Db, roles: seq<SeedRole>, link: (nat, nat)) {
    && link.0 in db.roles && link.1 in db.permissions
    && exists i :: 0 <= i < |roles| && roles[i].name == db.roles[link.0].name
                   && db.permissions[link.1] in roles[i].permissions
  }

  ghost predicate OnlyListedAdded(a: Db, b: Db, roles: seq<SeedRole>) {
    && OnlyListedRules(a, b, roles)
    && (forall r | r in b.roles && r !in a.roles :: ListedRole(roles, b.roles[r]))
    && (forall link | link in b.links && link !in a.links :: ListedLink(b, roles, link))
  }

  // Every new grant gives the configured account the admin role.
  ghost predicate OnlyAdminGranted(a: Db, b: Db, email: string) {
    forall grant | grant in b.grants && grant !in a.grants ::
      HasAccount(b, email, grant.0) && grant.1 in b.roles && b.roles[grant.1].name == "admin"
  }

  lemma OnlyListedTransitive(a: Db, b: Db, c: Db, roles: seq<SeedRole>)
    requires Extends(b, c) && OnlyListedAdded(a, b, roles) && OnlyListedAdded(b, c, roles)
    ensures OnlyListedAdded(a, c, roles)
  {
    forall link | link in c.links && link !in a.links ensures ListedLink(c, roles, link) {
      if link in b.links { assert ListedLink(b, roles, link); }
    }
  }

  lemma RolesStaySeeded(a: Db, b: Db, roles: seq<SeedRole>)
    requires Extends(a, b) && RolesSeeded(a, roles)
    ensures RolesSeeded(b, roles)
  {
    forall i | 0 <= i < |roles| ensures RoleSeeded(b, roles[i], |roles[i].permissions|) {
      RoleStaysSeeded(a, b, roles[i], |roles[i].permissions|);
    }
  }

  lemma RoleStaysSeeded(a: Db, b: Db, role: SeedRole, upTo: nat)
    requires Extends(a, b) && upTo <= |role.permissions| && RoleSeeded(a, role, upTo)
    ensures RoleSeeded(b, role, upTo)
  {
    forall j | 0 <= j < upTo ensures HasLink(b, role.name, role.permissions[j]) {
      assert HasLink(a, role.name, role.permissions[j]);
    }
  }

  /******* The seeder *******/

  class Seed {
    var db: Db

    constructor (db: Db)
      ensures this.db == db
    {
      this.db := db;
    }

    method FindOrCreatePermission(rule: Rule) returns (id: nat)
      requires KeysOk(db)
      modifies this
      ensures KeysOk(db) && Extends(old(db), db)
      ensures id in db.permissions && db.permissions[id] == rule
      ensures HasRule(old(db), rule) ==> db == old(db)
      ensures !HasRule(old(db), rule) ==>
        db == old(db).(next := old(db).next + 1, permissions := old(db).permissions[id := rule]) && id == old(db).next
    {
      if HasRule(db, rule) {
        id :| id in db.permissions && db.permissions[id] == rule;
        return;
      }
      id := db.next;
      db := db.(next := id + 1, permissions := db.permissions[id := rule]);
    }

    // One listed permission: found through the map, found in the table, or inserted.
    method SeedPermission(permissionMap: map<string, nat>, rule: Rule) returns (after: map<string, nat>)
      requires KeysOk(db) && MapOk(permissionMap, db)
      modifies this
      ensures KeysOk(db) && Extends(old(db), db) && MapOk(after, db)
      ensures permissionMap.Keys + {PermissionKey(rule)} == after.Keys
      ensures db == old(db).(next := db.next, permissions := db.permissions)
      ensures HasRule(old(db), rule) ==> db == old(db)
      ensures forall p | p in db.permissions && p !in old(db).permissions :: db.permissions[p] == rule
    {
      var key := PermissionKey(rule);
      if key in permissionMap {
        assert permissionMap.Keys + {key} == permissionMap.Keys;
        return permissionMap;
      }
      ghost var before := db;
      var id := FindOrCreatePermission(rule);
      MapStays(permissionMap, before, db);
      MapExtended(permissionMap, db, rule, id);
      after := permissionMap[key := id];
    }

    // The permissions of one role.
    method SeedRolePermissions(permissionMap: map<string, nat>, rules: seq<Rule>) returns (after: map<string, nat>)
      requires KeysOk(db) && MapOk(permissionMap, db)
      modifies this
      ensures KeysOk(db) && Extends(old(db), db) && MapOk(after, db)
      ensures permissionMap.Keys <= after.Keys && Keyed(after, rules)
      ensures db == old(db).(next := db.next, permissions := db.permissions)
      ensures HasRules(old(db), rules) ==> db == old(db)
      ensures OnlyRulesOf(old(db), db, rules)
    {
      after := permissionMap;
      for j := 0 to |rules|
        invariant KeysOk(db) && Extends(old(db), db) && MapOk(after, db)
        invariant permissionMap.Keys <= after.Keys && forall b | 0 <= b < j :: PermissionKey(rules[b]) in after
        invariant db == old(db).(next := db.next, permissions := db.permissions)
        invariant HasRules(old(db), rules) ==> db == old(db)
        invariant OnlyRulesOf(old(db), db, rules)
      {
        ghost var before := db;
        assert HasRules(old(db), rules) ==> HasRule(old(db), rules[j]);
        after := SeedPermission(after, rules[j]);
        ExtendsTransitive(old(db), before, db);
      }
    }

    method SeedPermissions(roles: seq<SeedRole>) returns (permissionMap: map<string, nat>)
      requires KeysOk(db)
      modifies this
      ensures KeysOk(db) && Extends(old(db), db) && PermissionsSeeded(db, roles) && MapOk(permissionMap, db)
      ensures AllKeyed(permissionMap, roles)
      ensures db == old(db).(next := db.next, permissions := db.permissions)
      ensures PermissionsSeeded(old(db), roles) ==> db == old(db)
      ensures OnlyListedRules(old(db), db, roles)
    {
      permissionMap := map[];
      for i := 0 to |roles|
        invariant KeysOk(db) && Extends(old(db), db) && MapOk(permissionMap, db)
        invariant AllKeyed(permissionMap, roles[..i])
        invariant db == old(db).(next := db.next, permissions := db.permissions)
        invariant PermissionsSeeded(old(db), roles) ==> db == old(db)
        invariant OnlyListedRules(old(db), db, roles)
      {
        ghost var before, keyed := db, permissionMap;
        assert PermissionsSeeded(old(db), roles) ==> HasRules(old(db), roles[i].permissions);
        permissionMap := SeedRolePermissions(permissionMap, roles[i].permissions);
        ExtendsTransitive(old(db), before, db);
        AllKeyedSnoc(keyed, permissionMap, roles, i);
        OnlyListedRulesStep(old(db), before, db, roles, i);
      }
      assert roles[..|roles|] == roles;
      AllKeyedIsSeeded(permissionMap, db, roles);
    }

    method FindOrCreateRole(role: SeedRole) returns (id: nat)
      requires KeysOk(db)
      modifies this
      ensures KeysOk(db) && Extends(old(db), db)
      ensures id in db.roles && db.roles[id].name == role.name
      ensures HasRole(old(db), role.name) ==> db == old(db)
      ensures !HasRole(old(db), role.name) ==>
        && id == old(db).next
        && db == old(db).(next := old(db).next + 1,
                          roles := old(db).roles[id := RoleRow(role.name, role.description, role.isSystem)])
    {
      if HasRole(db, role.name) {
        id :| id in db.roles && db.roles[id].name == role.name;
        return;
      }
      id := db.next;
      db := db.(next := id + 1, roles := db.roles[id := RoleRow(role.name, role.description, role.isSystem)]);
    }

    // One listed link of a role: found, or inserted.
    method SeedLink(id: nat, permission: nat)
      requires KeysOk(db) && id in db.roles && permission in db.permissions
      modifies this
      ensures db == old(db).(links := old(db).links + {(id, permission)})
      ensures HasLink(db, db.roles[id].name, db.permissions[permission])
      ensures HasLink(old(db), db.roles[id].name, db.permissions[permission]) ==> db == old(db)
    {
      ghost var before := db;
      if HasLink(before, before.roles[id].name, before.permissions[permission]) {
        LinkIsUnique(before, before.roles[id].name, before.permissions[permission], id, permission);
      }
      if (id, permission) !in db.links {
        db := db.(links := db.links + {(id, permission)});
      }
      assert (id, permission) in db.links;
      assert db.links == before.links + {(id, permission)};
    }

    // Links one role; the map holds every permission it lists.
    method SeedRoleLinks(role: SeedRole, id: nat, permissionMap: map<string, nat>)
      requires KeysOk(db) && MapOk(permissionMap, db) && id in db.roles && db.roles[id].name == role.name
      requires Keyed(permissionMap, role.permissions)
      modifies this
      ensures KeysOk(db) && Extends(old(db), db) && RoleSeeded(db, role, |role.permissions|)
      ensures db == old(db).(links := db.links)
      ensures RoleSeeded(old(db), role, |role.permissions|) ==> db == old(db)
      ensures OnlyLinksOf(old(db), db, id, role.permissions)
    {
      for j := 0 to |role.permissions|
        invariant KeysOk(db) && RoleSeeded(db, role, j)
        invariant db == old(db).(links := db.links) && old(db).links <= db.links
        invariant RoleSeeded(old(db), role, |role.permissions|) ==> db == old(db)
        invariant OnlyLinksOf(old(db), db, id, role.permissions)
      {
        var key := PermissionKey(role.permissions[j]);
        assert key in permissionMap;
        if key !in permissionMap { assert false; continue; }
        var permission := permissionMap[key];
        ghost var before := db;
        assert MapOk(permissionMap, db);
        assert RoleSeeded(old(db), role, |role.permissions|) ==> HasLink(old(db), role.name, role.permissions[j]);
        SeedLink(id, permission);
        LinkStep(old(db), before, db, role, id, permission, j);
      }
    }

    method SeedRoles(roles: seq<SeedRole>, permissionMap: map<string, nat>)
      requires KeysOk(db) && MapOk(permissionMap, db)
      requires AllKeyed(permissionMap, roles)
      modifies this
      ensures KeysOk(db) && Extends(old(db), db) && RolesSeeded(db, roles)
      ensures db == old(db).(next := db.next, roles := db.roles, links := db.links)
      ensures RolesSeeded(old(db), roles) ==> db == old(db)
      ensures OnlyListedAdded(old(db), db, roles)
    {
      for i := 0 to |roles|
        invariant KeysOk(db) && Extends(old(db), db) && MapOk(permissionMap, db) && RolesSeeded(db, roles[..i])
        invariant db == old(db).(next := db.next, roles := db.roles, links := db.links)
        invariant RolesSeeded(old(db), roles) ==> db == old(db)
        invariant OnlyListedAdded(old(db), db, roles)
      {
        ghost var before := db;
        assert RolesSeeded(old(db), roles) ==> RoleSeeded(old(db), roles[i], |roles[i].permissions|);
        assert Keyed(permissionMap, roles[i].permissions);
        SeedOneRole(roles[i], permissionMap, roles);
        MapStays(permissionMap, before, db);
        RolesStep(old(db), before, db, roles, i);
      }
      assert roles[..|roles|] == roles;
    }

    // One role and its links.
    method SeedOneRole(role: SeedRole, permissionMap: map<string, nat>, ghost roles: seq<SeedRole>)
      requires KeysOk(db) && MapOk(permissionMap, db) && role in roles
      requires Keyed(permissionMap, role.permissions)
      modifies this
      ensures KeysOk(db) && Extends(old(db), db) && RoleSeeded(db, role, |role.permissions|)
      ensures db == old(db).(next := db.next, roles := db.roles, links := db.links)
      ensures RoleSeeded(old(db), role, |role.permissions|) ==> db == old(db)
      ensures OnlyListedAdded(old(db), db, roles)
    {
      var id := FindOrCreateRole(role);
      ghost var found := db;
      MapStays(permissionMap, old(db), db);
      SeedRoleLinks(role, id, permissionMap);
      ExtendsTransitive(old(db), found, db);
      forall link | link in db.links && link !in old(db).links ensures ListedLink(db, roles, link) {
        assert db.roles[id].name == role.name;
      }
    }

    // An existing account is left as it is, its password included.
    method FindOrCreateAdmin(adminEmail: string, adminPassword: string) returns (admin: nat)
      requires KeysOk(db)
      modifies this
      ensures KeysOk(db) && Extends(old(db), db)
      ensures db == old(db).(next := db.next, users := db.users)
      ensures HasAccount(db, adminEmail, admin)
      ensures HasAccount(old(db), adminEmail, admin) ==> db == old(db)
      ensures (exists u :: HasAccount(old(db), adminEmail, u)) ==> db == old(db)
      ensures forall u | u in db.users && u !in old(db).users ::
        db.users[u] == UserRow(adminEmail, adminPassword, false)
      ensures UniqueEmail(old(db), adminEmail) ==> UniqueEmail(db, adminEmail)
    {
      if exists u :: u in db.users && HasAccount(db, adminEmail, u) {
        admin :| admin in db.users && HasAccount(db, adminEmail, admin);
        return;
      }
      admin := db.next;
      db := db.(next := admin + 1, users := db.users[admin := UserRow(adminEmail, adminPassword, false)]);
    }

    method SeedBootstrapAdmin(adminEmail: string, adminPassword: string) returns (ok: bool)
      requires KeysOk(db)
      modifies this
      ensures KeysOk(db) && Extends(old(db), db)
      ensures adminEmail == "" || adminPassword == "" ==> ok && db == old(db)
      ensures adminEmail != "" && adminPassword != "" ==> (ok <==> HasRole(old(db), "admin"))
      ensures adminEmail != "" && adminPassword != "" && ok ==> HasAdmin(db, adminEmail)
      ensures db == old(db).(next := db.next, users := db.users, grants := db.grants)
      ensures forall u | u in db.users && u !in old(db).users ::
        db.users[u] == UserRow(adminEmail, adminPassword, false)
      ensures OnlyAdminGranted(old(db), db, adminEmail)
      ensures UniqueEmail(old(db), adminEmail) ==> UniqueEmail(db, adminEmail)
      ensures UniqueEmail(old(db), adminEmail) && HasAdmin(old(db), adminEmail) ==> db == old(db)
    {
      ok := true;
      if adminEmail == "" || adminPassword == "" { return; }
      var admin := FindOrCreateAdmin(adminEmail, adminPassword);
      if !HasRole(db, "admin") { return false; }
      var role :| role in db.roles && db.roles[role].name == "admin";
      if UniqueEmail(old(db), adminEmail) && HasAdmin(old(db), adminEmail) {
        AdminIsGranted(old(db), adminEmail, admin, role, db);
      }
      ghost var found := db;
      if (admin, role) !in db.grants {
        db := db.(grants := db.grants + {(admin, role)});
      }
      AdminIsNowGranted(found, db, adminEmail, admin, role);
    }

    method SeedRbac(roles: seq<SeedRole>)
      requires KeysOk(db)
      modifies this
      ensures KeysOk(db) && Extends(old(db), db) && PermissionsSeeded(db, roles) && RolesSeeded(db, roles)
      ensures db.users == old(db).users && db.grants == old(db).grants
      ensures PermissionsSeeded(old(db), roles) && RolesSeeded(old(db), roles) ==> db == old(db)
      ensures OnlyListedAdded(old(db), db, roles)
    {
      var permissionMap := SeedPermissions(roles);
      ghost var between := db;
      assert OnlyListedAdded(old(db), between, roles);
      SeedRoles(roles, permissionMap);
      ExtendsTransitive(old(db), between, db);
      OnlyListedTransitive(old(db), between, db, roles);
      PermissionsStaySeeded(between, db, roles);
    }

    /**
     One run makes every listed permission, role and link exist, and the admin when one is configured; it adds nothing
     that is not listed and changes and deletes nothing; run again on what it leaves, it writes nothing.
     */
    method Run(adminEmail: string, adminPassword: string)
      requires KeysOk(db) && UniqueEmail(db, adminEmail)
      modifies this
      ensures KeysOk(db) && UniqueEmail(db, adminEmail)
      ensures Seeded(db, SEED_ROLES, adminEmail, adminPassword) && Extends(old(db), db)
      ensures OnlyListedAdded(old(db), db, SEED_ROLES)
      ensures Seeded(old(db), SEED_ROLES, adminEmail, adminPassword) ==> db == old(db)
      ensures forall u | u in db.users && u !in old(db).users ::
        db.users[u] == UserRow(adminEmail, adminPassword, false)
      ensures OnlyAdminGranted(old(db), db, adminEmail)
      ensures adminEmail == "" || adminPassword == "" ==> db.users == old(db).users && db.grants == old(db).grants
    {
      assert SEED_ROLES[0].name == "admin";
      RunList(SEED_ROLES, adminEmail, adminPassword);
    }

    method RunList(roles: seq<SeedRole>, adminEmail: string, adminPassword: string)
      requires KeysOk(db) && UniqueEmail(db, adminEmail) && ListsAdmin(roles)
      modifies this
      ensures KeysOk(db) && UniqueEmail(db, adminEmail)
      ensures Seeded(db, roles, adminEmail, adminPassword) && Extends(old(db), db)
      ensures OnlyListedAdded(old(db), db, roles)
      ensures Seeded(old(db), roles, adminEmail, adminPassword) ==> db == old(db)
      ensures forall u | u in db.users && u !in old(db).users ::
        db.users[u] == UserRow(adminEmail, adminPassword, false)
      ensures OnlyAdminGranted(old(db), db, adminEmail)
      ensures adminEmail == "" || adminPassword == "" ==> db.users == old(db).users && db.grants == old(db).grants
    {
      SeedRbac(roles);
      ghost var seeded := db;
      AdminIsListed(seeded, roles);
      SameAccounts(old(db), seeded, adminEmail);
      var ok := SeedBootstrapAdmin(adminEmail, adminPassword);
      assert ok;
      AdminStepKeepsTables(old(db), seeded, db, roles);
    }

    /** Seeding twice is seeding once. */
    method RunTwice(adminEmail: string, adminPassword: string) returns (first: Db)
      requires KeysOk(db) && UniqueEmail(db, adminEmail)
      modifies this
      ensures db == first && Extends(old(db), db) && Seeded(db, SEED_ROLES, adminEmail, adminPassword)
    {
      Run(adminEmail, adminPassword);
      first := db;
      Run(adminEmail, adminPassword);
    }
  }

  lemma AdminIsNowGranted(found: Db, after: Db, email: string, admin: nat, role: nat)
    requires HasAccount(found, email, admin) && role in found.roles && found.roles[role].name == "admin"
    requires after == found.(grants := after.grants) && (admin, role) in after.grants
    ensures HasAdmin(after, email) && (UniqueEmail(found, email) ==> UniqueEmail(after, email))
  {
    SameAccounts(found, after, email);
    assert HasAccount(after, email, (admin, role).0);
  }

  // Accounts depend on the user table alone.
  lemma SameAccounts(a: Db, b: Db, email: string)
    requires a.users == b.users
    ensures forall u :: HasAccount(a, email, u) <==> HasAccount(b, email, u)
    ensures UniqueEmail(a, email) <==> UniqueEmail(b, email)
  {
    assert forall u :: HasAccount(a, email, u) <==> HasAccount(b, email, u);
    if UniqueEmail(a, email) {
      forall x, y | HasAccount(b, email, x) && HasAccount(b, email, y) ensures x == y {
        assert HasAccount(a, email, x) && HasAccount(a, email, y);
      }
    }
    if UniqueEmail(b, email) {
      forall x, y | HasAccount(a, email, x) && HasAccount(a, email, y) ensures x == y {
        assert HasAccount(b, email, x) && HasAccount(b, email, y);
      }
    }
  }

  // The only live account with this email, and the only admin role, are the ones already granted.
  lemma AdminIsGranted(was: Db, email: string, admin: nat, role: nat, found: Db)
    requires KeysOk(was) && UniqueEmail(was, email) && HasAdmin(was, email)
    requires HasAccount(found, email, admin) && ((exists u :: HasAccount(was, email, u)) ==> found == was)
    requires role in was.roles && was.roles[role].name == "admin"
    ensures found == was && (admin, role) in was.grants
  {
    var grant :| grant in was.grants && HasAccount(was, email, grant.0)
                 && grant.1 in was.roles && was.roles[grant.1].name == "admin";
    assert grant == (admin, role);
  }

  // One more role seeded, whatever was there.
  lemma RolesStep(was: Db, before: Db, after: Db, roles: seq<SeedRole>, i: nat)
    requires i < |roles| && Extends(was, before) && Extends(before, after)
    requires RolesSeeded(before, roles[..i]) && RoleSeeded(after, roles[i], |roles[i].permissions|)
    requires OnlyListedAdded(was, before, roles) && OnlyListedAdded(before, after, roles)
    ensures Extends(was, after) && RolesSeeded(after, roles[..i + 1]) && OnlyListedAdded(was, after, roles)
  {
    ExtendsTransitive(was, before, after);
    OnlyListedTransitive(was, before, after, roles);
    RolesStaySeeded(before, after, roles[..i]);
    assert roles[..i + 1] == roles[..i] + [roles[i]];
  }

  // One more link of a role, whatever was there.
  lemma LinkStep(was: Db, before: Db, after: Db, role: SeedRole, id: nat, permission: nat, j: nat)
    requires j < |role.permissions| && RoleSeeded(before, role, j)
    requires OnlyLinksOf(was, before, id, role.permissions)
    requires after == before.(links := before.links + {(id, permission)})
    requires permission in after.permissions && after.permissions[permission] == role.permissions[j]
    requires HasLink(after, role.name, role.permissions[j])
    ensures RoleSeeded(after, role, j + 1) && OnlyLinksOf(was, after, id, role.permissions)
  {
    RoleStaysSeeded(before, after, role, j);
  }

  lemma LinkIsUnique(db: Db, name: string, rule: Rule, role: nat, permission: nat)
    requires KeysOk(db) && HasLink(db, name, rule)
    requires role in db.roles && db.roles[role].name == name
    requires permission in db.permissions && db.permissions[permission] == rule
    ensures (role, permission) in db.links
  {
    var link :| link in db.links && link.0 in db.roles && db.roles[link.0].name == name
                && link.1 in db.permissions && db.permissions[link.1] == rule;
    assert link == (role, permission);
  }

  ghost predicate ListsAdmin(roles: seq<SeedRole>) {
    exists i :: 0 <= i < |roles| && roles[i].name == "admin"
  }

  lemma AdminIsListed(db: Db, roles: seq<SeedRole>)
    requires RolesSeeded(db, roles) && ListsAdmin(roles)
    ensures HasRole(db, "admin")
  {
    var i :| 0 <= i < |roles| && roles[i].name == "admin";
    assert RoleSeeded(db, roles[i], |roles[i].permissions|);
  }

  lemma AdminStepKeepsTables(was: Db, seeded: Db, after: Db, roles: seq<SeedRole>)
    requires Extends(was, seeded) && Extends(seeded, after) && OnlyListedAdded(was, seeded, roles)
    requires after == seeded.(next := after.next, users := after.users, grants := after.grants)
    requires PermissionsSeeded(seeded, roles) && RolesSeeded(seeded, roles)
    ensures Extends(was, after) && OnlyListedAdded(was, after, roles)
    ensures PermissionsSeeded(after, roles) && RolesSeeded(after, roles)
  {
    ExtendsTransitive(was, seeded, after);
    RolesStaySeeded(seeded, after, roles);
    PermissionsStaySeeded(seeded, after, roles);
    OnlyListedTransitive(was, seeded, after, roles);
  }

  lemma PermissionsStaySeeded(a: Db, b: Db, roles: seq<SeedRole>)
    requires Extends(a, b) && PermissionsSeeded(a, roles)
    ensures PermissionsSeeded(b, roles)
  {
    forall i | 0 <= i < |roles| ensures HasRules(b, roles[i].permissions) {
      assert HasRules(a, roles[i].permissions);
    }
  }
}

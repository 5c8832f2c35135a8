/**
 The permission cache under interleaving: every await of a reader (get, load, set) and of a mutating call
 (capture, commit, one delete per key) is a step, and any step of any call may come next.
 `history` and the stamps are bookkeeping for the theorems; no step's effect depends on them.
 */
module CacheInterleaving {
  import opened Rbac

  // The tables from one commit to the next, and the users the committing call has to invalidate.
  datatype Version = Version(tables: Tables, since: int, invalidated: set<nat>)

  datatype Entry = Entry(rules: set<Rule>, setAt: int, loadedAt: int, version: nat, stamp: nat)

  datatype Reader = Missed(user: nat) | Loaded(user: nat, rules: set<Rule>, version: nat, loadedAt: int)

  datatype Writer =
    | Captured(m: Mutation, users: set<nat>)
    | Committed(m: Mutation, version: nat)
    | Clearing(version: nat, todo: set<nat>)

  datatype World = World(
    now: int, events: nat, history: seq<Version>, cache: map<nat, Entry>,
    readers: map<nat, Reader>, writers: map<nat, Writer>, cleared: map<(nat, nat), nat>)

  datatype Event =
    | Get(reader: nat, user: nat, ok: bool)
    | Load(reader: nat)
    | Put(reader: nat, ok: bool)
    | Begin(writer: nat, m: Mutation)
    | Commit(writer: nat)
    | Capture(writer: nat)
    | Del(writer: nat, user: nat, ok: bool)
    | Finish(writer: nat)
    | Tick(ms: nat)

  ghost predicate Started(w: World) {
    |w.history| > 0
  }

  function Last(w: World): nat
    requires |w.history| > 0
  {
    |w.history| - 1
  }

  function Current(w: World): Tables
    requires |w.history| > 0
  {
    w.history[|w.history| - 1].tables
  }

  function Start(t: Tables, now: int): World {
    World(now, 0, [Version(t, now, {})], map[], map[], map[], map[])
  }

  // SET key rules PX ttl: the key is gone ttl milliseconds after it was set.
  predicate Cached(ttl: nat, w: World, user: nat) {
    user in w.cache && w.now < w.cache[user].setAt + ttl
  }

  // remove and removePermission look up the affected users before they delete.
  predicate CapturesFirst(m: Mutation) {
    m.RemoveRole? || m.RemovePermission?
  }

  ghost function AfterCommit(m: Mutation, captured: set<nat>, version: nat, e: Effect): Writer {
    if CapturesFirst(m) then Clearing(version, captured)
    else if m.SetPermissions? then Committed(m, version)
    else Clearing(version, e.invalidated)
  }

  // The call fails before it changes or deletes anything.
  ghost predicate Abandons(t: Tables, m: Mutation) {
    Apply(t, m).error.Some? && Apply(t, m).invalidated == {} && !CapturesFirst(m)
  }

  ghost function CommitStep(w: World, id: nat): (w': World)
    requires |w.history| > 0 && id in w.writers && w.writers[id].Captured?
    ensures |w'.history| > 0
  {
    var Captured(m, users) := w.writers[id];
    var e := Apply(Current(w), m);
    if Abandons(Current(w), m) then w.(writers := w.writers - {id})
    else
      w.(history := w.history + [Version(e.tables, w.now, e.invalidated)],
         writers := w.writers[id := AfterCommit(m, users, |w.history|, e)])
  }

  function DelStep(w: World, id: nat, user: nat, ok: bool): World
    requires id in w.writers && w.writers[id].Clearing?
  {
    var Clearing(version, todo) := w.writers[id];
    var w' := w.(writers := w.writers[id := Clearing(version, todo - {user})]);
    if ok then w'.(cache := w.cache - {user}, cleared := w.cleared[(version, user) := w.events]) else w'
  }

  function PutStep(w: World, id: nat, ok: bool): World
    requires id in w.readers && w.readers[id].Loaded?
  {
    var Loaded(user, rules, version, loadedAt) := w.readers[id];
    var w' := w.(readers := w.readers - {id});
    if ok then w'.(cache := w.cache[user := Entry(rules, w.now, loadedAt, version, w.events)]) else w'
  }

  // A step that is not enabled changes nothing.
  ghost function Do(ttl: nat, w: World, event: Event): (w': World)
    requires |w.history| > 0
    ensures |w'.history| > 0
  {
    match event
    case Get(id, user, ok) =>
      if id in w.readers || (ok && Cached(ttl, w, user)) then w
      else w.(readers := w.readers[id := Missed(user)])
    case Load(id) =>
      if id in w.readers && w.readers[id].Missed? then
        var user := w.readers[id].user;
        w.(readers := w.readers[id := Loaded(user, Join(Current(w), user), Last(w), w.now)])
      else w
    case Put(id, ok) =>
      if id in w.readers && w.readers[id].Loaded? then PutStep(w, id, ok) else w
    case Begin(id, m) =>
      if id in w.writers then w
      else if !CapturesFirst(m) then w.(writers := w.writers[id := Captured(m, {})])
      else if Apply(Current(w), m).error.Some? then w
      else w.(writers := w.writers[id := Captured(m, Apply(Current(w), m).invalidated)])
    case Commit(id) =>
      if id in w.writers && w.writers[id].Captured? then CommitStep(w, id) else w
    case Capture(id) =>
      if id in w.writers && w.writers[id].Committed? && w.writers[id].m.SetPermissions? then
        var Committed(m, version) := w.writers[id];
        w.(writers := w.writers[id := Clearing(version, UsersWithRole(Current(w), m.roleId))])
      else w
    case Del(id, user, ok) =>
      if id in w.writers && w.writers[id].Clearing? && user in w.writers[id].todo then DelStep(w, id, user, ok) else w
    case Finish(id) =>
      if id in w.writers && w.writers[id].Clearing? && w.writers[id].todo == {} then w.(writers := w.writers - {id})
      else w
    case Tick(ms) => w.(now := w.now + ms)
  }

  ghost function Step(ttl: nat, w: World, event: Event): (w': World)
    requires |w.history| > 0
    ensures |w'.history| > 0
  {
    Do(ttl, w, event).(events := w.events + 1)
  }

  ghost function Run(ttl: nat, w: World, events: seq<Event>): (w': World)
    requires |w.history| > 0
    ensures |w'.history| > 0
    decreases |events|
  {
    if |events| == 0 then w
    else Step(ttl, Run(ttl, w, events[..|events| - 1]), events[|events| - 1])
  }

  /******* What the steps do *******/

  /** A read is answered from a live entry, or starts a miss; a set writes what was loaded, unless it fails. */
  lemma ReaderSteps(ttl: nat, w: World, id: nat, user: nat, ok: bool)
    requires Started(w)
    ensures
      var get := Step(ttl, w, Get(id, user, ok));
      id !in w.readers ==>
        if ok && user in w.cache && w.now < w.cache[user].setAt + ttl then get == w.(events := w.events + 1)
        else get == w.(readers := w.readers[id := Missed(user)], events := w.events + 1)
    ensures
      var put := Step(ttl, w, Put(id, ok));
      id in w.readers && w.readers[id].Loaded? ==>
        && put.readers == w.readers - {id} && put.history == w.history && put.writers == w.writers
        && (!ok ==> put.cache == w.cache)
        && (ok ==>
              && put.cache.Keys == w.cache.Keys + {w.readers[id].user}
              && put.cache[w.readers[id].user].rules == w.readers[id].rules
              && forall u | u in w.cache && u != w.readers[id].user :: put.cache[u] == w.cache[u])
  {
  }

  /** Only a tick takes time, and an entry is gone for readers when its TTL has passed. */
  lemma ClockSteps(ttl: nat, w: World, event: Event, user: nat)
    requires Started(w)
    ensures Step(ttl, w, event).now == w.now + if event.Tick? then event.ms else 0
    ensures event.Tick? && user in w.cache ==>
      (Cached(ttl, Step(ttl, w, event), user) <==> w.now + event.ms < w.cache[user].setAt + ttl)
  {
  }

  /** remove and removePermission name their users before the delete, by the rows of that moment, or fail at once. */
  lemma CapturedFirst(ttl: nat, w: World, id: nat, m: Mutation)
    requires Started(w) && id !in w.writers && (m.RemoveRole? || m.RemovePermission?)
    ensures
      var t, w' := Current(w), Step(ttl, w, Begin(id, m));
      var allowed :=
        if m.RemoveRole? then m.roleId in t.roles && !t.roles[m.roleId].isSystem else m.permissionId in t.permissions;
      && (!allowed ==> w' == w.(events := w.events + 1))
      && (allowed ==>
            && id in w'.writers && w'.writers[id].Captured? && w'.writers[id].m == m
            && w'.writers[id].users == if m.RemoveRole? then UsersWithRole(t, m.roleId)
                                       else UsersWithPermission(t, m.permissionId))
      && w'.cache == w.cache && w'.history == w.history
  {
  }

  /** A deletion takes one user off the call's list, and the entry away if Redis carries it out. */
  lemma DeleteSteps(ttl: nat, w: World, id: nat, user: nat, ok: bool)
    requires Started(w) && id in w.writers && w.writers[id].Clearing? && user in w.writers[id].todo
    ensures
      var w' := Step(ttl, w, Del(id, user, ok));
      && w'.writers == w.writers[id := Clearing(w.writers[id].version, w.writers[id].todo - {user})]
      && w'.cache == (if ok then w.cache - {user} else w.cache)
      && w'.history == w.history && w'.readers == w.readers
  {
  }

  /******* Bounded staleness, with any writers and any failures *******/

  // Version v held the tables at moment `at`.
  ghost predicate WasCurrent(w: World, v: nat, at: int) {
    && v < |w.history| && w.history[v].since <= at
    && (v + 1 < |w.history| ==> at <= w.history[v + 1].since)
  }

  ghost predicate LoadedTruly(w: World, user: nat, rules: set<Rule>, v: nat, at: int) {
    at <= w.now && WasCurrent(w, v, at) && rules == Join(w.history[v].tables, user)
  }

  ghost predicate ReaderTrue(w: World, r: Reader) {
    r.Loaded? ==> LoadedTruly(w, r.user, r.rules, r.version, r.loadedAt)
  }

  ghost predicate EntryTrue(w: World, u: nat, e: Entry) {
    LoadedTruly(w, u, e.rules, e.version, e.loadedAt) && e.loadedAt <= e.setAt <= w.now
  }

  ghost predicate Truthful(w: World) {
    && |w.history| > 0
    && w.history[|w.history| - 1].since <= w.now
    && (forall id {:trigger ReaderTrue(w, w.readers[id])} | id in w.readers :: ReaderTrue(w, w.readers[id]))
    && (forall u {:trigger EntryTrue(w, u, w.cache[u])} | u in w.cache :: EntryTrue(w, u, w.cache[u]))
  }

  ghost predicate Appends(w: World, w': World) {
    || w'.history == w.history
    || (|w'.history| == |w.history| + 1 && w'.history[..|w.history|] == w.history
        && w'.history[|w.history|].since == w.now)
  }

  lemma LoadedStaysTrue(w: World, w': World, user: nat, rules: set<Rule>, v: nat, at: int)
    requires LoadedTruly(w, user, rules, v, at) && w.now <= w'.now && Appends(w, w')
    ensures LoadedTruly(w', user, rules, v, at)
  {
    assert v < |w.history| && w'.history[v] == w.history[v];
    if v + 1 < |w.history| { assert w'.history[v + 1] == w.history[v + 1]; }
  }

  lemma StepAppends(ttl: nat, w: World, event: Event)
    requires Started(w)
    ensures Appends(w, Step(ttl, w, event)) && w.now <= Step(ttl, w, event).now
  {
  }

  // Only a reader's set puts an entry in the cache: the rules it loaded, with the moment it loaded them.
  lemma EntryAfterStep(ttl: nat, w: World, event: Event, user: nat)
    requires Started(w) && user in Step(ttl, w, event).cache
    ensures
      var e := Step(ttl, w, event).cache[user];
      || (user in w.cache && e == w.cache[user])
      || (&& event.Put? && event.reader in w.readers
          && w.readers[event.reader] == Loaded(user, e.rules, e.version, e.loadedAt)
          && e.setAt == w.now && e.stamp == w.events)
  {
  }

  // A reader begins with a miss, and turns it into what the join holds when it loads.
  lemma ReaderAfterStep(ttl: nat, w: World, event: Event, id: nat)
    requires Started(w) && id in Step(ttl, w, event).readers
    ensures
      var r := Step(ttl, w, event).readers[id];
      || (id in w.readers && r == w.readers[id])
      || (event.Get? && r == Missed(event.user))
      || (&& id in w.readers && w.readers[id].Missed?
          && r == Loaded(w.readers[id].user, Join(Current(w), w.readers[id].user), Last(w), w.now))
  {
  }

  lemma StepKeepsTruthful(ttl: nat, w: World, event: Event)
    requires Truthful(w)
    ensures Truthful(Step(ttl, w, event))
  {
    var w' := Step(ttl, w, event);
    StepAppends(ttl, w, event);
    forall id | id in w'.readers ensures ReaderTrue(w', w'.readers[id]) {
      if w'.readers[id].Loaded? {
        ReaderAfterStep(ttl, w, event, id);
        var r := w'.readers[id];
        if id in w.readers && r == w.readers[id] {
          assert ReaderTrue(w, w.readers[id]);
        }
        LoadedStaysTrue(w, w', r.user, r.rules, r.version, r.loadedAt);
      }
    }
    forall u | u in w'.cache ensures EntryTrue(w', u, w'.cache[u]) {
      EntryAfterStep(ttl, w, event, u);
      var e := w'.cache[u];
      if u in w.cache && e == w.cache[u] { assert EntryTrue(w, u, w.cache[u]); }
      else { assert ReaderTrue(w, w.readers[event.reader]); }
      LoadedStaysTrue(w, w', u, e.rules, e.version, e.loadedAt);
    }
  }

  lemma {:induction false} RunKeepsTruthful(ttl: nat, w: World, events: seq<Event>)
    requires Truthful(w)
    ensures Truthful(Run(ttl, w, events))
    decreases |events|
  {
    if |events| > 0 {
      RunKeepsTruthful(ttl, w, events[..|events| - 1]);
      StepKeepsTruthful(ttl, Run(ttl, w, events[..|events| - 1]), events[|events| - 1]);
    }
  }

  /**
   Bounded staleness: whatever calls interleave and whichever Redis commands fail, a cache hit returns rules that
   were exactly the user's join at a moment less than the TTL plus the load-to-set delay ago.
   */
  lemma HitsAreRecent(ttl: nat, t: Tables, start: int, events: seq<Event>, user: nat)
    requires Cached(ttl, Run(ttl, Start(t, start), events), user)
    ensures
      var w := Run(ttl, Start(t, start), events);
      var e := w.cache[user];
      && WasCurrent(w, e.version, e.loadedAt)
      && e.rules == Join(w.history[e.version].tables, user)
      && e.loadedAt <= e.setAt
      && w.now - e.loadedAt < ttl + (e.setAt - e.loadedAt)
  {
    RunKeepsTruthful(ttl, Start(t, start), events);
    var w := Run(ttl, Start(t, start), events);
    assert EntryTrue(w, user, w.cache[user]);
  }
}

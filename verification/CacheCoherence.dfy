/**
 Coherence of the interleaved cache when mutating calls run one at a time and Redis deletes succeed: the two ways a
 cached entry can disagree with the join, and no others.
 */
module CacheCoherence {
  import opened Rbac
  import opened CacheInterleaving

  /******* Runs with one mutating call at a time *******/

  ghost predicate SerialStep(w: World, event: Event)
    requires Started(w)
  {
    && (event.Begin? ==> w.writers == map[])
    && (event.Del? ==> event.ok)
    && (event.Get? ==> event.user in Current(w).drawn)
  }

  ghost predicate SerialRun(ttl: nat, w: World, events: seq<Event>)
    requires Started(w)
    decreases |events|
  {
    |events| > 0 ==>
      && SerialRun(ttl, w, events[..|events| - 1])
      && SerialStep(Run(ttl, w, events[..|events| - 1]), events[|events| - 1])
  }

  /******* Invariant *******/

  // The call of writer wr committed version c and has yet to delete u's key.
  predicate PendingIn(wr: Writer, c: nat, u: nat) {
    (wr.Committed? && wr.version == c) || (wr.Clearing? && wr.version == c && u in wr.todo)
  }

  ghost predicate Pending(w: World, c: nat, u: nat) {
    exists id :: id in w.writers && PendingIn(w.writers[id], c, u)
  }

  ghost predicate VersionOk(a: Version, b: Version) {
    && a.tables.drawn <= b.tables.drawn
    && forall u | u in a.tables.drawn && Join(a.tables, u) != Join(b.tables, u) :: u in b.invalidated
  }

  ghost predicate VersionStepOk(h: seq<Version>, v: nat) {
    0 < v < |h| ==> VersionOk(h[v - 1], h[v])
  }

  ghost predicate VersionsOk(h: seq<Version>) {
    && (forall v | 0 <= v < |h| :: Rbac.Valid(h[v].tables))
    && (forall v: nat :: VersionStepOk(h, v))
  }

  ghost predicate WriterOk(w: World, wr: Writer)
    requires Started(w)
  {
    match wr
    case Captured(m, users) =>
      CapturesFirst(m) ==> Apply(Current(w), m).error.None? && users == Apply(Current(w), m).invalidated
    case Committed(m, c) =>
      m.SetPermissions? && c == Last(w) && UsersWithRole(Current(w), m.roleId) == w.history[c].invalidated
    case Clearing(c, todo) => c == Last(w) && todo <= w.history[c].invalidated
  }

  ghost predicate WritersOk(w: World)
    requires Started(w)
  {
    && (forall a, b | a in w.writers && b in w.writers :: a == b)
    && (forall id {:trigger WriterOk(w, w.writers[id])} | id in w.writers :: WriterOk(w, w.writers[id]))
  }

  // Every invalidation owed has been carried out, or the call that owes it is still at work.
  ghost predicate Settled(w: World, c: nat, u: nat) {
    Pending(w, c, u) || (c, u) in w.cleared
  }

  // The entry of u was set after version c's invalidation of u.
  ghost predicate SetLate(w: World, c: nat, u: nat) {
    u in w.cache && (c, u) in w.cleared && w.cleared[(c, u)] < w.cache[u].stamp
  }

  // The entry of u is due for deletion by version c's invalidation, or was set after it.
  ghost predicate Covered(w: World, c: nat, u: nat) {
    Pending(w, c, u) || SetLate(w, c, u)
  }

  ghost predicate ClearedOk(w: World) {
    && (forall key | key in w.cleared :: w.cleared[key] < w.events)
    && (forall c, u {:trigger Settled(w, c, u)} | 0 < c < |w.history| && u in w.history[c].invalidated ::
          Settled(w, c, u))
  }

  ghost predicate EntryOk(w: World, u: nat)
    requires u in w.cache
  {
    var e := w.cache[u];
    && e.version < |w.history| && u in w.history[e.version].tables.drawn && e.stamp < w.events
    && forall c {:trigger Covered(w, c, u)} | e.version < c < |w.history| && u in w.history[c].invalidated ::
         Covered(w, c, u)
  }

  ghost predicate EntriesOk(w: World) {
    forall u {:trigger EntryOk(w, u)} | u in w.cache :: EntryOk(w, u)
  }

  ghost predicate ReaderOk(w: World, r: Reader)
    requires Started(w)
  {
    match r
    case Missed(u) => u in Current(w).drawn
    case Loaded(u, _, v, _) => v < |w.history| && u in w.history[v].tables.drawn
  }

  ghost predicate ReadersOk(w: World)
    requires Started(w)
  {
    forall id {:trigger ReaderOk(w, w.readers[id])} | id in w.readers :: ReaderOk(w, w.readers[id])
  }

  ghost predicate Inv(w: World) {
    && Truthful(w) && VersionsOk(w.history) && WritersOk(w) && ClearedOk(w)
    && EntriesOk(w) && ReadersOk(w)
  }

  /******* Preservation *******/

  // A step that neither commits nor deletes, and leaves every debt of invalidation in place.
  ghost predicate Quiet(w: World, w': World) {
    && w'.history == w.history && w'.cleared == w.cleared && w'.events == w.events + 1
    && forall c, u | 0 < c < |w.history| && u in w.history[c].invalidated && Pending(w, c, u) :: Pending(w', c, u)
  }

  // An entry set now, by a reader whose load came from the version it names.
  ghost predicate NewEntry(w: World, e: Entry, u: nat) {
    e.stamp == w.events && e.version < |w.history| && u in w.history[e.version].tables.drawn
  }

  lemma QuietKeepsCleared(w: World, w': World)
    requires Quiet(w, w') && ClearedOk(w)
    ensures ClearedOk(w')
  {
    forall c, u | 0 < c < |w'.history| && u in w'.history[c].invalidated ensures Settled(w', c, u) {
      assert Settled(w, c, u);
    }
  }

  lemma QuietKeepsEntry(w: World, w': World, u: nat)
    requires Quiet(w, w') && u in w.cache && u in w'.cache && w'.cache[u] == w.cache[u] && EntryOk(w, u)
    ensures EntryOk(w', u)
  {
    forall c | w'.cache[u].version < c < |w'.history| && u in w'.history[c].invalidated
      ensures Covered(w', c, u)
    {
      assert Covered(w, c, u);
    }
  }

  // A new entry is set after every invalidation already carried out.
  lemma NewEntryOk(w: World, w': World, u: nat)
    requires Quiet(w, w') && ClearedOk(w) && u in w'.cache && NewEntry(w, w'.cache[u], u)
    ensures EntryOk(w', u)
  {
    forall c | w'.cache[u].version < c < |w'.history| && u in w'.history[c].invalidated
      ensures Covered(w', c, u)
    {
      assert Settled(w, c, u);
    }
  }

  lemma SameReadersOk(w: World, w': World)
    requires Started(w) && w'.readers == w.readers && |w'.history| > 0
    requires ReadersOk(w)
    requires |w'.history| >= |w.history| && w'.history[..|w.history|] == w.history
    requires Current(w).drawn <= Current(w').drawn
    ensures ReadersOk(w')
  {
    forall id | id in w'.readers ensures ReaderOk(w', w'.readers[id]) {
      assert ReaderOk(w, w.readers[id]);
      if w.readers[id].Loaded? { assert w'.history[w.readers[id].version] == w.history[w.readers[id].version]; }
    }
  }

  lemma QuietKeepsInv(w: World, w': World)
    requires Inv(w) && Quiet(w, w') && Truthful(w') && WritersOk(w') && w'.readers == w.readers && w'.cache == w.cache
    ensures Inv(w')
  {
    QuietKeepsCleared(w, w');
    SameReadersOk(w, w');
    forall u | u in w'.cache ensures EntryOk(w', u) { QuietKeepsEntry(w, w', u); }
  }

  lemma WritersUnmoved(w: World, w': World)
    requires Started(w) && WritersOk(w) && w'.writers == w.writers && w'.history == w.history
    ensures WritersOk(w')
    ensures forall c, u :: Pending(w, c, u) ==> Pending(w', c, u)
  {
    forall id | id in w'.writers ensures WriterOk(w', w'.writers[id]) { assert WriterOk(w, w.writers[id]); }
    forall c, u | Pending(w, c, u) ensures Pending(w', c, u) {
      var id :| id in w.writers && PendingIn(w.writers[id], c, u);
      assert id in w'.writers;
    }
  }

  // Reader steps and ticks leave the tables, the writers and the record of deletions alone.
  lemma ReaderStepKeepsInv(ttl: nat, w: World, event: Event)
    requires Inv(w) && SerialStep(w, event)
    requires event.Get? || event.Load? || event.Put? || event.Tick?
    ensures Inv(Step(ttl, w, event))
  {
    var w' := Step(ttl, w, event);
    StepKeepsTruthful(ttl, w, event);
    ReaderStepFrame(ttl, w, event);
    ReadersAfterStep(ttl, w, event);
    WritersUnmoved(w, w');
    QuietKeepsCleared(w, w');
    forall u | u in w'.cache ensures EntryOk(w', u) {
      EntryAfterStep(ttl, w, event, u);
      if u in w.cache && w'.cache[u] == w.cache[u] { QuietKeepsEntry(w, w', u); }
      else {
        assert ReaderOk(w, w.readers[event.reader]);
        NewEntryOk(w, w', u);
      }
    }
  }

  lemma ReaderStepFrame(ttl: nat, w: World, event: Event)
    requires Started(w) && (event.Get? || event.Load? || event.Put? || event.Tick?)
    ensures
      var w' := Step(ttl, w, event);
      w'.history == w.history && w'.writers == w.writers && w'.cleared == w.cleared && w'.events == w.events + 1
  {
  }

  lemma ReadersAfterStep(ttl: nat, w: World, event: Event)
    requires Started(w) && SerialStep(w, event) && ReadersOk(w)
    requires event.Get? || event.Load? || event.Put? || event.Tick?
    ensures ReadersOk(Step(ttl, w, event))
  {
    var w' := Step(ttl, w, event);
    ReaderStepFrame(ttl, w, event);
    forall id | id in w'.readers ensures ReaderOk(w', w'.readers[id]) {
      ReaderAfterStep(ttl, w, event, id);
      if id in w.readers { assert ReaderOk(w, w.readers[id]); }
    }
  }

  lemma IdleKeepsInv(w: World, w': World)
    requires Inv(w) && Truthful(w') && w' == w.(events := w.events + 1)
    ensures Inv(w')
  {
    WritersUnmoved(w, w');
    QuietKeepsInv(w, w');
  }

  lemma NothingPending(w: World)
    requires forall id | id in w.writers :: w.writers[id].Captured?
    ensures forall c, u :: !Pending(w, c, u)
  {
  }

  lemma BeginKeepsInv(ttl: nat, w: World, event: Event)
    requires Inv(w) && SerialStep(w, event) && event.Begin?
    ensures Inv(Step(ttl, w, event))
  {
    var w' := Step(ttl, w, event);
    StepKeepsTruthful(ttl, w, event);
    if w'.writers == w.writers { IdleKeepsInv(w, w'); }
    else {
      BeginWriters(ttl, w, event);
      QuietKeepsInv(w, w');
    }
  }

  lemma BeginWriters(ttl: nat, w: World, event: Event)
    requires Started(w) && SerialStep(w, event) && event.Begin? && Step(ttl, w, event).writers != w.writers
    ensures WritersOk(Step(ttl, w, event)) && Quiet(w, Step(ttl, w, event))
    ensures Step(ttl, w, event).readers == w.readers && Step(ttl, w, event).cache == w.cache
  {
  }

  lemma CommitKeepsInv(ttl: nat, w: World, event: Event)
    requires Inv(w) && event.Commit?
    ensures Inv(Step(ttl, w, event))
  {
    var id := event.writer;
    StepKeepsTruthful(ttl, w, event);
    if id in w.writers && w.writers[id].Captured? {
      NothingPending(w);
      CommitGoesThrough(ttl, w, id);
      if Abandons(Current(w), w.writers[id].m) {
        AbandonedKeepsInv(w, Step(ttl, w, event), id);
      } else {
        CommittedKeepsInv(w, id);
      }
    } else {
      IdleKeepsInv(w, Step(ttl, w, event));
    }
  }

  // The call failed before it changed anything.
  lemma AbandonedKeepsInv(w: World, w': World, id: nat)
    requires Inv(w) && id in w.writers && w' == w.(writers := w.writers - {id}, events := w.events + 1) && Truthful(w')
    requires forall c, u :: !Pending(w, c, u)
    ensures Inv(w')
  {
    assert w'.writers == map[];
    QuietKeepsInv(w, w');
  }

  lemma AppliedVersionOk(t: Tables, since: int, invalidated: set<nat>, m: Mutation, now: int)
    requires Rbac.Valid(t)
    ensures Rbac.Valid(Apply(t, m).tables)
    ensures VersionOk(Version(t, since, invalidated), Version(Apply(t, m).tables, now, Apply(t, m).invalidated))
  {
    ApplyKeepsValid(t, m);
    forall u | u in t.drawn && Join(t, u) != Join(Apply(t, m).tables, u) ensures u in Apply(t, m).invalidated {
      InvalidationCoversChange(t, m, u);
    }
    DrawnGrows(t, m);
  }

  // w' has one more version, x, whose invalidations are all pending; nothing was pending before.
  ghost predicate Grows(w: World, w': World, x: Version) {
    && |w.history| > 0 && w'.history == w.history + [x] && w'.cleared == w.cleared && w'.events == w.events + 1
    && w'.cache == w.cache && w'.readers == w.readers
    && (forall c, u :: !Pending(w, c, u))
    && (forall u | u in x.invalidated :: Pending(w', |w.history|, u))
  }

  lemma GrowthKeepsVersions(h: seq<Version>, x: Version)
    requires |h| > 0 && VersionsOk(h) && Rbac.Valid(x.tables) && VersionOk(h[|h| - 1], x)
    ensures VersionsOk(h + [x])
  {
    forall v: nat ensures VersionStepOk(h + [x], v) { assert VersionStepOk(h, v); }
  }

  lemma GrowthKeepsCleared(w: World, w': World, x: Version)
    requires Grows(w, w', x) && ClearedOk(w)
    ensures ClearedOk(w')
  {
    forall c, u | 0 < c < |w'.history| && u in w'.history[c].invalidated ensures Settled(w', c, u) {
      if c < |w.history| { assert w'.history[c] == w.history[c] && Settled(w, c, u); }
    }
  }

  lemma GrowthKeepsEntry(w: World, w': World, x: Version, u: nat)
    requires Grows(w, w', x) && u in w.cache && EntryOk(w, u)
    ensures EntryOk(w', u)
  {
    assert w'.history[w.cache[u].version] == w.history[w.cache[u].version];
    forall c | w'.cache[u].version < c < |w'.history| && u in w'.history[c].invalidated
      ensures Covered(w', c, u)
    {
      if c < |w.history| { assert w'.history[c] == w.history[c] && Covered(w, c, u); }
    }
  }

  lemma GrowthKeepsEntries(w: World, w': World, x: Version)
    requires Grows(w, w', x) && EntriesOk(w)
    ensures EntriesOk(w')
  {
    forall u | u in w'.cache ensures EntryOk(w', u) {
      assert EntryOk(w, u);
      GrowthKeepsEntry(w, w', x, u);
    }
  }

  // What a commit that goes through does to the world.
  ghost function CommittedWorld(w: World, id: nat): World
    requires Started(w) && id in w.writers && w.writers[id].Captured?
  {
    var e := Apply(Current(w), w.writers[id].m);
    w.(history := w.history + [Version(e.tables, w.now, e.invalidated)],
       writers := w.writers[id := AfterCommit(w.writers[id].m, w.writers[id].users, |w.history|, e)],
       events := w.events + 1)
  }

  lemma CommitGoesThrough(ttl: nat, w: World, id: nat)
    requires Started(w) && id in w.writers && w.writers[id].Captured?
    ensures
      if Abandons(Current(w), w.writers[id].m)
      then Step(ttl, w, Commit(id)) == w.(writers := w.writers - {id}, events := w.events + 1)
      else Step(ttl, w, Commit(id)) == CommittedWorld(w, id)
  {
  }

  lemma CommittedKeepsInv(w: World, id: nat)
    requires Inv(w) && id in w.writers && w.writers[id].Captured? && Truthful(CommittedWorld(w, id))
    requires !Abandons(Current(w), w.writers[id].m)
    requires forall c, u :: !Pending(w, c, u)
    ensures Inv(CommittedWorld(w, id))
  {
    var w' := CommittedWorld(w, id);
    var x := w'.history[|w.history|];
    CommittedOwes(w, id);
    CommittedVersionsOk(w, id);
    GrowthKeepsCleared(w, w', x);
    GrowthKeepsEntries(w, w', x);
    SameReadersOk(w, w');
  }

  lemma CommittedVersionsOk(w: World, id: nat)
    requires Started(w) && VersionsOk(w.history) && id in w.writers && w.writers[id].Captured?
    ensures VersionsOk(CommittedWorld(w, id).history)
    ensures Current(w).drawn <= Current(CommittedWorld(w, id)).drawn
  {
    var m := w.writers[id].m;
    AppliedVersionOk(Current(w), w.history[Last(w)].since, w.history[Last(w)].invalidated, m, w.now);
    GrowthKeepsVersions(w.history, Version(Apply(Current(w), m).tables, w.now, Apply(Current(w), m).invalidated));
  }

  // Right after its commit the call owes exactly the invalidations of the version it committed.
  lemma CommittedOwes(w: World, id: nat)
    requires Started(w) && WritersOk(w) && id in w.writers && w.writers[id].Captured?
    requires !Abandons(Current(w), w.writers[id].m)
    requires forall c, u :: !Pending(w, c, u)
    ensures
      var w' := CommittedWorld(w, id);
      WritersOk(w') && Grows(w, w', w'.history[|w.history|])
  {
    var w' := CommittedWorld(w, id);
    assert WriterOk(w, w.writers[id]);
    forall u | u in w'.history[|w.history|].invalidated ensures Pending(w', |w.history|, u) {
      assert PendingIn(w'.writers[id], |w.history|, u);
    }
    forall a | a in w'.writers ensures WriterOk(w', w'.writers[a]) { assert a == id; }
  }

  lemma CaptureKeepsInv(ttl: nat, w: World, event: Event)
    requires Inv(w) && (event.Capture? || event.Finish?)
    ensures Inv(Step(ttl, w, event))
  {
    var w' := Step(ttl, w, event);
    StepKeepsTruthful(ttl, w, event);
    WritersAfterCapture(ttl, w, event);
    QuietKeepsInv(w, w');
  }

  lemma WritersAfterCapture(ttl: nat, w: World, event: Event)
    requires Started(w) && WritersOk(w) && (event.Capture? || event.Finish?)
    ensures WritersOk(Step(ttl, w, event)) && Quiet(w, Step(ttl, w, event))
  {
    var w', id := Step(ttl, w, event), event.writer;
    if id in w.writers { assert WriterOk(w, w.writers[id]); }
    forall c, u | 0 < c < |w.history| && u in w.history[c].invalidated && Pending(w, c, u) ensures Pending(w', c, u) {
      var a :| a in w.writers && PendingIn(w.writers[a], c, u);
      assert WriterOk(w, w.writers[a]);
      assert a in w'.writers && PendingIn(w'.writers[a], c, u);
    }
    forall a | a in w'.writers ensures WriterOk(w', w'.writers[a]) { assert WriterOk(w, w.writers[a]); }
  }

  // Deleting the key of x pays version c's debt for x, and no other.
  ghost predicate Pays(w: World, w': World, c: nat, x: nat) {
    && w'.history == w.history && w'.readers == w.readers && w'.events == w.events + 1
    && w'.cache == w.cache - {x} && w'.cleared == w.cleared[(c, x) := w.events]
    && forall d: nat, u: nat | Pending(w, d, u) && !(d == c && u == x) :: Pending(w', d, u)
  }

  lemma DelKeepsInv(ttl: nat, w: World, event: Event)
    requires Inv(w) && event.Del? && event.ok
    requires event.writer in w.writers && w.writers[event.writer].Clearing?
    requires event.user in w.writers[event.writer].todo
    ensures Inv(Step(ttl, w, event))
  {
    var w', c := Step(ttl, w, event), w.writers[event.writer].version;
    StepKeepsTruthful(ttl, w, event);
    DelPaysOneDebt(ttl, w, event);
    DelKeepsCleared(w, w', c, event.user);
    DelKeepsEntries(w, w', c, event.user);
    SameReadersOk(w, w');
  }

  lemma DelPaysOneDebt(ttl: nat, w: World, event: Event)
    requires Started(w) && WritersOk(w) && event.Del? && event.ok
    requires event.writer in w.writers && w.writers[event.writer].Clearing?
    requires event.user in w.writers[event.writer].todo
    ensures WritersOk(Step(ttl, w, event))
    ensures Pays(w, Step(ttl, w, event), w.writers[event.writer].version, event.user)
  {
    var w', id := Step(ttl, w, event), event.writer;
    assert WriterOk(w, w.writers[id]);
    forall c: nat, u: nat | Pending(w, c, u) && !(c == w.writers[id].version && u == event.user)
      ensures Pending(w', c, u)
    {
      var a :| a in w.writers && PendingIn(w.writers[a], c, u);
      assert a == id && PendingIn(w'.writers[id], c, u);
    }
    forall a | a in w'.writers ensures WriterOk(w', w'.writers[a]) { assert WriterOk(w, w.writers[a]); }
  }

  lemma DelKeepsCleared(w: World, w': World, c: nat, x: nat)
    requires ClearedOk(w) && Pays(w, w', c, x)
    ensures ClearedOk(w')
  {
    forall d, u | 0 < d < |w'.history| && u in w'.history[d].invalidated ensures Settled(w', d, u) {
      assert Settled(w, d, u);
    }
  }

  // The entry itself is gone, so whatever is cached under the key later is set after the deletion.
  lemma DelKeepsEntries(w: World, w': World, c: nat, x: nat)
    requires EntriesOk(w) && Pays(w, w', c, x)
    ensures EntriesOk(w')
  {
    forall u | u in w'.cache ensures EntryOk(w', u) {
      assert EntryOk(w, u);
      forall d | w'.cache[u].version < d < |w'.history| && u in w'.history[d].invalidated ensures Covered(w', d, u) {
        assert Covered(w, d, u);
      }
    }
  }

  lemma StepKeepsInv(ttl: nat, w: World, event: Event)
    requires Inv(w) && SerialStep(w, event)
    ensures Inv(Step(ttl, w, event))
  {
    match event
    case Begin(_, _) => BeginKeepsInv(ttl, w, event);
    case Commit(_) => CommitKeepsInv(ttl, w, event);
    case Capture(_) => CaptureKeepsInv(ttl, w, event);
    case Finish(_) => CaptureKeepsInv(ttl, w, event);
    case Del(id, user, _) =>
      if id in w.writers && w.writers[id].Clearing? && user in w.writers[id].todo { DelKeepsInv(ttl, w, event); }
      else {
        StepKeepsTruthful(ttl, w, event);
        IdleKeepsInv(w, Step(ttl, w, event));
      }
    case _ => ReaderStepKeepsInv(ttl, w, event);
  }

  lemma {:induction false} RunKeepsInv(ttl: nat, w: World, events: seq<Event>)
    requires Inv(w) && SerialRun(ttl, w, events)
    ensures Inv(Run(ttl, w, events))
    decreases |events|
  {
    if |events| > 0 {
      RunKeepsInv(ttl, w, events[..|events| - 1]);
      StepKeepsInv(ttl, Run(ttl, w, events[..|events| - 1]), events[|events| - 1]);
    }
  }

  /******* Theorem *******/

  // A join that differs between two versions was changed by some commit in between.
  lemma {:induction false} ChangeBetween(h: seq<Version>, a: nat, b: nat, u: nat) returns (c: nat)
    requires a <= b < |h| && Join(h[a].tables, u) != Join(h[b].tables, u)
    ensures a < c <= b && Join(h[c - 1].tables, u) != Join(h[c].tables, u)
    decreases b - a
  {
    if Join(h[a].tables, u) != Join(h[a + 1].tables, u) { c := a + 1; } else { c := ChangeBetween(h, a + 1, b, u); }
  }

  lemma {:induction false} DrawnStays(h: seq<Version>, a: nat, b: nat)
    requires VersionsOk(h) && a <= b < |h|
    ensures h[a].tables.drawn <= h[b].tables.drawn
    decreases b - a
  {
    if a < b {
      DrawnStays(h, a, b - 1);
      assert VersionStepOk(h, b);
    }
  }

  // It had to invalidate the user.
  lemma ChangeHasCommit(h: seq<Version>, a: nat, b: nat, u: nat) returns (c: nat)
    requires VersionsOk(h) && a <= b < |h| && u in h[a].tables.drawn
    requires Join(h[a].tables, u) != Join(h[b].tables, u)
    ensures a < c <= b && u in h[c].invalidated
    ensures Join(h[c - 1].tables, u) != Join(h[c].tables, u)
  {
    c := ChangeBetween(h, a, b, u);
    DrawnStays(h, a, c - 1);
    ChangeIsOwed(h, c, u);
  }

  lemma ChangeIsOwed(h: seq<Version>, c: nat, u: nat)
    requires VersionsOk(h) && 0 < c < |h| && u in h[c - 1].tables.drawn
    requires Join(h[c - 1].tables, u) != Join(h[c].tables, u)
    ensures u in h[c].invalidated
  {
    assert VersionStepOk(h, c);
  }

  /**
   With one mutating call at a time and Redis deletes succeeding, an entry that disagrees with the join was loaded
   before some commit c that changed it, and either the call that made c has not yet deleted the key, or the entry
   was set after that deletion.
   */
  lemma StaleEntriesExplained(ttl: nat, t: Tables, start: int, events: seq<Event>, u: nat) returns (c: nat)
    requires Rbac.Valid(t) && SerialRun(ttl, Start(t, start), events)
    requires u in Run(ttl, Start(t, start), events).cache
    requires var w := Run(ttl, Start(t, start), events); w.cache[u].rules != Join(Current(w), u)
    ensures
      var w := Run(ttl, Start(t, start), events);
      && w.cache[u].version < c < |w.history|
      && w.cache[u].rules == Join(w.history[w.cache[u].version].tables, u)
      && Join(w.history[c - 1].tables, u) != Join(w.history[c].tables, u)
      && (Pending(w, c, u) || SetLate(w, c, u))
  {
    RunKeepsInv(ttl, Start(t, start), events);
    c := StaleEntryExplained(Run(ttl, Start(t, start), events), u);
  }

  lemma StaleEntryExplained(w: World, u: nat) returns (c: nat)
    requires Inv(w) && u in w.cache && w.cache[u].rules != Join(Current(w), u)
    ensures w.cache[u].version < c < |w.history|
    ensures w.cache[u].rules == Join(w.history[w.cache[u].version].tables, u)
    ensures Join(w.history[c - 1].tables, u) != Join(w.history[c].tables, u)
    ensures Covered(w, c, u)
  {
    assert EntryOk(w, u) && EntryTrue(w, u, w.cache[u]);
    c := ChangeHasCommit(w.history, w.cache[u].version, Last(w), u);
    assert Covered(w, c, u);
  }

  // Commit c changed the user's join.
  ghost predicate ChangedBy(w: World, c: nat, u: nat) {
    0 < c < |w.history| && Join(w.history[c - 1].tables, u) != Join(w.history[c].tables, u)
  }

  /** With no mutating call at work, only an entry set after its invalidation can be stale. */
  lemma QuiescentStaleMeansSetLate(ttl: nat, t: Tables, start: int, events: seq<Event>, u: nat)
    requires Rbac.Valid(t) && SerialRun(ttl, Start(t, start), events)
    requires Run(ttl, Start(t, start), events).writers == map[]
    requires u in Run(ttl, Start(t, start), events).cache
    requires var w := Run(ttl, Start(t, start), events); w.cache[u].rules != Join(Current(w), u)
    ensures
      var w := Run(ttl, Start(t, start), events);
      exists c :: w.cache[u].version < c < |w.history| && ChangedBy(w, c, u) && SetLate(w, c, u)
  {
    var c := StaleEntriesExplained(ttl, t, start, events, u);
    assert ChangedBy(Run(ttl, Start(t, start), events), c, u);
  }

  /******* The exception happens *******/

  lemma RunOneMore(ttl: nat, w: World, events: seq<Event>, event: Event)
    requires Started(w)
    ensures Run(ttl, w, events + [event]) == Step(ttl, Run(ttl, w, events), event)
    ensures SerialRun(ttl, w, events + [event]) <==>
            SerialRun(ttl, w, events) && SerialStep(Run(ttl, w, events), event)
  {
    assert (events + [event])[..|events|] == events;
  }

  ghost predicate OnlyClearing(w: World, t: Tables, users: set<nat>, r: Reader) {
    && |w.history| > 0 && Current(w) == t && w.cache == map[] && w.readers == map[0 := r]
    && w.writers.Keys == {0} && w.writers[0].Clearing? && w.writers[0].todo == users
  }

  lemma DelOne(ttl: nat, w: World, t: Tables, users: set<nat>, r: Reader, u: nat)
    requires OnlyClearing(w, t, users, r) && u in users
    ensures OnlyClearing(Step(ttl, w, Del(0, u, true)), t, users - {u}, r)
  {
  }

  // Delete every key the call still owes.
  lemma {:induction false} ClearAll(ttl: nat, w: World, events: seq<Event>, t: Tables, users: set<nat>, r: Reader)
    returns (more: seq<Event>)
    requires Started(w) && SerialRun(ttl, w, events) && OnlyClearing(Run(ttl, w, events), t, users, r)
    ensures SerialRun(ttl, w, more) && OnlyClearing(Run(ttl, w, more), t, {}, r)
    decreases |users|
  {
    if users == {} { more := events; }
    else {
      var u :| u in users;
      var after := Run(ttl, w, events);
      DelOne(ttl, after, t, users, r, u);
      RunOneMore(ttl, w, events, Del(0, u, true));
      more := ClearAll(ttl, w, events + [Del(0, u, true)], t, users - {u}, r);
    }
  }

  lemma BeginNext(ttl: nat, w: World, m: Mutation)
    requires Started(w) && w.writers == map[] && Apply(Current(w), m).tables != Current(w)
    ensures
      var b := Step(ttl, w, Begin(0, m));
      && b == w.(writers := b.writers, events := w.events + 1)
      && b.writers.Keys == {0} && b.writers[0].Captured? && b.writers[0].m == m
  {
  }

  lemma CommitNext(ttl: nat, w: World, m: Mutation)
    requires Started(w) && w.writers == map[] && Apply(Current(w), m).tables != Current(w)
    ensures
      var b := Step(ttl, w, Begin(0, m));
      && b.history == w.history && 0 in b.writers && b.writers[0].Captured? && b.writers[0].m == m
      && Step(ttl, b, Commit(0)) == CommittedWorld(b, 0)
      && Step(ttl, b, Commit(0)).cache == w.cache && Step(ttl, b, Commit(0)).readers == w.readers
      && Step(ttl, b, Commit(0)).writers.Keys == {0}
  {
    BeginNext(ttl, w, m);
    ChangeIsNotAbandoned(Current(w), m);
    CommitGoesThrough(ttl, Step(ttl, w, Begin(0, m)), 0);
  }

  lemma ChangeIsNotAbandoned(t: Tables, m: Mutation)
    requires Apply(t, m).tables != t
    ensures !Abandons(t, m)
  {
  }

  lemma PutLast(ttl: nat, w: World, t: Tables, u: nat, rules: set<Rule>, v: nat, at: int)
    requires OnlyClearing(w, t, {}, Loaded(u, rules, v, at))
    ensures
      var x := Step(ttl, Step(ttl, w, Finish(0)), Put(0, true));
      && Current(x) == t && x.writers == map[] && x.readers == map[] && u in x.cache && x.cache[u].rules == rules
      && x.cache[u].setAt == x.now
  {
    var f := Step(ttl, w, Finish(0));
    assert f.writers == map[];
  }

  lemma LoadFirst(ttl: nat, t: Tables, start: int, u: nat)
    ensures Step(ttl, Step(ttl, Start(t, start), Get(0, u, true)), Load(0))
            == Start(t, start).(events := 2, readers := map[0 := Loaded(u, Join(t, u), 0, start)])
  {
  }

  /**
   For every mutation that changes a user's join there is a serial run, all Redis commands succeeding, that ends
   with no call at work and the old rules cached: a reader loads before the commit and sets after the deletion.
   */
  lemma RaceLeavesStaleEntry(ttl: nat, t: Tables, start: int, m: Mutation, u: nat) returns (events: seq<Event>)
    requires u in t.drawn && Join(Apply(t, m).tables, u) != Join(t, u)
    ensures SerialRun(ttl, Start(t, start), events)
    ensures
      var w := Run(ttl, Start(t, start), events);
      && w.writers == map[] && w.readers == map[] && Current(w) == Apply(t, m).tables
      && u in w.cache && w.cache[u].rules == Join(t, u) && w.cache[u].rules != Join(Current(w), u)
      && (ttl > 0 ==> Cached(ttl, w, u))
  {
    var w0, r := Start(t, start), Loaded(u, Join(t, u), 0, start);
    events := RaceToCommit(ttl, t, start, m, u);
    events := ClearAll(ttl, w0, events, Apply(t, m).tables, Run(ttl, w0, events).writers[0].todo, r);
    PutLast(ttl, Run(ttl, w0, events), Apply(t, m).tables, u, Join(t, u), 0, start);
    events := Extend(ttl, w0, events, Finish(0));
    events := Extend(ttl, w0, events, Put(0, true));
  }

  lemma RaceToCommit(ttl: nat, t: Tables, start: int, m: Mutation, u: nat) returns (events: seq<Event>)
    requires u in t.drawn && Join(Apply(t, m).tables, u) != Join(t, u)
    ensures SerialRun(ttl, Start(t, start), events)
    ensures
      var w := Run(ttl, Start(t, start), events);
      && 0 in w.writers && w.writers[0].Clearing?
      && OnlyClearing(w, Apply(t, m).tables, w.writers[0].todo, Loaded(u, Join(t, u), 0, start))
  {
    var w0, r := Start(t, start), Loaded(u, Join(t, u), 0, start);
    var w := w0.(events := 2, readers := map[0 := r]);
    events := ReadersFirst(ttl, t, start, u);
    RaceWorld(ttl, w, t, m, u, r);
    events := Extend(ttl, w0, events, Begin(0, m));
    events := Extend(ttl, w0, events, Commit(0));
    if m.SetPermissions? { events := Extend(ttl, w0, events, Capture(0)); }
  }

  lemma ReadersFirst(ttl: nat, t: Tables, start: int, u: nat) returns (events: seq<Event>)
    requires u in t.drawn
    ensures SerialRun(ttl, Start(t, start), events)
    ensures Run(ttl, Start(t, start), events)
            == Start(t, start).(events := 2, readers := map[0 := Loaded(u, Join(t, u), 0, start)])
  {
    LoadFirst(ttl, t, start, u);
    events := Extend(ttl, Start(t, start), [], Get(0, u, true));
    events := Extend(ttl, Start(t, start), events, Load(0));
  }

  lemma RaceWorld(ttl: nat, w: World, t: Tables, m: Mutation, u: nat, r: Reader)
    requires Started(w) && w.writers == map[] && w.cache == map[] && w.readers == map[0 := r] && Current(w) == t
    requires Join(Apply(t, m).tables, u) != Join(t, u)
    ensures
      var x := Step(ttl, Step(ttl, w, Begin(0, m)), Commit(0));
      var y := if m.SetPermissions? then Step(ttl, x, Capture(0)) else x;
      && 0 in y.writers && y.writers[0].Clearing? && OnlyClearing(y, Apply(t, m).tables, y.writers[0].todo, r)
  {
    CommitNext(ttl, w, m);
    if m.SetPermissions? { CaptureNext(ttl, Step(ttl, Step(ttl, w, Begin(0, m)), Commit(0)), m); }
  }

  lemma CaptureNext(ttl: nat, w: World, m: Mutation)
    requires Started(w) && w.writers.Keys == {0} && w.writers[0].Committed? && w.writers[0].m == m && m.SetPermissions?
    ensures
      var x := Step(ttl, w, Capture(0));
      && x.writers.Keys == {0} && x.writers[0].Clearing?
      && x.history == w.history && x.cache == w.cache && x.readers == w.readers
  {
  }

  lemma Extend(ttl: nat, w: World, events: seq<Event>, event: Event) returns (more: seq<Event>)
    requires Started(w) && SerialRun(ttl, w, events) && SerialStep(Run(ttl, w, events), event)
    ensures SerialRun(ttl, w, more) && Run(ttl, w, more) == Step(ttl, Run(ttl, w, events), event)
  {
    more := events + [event];
    RunOneMore(ttl, w, events, event);
  }
}
